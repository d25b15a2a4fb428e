/** File systems on which Readlink() leaves its link stack non-empty, and what
    that does to later calls. */
module LinkStack {
  import opened Common
  import opened FileSystem
  import opened PathSpeller
  import opened Readlink

  function Slashes(n: nat): (s: string)
    ensures |s| == n && forall i | 0 <= i < n :: s[i] == '/'
  {
    seq(n, _ => '/')
  }

  /** "d", `n` slashes, and "m" */
  function LongText(n: nat): string {
    "d" + Slashes(n) + "m"
  }

  /**
   * In the current directory, `l` is a link to `m` in directory `d`, spelled
   * with `n` slashes, and that is a link with the text `t`.  `e` is a link to
   * the file `f`.
   */
  function Tree(n: nat, t: string): FS {
    FS(map[0 := Dir(map["." := 0, ".." := 0, "l" := 1, "d" := 2, "e" := 4, "f" := 5]), 1 := Link(LongText(n)),
           2 := Dir(map["." := 2, ".." := 0, "m" := 3, "f" := 5]), 3 := Link(t), 4 := Link("f"), 5 := Other], 0, 0)
  }

  /** Both texts are links a file system may hold, but one after the other is too long. */
  predicate Long(n: nat, t: string) {
    2 <= n <= MAXPATHLEN - 3 && 0 < |t| <= MAXPATHLEN && '\0' !in t && !Absolute(t) && n + |t| >= MAXPATHLEN
  }

  lemma LongExists()
    ensures Long(4000, "." + Slashes(200) + "f")
  {
  }

  lemma TreeIsWellFormed(n: nat, t: string)
    requires Long(n, t)
    ensures WellFormed(Tree(n, t))
  {
  }

  /** A name in the current directory */
  lemma NameInTree(n: nat, t: string, klim: nat, x: string)
    requires x in {"l", "d", "e", "f"}
    ensures SysReadlink(Tree(n, t), klim, x) ==
            if x == "l" then Some(LongText(n)) else if x == "e" then Some("f") else None
  {
    SplitName(x);
    assert [x][..0] == [];
    assert Walk(Tree(n, t), 0, [], klim) == Some(Found(0, klim));
  }

  /** A one-character name is one component. */
  lemma OneComponent(fs: FS, klim: nat, x: string)
    requires |x| == 1 && x[0] != '/'
    ensures Assemble(fs, klim, x, 0, "") == Extend(fs, klim, x, 0, 1, "") && x[..1] == x && x[0..1] == x
  {
    var r := Extend(fs, klim, x, 0, 1, "");
    assert SegmentEnd(x, 1) == 1;
    if r.Some? { assert Assemble(fs, klim, x, 1, r.value) == r; }
  }

  /** The first pass puts the long text in place of `l`. */
  lemma FirstPass(n: nat, t: string, klim: nat)
    requires Long(n, t)
    ensures Assemble(Tree(n, t), klim, "l", 0, "") == Some(LongText(n))
  {
    hide SysReadlink, Tree;
    OneComponent(Tree(n, t), klim, "l");
    NameInTree(n, t, klim, "l");
    assert "" + "" + LongText(n) == LongText(n);
  }

  /** A prefix of the long text that ends in a slash is no link. */
  lemma SlashIsNoLink(fs: FS, klim: nat, p: string)
    requires p != "" && p[|p| - 1] == '/'
    ensures SysReadlink(fs, klim, p).None?
  {
    var a := p[..|p| - 1];
    assert p == a + ['/'] + "";
    SplitCat(a, "");
    assert Split("") == [""];
    var xs := Split(p);
    assert xs[|xs| - 1] == "";
  }

  /** Slashes after `d` lead to `d`. */
  lemma {:induction false} WalkSlashes(n: nat, t: string, k: nat, i: nat)
    ensures Walk(Tree(n, t), 0, Split("d" + Slashes(i)), k) == Some(Found(2, k))
  {
    var fs := Tree(n, t);
    if i == 0 {
      assert "d" + Slashes(0) == "d";
      SplitName("d");
      assert ["d"][1..] == [] && fs.inodes[0].entries["d"] == 2;
      assert Walk(fs, 2, [], k) == Some(Found(2, k));
    } else {
      WalkSlashes(n, t, k, i - 1);
      assert "d" + Slashes(i) == "d" + Slashes(i - 1) + ['/'] + "";
      SplitCat("d" + Slashes(i - 1), "");
      WalkAppend(fs, 0, Split("d" + Slashes(i - 1)), [""], k);
      assert [""][1..] == [] && Walk(fs, 2, [], k) == Some(Found(2, k));
    }
  }

  /** The whole long text names the second link. */
  lemma LongIsLink(n: nat, t: string, klim: nat)
    requires n > 0
    ensures SysReadlink(Tree(n, t), klim, LongText(n)) == Some(t)
  {
    hide Split, Walk;
    var a := "d" + Slashes(n - 1);
    assert LongText(n) == a + ['/'] + "m";
    SplitCat(a, "m");
    SplitName("m");
    WalkSlashes(n, t, klim, n - 1);
    var xs := Split(LongText(n));
    assert xs == Split(a) + ["m"] && xs[|xs| - 1] == "m" && xs[..|xs| - 1] == Split(a);
  }

  lemma CopiesSlash(n: nat, t: string, klim: nat, pos: nat)
    requires Long(n, t) && 1 <= pos < n
    ensures var arg := LongText(n);
            Assemble(Tree(n, t), klim, arg, pos, arg[..pos]) == Assemble(Tree(n, t), klim, arg, pos + 1, arg[..pos + 1])
  {
    hide SysReadlink, Tree;
    var fs, arg := Tree(n, t), LongText(n);
    assert arg[pos] == '/' && arg[pos + 1] == '/' && SegmentEnd(arg, pos + 1) == pos + 1;
    SlashIsNoLink(fs, klim, arg[..pos + 1]);
    assert arg[pos..pos + 1] == "/" && arg[..pos] + "" + "/" == arg[..pos + 1];
    assert Append(arg, arg[..pos], "/", false) == Some(arg[..pos + 1]);
  }

  lemma FailsAtLink(n: nat, t: string, klim: nat)
    requires Long(n, t)
    ensures Assemble(Tree(n, t), klim, LongText(n), n, LongText(n)[..n]).None?
  {
    hide SysReadlink, Tree;
    var arg := LongText(n);
    assert arg[n + 1] == 'm' && SegmentEnd(arg, n + 2) == n + 2 && SegmentEnd(arg, n + 1) == n + 2;
    assert arg[..n + 2] == arg && arg[..n][n - 1] == '/';
    LongIsLink(n, t, klim);
  }

  /** The second pass copies `d` and the slashes, and then fails. */
  lemma {:induction false} SecondPassFrom(n: nat, t: string, klim: nat, pos: nat)
    requires Long(n, t) && 1 <= pos <= n
    ensures Assemble(Tree(n, t), klim, LongText(n), pos, LongText(n)[..pos]).None?
    decreases n - pos
  {
    hide Assemble, Tree;
    if pos < n {
      CopiesSlash(n, t, klim, pos);
      SecondPassFrom(n, t, klim, pos + 1);
    } else {
      FailsAtLink(n, t, klim);
    }
  }

  lemma SecondPass(n: nat, t: string, klim: nat)
    requires Long(n, t)
    ensures Assemble(Tree(n, t), klim, LongText(n), 0, "").None?
  {
    hide SysReadlink, Tree;
    var fs, arg := Tree(n, t), LongText(n);
    NameInTree(n, t, klim, "d");
    assert arg[1] == '/' && SegmentEnd(arg, 1) == 1;
    assert arg[..1] == "d" && arg[0..1] == "d" && "" + "" + "d" == "d";
    SecondPassFrom(n, t, klim, 1);
  }

  /** Each call on `l` fails and leaves one spelling more, while there is room. */
  lemma OneLeft(n: nat, t: string, klim: nat, sx: nat)
    requires Long(n, t) && sx < MAXSYMLINKS
    ensures Spell(Tree(n, t), klim, "l", sx).TooLong? && Stacked(Tree(n, t), klim, "l", sx) == [LongText(n)]
  {
    hide Assemble, Tree;
    FirstPass(n, t, klim);
    SecondPass(n, t, klim);
  }

  /** `e` denotes the file `f` over one link and is spelled so from an empty stack. */
  lemma ShortLink(n: nat, t: string, klim: nat)
    requires Long(n, t)
    ensures var fs := Tree(n, t);
            && Meaning(fs, "e") == Some(Found(5, 1)) && Meaning(fs, "f") == Some(Found(5, 0))
            && Spell(fs, klim, "e", 0) == Spelled("f") && Stacked(fs, klim, "e", 0) == ["f"]
  {
    var fs := Tree(n, t);
    SplitName("e");
    SplitName("f");
    assert ["e"][1..] == [] && ["f"][1..] == [] && ["f"] + [] == ["f"];
    assert Walk(fs, 5, [], 0) == Some(Found(5, 0)) && Walk(fs, 0, ["f"], 0) == Some(Found(5, 0));
    assert Walk(fs, 0, ["e"], 1) == Walk(fs, 0, ["f"], 0);
    DenIs(fs, 0, ["f"], 0);
    DenIs(fs, 0, ["e"], 1);
    NameInTree(n, t, klim, "e");
    NameInTree(n, t, klim, "f");
    OneComponent(fs, klim, "e");
    OneComponent(fs, klim, "f");
    assert "" + "" + "f" == "f";
  }

  /**
   * MAXSYMLINKS calls whose path is too long, each leaving a spelling, and the
   * next call refuses a path over a single link that an earlier call spelled.
   */
  method Refuses(n: nat, t: string, klim: nat) returns (before: Outcome, after: Outcome)
    requires Long(n, t)
    ensures Meaning(Tree(n, t), "e") == Some(Found(5, 1))
    ensures before == Spelled("f") && after == TooManyLinks
  {
    TreeIsWellFormed(n, t);
    ShortLink(n, t, klim);
    hide Tree, Assemble, Spell, Stacked, Nth, Passes;
    var speller := new Speller(Tree(n, t), klim);
    before := speller.Spell("e");
    var i := 0;
    while i < MAXSYMLINKS
      invariant 0 <= i <= MAXSYMLINKS && |speller.stk| == i && speller.Valid()
      invariant fresh(speller) && speller.fs == Tree(n, t) && speller.klim == klim
    {
      OneLeft(n, t, klim, i);
      var r := speller.Spell("l");
      i := i + 1;
    }
    StaleCosts(Tree(n, t), klim, "e", 0, MAXSYMLINKS);
    after := speller.Spell("e");
  }
}
