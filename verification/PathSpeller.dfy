/** Readlink(): respells a path by putting symbolic-link text in place of its
    components, pass after pass, until a pass changes nothing. */
module PathSpeller {
  import opened Common
  import opened FileSystem

  type Positive = n: nat | n > 0 witness 32

  /** The limit of the platform, or 32 where it has none */
  const MAXSYMLINKS: Positive

  /** What file systems promise of link texts: none is empty, longer than a
      path may be, or holds a NUL. */
  predicate WellFormed(fs: FS) {
    forall n | n in fs.inodes && fs.inodes[n].Link? ::
      var t := fs.inodes[n].text; 0 < |t| <= MAXPATHLEN && '\0' !in t
  }

  /** readlink(2) on a system that gives up after `klim` links. */
  function SysReadlink(fs: FS, klim: nat, p: string): Option<string> {
    var xs := Split(p);
    var x := xs[|xs| - 1];
    match Walk(fs, Base(fs, fs.cwd, p), xs[..|xs| - 1], klim)
    case None => None
    case Some(Found(d, _)) =>
      if x != "" && IsDir(fs, d) && x in fs.inodes[d].entries && IsLink(fs, fs.inodes[d].entries[x])
      then Some(fs.inodes[fs.inodes[d].entries[x]].text)
      else None
  }

  /** The first slash from `i` on, or the end: where a component that was
      entered before `i` ends, since its own slash leads it. */
  function SegmentEnd(arg: string, i: nat): (e: nat)
    requires i <= |arg|
    ensures i <= e <= |arg| && (e < |arg| ==> arg[e] == '/') && '/' !in arg[i..e]
    decreases |arg| - i
  {
    if i == |arg| || arg[i] == '/' then i else SegmentEnd(arg, i + 1)
  }

  predicate NeedsSlash(arg: string, abuf: string, piece: string, isLink: bool)
    requires arg != ""
  {
    !Absolute(piece) && if abuf != "" then abuf[|abuf| - 1] != '/' else isLink && Absolute(arg)
  }

  /** Adds a piece to the assembly; fails when it would not fit the buffer. */
  function Append(arg: string, abuf: string, piece: string, isLink: bool): (r: Option<string>)
    requires arg != ""
    ensures r.Some? && piece != "" ==> 0 < |r.value| < MAXPATHLEN
  {
    var sl := if NeedsSlash(arg, abuf, piece, isLink) then "/" else "";
    if |abuf| + |piece| + |sl| >= MAXPATHLEN then None else Some(abuf + sl + piece)
  }

  /** One turn of the component loop, on the component `arg[pos..end]`. */
  function Extend(fs: FS, klim: nat, arg: string, pos: nat, end: nat, abuf: string): Option<string>
    requires pos < end <= |arg|
  {
    if end > MAXPATHLEN then None
    else match SysReadlink(fs, klim, arg[..end])
      case None => Append(arg, abuf, arg[pos..end], false)
      case Some(t) => if Absolute(t) then Some(t) else Append(arg, abuf, t, true)
  }

  /** The rest of an assembly pass, from component start `pos`. */
  function Assemble(fs: FS, klim: nat, arg: string, pos: nat, abuf: string): Option<string>
    requires pos <= |arg|
    decreases |arg| - pos
  {
    if pos == |arg| then Some(abuf)
    else
      var end := SegmentEnd(arg, pos + 1);
      match Extend(fs, klim, arg, pos, end, abuf)
      case None => None
      case Some(abuf') => Assemble(fs, klim, arg, end, abuf')
  }

  /** How a call ends: the final spelling, or one of the two reasons for none. */
  datatype Outcome = Spelled(path: string) | TooLong | TooManyLinks

  /** Readlink() when `sx` spellings are already stacked. */
  function Spell(fs: FS, klim: nat, arg: string, sx: nat): Outcome
    requires sx <= MAXSYMLINKS
    decreases MAXSYMLINKS - sx
  {
    match Assemble(fs, klim, arg, 0, "")
    case None => TooLong
    case Some(a) =>
      if a == arg then Spelled(arg)
      else if sx >= MAXSYMLINKS then TooManyLinks
      else Spell(fs, klim, a, sx + 1)
  }

  // ----- Every pass keeps the meaning -----

  /** `b` is the same answer as `a`, reached with at least `s` links fewer. */
  ghost predicate Saves(a: Option<Found>, b: Option<Found>, s: nat) {
    match (a, b)
    case (None, None) => true
    case (Some(Found(n, c)), Some(Found(n', c'))) => n == n' && c' + s <= c
    case _ => false
  }

  /** The node that the argument's first `pos` characters lead to. */
  ghost function PrefixMeaning(fs: FS, arg: string, pos: nat): Option<Found>
    requires pos <= |arg|
  {
    if pos == 0 then Some(Found(Base(fs, fs.cwd, arg), 0)) else Meaning(fs, arg[..pos])
  }

  ghost function AssemblyMeaning(fs: FS, arg: string, abuf: string): Option<Found> {
    if abuf == "" then Some(Found(Base(fs, fs.cwd, arg), 0)) else Meaning(fs, abuf)
  }

  /** The assembly resolves as the argument prefix read so far, `s` links sooner. */
  ghost predicate Invariant(fs: FS, arg: string, pos: nat, abuf: string, s: nat)
    requires pos <= |arg|
  {
    (pos == 0 <==> abuf == "") && (0 < pos < |arg| ==> arg[pos] == '/') &&
    Saves(PrefixMeaning(fs, arg, pos), AssemblyMeaning(fs, arg, abuf), s)
  }

  /** The component's name, without the slash that leads it. */
  function NameAt(arg: string, pos: nat, end: nat): string
    requires pos < end <= |arg|
  {
    if arg[pos] == '/' then arg[pos + 1..end] else arg[pos..end]
  }

  lemma SegmentMeaning(fs: FS, arg: string, pos: nat, end: nat)
    requires pos < |arg| && end == SegmentEnd(arg, pos + 1) && (pos > 0 ==> arg[pos] == '/')
    ensures var x := NameAt(arg, pos, end);
            var xs := Split(arg[..end]);
            && xs[|xs| - 1] == x
            && Meaning(fs, arg[..end]) == Then(fs, PrefixMeaning(fs, arg, pos), [x])
            && Den(fs, Base(fs, fs.cwd, arg), xs[..|xs| - 1]) ==
               if pos > 0 then PrefixMeaning(fs, arg, pos)
               else Den(fs, Base(fs, fs.cwd, arg), if Absolute(arg) then [""] else [])
  {
    var x := NameAt(arg, pos, end);
    var b := Base(fs, fs.cwd, arg);
    SplitName(x);
    if arg[pos] == '/' {
      assert arg[..end] == arg[..pos] + ['/'] + x;
      SplitCat(arg[..pos], x);
      if pos == 0 {
        DenSlash(fs, b, [x]);
      } else {
        DenAppend(fs, b, Split(arg[..pos]), [x]);
      }
    } else {
      assert arg[..end] == x;
    }
  }

  /** A link that readlink(2) reports sits in the directory the prefix denotes. */
  lemma LinkMeaning(fs: FS, klim: nat, arg: string, pos: nat, end: nat)
    requires pos < |arg| && end == SegmentEnd(arg, pos + 1) && (pos > 0 ==> arg[pos] == '/')
    requires SysReadlink(fs, klim, arg[..end]).Some?
    ensures PrefixMeaning(fs, arg, pos).Some?
    ensures var t := SysReadlink(fs, klim, arg[..end]).value;
            var Found(d, c) := PrefixMeaning(fs, arg, pos).value;
            Meaning(fs, arg[..end]) == AddLinks(Den(fs, Base(fs, d, t), Split(t)), c + 1)
  {
    hide Den, Walk, Split, SysReadlink, SegmentEnd, NameAt, PrefixMeaning, Meaning, Then, AddLinks, IsDir, IsLink;
    var d := LinkDirectory(fs, klim, arg[..end]);
    assert Base(fs, fs.cwd, arg[..end]) == Base(fs, fs.cwd, arg);
    SegmentMeaning(fs, arg, pos, end);
    PrefixLeadsThere(fs, arg, pos, end);
    ThenLink(fs, PrefixMeaning(fs, arg, pos), NameAt(arg, pos, end));
  }

  /** A walk that goes on over a link goes on over its text. */
  lemma ThenLink(fs: FS, a: Option<Found>, x: string)
    requires a.Some? && IsDir(fs, a.value.node)
    requires x != "" && x in fs.inodes[a.value.node].entries && IsLink(fs, fs.inodes[a.value.node].entries[x])
    ensures var t := fs.inodes[fs.inodes[a.value.node].entries[x]].text;
            Then(fs, a, [x]) == AddLinks(Den(fs, Base(fs, a.value.node, t), Split(t)), a.value.links + 1)
  {
    hide Den, Split;
    DenLink(fs, a.value.node, x);
  }

  /** The components before the last one lead where the prefix leads. */
  lemma PrefixLeadsThere(fs: FS, arg: string, pos: nat, end: nat)
    requires pos < |arg| && end == SegmentEnd(arg, pos + 1) && (pos > 0 ==> arg[pos] == '/')
    ensures var xs := Split(arg[..end]);
            Den(fs, Base(fs, fs.cwd, arg), xs[..|xs| - 1]).Some? ==>
              PrefixMeaning(fs, arg, pos) == Den(fs, Base(fs, fs.cwd, arg), xs[..|xs| - 1])
  {
    hide Den, Walk, Split, SegmentEnd, NameAt;
    SegmentMeaning(fs, arg, pos, end);
    if pos == 0 { DenLeadingSlash(fs, Base(fs, fs.cwd, arg), Absolute(arg)); }
  }

  lemma LinkDirectory(fs: FS, klim: nat, p: string) returns (d: nat)
    requires SysReadlink(fs, klim, p).Some?
    ensures var xs := Split(p); var x := xs[|xs| - 1];
            && Den(fs, Base(fs, fs.cwd, p), xs[..|xs| - 1]).Some?
            && Den(fs, Base(fs, fs.cwd, p), xs[..|xs| - 1]).value.node == d
            && x != "" && IsDir(fs, d) && x in fs.inodes[d].entries && IsLink(fs, fs.inodes[d].entries[x])
            && SysReadlink(fs, klim, p) == Some(fs.inodes[fs.inodes[d].entries[x]].text)
  {
    var xs := Split(p);
    d := Walk(fs, Base(fs, fs.cwd, p), xs[..|xs| - 1], klim).value.node;
    DenIs(fs, Base(fs, fs.cwd, p), xs[..|xs| - 1], klim);
  }

  lemma DenLeadingSlash(fs: FS, d: nat, slash: bool)
    ensures var r := Den(fs, d, if slash then [""] else []);
            if IsDir(fs, d) || !slash then r == Some(Found(d, 0)) else r == None
  {
    if IsDir(fs, d) || !slash { DenIs(fs, d, if slash then [""] else [], 0); }
  }

  /** Appending relative link text continues the resolution from the assembly. */
  lemma AppendLink(fs: FS, arg: string, abuf: string, t: string)
    requires arg != "" && t != "" && !Absolute(t) && Append(arg, abuf, t, true).Some?
    ensures Meaning(fs, Append(arg, abuf, t, true).value) == Then(fs, AssemblyMeaning(fs, arg, abuf), Split(t))
  {
    var r, n := Append(arg, abuf, t, true).value, |abuf|;
    if abuf == "" {
      DenLeadingSlash(fs, Base(fs, fs.cwd, arg), false);
      if Absolute(arg) {
        assert r == "" + ['/'] + t;
        SplitCat("", t);
        DenSlash(fs, Base(fs, fs.cwd, arg), Split(t));
      } else {
        assert r == t;
      }
    } else if abuf[n - 1] == '/' {
      assert abuf == abuf[..n - 1] + ['/'] && r == abuf[..n - 1] + ['/'] + t;
      SlashThen(fs, abuf[..n - 1], t);
    } else {
      assert r == abuf + ['/'] + t;
      SplitCat(abuf, t);
      DenAppend(fs, Base(fs, fs.cwd, abuf), Split(abuf), Split(t));
    }
  }

  lemma SlashThen(fs: FS, a: string, t: string)
    ensures Meaning(fs, a + ['/'] + t) == Then(fs, Meaning(fs, a + ['/']), Split(t))
  {
    assert a + ['/'] + "" == a + ['/'];
    SplitCat(a, "");
    SplitCat(a, t);
    DenSlashThen(fs, Base(fs, fs.cwd, a + ['/']), Split(a), Split(t));
  }

  lemma DenSlashThen(fs: FS, b: nat, xs: seq<string>, ys: seq<string>)
    requires ys != []
    ensures Den(fs, b, xs + ys) == Then(fs, Den(fs, b, xs + [""]), ys)
  {
    DenAppend(fs, b, xs + [""], ys);
    assert xs + [""] + ys == xs + ([""] + ys);
    DenAppend(fs, b, xs, [""] + ys);
    DenAppend(fs, b, xs, ys);
    if Den(fs, b, xs).Some? { DenSlash(fs, Den(fs, b, xs).value.node, ys); }
  }

  /** Copying a plain component continues the resolution likewise. */
  lemma AppendName(fs: FS, arg: string, abuf: string, x: string)
    requires arg != "" && abuf != "" && '/' !in x && Append(arg, abuf, ['/'] + x, false).Some?
    ensures Meaning(fs, Append(arg, abuf, ['/'] + x, false).value) == Then(fs, Meaning(fs, abuf), [x])
  {
    assert Append(arg, abuf, ['/'] + x, false).value == abuf + ['/'] + x;
    SplitCat(abuf, x);
    SplitName(x);
    DenAppend(fs, Base(fs, fs.cwd, abuf), Split(abuf), [x]);
  }

  lemma LinkTextFits(fs: FS, klim: nat, p: string)
    requires WellFormed(fs) && SysReadlink(fs, klim, p).Some?
    ensures var t := SysReadlink(fs, klim, p).value; 0 < |t| <= MAXPATHLEN && '\0' !in t
  {
  }

  lemma ExtendKeeps(fs: FS, klim: nat, arg: string, pos: nat, end: nat, abuf: string, s: nat)
    requires WellFormed(fs)
    requires pos < |arg| && end == SegmentEnd(arg, pos + 1) && Invariant(fs, arg, pos, abuf, s)
    requires Extend(fs, klim, arg, pos, end, abuf).Some?
    ensures var link := SysReadlink(fs, klim, arg[..end]).Some?;
            Invariant(fs, arg, end, Extend(fs, klim, arg, pos, end, abuf).value, if link then s + 1 else s)
  {
    hide Den, Walk, Split, SysReadlink, SegmentEnd;
    SegmentMeaning(fs, arg, pos, end);
    match SysReadlink(fs, klim, arg[..end])
    case None =>
      var x := NameAt(arg, pos, end);
      if pos > 0 {
        assert arg[pos..end] == ['/'] + x;
        AppendName(fs, arg, abuf, x);
      } else {
        assert "" + "" + arg[pos..end] == arg[..end];
      }
    case Some(t) =>
      LinkMeaning(fs, klim, arg, pos, end);
      LinkTextFits(fs, klim, arg[..end]);
      if !Absolute(t) { AppendLink(fs, arg, abuf, t); }
  }

  /** How many components of the argument, from `pos` on, a pass finds to be links. */
  function LinksMet(fs: FS, klim: nat, arg: string, pos: nat): nat
    requires pos <= |arg|
    decreases |arg| - pos
  {
    if pos == |arg| then 0
    else
      var end := SegmentEnd(arg, pos + 1);
      (if SysReadlink(fs, klim, arg[..end]).Some? then 1 else 0) + LinksMet(fs, klim, arg, end)
  }

  lemma {:induction false} AssembleKeeps(fs: FS, klim: nat, arg: string, pos: nat, abuf: string, s: nat)
    requires WellFormed(fs) && pos <= |arg| && Invariant(fs, arg, pos, abuf, s)
    requires Assemble(fs, klim, arg, pos, abuf).Some?
    ensures Invariant(fs, arg, |arg|, Assemble(fs, klim, arg, pos, abuf).value, s + LinksMet(fs, klim, arg, pos))
    decreases |arg| - pos
  {
    if pos < |arg| {
      var end := SegmentEnd(arg, pos + 1);
      ExtendKeeps(fs, klim, arg, pos, end, abuf, s);
      AssembleKeeps(fs, klim, arg, end, Extend(fs, klim, arg, pos, end, abuf).value,
                    if SysReadlink(fs, klim, arg[..end]).Some? then s + 1 else s);
    }
  }

  /** One whole pass keeps the file and sheds every link it met. */
  lemma PassKeepsMeaning(fs: FS, klim: nat, arg: string)
    requires WellFormed(fs) && arg != "" && Assemble(fs, klim, arg, 0, "").Some?
    ensures var a := Assemble(fs, klim, arg, 0, "").value;
            a != "" && Saves(Meaning(fs, arg), Meaning(fs, a), LinksMet(fs, klim, arg, 0))
  {
    AssembleKeeps(fs, klim, arg, 0, "", 0);
    assert arg[..|arg|] == arg;
  }

  /** A pass that meets no link is a plain copy. */
  lemma {:induction false} NoLinksCopies(fs: FS, klim: nat, arg: string, pos: nat)
    requires pos <= |arg| && (0 < pos < |arg| ==> arg[pos] == '/')
    requires LinksMet(fs, klim, arg, pos) == 0 && Assemble(fs, klim, arg, pos, arg[..pos]).Some?
    ensures Assemble(fs, klim, arg, pos, arg[..pos]) == Some(arg)
    decreases |arg| - pos
  {
    if pos == |arg| {
      assert arg[..pos] == arg;
    } else {
      var end := SegmentEnd(arg, pos + 1);
      assert arg[..pos] + "" + arg[pos..end] == arg[..end];
      NoLinksCopies(fs, klim, arg, end);
    }
  }

  /** A path that resolves and in which no pass meets a link follows no link at all. */
  lemma {:induction false} NoLinksFollowsNone(fs: FS, klim: nat, arg: string, pos: nat)
    requires pos <= |arg| && (0 < pos < |arg| ==> arg[pos] == '/') && LinksMet(fs, klim, arg, pos) == 0
    requires PrefixMeaning(fs, arg, pos).Some? && PrefixMeaning(fs, arg, pos).value.links == 0
    requires PrefixMeaning(fs, arg, |arg|).Some?
    ensures PrefixMeaning(fs, arg, |arg|).value.links == 0
    decreases |arg| - pos
  {
    if pos < |arg| {
      var end := SegmentEnd(arg, pos + 1);
      PrefixResolves(fs, arg, end);
      SegmentFollowsNone(fs, klim, arg, pos, end);
      NoLinksFollowsNone(fs, klim, arg, end);
    }
  }

  /** Every slash-ended prefix of a path that resolves does so too. */
  lemma PrefixResolves(fs: FS, arg: string, end: nat)
    requires 0 < end <= |arg| && (end < |arg| ==> arg[end] == '/') && Meaning(fs, arg[..|arg|]).Some?
    ensures Meaning(fs, arg[..end]).Some?
  {
    if end < |arg| {
      assert arg[..|arg|] == arg[..end] + ['/'] + arg[end + 1..];
      SplitCat(arg[..end], arg[end + 1..]);
      DenAppend(fs, Base(fs, fs.cwd, arg), Split(arg[..end]), Split(arg[end + 1..]));
    }
  }

  lemma SegmentFollowsNone(fs: FS, klim: nat, arg: string, pos: nat, end: nat)
    requires pos < |arg| && end == SegmentEnd(arg, pos + 1) && (pos > 0 ==> arg[pos] == '/')
    requires SysReadlink(fs, klim, arg[..end]).None? && Meaning(fs, arg[..end]).Some?
    requires PrefixMeaning(fs, arg, pos).Some? && PrefixMeaning(fs, arg, pos).value.links == 0
    ensures Meaning(fs, arg[..end]).value.links == 0
  {
    hide Den, Split, Walk, SegmentEnd, SysReadlink, NameAt, LinkAt;
    var xs, b, x := Split(arg[..end]), Base(fs, fs.cwd, arg), NameAt(arg, pos, end);
    var d := PrefixMeaning(fs, arg, pos).value.node;
    SegmentMeaning(fs, arg, pos, end);
    assert Base(fs, fs.cwd, arg[..end]) == b;
    DenNeedsDir(fs, d, x);
    assert Den(fs, b, xs[..|xs| - 1]) == PrefixMeaning(fs, arg, pos) by {
      if pos == 0 { DenLeadingSlash(fs, b, Absolute(arg)); }
    }
    FreeWalk(fs, b, xs[..|xs| - 1], klim);
    NotLinked(fs, klim, arg[..end]);
    NameFollowsNone(fs, d, x);
  }

  lemma DenNeedsDir(fs: FS, d: nat, x: string)
    requires Den(fs, d, [x]).Some?
    ensures IsDir(fs, d)
  {
    var k: nat :| Walk(fs, d, [x], k).Some?;
  }

  /** The directory's entry `x` is a symbolic link. */
  predicate LinkAt(fs: FS, d: nat, x: string) {
    x != "" && IsDir(fs, d) && x in fs.inodes[d].entries && IsLink(fs, fs.inodes[d].entries[x])
  }

  lemma NotLinked(fs: FS, klim: nat, p: string)
    requires var xs := Split(p); Walk(fs, Base(fs, fs.cwd, p), xs[..|xs| - 1], klim).Some?
    requires SysReadlink(fs, klim, p).None?
    ensures var xs := Split(p);
            !LinkAt(fs, Walk(fs, Base(fs, fs.cwd, p), xs[..|xs| - 1], klim).value.node, xs[|xs| - 1])
  {
  }

  lemma FreeWalk(fs: FS, b: nat, ys: seq<string>, klim: nat)
    requires Den(fs, b, ys).Some? && Den(fs, b, ys).value.links == 0
    ensures Walk(fs, b, ys, klim) == Some(Found(Den(fs, b, ys).value.node, klim))
  {
    var k: nat :| Walk(fs, b, ys, k).Some?;
    DenIs(fs, b, ys, k);
    WalkShift(fs, b, ys, k, klim);
  }

  lemma NameFollowsNone(fs: FS, d: nat, x: string)
    requires Den(fs, d, [x]).Some? && !LinkAt(fs, d, x)
    ensures Den(fs, d, [x]).value.links == 0
  {
    var k: nat :| Walk(fs, d, [x], k).Some?;
    DenIs(fs, d, [x], k);
  }

  // ----- The whole call -----

  /** Whatever spelling Readlink() returns denotes the file its argument denotes,
      and if there is such a file, resolving the spelling follows no link. */
  lemma {:induction false} SpellKeepsMeaning(fs: FS, klim: nat, arg: string, sx: nat)
    requires WellFormed(fs) && arg != "" && sx <= MAXSYMLINKS && Spell(fs, klim, arg, sx).Spelled?
    ensures var r := Spell(fs, klim, arg, sx).path;
            && r != ""
            && Saves(Meaning(fs, arg), Meaning(fs, r), 0)
            && (Meaning(fs, r).Some? ==> Meaning(fs, r).value.links == 0)
    decreases MAXSYMLINKS - sx
  {
    hide Assemble, Meaning, LinksMet;
    var a := Assemble(fs, klim, arg, 0, "").value;
    PassKeepsMeaning(fs, klim, arg);
    if a != arg {
      SpellKeepsMeaning(fs, klim, a, sx + 1);
    } else if Meaning(fs, arg).Some? {
      assert arg[..|arg|] == arg;
      NoLinksFollowsNone(fs, klim, arg, 0);
    }
  }

  /** The link limit refuses no path that resolves within what is left of it. */
  lemma {:induction false} SpellSucceeds(fs: FS, klim: nat, arg: string, sx: nat)
    requires WellFormed(fs) && arg != "" && sx <= MAXSYMLINKS
    requires Meaning(fs, arg).Some? && sx + Meaning(fs, arg).value.links <= MAXSYMLINKS
    ensures !Spell(fs, klim, arg, sx).TooManyLinks?
    decreases MAXSYMLINKS - sx
  {
    hide Assemble, Meaning;
    match Assemble(fs, klim, arg, 0, "")
    case None =>
    case Some(a) =>
      if a != arg {
        ChangeSheds(fs, klim, arg);
        SpellSucceeds(fs, klim, a, sx + 1);
      }
  }

  /** A pass that changes a path which resolves leaves fewer links to follow. */
  lemma ChangeSheds(fs: FS, klim: nat, arg: string)
    requires WellFormed(fs) && arg != "" && Meaning(fs, arg).Some?
    requires Assemble(fs, klim, arg, 0, "").Some? && Assemble(fs, klim, arg, 0, "").value != arg
    ensures var a := Assemble(fs, klim, arg, 0, "").value;
            a != "" && Meaning(fs, a).Some? && Meaning(fs, a).value.links < Meaning(fs, arg).value.links
  {
    PassKeepsMeaning(fs, klim, arg);
    if LinksMet(fs, klim, arg, 0) == 0 {
      assert arg[..0] == "";
      NoLinksCopies(fs, klim, arg, 0);
    }
  }

  // ----- The passes of a call, and what a call may leave stacked -----

  /** The spelling after `k` passes, or None once a pass has failed */
  function Nth(fs: FS, klim: nat, arg: string, k: nat): Option<string>
    decreases k
  {
    if k == 0 then Some(arg)
    else match Assemble(fs, klim, arg, 0, "")
      case None => None
      case Some(a) => Nth(fs, klim, a, k - 1)
  }

  /** The spellings that a call stacks, when `sx` are already there */
  function Stacked(fs: FS, klim: nat, arg: string, sx: nat): (r: seq<string>)
    requires sx <= MAXSYMLINKS
    ensures sx + |r| <= MAXSYMLINKS && forall i | 0 <= i < |r| :: Nth(fs, klim, arg, i + 1) == Some(r[i])
    decreases MAXSYMLINKS - sx
  {
    match Assemble(fs, klim, arg, 0, "")
    case None => []
    case Some(a) => if a == arg || sx >= MAXSYMLINKS then [] else [a] + Stacked(fs, klim, a, sx + 1)
  }

  /** The assembly passes of a call */
  function Passes(fs: FS, klim: nat, arg: string, sx: nat): (n: nat)
    requires sx <= MAXSYMLINKS
    ensures n == |Stacked(fs, klim, arg, sx)| + 1 <= MAXSYMLINKS + 1 - sx
    decreases MAXSYMLINKS - sx
  {
    match Assemble(fs, klim, arg, 0, "")
    case None => 1
    case Some(a) => if a == arg || sx >= MAXSYMLINKS then 1 else 1 + Passes(fs, klim, a, sx + 1)
  }

  lemma {:induction false} FixedPoint(fs: FS, klim: nat, arg: string, k: nat)
    requires Assemble(fs, klim, arg, 0, "") == Some(arg)
    ensures Nth(fs, klim, arg, k) == Some(arg)
  {
    if k > 0 { FixedPoint(fs, klim, arg, k - 1); }
  }

  /** A call finds its path too long exactly if one of the passes it may still make fails. */
  lemma {:induction false} TooLongWhen(fs: FS, klim: nat, arg: string, sx: nat)
    requires sx <= MAXSYMLINKS
    ensures Spell(fs, klim, arg, sx).TooLong? <==> Nth(fs, klim, arg, MAXSYMLINKS + 1 - sx).None?
    decreases MAXSYMLINKS - sx
  {
    var p := Assemble(fs, klim, arg, 0, "");
    if p.Some? {
      if p.value == arg {
        FixedPoint(fs, klim, arg, MAXSYMLINKS + 1 - sx);
      } else if sx < MAXSYMLINKS {
        TooLongWhen(fs, klim, p.value, sx + 1);
      } else {
        assert Nth(fs, klim, p.value, 0) == p;
      }
    }
  }

  /** What stale spellings cost: a path that needs `k` respellings is refused
      with `sx` stacked exactly if sx + k exceeds the limit. */
  lemma {:induction false} StaleCosts(fs: FS, klim: nat, arg: string, s0: nat, sx: nat)
    requires s0 <= MAXSYMLINKS && sx <= MAXSYMLINKS && Spell(fs, klim, arg, s0).Spelled?
    ensures Spell(fs, klim, arg, sx) ==
            if sx + |Stacked(fs, klim, arg, s0)| <= MAXSYMLINKS then Spell(fs, klim, arg, s0) else TooManyLinks
    decreases MAXSYMLINKS - s0
  {
    var a := Assemble(fs, klim, arg, 0, "").value;
    if a != arg && sx < MAXSYMLINKS { StaleCosts(fs, klim, a, s0 + 1, sx + 1); }
  }
}
