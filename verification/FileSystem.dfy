/** A file system as a finite inode graph, and pathname resolution over it
    (section 4.13 of the POSIX.1-2017 Base Definitions). */
module FileSystem {
  import opened Common

  /** A directory's "." and ".." are ordinary entries. */
  datatype Inode = Dir(entries: map<string, nat>) | Link(text: string) | Other

  datatype FS = FS(inodes: map<nat, Inode>, root: nat, cwd: nat)

  /** What `Walk` and `Meaning` deliver: a node, and a number of symbolic links. */
  datatype Found = Found(node: nat, links: nat)

  predicate IsDir(fs: FS, d: nat) {
    d in fs.inodes && fs.inodes[d].Dir?
  }

  predicate IsLink(fs: FS, n: nat) {
    n in fs.inodes && fs.inodes[n].Link?
  }

  predicate Absolute(p: string) {
    p != "" && p[0] == '/'
  }

  /** The directory where the resolution of a path met in directory `d` begins. */
  function Base(fs: FS, d: nat, p: string): nat {
    if Absolute(p) then fs.root else d
  }

  /** The components between the slashes; two slashes enclose an empty one. */
  function Split(s: string): (r: seq<string>)
    ensures |r| > 0
  {
    if s == "" then [""]
    else if s[0] == '/' then [""] + Split(s[1..])
    else var r := Split(s[1..]); [[s[0]] + r[0]] + r[1..]
  }

  /**
   * Resolves components one by one, starting at node `d` and following at most
   * `k` symbolic links; the link count of the result is what remains of `k`.
   * An empty component stays where it is but, like a name, demands a directory.
   */
  function Walk(fs: FS, d: nat, xs: seq<string>, k: nat): (r: Option<Found>)
    ensures r.Some? ==> r.value.links <= k
    decreases k, |xs|
  {
    if xs == [] then Some(Found(d, k))
    else if !IsDir(fs, d) then None
    else if xs[0] == "" then Walk(fs, d, xs[1..], k)
    else if xs[0] !in fs.inodes[d].entries then None
    else
      var n := fs.inodes[d].entries[xs[0]];
      if !IsLink(fs, n) then Walk(fs, n, xs[1..], k)
      else if k == 0 then None
      else
        var t := fs.inodes[n].text;
        Walk(fs, Base(fs, d, t), Split(t) + xs[1..], k - 1)
  }

  /** Where the components lead when any finite number of links may be
      followed, and how many links that takes. */
  ghost function Den(fs: FS, d: nat, xs: seq<string>): Option<Found> {
    if exists k: nat :: Walk(fs, d, xs, k).Some? then
      var k: nat :| Walk(fs, d, xs, k).Some?;
      var w := Walk(fs, d, xs, k).value;
      Some(Found(w.node, k - w.links))
    else None
  }

  /** The file a path denotes, with the number of links followed to reach it. */
  ghost function Meaning(fs: FS, p: string): Option<Found> {
    if p == "" then None else Den(fs, Base(fs, fs.cwd, p), Split(p))
  }

  /** The walk `ys` continued from where `a` ended. */
  ghost function Then(fs: FS, a: Option<Found>, ys: seq<string>): Option<Found> {
    match a
    case None => None
    case Some(Found(m, c)) => AddLinks(Den(fs, m, ys), c)
  }

  ghost function AddLinks(a: Option<Found>, c: nat): Option<Found> {
    match a
    case None => None
    case Some(Found(n, c')) => Some(Found(n, c + c'))
  }

  // ----- Split -----

  lemma {:induction false} SplitCat(a: string, b: string)
    ensures Split(a + ['/'] + b) == Split(a) + Split(b)
  {
    var s := a + ['/'] + b;
    if a == "" {
      assert s[1..] == b;
    } else {
      SplitCat(a[1..], b);
      assert s[0] == a[0] && s[1..] == a[1..] + ['/'] + b;
      SplitHead(Split(a[1..]), Split(b), a[0]);
    }
  }

  lemma SplitHead(x: seq<string>, y: seq<string>, c: char)
    requires x != []
    ensures (x + y)[0] == x[0] && (x + y)[1..] == x[1..] + y
    ensures [[c] + x[0]] + x[1..] + y == [[c] + (x + y)[0]] + (x + y)[1..]
    ensures [""] + x + y == [""] + (x + y)
  {
  }

  lemma {:induction false} SplitName(a: string)
    requires '/' !in a
    ensures Split(a) == [a]
  {
    if a != "" {
      SplitName(a[1..]);
      assert [a[0]] + a[1..] == a;
    }
  }

  // ----- Walk and Den -----

  /** A walk that succeeds uses the same links under every sufficient budget. */
  lemma {:induction false} WalkShift(fs: FS, d: nat, xs: seq<string>, k: nat, k': nat)
    requires Walk(fs, d, xs, k).Some? && k - Walk(fs, d, xs, k).value.links <= k'
    ensures var w := Walk(fs, d, xs, k).value;
            Walk(fs, d, xs, k') == Some(Found(w.node, k' + w.links - k))
    decreases k, |xs|
  {
    if xs != [] && IsDir(fs, d) {
      if xs[0] == "" {
        WalkShift(fs, d, xs[1..], k, k');
      } else {
        var n := fs.inodes[d].entries[xs[0]];
        if IsLink(fs, n) {
          var t := fs.inodes[n].text;
          WalkShift(fs, Base(fs, d, t), Split(t) + xs[1..], k - 1, k' - 1);
        } else {
          WalkShift(fs, n, xs[1..], k, k');
        }
      }
    }
  }

  lemma DenIs(fs: FS, d: nat, xs: seq<string>, k: nat)
    requires Walk(fs, d, xs, k).Some?
    ensures var w := Walk(fs, d, xs, k).value; Den(fs, d, xs) == Some(Found(w.node, k - w.links))
  {
    var j: nat :| Walk(fs, d, xs, j).Some? && Den(fs, d, xs) ==
      Some(Found(Walk(fs, d, xs, j).value.node, j - Walk(fs, d, xs, j).value.links));
    WalkShift(fs, d, xs, j, j + k);
    WalkShift(fs, d, xs, k, j + k);
  }

  lemma {:induction false} WalkAppend(fs: FS, d: nat, xs: seq<string>, ys: seq<string>, k: nat)
    ensures Walk(fs, d, xs + ys, k) ==
            match Walk(fs, d, xs, k) case None => None case Some(w) => Walk(fs, w.node, ys, w.links)
    decreases k, |xs|
  {
    if xs == [] {
      assert xs + ys == ys;
    } else if IsDir(fs, d) {
      assert (xs + ys)[1..] == xs[1..] + ys;
      if xs[0] == "" {
        WalkAppend(fs, d, xs[1..], ys, k);
      } else if xs[0] in fs.inodes[d].entries {
        var n := fs.inodes[d].entries[xs[0]];
        if !IsLink(fs, n) {
          WalkAppend(fs, n, xs[1..], ys, k);
        } else if k > 0 {
          var t := fs.inodes[n].text;
          WalkAppend(fs, Base(fs, d, t), Split(t) + xs[1..], ys, k - 1);
          assert Split(t) + (xs + ys)[1..] == Split(t) + xs[1..] + ys;
        }
      }
    }
  }

  /** Resolution composes: first `xs`, then `ys` from where that led. */
  lemma DenAppend(fs: FS, d: nat, xs: seq<string>, ys: seq<string>)
    ensures Den(fs, d, xs + ys) == Then(fs, Den(fs, d, xs), ys)
  {
    forall k: nat { WalkAppend(fs, d, xs, ys, k); }
    if j: nat :| Walk(fs, d, xs, j).Some? {
      DenIs(fs, d, xs, j);
      var w := Walk(fs, d, xs, j).value;
      if i: nat :| Walk(fs, w.node, ys, i).Some? {
        var k := i + (j - w.links);
        WalkShift(fs, d, xs, j, k);
        DenIs(fs, w.node, ys, i);
        DenIs(fs, d, xs + ys, k);
      } else if k: nat :| Walk(fs, d, xs + ys, k).Some? {
        DenIs(fs, d, xs, k);
      }
    }
  }

  /** Following a link is resolving its text in the directory that holds it. */
  lemma DenLink(fs: FS, d: nat, x: string)
    requires IsDir(fs, d) && x != "" && x in fs.inodes[d].entries && IsLink(fs, fs.inodes[d].entries[x])
    ensures var t := fs.inodes[fs.inodes[d].entries[x]].text;
            Den(fs, d, [x]) == AddLinks(Den(fs, Base(fs, d, t), Split(t)), 1)
  {
    var t := fs.inodes[fs.inodes[d].entries[x]].text;
    var b := Base(fs, d, t);
    assert Split(t) + [x][1..] == Split(t);
    if j: nat :| Walk(fs, b, Split(t), j).Some? {
      DenIs(fs, b, Split(t), j);
      DenIs(fs, d, [x], j + 1);
    } else {
      forall k: nat ensures Walk(fs, d, [x], k).None? {
        if k > 0 { assert Walk(fs, b, Split(t), k - 1).None?; }
      }
    }
  }

  /** A trailing slash on a directory prefix is immaterial when more follows. */
  lemma DenSlash(fs: FS, d: nat, ys: seq<string>)
    requires ys != []
    ensures Den(fs, d, [""] + ys) == Den(fs, d, ys)
  {
    assert ([""] + ys)[1..] == ys;
    if k: nat :| Walk(fs, d, ys, k).Some? {
      DenIs(fs, d, ys, k);
      DenIs(fs, d, [""] + ys, k);
    } else {
      forall k: nat ensures Walk(fs, d, [""] + ys, k).None? {
        assert Walk(fs, d, ys, k).None?;
      }
    }
  }
}
