/** The worklist walk of +d and +D (enter_dir() in src/arg.c, stkdir() in lib/misc.c). */
module DirWalk {
  import opened Common
  import opened PathSpeller
  import opened Readlink
  import FileSystem

  datatype Kind = Directory | Link | Other
  datatype Stat = Stat(dev: int, kind: Kind)
  datatype Entry = Entry(ino: nat, name: string)

  /** What the system answers by path: opendir() with readdir(), lstat() and
      stat().  A path that is missing is an answer too: the call fails. */
  datatype Answers = Answers(dirs: map<string, seq<Entry>>, lstats: map<string, Stat>, stats: map<string, Stat>)

  /** +d or +D, -x f, -x l, and the device of the start directory */
  datatype Options = Options(descend: bool, overFileSystems: bool, overLinks: bool, dev: int)

  /** A directory lists a name once, and a name has no '/'. */
  ghost predicate DirOk(es: seq<Entry>) {
    && (forall i | 0 <= i < |es| :: '/' !in es[i].name)
    && (forall i, j | 0 <= i < j < |es| :: es[i].name != es[j].name)
  }

  ghost predicate Sane(fs: Answers) {
    forall p | p in fs.dirs :: DirOk(fs.dirs[p])
  }

  // ----- One entry -----

  function Join(p: string, name: string): string {
    if p != "" && p[|p| - 1] == '/' then p + name else p + "/" + name
  }

  /** An entry in use that is neither the directory itself nor its parent */
  predicate Proper(e: Entry) {
    e.ino != 0 && e.name != "" && e.name != "." && e.name != ".."
  }

  /** The walk takes a path that it can examine, that is on the start's device
      unless -x f, and that is no link unless -x l follows it. */
  predicate Taken(fs: Answers, o: Options, path: string) {
    && path in fs.lstats
    && (o.overFileSystems || fs.lstats[path].dev == o.dev)
    && (fs.lstats[path].kind == Link ==> o.overLinks && path in fs.stats)
  }

  predicate IsDirectory(fs: Answers, o: Options, path: string)
    requires Taken(fs, o, path)
  {
    (if fs.lstats[path].kind == Link then fs.stats[path] else fs.lstats[path]).kind == Directory
  }

  predicate Records(fs: Answers, o: Options, p: string, e: Entry) {
    Proper(e) && Taken(fs, o, Join(p, e.name))
  }

  predicate Enters(fs: Answers, o: Options, p: string, e: Entry) {
    Records(fs, o, p, e) && o.descend && IsDirectory(fs, o, Join(p, e.name))
  }

  // ----- What the walk is for -----

  /** `x` is a recorded entry of directory `p`, or one to be entered. */
  ghost predicate Child(fs: Answers, o: Options, enter: bool, p: string, x: string) {
    p in fs.dirs && ChildOf(fs, o, enter, p, fs.dirs[p], x)
  }

  ghost predicate ChildOf(fs: Answers, o: Options, enter: bool, p: string, es: seq<Entry>, x: string) {
    exists i | 0 <= i < |es| :: (if enter then Enters(fs, o, p, es[i]) else Records(fs, o, p, es[i])) && x == Join(p, es[i].name)
  }

  /** `x` is the start, or a directory to be entered of a reachable directory. */
  ghost predicate Reached(fs: Answers, o: Options, start: string, x: string)
    decreases |x|
  {
    x == start || exists p | p in fs.dirs :: |p| < |x| && Child(fs, o, true, p, x) && Reached(fs, o, start, p)
  }

  // ----- Paths -----

  /** A path below the start is longer and does not end in '/'. */
  ghost predicate Below(start: string, p: string) {
    p == start || (|p| > |start| && p[|p| - 1] != '/')
  }

  lemma JoinIsLonger(p: string, name: string)
    requires name != "" && '/' !in name
    ensures |Join(p, name)| > |p| && Join(p, name)[|Join(p, name)| - 1] != '/'
  {
    assert Join(p, name)[|Join(p, name)| - 1] == name[|name| - 1];
  }

  /** A slash at the end of the directory makes no difference. */
  lemma JoinSlash(p: string, name: string)
    requires p != "" && p[|p| - 1] != '/'
    ensures Join(p + "/", name) == Join(p, name) == p + "/" + name
  {
  }

  /** The path of an entry denotes what its name denotes in its directory. */
  lemma JoinMeans(fs: FileSystem.FS, p: string, name: string)
    requires p != "" && '/' !in name
    ensures FileSystem.Meaning(fs, Join(p, name)) == FileSystem.Then(fs, FileSystem.Meaning(fs, p), [name])
  {
    hide FileSystem.Den, FileSystem.Split;
    FileSystem.SplitName(name);
    if p[|p| - 1] == '/' {
      var a := p[..|p| - 1];
      assert p == a + ['/'] && Join(p, name) == a + ['/'] + name;
      SlashThen(fs, a, name);
    } else {
      assert Join(p, name) == p + ['/'] + name;
      FileSystem.SplitCat(p, name);
      FileSystem.DenAppend(fs, FileSystem.Base(fs, fs.cwd, p), FileSystem.Split(p), [name]);
    }
  }

  /** A path tells its directory and its name apart. */
  lemma JoinIsUnique(start: string, p: string, n: string, p': string, n': string)
    requires Below(start, p) && Below(start, p') && '/' !in n && '/' !in n' && Join(p, n) == Join(p', n')
    ensures p == p' && n == n'
  {
    var x := Join(p, n);
    var k, k' := |x| - |n|, |x| - |n'|;
    assert x[k..] == n && x[k'..] == n';
    assert x[k - 1] == '/' && x[k' - 1] == '/';
    assert k == k';
    assert x[..k - 1] + "/" == x[..k];
    assert p == x[..k] || p == x[..k - 1];
    assert p' == x[..k] || p' == x[..k - 1];
  }

  lemma ChildIsBelow(fs: Answers, o: Options, enter: bool, start: string, p: string, x: string)
    requires Sane(fs) && Child(fs, o, enter, p, x) && Below(start, p)
    ensures Below(start, x) && |x| > |p| && x != start
  {
    var es := fs.dirs[p];
    var i :| 0 <= i < |es| && Proper(es[i]) && x == Join(p, es[i].name);
    assert DirOk(es);
    JoinIsLonger(p, es[i].name);
  }

  lemma OneParent(fs: Answers, o: Options, enter: bool, start: string, p: string, p': string, x: string)
    requires Sane(fs) && Child(fs, o, enter, p, x) && Child(fs, o, enter, p', x) && Below(start, p) && Below(start, p')
    ensures p == p'
  {
    var es, es' := fs.dirs[p], fs.dirs[p'];
    assert DirOk(es) && DirOk(es');
    var i :| 0 <= i < |es| && x == Join(p, es[i].name);
    var j :| 0 <= j < |es'| && x == Join(p', es'[j].name);
    JoinIsUnique(start, p, es[i].name, p', es'[j].name);
  }

  // ----- Reading one directory -----

  /** The paths a directory's entries give: those recorded, or those entered */
  function Paths(fs: Answers, o: Options, enter: bool, p: string, es: seq<Entry>): seq<string> {
    if es == [] then []
    else
      var e := es[|es| - 1];
      var take := if enter then Enters(fs, o, p, e) else Records(fs, o, p, e);
      Paths(fs, o, enter, p, es[..|es| - 1]) + (if take then [Join(p, e.name)] else [])
  }

  lemma {:induction false} PathsAreChildren(fs: Answers, o: Options, enter: bool, p: string, es: seq<Entry>)
    ensures forall x :: x in Paths(fs, o, enter, p, es) <==> ChildOf(fs, o, enter, p, es, x)
  {
    if es != [] {
      var front, e := es[..|es| - 1], es[|es| - 1];
      PathsAreChildren(fs, o, enter, p, front);
      var take := if enter then Enters(fs, o, p, e) else Records(fs, o, p, e);
      forall x ensures ChildOf(fs, o, enter, p, es, x) <==> ChildOf(fs, o, enter, p, front, x) || (take && x == Join(p, e.name)) {
        if ChildOf(fs, o, enter, p, front, x) {
          var i :| 0 <= i < |front| && (if enter then Enters(fs, o, p, front[i]) else Records(fs, o, p, front[i])) && x == Join(p, front[i].name);
          assert es[i] == front[i];
        }
      }
    }
  }

  lemma {:induction false} PathsAreDistinct(fs: Answers, o: Options, enter: bool, p: string, es: seq<Entry>)
    requires DirOk(es)
    ensures Distinct(Paths(fs, o, enter, p, es))
  {
    if es != [] {
      var front, e := es[..|es| - 1], es[|es| - 1];
      PathsAreDistinct(fs, o, enter, p, front);
      PathsAreChildren(fs, o, enter, p, front);
      if Join(p, e.name) in Paths(fs, o, enter, p, front) {
        var i :| 0 <= i < |front| && Join(p, e.name) == Join(p, front[i].name);
        JoinIsUnique(p, p, e.name, p, front[i].name);
        assert false;
      }
    }
  }

  // ----- The worklist -----

  /** Where a walk stands: the stack, the paths taken off it, and the
      directories opened among them */
  datatype State = State(stack: seq<string>, tried: set<string>, done: seq<string>)

  predicate Known(st: State, x: string) {
    x in st.stack || x in st.tried
  }

  /** What every known path is: the start, or an entered child of an opened directory */
  ghost predicate Justified(fs: Answers, o: Options, start: string, st: State, x: string) {
    Below(start, x) && Reached(fs, o, start, x) && (x == start || exists p | p in st.done :: Child(fs, o, true, p, x))
  }

  ghost predicate Inv(fs: Answers, o: Options, start: string, st: State) {
    && Distinct(st.stack) && (forall x | x in st.stack :: x !in st.tried)
    && Distinct(st.done) && (forall x :: x in st.done <==> x in st.tried && x in fs.dirs)
    && Known(st, start)
    && (forall x | Known(st, x) :: Justified(fs, o, start, st, x))
    && (forall p, x | p in st.done && Child(fs, o, true, p, x) :: Known(st, x))
  }

  lemma InvStart(fs: Answers, o: Options, start: string)
    ensures Inv(fs, o, start, State([start], {}, []))
  {
  }

  function Popped(st: State): State
    requires st.stack != []
  {
    st.(stack := st.stack[..|st.stack| - 1], tried := st.tried + {st.stack[|st.stack| - 1]})
  }

  function Opened(fs: Answers, o: Options, st: State): State
    requires st.stack != [] && st.stack[|st.stack| - 1] in fs.dirs
  {
    var p := st.stack[|st.stack| - 1];
    var t := Popped(st);
    t.(stack := t.stack + Paths(fs, o, true, p, fs.dirs[p]), done := t.done + [p])
  }

  lemma PoppedKnows(st: State, x: string)
    requires st.stack != []
    ensures Known(Popped(st), x) <==> Known(st, x)
  {
    assert st.stack == st.stack[..|st.stack| - 1] + [st.stack[|st.stack| - 1]];
  }

  /** A directory that cannot be opened */
  lemma InvPopped(fs: Answers, o: Options, start: string, st: State)
    requires st.stack != [] && st.stack[|st.stack| - 1] !in fs.dirs && Inv(fs, o, start, st)
    ensures Inv(fs, o, start, Popped(st))
  {
    hide Reached, Child, Below, Known;
    forall x ensures Known(Popped(st), x) <==> Known(st, x) { PoppedKnows(st, x); }
    assert forall x | Known(st, x) && Justified(fs, o, start, st, x) :: Justified(fs, o, start, Popped(st), x);
  }

  /** The children of a directory that is being opened are all new. */
  lemma ChildIsNew(fs: Answers, o: Options, start: string, st: State, p: string, x: string)
    requires Sane(fs) && Inv(fs, o, start, st) && Known(st, p) && p !in st.done && Child(fs, o, true, p, x)
    ensures !Known(st, x) && Below(start, x) && Reached(fs, o, start, x)
  {
    assert Justified(fs, o, start, st, p);
    ChildIsBelow(fs, o, true, start, p, x);
    if Known(st, x) {
      assert Justified(fs, o, start, st, x);
      var p' :| p' in st.done && Child(fs, o, true, p', x);
      assert Known(st, p') && Justified(fs, o, start, st, p');
      OneParent(fs, o, true, start, p, p', x);
      assert false;
    }
  }

  lemma OpenedKnows(fs: Answers, o: Options, st: State, x: string)
    requires st.stack != [] && st.stack[|st.stack| - 1] in fs.dirs
    ensures Known(Opened(fs, o, st), x) <==> Known(st, x) || Child(fs, o, true, st.stack[|st.stack| - 1], x)
  {
    PoppedKnows(st, x);
    var p := st.stack[|st.stack| - 1];
    PathsAreChildren(fs, o, true, p, fs.dirs[p]);
  }

  lemma DistinctAppend(s: seq<string>, t: seq<string>)
    requires Distinct(s) && Distinct(t) && forall x | x in t :: x !in s
    ensures Distinct(s + t)
  {
    forall i, j | 0 <= i < j < |s + t| ensures (s + t)[i] != (s + t)[j] {
      if i < |s| <= j { assert t[j - |s|] in t; }
    }
  }

  /** The stack stays free of repetitions. */
  lemma OpenedStack(fs: Answers, o: Options, start: string, st: State)
    requires Sane(fs) && st.stack != [] && st.stack[|st.stack| - 1] in fs.dirs && Inv(fs, o, start, st)
    ensures Distinct(Opened(fs, o, st).stack) && Distinct(Opened(fs, o, st).done)
    ensures forall x | x in Opened(fs, o, st).stack :: x !in Opened(fs, o, st).tried
  {
    var p, t := st.stack[|st.stack| - 1], Popped(st);
    var more := Paths(fs, o, true, p, fs.dirs[p]);
    PathsAreChildren(fs, o, true, p, fs.dirs[p]);
    assert p !in st.tried && Known(st, p);
    forall x | x in more ensures !Known(st, x) && x !in t.stack && x !in t.tried {
      assert Child(fs, o, true, p, x);
      ChildIsNew(fs, o, start, st, p, x);
      PoppedKnows(st, x);
    }
    assert DirOk(fs.dirs[p]);
    PathsAreDistinct(fs, o, true, p, fs.dirs[p]);
    DistinctAppend(t.stack, more);
    DistinctAppend(st.done, [p]);
  }

  /** A directory that is opened and read */
  lemma InvOpened(fs: Answers, o: Options, start: string, st: State)
    requires Sane(fs) && st.stack != [] && st.stack[|st.stack| - 1] in fs.dirs && Inv(fs, o, start, st)
    ensures Inv(fs, o, start, Opened(fs, o, st)) && st.stack[|st.stack| - 1] !in st.done
  {
    hide Reached, Child, Below, Known, Paths, Distinct;
    var p, t := st.stack[|st.stack| - 1], Opened(fs, o, st);
    OpenedStack(fs, o, start, st);
    assert p in st.stack && p !in st.done && Known(st, p) by { assert p !in st.tried; KnowsTop(st); }
    forall x ensures Known(t, x) <==> Known(st, x) || Child(fs, o, true, p, x) { OpenedKnows(fs, o, st, x); }
    forall x | Known(t, x) ensures Justified(fs, o, start, t, x) {
      assert forall q | q in st.done :: q in t.done;
      if Known(st, x) {
        assert Justified(fs, o, start, st, x);
      } else {
        ChildIsNew(fs, o, start, st, p, x);
        assert p in t.done;
      }
    }
  }

  lemma KnowsTop(st: State)
    requires st.stack != []
    ensures Known(st, st.stack[|st.stack| - 1])
  {
  }

  /** With an empty stack, everything reachable was tried. */
  lemma {:induction false} AllTried(fs: Answers, o: Options, start: string, st: State, x: string)
    requires Inv(fs, o, start, st) && st.stack == [] && Reached(fs, o, start, x)
    ensures x in st.tried
    decreases |x|
  {
    if x != start {
      var p :| p in fs.dirs && |p| < |x| && Child(fs, o, true, p, x) && Reached(fs, o, start, p);
      AllTried(fs, o, start, st, p);
      assert p in st.done;
      assert Known(st, x);
    } else {
      assert Known(st, start);
    }
  }

  // ----- What is recorded -----

  predicate Openable(fs: Answers, ps: seq<string>) {
    forall p | p in ps :: p in fs.dirs
  }

  /** Everything recorded while these directories were read */
  function Recorded(fs: Answers, o: Options, ps: seq<string>): seq<string>
    requires Openable(fs, ps)
  {
    if ps == [] then []
    else
      var p := ps[|ps| - 1];
      assert p in ps;
      Recorded(fs, o, ps[..|ps| - 1]) + Paths(fs, o, false, p, fs.dirs[p])
  }

  lemma {:induction false} RecordedMembers(fs: Answers, o: Options, ps: seq<string>)
    requires Openable(fs, ps)
    ensures forall x :: x in Recorded(fs, o, ps) <==> exists p | p in ps :: Child(fs, o, false, p, x)
  {
    if ps != [] {
      var front, p := ps[..|ps| - 1], ps[|ps| - 1];
      assert p in ps && ps == front + [p];
      RecordedMembers(fs, o, front);
      PathsAreChildren(fs, o, false, p, fs.dirs[p]);
    }
  }

  lemma DistinctFront(s: seq<string>)
    requires s != [] && Distinct(s)
    ensures Distinct(s[..|s| - 1]) && s[|s| - 1] !in s[..|s| - 1]
  {
  }

  lemma {:induction false} RecordedDistinct(fs: Answers, o: Options, start: string, ps: seq<string>)
    requires Sane(fs) && Distinct(ps) && Openable(fs, ps) && forall p | p in ps :: Below(start, p)
    ensures Distinct([start] + Recorded(fs, o, ps))
  {
    if ps != [] {
      hide Paths, ChildOf, Distinct, Below, DirOk;
      var front, p := ps[..|ps| - 1], ps[|ps| - 1];
      assert p in ps && ps == front + [p];
      DistinctFront(ps);
      RecordedDistinct(fs, o, start, front);
      RecordedMembers(fs, o, front);
      PathsAreChildren(fs, o, false, p, fs.dirs[p]);
      assert DirOk(fs.dirs[p]);
      PathsAreDistinct(fs, o, false, p, fs.dirs[p]);
      var more := Paths(fs, o, false, p, fs.dirs[p]);
      forall x | x in more ensures x !in [start] + Recorded(fs, o, front) {
        assert Child(fs, o, false, p, x);
        ChildIsBelow(fs, o, false, start, p, x);
        if x in Recorded(fs, o, front) {
          var q :| q in front && Child(fs, o, false, q, x);
          OneParent(fs, o, false, start, p, q, x);
          assert false;
        }
      }
      DistinctAppend([start] + Recorded(fs, o, front), more);
      assert [start] + Recorded(fs, o, ps) == [start] + Recorded(fs, o, front) + more;
    }
  }

  /** The start, then everything recorded while these directories were read */
  ghost predicate Noted(fs: Answers, o: Options, start: string, done: seq<string>, recorded: seq<string>) {
    Openable(fs, done) && recorded == [start] + Recorded(fs, o, done)
  }

  /** The reachable directories that open, each once */
  ghost predicate OpenedExactly(fs: Answers, o: Options, start: string, done: seq<string>) {
    Distinct(done) && forall x :: x in done <==> x in fs.dirs && Reached(fs, o, start, x)
  }

  /** The start and the recorded entries of these directories, each once */
  ghost predicate RecordedExactly(fs: Answers, o: Options, start: string, done: seq<string>, recorded: seq<string>) {
    && Distinct(recorded)
    && forall x :: x in recorded <==> x == start || exists p | p in done :: Child(fs, o, false, p, x)
  }

  // ----- One turn -----

  function Step(fs: Answers, o: Options, st: State): State
    requires st.stack != []
  {
    if st.stack[|st.stack| - 1] in fs.dirs then Opened(fs, o, st) else Popped(st)
  }

  /** What a turn records */
  function News(fs: Answers, o: Options, st: State): seq<string>
    requires st.stack != []
  {
    var p := st.stack[|st.stack| - 1];
    if p in fs.dirs then Paths(fs, o, false, p, fs.dirs[p]) else []
  }

  /** How many directories have not been opened */
  ghost function Unread(fs: Answers, done: seq<string>): nat {
    |fs.dirs.Keys - set x | x in done|
  }

  lemma OneLessUnread(fs: Answers, done: seq<string>, p: string)
    requires p in fs.dirs && p !in done
    ensures Unread(fs, done + [p]) < Unread(fs, done)
  {
    var left := fs.dirs.Keys - set x | x in done;
    assert (set x | x in done + [p]) == (set x | x in done) + {p};
    assert fs.dirs.Keys - (set x | x in done + [p]) == left - {p} && p in left;
  }

  lemma NotedMore(fs: Answers, o: Options, start: string, done: seq<string>, recorded: seq<string>, p: string)
    requires Noted(fs, o, start, done, recorded) && p in fs.dirs
    ensures Noted(fs, o, start, done + [p], recorded + Paths(fs, o, false, p, fs.dirs[p]))
  {
    hide Paths;
    var ps := done + [p];
    assert ps[..|ps| - 1] == done && ps[|ps| - 1] == p;
    assert Recorded(fs, o, ps) == Recorded(fs, o, done) + Paths(fs, o, false, p, fs.dirs[p]);
  }

  /** A turn keeps the invariant and opens a new directory or shortens the stack. */
  lemma InvStep(fs: Answers, o: Options, start: string, st: State, recorded: seq<string>)
    requires Sane(fs) && st.stack != [] && Inv(fs, o, start, st) && Noted(fs, o, start, st.done, recorded)
    ensures
      var t := Step(fs, o, st);
      && Inv(fs, o, start, t) && Noted(fs, o, start, t.done, recorded + News(fs, o, st))
      && (|| Unread(fs, t.done) < Unread(fs, st.done)
          || (t.done == st.done && |t.stack| < |st.stack|))
  {
    hide Inv, Paths, Noted, Unread, Sane;
    var p := st.stack[|st.stack| - 1];
    if p in fs.dirs {
      InvOpened(fs, o, start, st);
      OneLessUnread(fs, st.done, p);
      NotedMore(fs, o, start, st.done, recorded, p);
    } else {
      InvPopped(fs, o, start, st);
      assert recorded + [] == recorded;
    }
  }

  /** What a walk that has emptied its stack has done */
  lemma Finished(fs: Answers, o: Options, start: string, st: State, recorded: seq<string>)
    requires Sane(fs) && Inv(fs, o, start, st) && st.stack == [] && Noted(fs, o, start, st.done, recorded)
    ensures OpenedExactly(fs, o, start, st.done) && RecordedExactly(fs, o, start, st.done, recorded)
  {
    forall x | Reached(fs, o, start, x) ensures x in st.tried { AllTried(fs, o, start, st, x); }
    forall p | p in st.done ensures Below(start, p) && Reached(fs, o, start, p) {
      assert Known(st, p);
      assert Justified(fs, o, start, st, p);
    }
    RecordedMembers(fs, o, st.done);
    RecordedDistinct(fs, o, start, st.done);
  }

  // ----- The program -----

  class Walker {
    const fs: Answers
    const o: Options
    var stack: seq<string>     // Dstk[..Dstkx]
    var done: seq<string>      // the directories opened, in order
    var recorded: seq<string>  // what went to ck_file_arg(), in order

    constructor (fs: Answers, o: Options)
      ensures this.fs == fs && this.o == o && stack == []
    {
      this.fs, this.o, stack, done, recorded := fs, o, [], [], [];
    }

    /** One turn of the readdir() loop */
    method TakeEntry(p: string, e: Entry)
      modifies this`stack, this`recorded
      ensures stack == old(stack) + (if Enters(fs, o, p, e) then [Join(p, e.name)] else [])
      ensures recorded == old(recorded) + (if Records(fs, o, p, e) then [Join(p, e.name)] else [])
    {
      if e.ino == 0 || |e.name| == 0 {
        return;
      }
      if |e.name| <= 2 && e.name[0] == '.' && (|e.name| == 1 || e.name[1] == '.') {
        return;
      }
      var sl := if |p| > 0 && p[|p| - 1] == '/' then "" else "/";
      var fp := p + sl + e.name;
      assert fp == Join(p, e.name);
      if fp !in fs.lstats {
        return;
      }
      var sb := fs.lstats[fp];
      if !o.overFileSystems && sb.dev != o.dev {
        return;
      }
      if sb.kind == Link {
        if !o.overLinks || fp !in fs.stats {
          return;
        }
        sb := fs.stats[fp];
      }
      if sb.kind == Directory && o.descend {
        stack := stack + [fp];
      }
      recorded := recorded + [fp];
    }

    /** The readdir() loop */
    method ReadDirectory(p: string)
      requires p in fs.dirs
      modifies this`stack, this`recorded
      ensures stack == old(stack) + Paths(fs, o, true, p, fs.dirs[p])
      ensures recorded == old(recorded) + Paths(fs, o, false, p, fs.dirs[p])
    {
      hide Enters, Records, Join;
      var es, i := fs.dirs[p], 0;
      while i < |es|
        invariant 0 <= i <= |es|
        invariant stack == old(stack) + Paths(fs, o, true, p, es[..i])
        invariant recorded == old(recorded) + Paths(fs, o, false, p, es[..i])
      {
        assert es[..i + 1][..i] == es[..i] && es[..i + 1][i] == es[i];
        TakeEntry(p, es[i]);
        i := i + 1;
      }
      assert es[..|es|] == es;
    }

    /** Take the top of the stack and read it, if it opens. */
    method Turn(ghost st: State)
      requires stack != [] && st.stack == stack && st.done == done
      modifies this`stack, this`done, this`recorded
      ensures stack == Step(fs, o, st).stack && done == Step(fs, o, st).done
      ensures recorded == old(recorded) + News(fs, o, st)
    {
      hide Paths;
      var p := stack[|stack| - 1];
      stack := stack[..|stack| - 1];
      if p in fs.dirs {
        ReadDirectory(p);
        done := done + [p];
      }
    }

    /**
     * The worklist.  It ends, opens every reachable directory that can be
     * opened exactly once, and records exactly the start and the entries of
     * those directories, each once.
     */
    method Walk(start: string)
      requires Sane(fs)
      modifies this
      ensures OpenedExactly(fs, o, start, done) && RecordedExactly(fs, o, start, done, recorded)
    {
      stack, done, recorded := [start], [], [start];
      ghost var st := State([start], {}, []);
      InvStart(fs, o, start);
      assert Noted(fs, o, start, [], [start]);
      hide Inv, Noted, Step, News, OpenedExactly, RecordedExactly, Unread, Sane;
      while stack != []
        invariant Inv(fs, o, start, st) && st.stack == stack && st.done == done && Noted(fs, o, start, done, recorded)
        decreases Unread(fs, done), |stack|
      {
        InvStep(fs, o, start, st, recorded);
        Turn(st);
        st := Step(fs, o, st);
      }
      Finished(fs, o, start, st, recorded);
    }
  }

  ghost function Respelled(speller: Speller, d: Option<string>): Outcome
    reads speller
    requires speller.Valid()
  {
    if d.Some? then PathSpeller.Spell(speller.fs, speller.klim, d.value, |speller.stk|) else TooLong
  }

  /**
   * enter_dir() with its argument: refused exactly if that is no path of a
   * directory, and otherwise walked from its respelling, which denotes what the
   * argument denotes, on the directory's own device.
   */
  method EnterDir(fs: Answers, flags: Options, speller: Speller, d: Option<string>)
    returns (ok: bool, done: seq<string>, recorded: seq<string>)
    requires Sane(fs) && speller.Valid() && (d.Some? ==> '\0' !in d.value)
    modifies speller
    ensures speller.Valid()
    ensures ok <==>
      && d.Some? && d.value != "" && d.value[0] != '+' && d.value[0] != '-'
      && var dn := old(Respelled(speller, d));
         dn.Spelled? && dn.path in fs.stats && fs.stats[dn.path].kind == Directory
    ensures !ok ==> done == [] && recorded == []
    ensures ok ==>
      var start := old(Respelled(speller, d)).path;
      var o := flags.(dev := fs.stats[start].dev);
      && OpenedExactly(fs, o, start, done) && RecordedExactly(fs, o, start, done, recorded)
      && Saves(FileSystem.Meaning(speller.fs, d.value), FileSystem.Meaning(speller.fs, start), 0)
  {
    hide OpenedExactly, RecordedExactly, Sane, PathSpeller.Spell, Saves;
    ok, done, recorded := false, [], [];
    if d.None? || |d.value| == 0 || d.value[0] == '+' || d.value[0] == '-' {
      return;
    }
    ghost var sx := |speller.stk|;
    var dn := speller.Spell(d.value);
    if !dn.Spelled? {
      return;
    }
    SpellKeepsMeaning(speller.fs, speller.klim, d.value, sx);
    if dn.path !in fs.stats {
      return;
    }
    var sb := fs.stats[dn.path];
    if sb.kind != Directory {
      return;
    }
    var walker := new Walker(fs, flags.(dev := sb.dev));
    walker.Walk(dn.path);
    return true, walker.done, walker.recorded;
  }

  /** Without -x, what is recorded is what is not a link and on the start's device. */
  lemma PlainWalk(fs: Answers, o: Options, p: string, e: Entry)
    requires !o.overFileSystems && !o.overLinks
    ensures Records(fs, o, p, e) <==>
            && Proper(e) && Join(p, e.name) in fs.lstats && fs.lstats[Join(p, e.name)].dev == o.dev
            && fs.lstats[Join(p, e.name)].kind != Link
    ensures Enters(fs, o, p, e) <==>
            Records(fs, o, p, e) && o.descend && fs.lstats[Join(p, e.name)].kind == Directory
  {
  }
}
