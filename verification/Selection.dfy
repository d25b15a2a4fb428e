/** The selection engine: include and exclude lists, the early tests
    is_proc_excl() and is_cmd_excl(), and the choice of files. */
module Selection {

  datatype Flag = CMD | CNTX | FD | NA | NET | NFS | NLINK | NM | PGID | PID | UID | UNX | ZONE | TASK

  const IDS: set<Flag> := {PGID, PID, UID, TASK}

  /** SELALL, less SELTASK when tasks are ignored */
  function SelAll(ignoreTasks: bool): set<Flag> {
    {CMD, CNTX, FD, NA, NET, NM, NFS, PID, UID, UNX, ZONE} + if ignoreTasks then {} else {TASK}
  }

  datatype Id = Id(id: int, x: bool) // x: excluded

  /** A list of IDs with the counts of its included and excluded entries. */
  datatype IdTable = IdTable(sel: seq<Id>, incl: nat, excl: nat)

  datatype Cmd = Cmd(str: string, x: bool)

  datatype FdType = Numeric | Named(name: string)

  datatype FdRange = FdRange(ty: FdType, lo: int, hi: int)

  /** What lsof_freeze() fixes. */
  datatype Config = Config(pids: IdTable, pgids: IdTable, uids: IdTable, cmds: seq<Cmd>, regexes: seq<string -> bool>,
                           fds: seq<FdRange>, fdsExclude: bool, requested: set<Flag>, fand: bool, ignoreTasks: bool)
  {
    /** AllProc: nothing was requested. */
    predicate AllProc() {
      requested == {}
    }

    function Selflags(): set<Flag> {
      if AllProc() then SelAll(ignoreTasks) else requested
    }
  }

  datatype Proc = Proc(pid: int, pgid: int, uid: int, tid: int, cmd: string)

  /** A file: its descriptor, the selectors that the dialect found to match it, and SELEXCLF. */
  datatype File = File(ty: FdType, num: int, flags: set<Flag>, excluded: bool)

  // ----- The list invariants -----

  function Count(s: seq<Id>, x: bool): nat {
    if s == [] then 0 else Count(s[..|s| - 1], x) + if s[|s| - 1].x == x then 1 else 0
  }

  ghost predicate TableOk(t: IdTable) {
    && t.incl == Count(t.sel, false) && t.excl == Count(t.sel, true)
    && forall i, j | 0 <= i < j < |t.sel| :: t.sel[i].id != t.sel[j].id
  }

  predicate Has(s: seq<Id>, id: int, x: bool) {
    exists i | 0 <= i < |s| :: s[i] == Id(id, x)
  }

  predicate Includes(c: Config) {
    (exists i | 0 <= i < |c.cmds| :: !c.cmds[i].x) || c.regexes != []
  }

  /** A selector is requested exactly when its list has something to include. */
  ghost predicate Valid(c: Config) {
    && TableOk(c.pids) && TableOk(c.pgids) && TableOk(c.uids)
    && (PID in c.requested <==> c.pids.incl > 0)
    && (PGID in c.requested <==> c.pgids.incl > 0)
    && (UID in c.requested <==> c.uids.incl > 0)
    && (CMD in c.requested <==> Includes(c))
    && (FD in c.requested <==> c.fds != [])
  }

  /** The dialect marks a file only with selectors that were requested. */
  predicate FileOk(c: Config, f: File) {
    f.flags <= c.Selflags() - IDS - {CMD, FD}
  }

  // ----- The intended rule -----

  predicate Excluded(c: Config, p: Proc) {
    || Has(c.uids.sel, p.uid, true) || Has(c.pgids.sel, p.pgid, true) || Has(c.pids.sel, p.pid, true)
    || exists i | 0 <= i < |c.cmds| :: c.cmds[i].x && c.cmds[i].str <= p.cmd
  }

  function IdMatch(c: Config, p: Proc): set<Flag> {
    (if Has(c.pgids.sel, p.pgid, false) then {PGID} else {}) +
    (if Has(c.pids.sel, p.pid, false) then {PID} else {}) +
    (if Has(c.uids.sel, p.uid, false) then {UID} else {}) +
    (if TASK in c.requested && p.tid != 0 then {TASK} else {})
  }

  predicate CmdMatch(c: Config, p: Proc) {
    || (exists i | 0 <= i < |c.cmds| :: !c.cmds[i].x && c.cmds[i].str <= p.cmd)
    || (exists i | 0 <= i < |c.regexes| :: c.regexes[i](p.cmd))
  }

  predicate Covers(r: FdRange, f: File) {
    r.ty == f.ty && (f.ty.Numeric? ==> r.lo <= f.num <= r.hi)
  }

  predicate InFds(c: Config, f: File) {
    exists i | 0 <= i < |c.fds| :: Covers(c.fds[i], f)
  }

  predicate FdMatch(c: Config, f: File) {
    c.fds != [] && !(f.ty.Numeric? && f.num < 0) && InFds(c, f) != c.fdsExclude
  }

  /** The requested selectors that match the file or its process. */
  function Matched(c: Config, p: Proc, f: File): set<Flag> {
    IdMatch(c, p) + (if CmdMatch(c, p) then {CMD} else {}) + (if FdMatch(c, f) then {FD} else {}) + f.flags
  }

  /** Not excluded, and without -a any match, with -a all of them. */
  predicate Rule(c: Config, p: Proc, f: File) {
    && !Excluded(c, p) && !f.excluded
    && (c.AllProc() || if c.fand then c.requested <= Matched(c, p, f) else Matched(c, p, f) != {})
  }

  // ----- Counted scans -----

  lemma {:induction false} CountCat(a: seq<Id>, b: seq<Id>, x: bool)
    ensures Count(a + b, x) == Count(a, x) + Count(b, x)
  {
    if b == [] {
      assert a + b == a;
    } else {
      assert (a + b)[..|a + b| - 1] == a + b[..|b| - 1];
      CountCat(a, b[..|b| - 1], x);
    }
  }

  lemma {:induction false} CountNone(s: seq<Id>, x: bool)
    ensures Count(s, x) == 0 <==> forall i | 0 <= i < |s| :: s[i].x != x
  {
    if s != [] { CountNone(s[..|s| - 1], x); }
  }

  /** Once every counted entry has been seen, none is left. */
  lemma SeenAll(s: seq<Id>, i: nat, x: bool)
    requires i <= |s| && Count(s[..i], x) >= Count(s, x)
    ensures forall h | i <= h < |s| :: s[h].x != x
  {
    assert s == s[..i] + s[i..];
    CountCat(s[..i], s[i..], x);
    CountNone(s[i..], x);
    forall h | i <= h < |s| ensures s[h].x != x { assert s[i..][h - i] == s[h]; }
  }

  /** A scan for an included or excluded entry that stops at the count. */
  method Scan(t: IdTable, id: int, x: bool) returns (hit: bool)
    requires TableOk(t)
    ensures hit == Has(t.sel, id, x)
  {
    var n := if x then t.excl else t.incl;
    var i, j := 0, 0;
    while i < |t.sel| && j < n
      invariant 0 <= i <= |t.sel| && j == Count(t.sel[..i], x) && !Has(t.sel[..i], id, x)
    {
      assert t.sel[..i + 1][..i] == t.sel[..i];
      if t.sel[i].x == x {
        if t.sel[i].id == id {
          return true;
        }
        j := j + 1;
      }
      i := i + 1;
    }
    assert t.sel[..|t.sel|] == t.sel;
    SeenAll(t.sel, i, x);
    assert forall h | 0 <= h < i :: t.sel[..i][h] == t.sel[h];
    return false;
  }

  // ----- The early tests -----

  /** No file of the process can satisfy the rule. */
  ghost predicate Hopeless(c: Config, p: Proc) {
    !c.AllProc() &&
    if c.fand then !(c.requested * IDS <= IdMatch(c, p))
    else c.requested in {{PGID}, {PID}, {UID}} && IdMatch(c, p) == {}
  }

  /** is_proc_excl() */
  method IsProcExcl(c: Config, p: Proc) returns (excl: bool, pri: bool, sf: set<Flag>)
    requires Valid(c)
    ensures !excl ==> sf == (if c.AllProc() then c.Selflags() else IdMatch(c, p)) && pri == (sf != {})
    ensures !excl ==> !ListExcluded(c, p)
    ensures excl ==> ListExcluded(c, p) || Hopeless(c, p)
  {
    pri, sf := false, {};
    excl := AnyExcluded(c, p);
    if excl {
      return;
    }
    if c.AllProc() {
      return false, true, c.Selflags();
    }
    NotIncluded(c, p);
    if c.pgids.incl > 0 && PGID in c.requested {
      var hit := Scan(c.pgids, p.pgid, false);
      if hit {
        pri, sf := true, {PGID};
        if c.requested == {PGID} {
          return false, pri, sf;
        }
      }
      if c.requested == {PGID} && sf == {} {
        return true, pri, sf;
      }
    }
    if c.pids.incl > 0 && PID in c.requested {
      var hit := Scan(c.pids, p.pid, false);
      if hit {
        pri, sf := true, sf + {PID};
        if c.requested == {PID} {
          return false, pri, sf;
        }
      }
      if c.requested == {PID} && sf == {} {
        return true, pri, sf;
      }
    }
    if c.uids.incl > 0 && UID in c.requested {
      var hit := Scan(c.uids, p.uid, false);
      if hit {
        pri, sf := true, sf + {UID};
        if c.requested == {UID} {
          return false, pri, sf;
        }
      }
      if c.requested == {UID} && UID !in sf {
        return true, pri, sf;
      }
    }
    if TASK in c.requested && p.tid != 0 {
      pri, sf := true, sf + {TASK};
      if c.requested == {TASK} || (c.fand && sf * c.requested == c.requested) {
        return false, pri, sf;
      }
    }
    assert sf == IdMatch(c, p);
    if sf == {} {
      return c.fand && c.requested * IDS != {}, pri, sf;
    }
    if c.requested * IDS != {} {
      return c.fand && c.requested * IDS != sf, pri, sf;
    }
    return c.fand, pri, sf;
  }

  predicate ListExcluded(c: Config, p: Proc) {
    Has(c.uids.sel, p.uid, true) || Has(c.pgids.sel, p.pgid, true) || Has(c.pids.sel, p.pid, true)
  }

  method AnyExcluded(c: Config, p: Proc) returns (excl: bool)
    requires Valid(c)
    ensures excl == ListExcluded(c, p)
  {
    if c.uids.excl > 0 {
      excl := Scan(c.uids, p.uid, true);
      if excl {
        return;
      }
    }
    NoneCounted(c.uids, p.uid, true);
    if c.pgids.excl > 0 {
      excl := Scan(c.pgids, p.pgid, true);
      if excl {
        return;
      }
    }
    NoneCounted(c.pgids, p.pgid, true);
    if c.pids.excl > 0 {
      excl := Scan(c.pids, p.pid, true);
      if excl {
        return;
      }
    }
    NoneCounted(c.pids, p.pid, true);
    return false;
  }

  lemma NoneCounted(t: IdTable, id: int, x: bool)
    requires TableOk(t)
    ensures (if x then t.excl else t.incl) == 0 ==> !Has(t.sel, id, x)
  {
    CountNone(t.sel, x);
  }

  lemma NotIncluded(c: Config, p: Proc)
    requires Valid(c)
    ensures IdMatch(c, p) <= c.requested * IDS
  {
    NoneCounted(c.pgids, p.pgid, false);
    NoneCounted(c.pids, p.pid, false);
    NoneCounted(c.uids, p.uid, false);
  }

  /** is_cmd_excl(), given what is_proc_excl() left */
  method IsCmdExcl(c: Config, p: Proc, pri: bool, sf: set<Flag>) returns (excl: bool, pri': bool, sf': set<Flag>)
    requires Valid(c)
    ensures excl <==> (exists i | 0 <= i < |c.cmds| :: c.cmds[i].x && c.cmds[i].str <= p.cmd)
                      || (CMD in c.Selflags() && !CmdMatch(c, p) && (c.Selflags() == {CMD} || c.fand))
    ensures !excl ==> sf' == sf + (if CmdMatch(c, p) && CMD in c.Selflags() then {CMD} else {})
    ensures !excl ==> pri' == (pri || (CmdMatch(c, p) && CMD in c.Selflags()))
  {
    pri', sf' := pri, sf;
    var hit := PrefixHit(c.cmds, p.cmd, true);
    if hit {
      return true, pri', sf';
    }
    if CMD !in c.Selflags() {
      return false, pri', sf';
    }
    hit := PrefixHit(c.cmds, p.cmd, false);
    if !hit {
      hit := RegexHit(c.regexes, p.cmd);
    }
    if hit {
      return false, true, sf + {CMD};
    }
    if c.Selflags() == {CMD} {
      return true, pri', sf';
    }
    return c.fand, pri', sf';
  }

  method PrefixHit(cmds: seq<Cmd>, cmd: string, x: bool) returns (hit: bool)
    ensures hit <==> exists i | 0 <= i < |cmds| :: cmds[i].x == x && cmds[i].str <= cmd
  {
    var i := 0;
    while i < |cmds|
      invariant 0 <= i <= |cmds| && !exists h | 0 <= h < i :: cmds[h].x == x && cmds[h].str <= cmd
    {
      if cmds[i].x == x && cmds[i].str <= cmd {
        return true;
      }
      i := i + 1;
    }
    return false;
  }

  method RegexHit(rs: seq<string -> bool>, cmd: string) returns (hit: bool)
    ensures hit <==> exists i | 0 <= i < |rs| :: rs[i](cmd)
  {
    var i := 0;
    while i < |rs|
      invariant 0 <= i <= |rs| && !exists h | 0 <= h < i :: rs[h](cmd)
    {
      if rs[i](cmd) {
        return true;
      }
      i := i + 1;
    }
    return false;
  }

  // ----- Files -----

  /** ck_fd_status(): 0 neither, 1 excluded, 2 included */
  method CkFdStatus(c: Config, f: File) returns (r: nat)
    ensures r == if c.fds == [] || (f.ty.Numeric? && f.num < 0) || !InFds(c, f) then 0 else if c.fdsExclude then 1 else 2
  {
    if c.fds == [] || (f.ty.Numeric? && f.num < 0) {
      return 0;
    }
    var i := 0;
    while i < |c.fds|
      invariant 0 <= i <= |c.fds| && !exists h | 0 <= h < i :: Covers(c.fds[h], f)
    {
      if Covers(c.fds[i], f) {
        return if c.fdsExclude then 1 else 2;
      }
      i := i + 1;
    }
    return 0;
  }

  /** alloc_lfile(): what a file inherits, and its descriptor selection; then
      the dialect adds its marks. */
  method FileFlags(c: Config, f: File, pri: bool, sf: set<Flag>) returns (fsf: set<Flag>)
    ensures fsf == (if pri then sf else {}) + (if FdMatch(c, f) then {FD} else {}) + f.flags
  {
    fsf := if pri then sf else {};
    if c.fds != [] && !(f.ty.Numeric? && f.num < 0) {
      var st := CkFdStatus(c, f);
      if (!c.fdsExclude && st == 2) || (c.fdsExclude && st != 1) {
        fsf := fsf + {FD};
      }
    }
    fsf := fsf + f.flags;
  }

  /** is_file_sel() */
  predicate IsFileSel(c: Config, f: File, fsf: set<Flag>) {
    && fsf != {} && !f.excluded
    && (c.AllProc() || !c.fand || fsf * c.Selflags() == c.Selflags())
  }

  /** What matches was requested. */
  lemma OnlyRequested(c: Config, p: Proc, f: File)
    requires Valid(c) && FileOk(c, f)
    ensures IdMatch(c, p) <= c.requested * IDS && (CmdMatch(c, p) ==> CMD in c.requested)
    ensures FdMatch(c, f) ==> FD in c.requested
    ensures !c.AllProc() ==> Matched(c, p, f) <= c.requested
    ensures !c.AllProc() && Hopeless(c, p) ==> !Rule(c, p, f)
  {
    NotIncluded(c, p);
    if !c.AllProc() && Hopeless(c, p) && c.fand {
      var x :| x in c.requested * IDS && x !in IdMatch(c, p);
      assert x !in Matched(c, p, f);
    }
  }

  /**
   * From the process tests to the listing of one file.  The file is listed
   * exactly when the rule says so, except that -a with nothing requested,
   * which the library interface permits, lists nothing at all.
   */
  method Listed(c: Config, p: Proc, f: File) returns (listed: bool)
    requires Valid(c) && FileOk(c, f)
    ensures listed <==> Rule(c, p, f) && !(c.AllProc() && c.fand)
  {
    OnlyRequested(c, p, f);
    var excl, pri, sf := IsProcExcl(c, p);
    if !excl {
      excl, pri, sf := IsCmdExcl(c, p, pri, sf);
    }
    if excl {
      return false;
    }
    var fsf := FileFlags(c, f, pri, sf);
    listed := IsFileSel(c, f, fsf);
  }

  /** The exception is real: with nothing requested and -a, the rule would list
      every file, this one among them. */
  lemma AndOfNothing()
    ensures
      var c := Config(IdTable([], 0, 0), IdTable([], 0, 0), IdTable([], 0, 0), [], [], [], false, {}, true, true);
      var f := File(Numeric, 0, {}, false);
      Valid(c) && FileOk(c, f) && Rule(c, Proc(1, 1, 0, 0, "init"), f) && c.AllProc() && c.fand
  {
  }
}
