/** Building the selection lists, freezing them, and stopping a gather early. */
module Gathering {
  import opened Common
  import opened Selection

  /** lsof_select_pid_pgid() and lsof_select_uid_login() on a list: an ID
      already there is left alone, or is a conflict. */
  method AddId(t: IdTable, id: int, exclude: bool) returns (ok: bool, t': IdTable)
    requires TableOk(t)
    ensures TableOk(t') && (t'.incl > 0 <==> t.incl > 0 || (ok && !exclude))
    ensures ok <==> !Has(t.sel, id, !exclude)
    ensures t'.sel == if ok && !Has(t.sel, id, exclude) then t.sel + [Id(id, exclude)] else t.sel
  {
    var i := 0;
    while i < |t.sel|
      invariant 0 <= i <= |t.sel| && forall h | 0 <= h < i :: t.sel[h].id != id
    {
      if t.sel[i].id == id {
        InclCount(t);
        return t.sel[i].x == exclude, t;
      }
      i := i + 1;
    }
    var s := t.sel + [Id(id, exclude)];
    assert s[..|s| - 1] == t.sel;
    return true, IdTable(s, if exclude then t.incl else t.incl + 1, if exclude then t.excl + 1 else t.excl);
  }

  /** A list that has an included entry says so in its count. */
  lemma InclCount(t: IdTable)
    requires TableOk(t)
    ensures t.incl > 0 <==> exists i | 0 <= i < |t.sel| :: !t.sel[i].x
  {
    CountNone(t.sel, false);
  }

  ghost predicate SomeIncluded(cmds: seq<Cmd>) {
    exists i | 0 <= i < |cmds| :: !cmds[i].x
  }

  predicate SameFd(a: FdRange, b: FdRange) {
    a.ty == b.ty && (a.ty.Numeric? ==> a.lo == b.lo && a.hi == b.hi)
  }

  predicate HasFd(fds: seq<FdRange>, r: FdRange) {
    exists i | 0 <= i < |fds| :: SameFd(fds[i], r)
  }

  predicate AnyCovers(fds: seq<FdRange>, f: File) {
    exists i | 0 <= i < |fds| :: Covers(fds[i], f)
  }

  /** Ranges that count as the same cover the same descriptors. */
  lemma SameCover(a: FdRange, b: FdRange, f: File)
    requires SameFd(a, b)
    ensures Covers(a, f) <==> Covers(b, f)
  {
  }

  lemma OneMoreCovers(r: FdRange, fds: seq<FdRange>, f: File)
    ensures AnyCovers([r] + fds, f) <==> AnyCovers(fds, f) || Covers(r, f)
  {
    if Covers(r, f) { assert ([r] + fds)[0] == r; }
    if AnyCovers(fds, f) {
      var i :| 0 <= i < |fds| && Covers(fds[i], f);
      assert ([r] + fds)[i + 1] == fds[i];
    }
  }

  /** The context while options are being entered. */
  class Context {
    var pids: IdTable
    var pgids: IdTable
    var uids: IdTable
    var cmds: seq<Cmd>
    var regexes: seq<string -> bool>
    var fds: seq<FdRange>           // Fdl
    var fdsExclude: Option<bool>    // FdlTy, none before the first entry
    var requested: set<Flag> // Selflags
    var npuns: int
    var frozen: bool

    ghost predicate Ok()
      reads this
    {
      && TableOk(pids) && TableOk(pgids) && TableOk(uids)
      && (PID in requested <==> pids.incl > 0)
      && (PGID in requested <==> pgids.incl > 0)
      && (UID in requested <==> uids.incl > 0)
      && (CMD in requested <==> SomeIncluded(cmds) || regexes != [])
      && (fds != [] <==> fdsExclude.Some?)
      && FD !in requested && npuns == |pids.sel|
    }

    constructor ()
      ensures Ok() && requested == {} && !frozen
    {
      pids, pgids, uids := IdTable([], 0, 0), IdTable([], 0, 0), IdTable([], 0, 0);
      cmds, regexes, fds, fdsExclude, requested, npuns, frozen := [], [], [], None, {}, 0, false;
    }

    /** lsof_select_pid() */
    method SelectPid(id: int, exclude: bool) returns (ok: bool)
      requires Ok()
      modifies this`pids, this`requested, this`npuns
      ensures Ok()
      ensures ok <==> !frozen && !Has(old(pids.sel), id, !exclude)
      ensures pids.sel == if ok && !Has(old(pids.sel), id, exclude) then old(pids.sel) + [Id(id, exclude)] else old(pids.sel)
    {
      hide TableOk, Has, SomeIncluded;
      ok := false;
      if !frozen {
        ok, pids := AddId(pids, id, exclude);
        if ok && !exclude {
          requested := requested + {PID};
        }
        npuns := |pids.sel|;
      }
    }

    /** lsof_select_pgid() */
    method SelectPgid(id: int, exclude: bool) returns (ok: bool)
      requires Ok()
      modifies this`pgids, this`requested
      ensures Ok()
      ensures ok <==> !frozen && !Has(old(pgids.sel), id, !exclude)
      ensures pgids.sel == if ok && !Has(old(pgids.sel), id, exclude) then old(pgids.sel) + [Id(id, exclude)] else old(pgids.sel)
    {
      hide TableOk, Has, SomeIncluded;
      ok := false;
      if !frozen {
        ok, pgids := AddId(pgids, id, exclude);
        if ok && !exclude {
          requested := requested + {PGID};
        }
      }
    }

    /** lsof_select_uid() and lsof_select_login() */
    method SelectUid(id: int, exclude: bool) returns (ok: bool)
      requires Ok()
      modifies this`uids, this`requested
      ensures Ok()
      ensures ok <==> !frozen && !Has(old(uids.sel), id, !exclude)
      ensures uids.sel == if ok && !Has(old(uids.sel), id, exclude) then old(uids.sel) + [Id(id, exclude)] else old(uids.sel)
    {
      hide TableOk, Has, SomeIncluded;
      ok := false;
      if !frozen {
        ok, uids := AddId(uids, id, exclude);
        if ok && !exclude {
          requested := requested + {UID};
        }
      }
    }

    /** lsof_select_process() */
    method SelectCommand(command: string, exclude: bool) returns (ok: bool)
      requires Ok()
      modifies this`cmds, this`requested
      ensures Ok()
      ensures ok <==> !frozen && Cmd(command, !exclude) !in old(cmds)
      ensures cmds == (if ok then [Cmd(command, exclude)] else []) + old(cmds)
    {
      if frozen {
        return false;
      }
      var i := 0;
      while i < |cmds|
        invariant 0 <= i <= |cmds| && Cmd(command, !exclude) !in cmds[..i]
      {
        if cmds[i].x != exclude && cmds[i].str == command {
          return false;
        }
        i := i + 1;
      }
      assert cmds[..i] == cmds;
      ghost var before := cmds;
      cmds := [Cmd(command, exclude)] + cmds;
      assert cmds[0] == Cmd(command, exclude) && forall i | 0 <= i < |before| :: cmds[i + 1] == before[i];
      if !exclude {
        requested := requested + {CMD};
      }
      return true;
    }

    /** lsof_select_process_regex(), given what regcomp() made of the expression */
    method SelectRegex(compiled: Option<string -> bool>) returns (ok: bool)
      requires Ok()
      modifies this`regexes, this`requested
      ensures Ok()
      ensures ok <==> !frozen && compiled.Some?
      ensures regexes == if ok then old(regexes) + [compiled.value] else old(regexes)
    {
      hide TableOk, SomeIncluded;
      ok := !frozen && compiled.Some?;
      if ok {
        regexes := regexes + [compiled.value];
        requested := requested + {CMD};
      }
    }

    /** enter_fd_lst(): no mixture of inclusion and exclusion, and no duplicates */
    method SelectFd(r: FdRange, exclude: bool) returns (ok: bool)
      requires Ok()
      modifies this`fds, this`fdsExclude
      ensures Ok()
      ensures ok <==> old(fdsExclude) == None || old(fdsExclude) == Some(exclude)
      ensures fds == if ok && !HasFd(old(fds), r) then [r] + old(fds) else old(fds)
      ensures ok ==> fdsExclude == Some(exclude)
      ensures !ok ==> fdsExclude == old(fdsExclude)
      ensures ok ==> forall f: File :: AnyCovers(fds, f) <==> AnyCovers(old(fds), f) || Covers(r, f)
    {
      hide TableOk, SomeIncluded, Covers;
      if fdsExclude.Some? && fdsExclude.value != exclude {
        return false;
      }
      var i := 0;
      while i < |fds|
        invariant 0 <= i <= |fds| && forall h | 0 <= h < i :: !SameFd(fds[h], r)
      {
        if SameFd(fds[i], r) {
          forall f: File ensures Covers(fds[i], f) <==> Covers(r, f) { SameCover(fds[i], r, f); }
          return true;
        }
        i := i + 1;
      }
      forall f: File ensures AnyCovers([r] + fds, f) <==> AnyCovers(fds, f) || Covers(r, f) { OneMoreCovers(r, fds, f); }
      fds, fdsExclude := [r] + fds, Some(exclude);
      return true;
    }

    /** The descriptor flag of the command line, then lsof_freeze(): whatever was
        entered, the engine's list invariants hold. */
    method Freeze(fand: bool, others: set<Flag>, ignoreTasks: bool) returns (r: Option<Config>)
      requires (!frozen ==> Ok()) && others !! {PID, PGID, UID, CMD, FD}
      modifies this
      ensures frozen && (r.None? <==> old(frozen)) && (r.None? ==> requested == old(requested))
      ensures r.Some? ==>
        var c := r.value;
        && Valid(c) && c.pids == old(pids) && c.pgids == old(pgids) && c.uids == old(uids)
        && c.cmds == old(cmds) && c.regexes == old(regexes) && c.fds == old(fds) && c.fand == fand
        && (c.fds != [] ==> old(fdsExclude) == Some(c.fdsExclude))
        && c.requested == old(requested) + others + if c.fds != [] then {FD} else {}
    {
      if frozen {
        return None;
      }
      frozen := true;
      if fds != [] {
        requested := requested + {FD};
      }
      r := Some(Config(pids, pgids, uids, cmds, regexes, fds, fdsExclude.Some? && fdsExclude.value, requested + others,
                       fand, ignoreTasks));
    }
  }

  // ----- The early stop of a gather -----

  /** examine_lproc() where only PID selection limits the listing: the count
      after a process, and whether it is the last. */
  function Examine(npuns: int, selected: bool): (int, bool) {
    if selected then (npuns - 1, npuns - 1 == 0) else (npuns, false)
  }

  /** How many of the processes presented a gather looks at. */
  function Looked(npuns: int, incl: set<int>, pids: seq<int>): (n: nat)
    ensures n <= |pids|
    decreases |pids|
  {
    if pids == [] then 0
    else
      var (k, last) := Examine(npuns, pids[0] in incl);
      if last then 1 else 1 + Looked(k, incl, pids[1..])
  }

  /** No selected process comes after the last one looked at. */
  ghost predicate NothingMissed(npuns: int, incl: set<int>, pids: seq<int>) {
    forall i | Looked(npuns, incl, pids) <= i < |pids| :: pids[i] !in incl
  }

  lemma {:induction false} LookedIgnores(npuns: int, incl: set<int>, pids: seq<int>, p: int)
    requires p !in pids
    ensures Looked(npuns, incl, pids) == Looked(npuns, incl - {p}, pids)
    decreases |pids|
  {
    if pids != [] {
      LookedIgnores(Examine(npuns, pids[0] in incl).0, incl, pids[1..], p);
    }
  }

  lemma {:induction false} EnoughIsSafe(npuns: int, incl: set<int>, pids: seq<int>)
    requires Distinct(pids) && npuns >= |incl|
    ensures NothingMissed(npuns, incl, pids)
    decreases |pids|
  {
    if pids != [] {
      var p, rest := pids[0], pids[1..];
      assert p !in rest;
      if p in incl {
        EnoughIsSafe(npuns - 1, incl - {p}, rest);
        LookedIgnores(npuns - 1, incl, rest, p);
        forall i | Looked(npuns, incl, pids) <= i < |pids| ensures pids[i] !in incl {
          assert pids[i] == rest[i - 1];
          if npuns - 1 == 0 { assert |incl - {p}| == 0; }
        }
      } else {
        EnoughIsSafe(npuns, incl, rest);
        assert forall i | 1 <= i < |pids| :: pids[i] == rest[i - 1];
      }
    }
  }

  lemma {:induction false} NegativeNeverStops(npuns: int, incl: set<int>, pids: seq<int>)
    requires npuns <= 0
    ensures Looked(npuns, incl, pids) == |pids|
    decreases |pids|
  {
    if pids != [] { NegativeNeverStops(Examine(npuns, pids[0] in incl).0, incl, pids[1..]); }
  }

  /** The PIDs of a list */
  function Ids(q: seq<int>): set<int> {
    set p | p in q
  }

  lemma {:induction false} IdsCount(q: seq<int>)
    requires Distinct(q)
    ensures |Ids(q)| == |q|
  {
    if q != [] {
      IdsCount(q[1..]);
      assert q[0] !in q[1..] && Ids(q) == {q[0]} + Ids(q[1..]);
    }
  }

  lemma {:induction false} StopsShort(npuns: int, incl: set<int>, pids: seq<int>)
    requires 0 < npuns <= |pids| && forall i | 0 <= i < |pids| :: pids[i] in incl
    ensures Looked(npuns, incl, pids) == npuns
    decreases |pids|
  {
    if npuns > 1 {
      assert forall i | 0 <= i < |pids| - 1 :: pids[1..][i] == pids[i + 1];
      StopsShort(npuns - 1, incl, pids[1..]);
    }
  }

  /**
   * A gather that starts with `npuns` never stops before the last process on
   * the list `q`, whatever distinct PIDs it is presented, exactly if the count
   * has run out or is at least the length of the list.
   */
  lemma SafeExactlyWhen(npuns: int, q: seq<int>)
    requires Distinct(q)
    ensures (forall pids | Distinct(pids) :: NothingMissed(npuns, Ids(q), pids)) <==> npuns <= 0 || npuns >= |q|
  {
    IdsCount(q);
    if npuns <= 0 || npuns >= |q| {
      forall pids | Distinct(pids) ensures NothingMissed(npuns, Ids(q), pids) {
        if npuns <= 0 { NegativeNeverStops(npuns, Ids(q), pids); } else { EnoughIsSafe(npuns, Ids(q), pids); }
      }
    } else {
      StopsShort(npuns, Ids(q), q);
      assert !NothingMissed(npuns, Ids(q), q) by { assert q[npuns] in Ids(q); }
    }
  }

  /** The count a gather leaves behind */
  function Left(npuns: int, incl: set<int>, pids: seq<int>): int
    decreases |pids|
  {
    if pids == [] then npuns
    else
      var (k, last) := Examine(npuns, pids[0] in incl);
      if last then k else Left(k, incl, pids[1..])
  }

  lemma {:induction false} LeftIgnores(npuns: int, incl: set<int>, pids: seq<int>, p: int)
    requires p !in pids
    ensures Left(npuns, incl, pids) == Left(npuns, incl - {p}, pids)
    decreases |pids|
  {
    if pids != [] {
      LeftIgnores(Examine(npuns, pids[0] in incl).0, incl, pids[1..], p);
    }
  }

  lemma DistinctTail(pids: seq<int>)
    requires pids != [] && Distinct(pids)
    ensures pids[0] !in pids[1..] && Distinct(pids[1..])
  {
  }

  /** The list PIDs among those presented, one by one */
  lemma MetStep(incl: set<int>, pids: seq<int>)
    requires pids != [] && Distinct(pids)
    ensures pids[0] !in pids[1..] && Distinct(pids[1..])
    ensures |incl * Ids(pids)| ==
            if pids[0] in incl then 1 + |(incl - {pids[0]}) * Ids(pids[1..])| else |incl * Ids(pids[1..])|
  {
    hide Distinct;
    var p, rest := pids[0], pids[1..];
    DistinctTail(pids);
    assert Ids(pids) == {p} + Ids(rest);
    if p in incl {
      var s := (incl - {p}) * Ids(rest);
      assert incl * Ids(pids) == {p} + s && p !in s;
    } else {
      assert incl * Ids(pids) == incl * Ids(rest);
    }
  }

  /** A gather with a sufficient count takes off it the number of list PIDs it met. */
  lemma {:induction false} LeftIs(npuns: int, incl: set<int>, pids: seq<int>)
    requires Distinct(pids) && npuns >= |incl|
    ensures Left(npuns, incl, pids) == npuns - |incl * Ids(pids)|
    decreases |pids|
  {
    hide Ids, Distinct;
    if pids == [] {
      NoIds(incl, pids);
    } else {
      var p, rest := pids[0], pids[1..];
      MetStep(incl, pids);
      if p in incl {
        assert |incl - {p}| == |incl| - 1;
        LeftIs(npuns - 1, incl - {p}, rest);
        LeftIgnores(npuns - 1, incl, rest, p);
        if npuns == 1 { NoneLeft(incl - {p}, Ids(rest)); }
      } else {
        LeftIs(npuns, incl, rest);
      }
    }
  }

  lemma NoIds(incl: set<int>, pids: seq<int>)
    requires pids == []
    ensures |incl * Ids(pids)| == 0
  {
    assert incl * Ids(pids) == {};
  }

  lemma NoneLeft(a: set<int>, b: set<int>)
    requires |a| == 0
    ensures |a * b| == 0
  {
    assert a * b == {};
  }

  /** What the list of PIDs includes */
  function Included(s: seq<Id>): (q: seq<int>)
    ensures |q| == Count(s, false) && forall p :: p in q <==> Has(s, p, false)
  {
    if s == [] then []
    else
      var front, e := s[..|s| - 1], s[|s| - 1];
      assert s == front + [e];
      Included(front) + if e.x then [] else [e.id]
  }

  lemma {:induction false} IncludedDistinct(s: seq<Id>)
    requires forall i, j | 0 <= i < j < |s| :: s[i].id != s[j].id
    ensures Distinct(Included(s)) && |Included(s)| <= |s|
  {
    if s != [] {
      var front, e := s[..|s| - 1], s[|s| - 1];
      IncludedDistinct(front);
      assert e.id !in Included(front) by { assert !Has(front, e.id, false); }
    }
  }

  /** The first gather starts with the length of the list, its excluded entries
      included, and misses nothing. */
  lemma FirstGather(t: IdTable, pids: seq<int>)
    requires TableOk(t) && Distinct(pids)
    ensures NothingMissed(|t.sel|, Ids(Included(t.sel)), pids)
  {
    IncludedDistinct(t.sel);
    IdsCount(Included(t.sel));
    EnoughIsSafe(|t.sel|, Ids(Included(t.sel)), pids);
  }

  /**
   * The count is not restored.  After a first gather over `pids`, a second one
   * misses nothing, whatever it is presented, if and only if the first met no
   * more listed PIDs than there are excluded entries, or all of them with no
   * excluded entry to spare.
   */
  lemma SecondGather(t: IdTable, pids: seq<int>)
    requires TableOk(t) && Distinct(pids)
    ensures
      var incl := Ids(Included(t.sel));
      var met := |incl * Ids(pids)|;
      (forall next | Distinct(next) :: NothingMissed(Left(|t.sel|, incl, pids), incl, next)) <==>
      met <= t.excl || (t.excl == 0 && incl <= Ids(pids))
  {
    var q := Included(t.sel);
    var incl := Ids(q);
    IncludedDistinct(t.sel);
    IdsCount(q);
    CountBoth(t.sel);
    LeftIs(|t.sel|, incl, pids);
    SafeExactlyWhen(Left(|t.sel|, incl, pids), q);
    AllMet(incl, Ids(pids));
  }

  lemma AllMet(a: set<int>, b: set<int>)
    ensures |a * b| <= |a| && (|a * b| == |a| <==> a <= b)
  {
    var c := a - b;
    assert a == a * b + c && |a| == |a * b| + |c|;
    if a <= b { assert c == {}; }
    if |c| == 0 { assert c == {}; }
  }

  lemma {:induction false} CountBoth(s: seq<Id>)
    ensures Count(s, false) + Count(s, true) == |s|
  {
    if s != [] { CountBoth(s[..|s| - 1]); }
  }

  /** Without exclusions: the first gather must have met none of the list or all of it. */
  lemma SecondGatherPlain(t: IdTable, pids: seq<int>)
    requires TableOk(t) && Distinct(pids) && t.excl == 0
    ensures
      var incl := Ids(Included(t.sel));
      (forall next | Distinct(next) :: NothingMissed(Left(|t.sel|, incl, pids), incl, next)) <==>
      incl * Ids(pids) == {} || incl <= Ids(pids)
  {
    SecondGather(t, pids);
    var met := Ids(Included(t.sel)) * Ids(pids);
    assert |met| == 0 <==> met == {};
  }

  /** Two gathers in a row, the second of which misses process 2: it did not
      exist in the first. */
  lemma SecondGatherMisses()
    ensures var incl, first, second := {1, 2}, [1], [1, 2];
            NothingMissed(2, incl, first) && !NothingMissed(Left(2, incl, first), incl, second)
  {
    assert Looked(2, {1, 2}, [1]) == 1;
    assert Left(2, {1, 2}, [1]) == 1 by { assert [1][1..] == []; }
    assert Looked(1, {1, 2}, [1, 2]) == 1;
    assert [1, 2][1] in {1, 2};
  }
}
