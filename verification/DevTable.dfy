/** The device table: the order of compdev(), the removal of duplicates by
    rmdupdev(), and the clone list that must follow it. */
module DevTable {
  import opened Common

  datatype Dev = Dev(rdev: nat, inode: nat, name: string)

  predicate SameKey(a: Dev, b: Dev) {
    a.rdev == b.rdev && a.inode == b.inode
  }

  predicate KeyLess(a: Dev, b: Dev) {
    a.rdev < b.rdev || (a.rdev == b.rdev && a.inode < b.inode)
  }

  /** strcmp(s, t) <= 0 */
  predicate NameLe(s: string, t: string) {
    s == "" || (t != "" && (s[0] < t[0] || (s[0] == t[0] && NameLe(s[1..], t[1..]))))
  }

  /** compdev(a, b) <= 0 */
  predicate DevLe(a: Dev, b: Dev) {
    KeyLess(a, b) || (SameKey(a, b) && NameLe(a.name, b.name))
  }

  lemma {:induction false} NameLeTotal(s: string, t: string)
    ensures NameLe(s, t) || NameLe(t, s)
    ensures NameLe(s, t) && NameLe(t, s) ==> s == t
  {
    if s != "" && t != "" && s[0] == t[0] {
      NameLeTotal(s[1..], t[1..]);
      assert s == [s[0]] + s[1..] && t == [t[0]] + t[1..];
    }
  }

  lemma {:induction false} NameLeTransitive(s: string, t: string, u: string)
    requires NameLe(s, t) && NameLe(t, u)
    ensures NameLe(s, u)
  {
    if s != "" && s[0] == t[0] == u[0] { NameLeTransitive(s[1..], t[1..], u[1..]); }
  }

  /** compdev() is a total order, so qsort() leaves one arrangement. */
  lemma DevLeIsOrder(a: Dev, b: Dev, c: Dev)
    ensures DevLe(a, b) || DevLe(b, a)
    ensures DevLe(a, b) && DevLe(b, a) ==> a == b
    ensures DevLe(a, b) && DevLe(b, c) ==> DevLe(a, c)
  {
    NameLeTotal(a.name, b.name);
    if NameLe(a.name, b.name) && NameLe(b.name, c.name) { NameLeTransitive(a.name, b.name, c.name); }
  }

  /** Pointers into the table `t`, as numbers. */
  predicate Points(t: seq<Dev>, p: seq<nat>) {
    forall i | 0 <= i < |p| :: p[i] < |t|
  }

  /** What qsort() with compdev() leaves. */
  predicate Sorted(t: seq<Dev>, p: seq<nat>)
    requires Points(t, p)
  {
    forall i, j | 0 <= i < j < |p| :: DevLe(t[p[i]], t[p[j]])
  }

  predicate Repeats(t: seq<Dev>, p: seq<nat>, i: nat)
    requires Points(t, p) && i < |p|
  {
    i > 0 && SameKey(t[p[i - 1]], t[p[i]])
  }

  /** The pointers that start a run of equal keys. */
  function Kept(t: seq<Dev>, p: seq<nat>): (r: seq<nat>)
    requires Points(t, p)
    ensures |r| <= |p| && Points(t, r)
  {
    if p == [] then []
    else Kept(t, p[..|p| - 1]) + if Repeats(t, p, |p| - 1) then [] else [p[|p| - 1]]
  }

  /** The clones whose devices stay. */
  function Without(c: seq<nat>, gone: set<nat>): seq<nat> {
    if c == [] then []
    else Without(c[..|c| - 1], gone) + if c[|c| - 1] in gone then [] else [c[|c| - 1]]
  }

  /** The pointers that repeat a key. */
  function Dropped(t: seq<Dev>, p: seq<nat>): set<nat>
    requires Points(t, p)
  {
    if p == [] then {}
    else
      var d := Dropped(t, p[..|p| - 1]);
      if Repeats(t, p, |p| - 1) then d + {p[|p| - 1]} else d
  }

  ghost predicate SameFrom(p: seq<nat>, q: seq<nat>, i: nat) {
    |p| == |q| && forall h | i <= h < |p| :: p[h] == q[h]
  }

  lemma {:induction false} WithoutDistinct(c: seq<nat>, gone: set<nat>)
    requires Distinct(c)
    ensures Distinct(Without(c, gone))
  {
    if c != [] {
      var a, z := c[..|c| - 1], c[|c| - 1];
      WithoutDistinct(a, gone);
      WithoutMembers(a, gone);
      assert z !in a;
    }
  }

  lemma SplitAt(l: seq<nat>, c: nat)
    requires c < |l|
    ensures l == l[..c] + [l[c]] + l[c + 1..]
  {
  }

  lemma UnlinkIs(l: seq<nat>, c: nat, dx: nat)
    requires Distinct(l) && c <= |l| && (forall i | 0 <= i < c :: l[i] != dx) && (c < |l| ==> l[c] == dx)
    ensures Without(l, {dx}) == if c < |l| then l[..c] + l[c + 1..] else l
  {
    if c < |l| {
      var a, b := l[..c], l[c + 1..];
      WithoutAbsent(a, {dx});
      WithoutAbsent(b, {dx});
      UnlinkAt(a, dx, b);
      SplitAt(l, c);
    } else {
      WithoutAbsent(l, {dx});
    }
  }

  lemma {:induction false} WithoutAbsent(c: seq<nat>, gone: set<nat>)
    requires forall i | 0 <= i < |c| :: c[i] !in gone
    ensures Without(c, gone) == c
  {
    if c != [] {
      WithoutAbsent(c[..|c| - 1], gone);
    }
  }

  lemma WithoutNone(c: seq<nat>)
    ensures Without(c, {}) == c
  {
    WithoutAbsent(c, {});
  }

  lemma {:induction false} WithoutCat(a: seq<nat>, b: seq<nat>, gone: set<nat>)
    ensures Without(a + b, gone) == Without(a, gone) + Without(b, gone)
  {
    if b == [] {
      assert a + b == a;
    } else {
      assert (a + b)[..|a + b| - 1] == a + b[..|b| - 1];
      WithoutCat(a, b[..|b| - 1], gone);
    }
  }

  lemma UnlinkAt(a: seq<nat>, dx: nat, b: seq<nat>)
    requires Without(a, {dx}) == a && Without(b, {dx}) == b
    ensures Without(a + [dx] + b, {dx}) == a + b
  {
    WithoutCat(a + [dx], b, {dx});
    assert (a + [dx])[..|a|] == a;
  }

  lemma {:induction false} WithoutMore(c: seq<nat>, gone: set<nat>, x: nat)
    ensures Without(Without(c, gone), {x}) == Without(c, gone + {x})
  {
    if c != [] {
      var a, z := c[..|c| - 1], c[|c| - 1];
      WithoutMore(a, gone, x);
      WithoutCat(Without(a, gone), if z in gone then [] else [z], {x});
    }
  }

  /** Reading one more pointer keeps it or drops it. */
  lemma KeptStep(t: seq<Dev>, p: seq<nat>, k: nat)
    requires Points(t, p) && k < |p|
    ensures Points(t, p[..k]) && Points(t, p[..k + 1])
    ensures Kept(t, p[..k + 1]) == Kept(t, p[..k]) + if Repeats(t, p, k) then [] else [p[k]]
    ensures Dropped(t, p[..k + 1]) == if Repeats(t, p, k) then Dropped(t, p[..k]) + {p[k]} else Dropped(t, p[..k])
  {
    assert p[..k + 1][..k] == p[..k];
  }

  lemma {:induction false} KeptFrom(t: seq<Dev>, p: seq<nat>)
    requires Points(t, p)
    ensures forall x | x in Kept(t, p) :: x in p
  {
    if p != [] { KeptFrom(t, p[..|p| - 1]); }
  }

  lemma DropStep(t: seq<Dev>, p: seq<nat>, k: nat, c: seq<nat>)
    requires Points(t, p) && k < |p| && Repeats(t, p, k)
    ensures Kept(t, p[..k + 1]) == Kept(t, p[..k])
    ensures Without(c, Dropped(t, p[..k + 1])) == Without(Without(c, Dropped(t, p[..k])), {p[k]})
  {
    KeptStep(t, p, k);
    WithoutMore(c, Dropped(t, p[..k]), p[k]);
  }

  class Table {
    var devtp: seq<Dev>
    var clone: seq<nat> // the Clone list: indices into devtp

    constructor (devtp: seq<Dev>, clone: seq<nat>)
      ensures this.devtp == devtp && this.clone == clone
    {
      this.devtp, this.clone := devtp, clone;
    }

    /** rmdupdev() on the pointers `p`, compacting them in place. */
    method RemoveDuplicates(p: array<nat>) returns (j: nat)
      requires Points(devtp, p[..]) && Distinct(clone)
      modifies p, this`clone
      ensures j <= p.Length && p[..j] == Kept(devtp, old(p[..]))
      ensures clone == Without(old(clone), Dropped(devtp, old(p[..])))
    {
      hide Without;
      ghost var p0 := p[..];
      var n := p.Length;
      var i := 0;
      j := 0;
      assert p0[..0] == [];
      WithoutNone(clone);
      while i < n
        invariant j <= i <= n && p[..j] == Kept(devtp, p0[..i]) && SameFrom(p[..], p0, i)
        invariant 0 < i < n ==> !Repeats(devtp, p0, i)
        invariant clone == Without(old(clone), Dropped(devtp, p0[..i]))
      {
        var k := SkipRun(p, i, p0, old(clone));
        ghost var kept := p[..j];
        p[j] := p[i];
        assert p[..j + 1] == kept + [p0[i]];
        j := j + 1;
        i := k;
      }
      assert p0[..n] == p0;
    }

    /** Passes the duplicates of pointer `i`, taking them off the clone list. */
    method SkipRun(p: array<nat>, i: nat, ghost p0: seq<nat>, ghost c0: seq<nat>) returns (k: nat)
      requires i < p.Length && SameFrom(p[..], p0, i) && Points(devtp, p0) && !Repeats(devtp, p0, i)
      requires Distinct(c0) && clone == Without(c0, Dropped(devtp, p0[..i]))
      modifies this`clone
      ensures i < k <= p.Length && (k < p.Length ==> !Repeats(devtp, p0, k))
      ensures Kept(devtp, p0[..k]) == Kept(devtp, p0[..i]) + [p0[i]]
      ensures clone == Without(c0, Dropped(devtp, p0[..k]))
    {
      hide Kept, Dropped, Without;
      k := i + 1;
      KeptStep(devtp, p0, i);
      while k < p.Length && SameKey(devtp[p[i]], devtp[p[k]])
        invariant i < k <= p.Length && SameKey(devtp[p0[i]], devtp[p0[k - 1]])
        invariant Kept(devtp, p0[..k]) == Kept(devtp, p0[..i]) + [p0[i]]
        invariant clone == Without(c0, Dropped(devtp, p0[..k]))
      {
        assert p[..][k] == p0[k] && p[..][i] == p0[i];
        DropStep(devtp, p0, k, c0);
        Unlink(p[k], c0, Dropped(devtp, p0[..k]));
        k := k + 1;
      }
    }

    /** Unlinks the first clone entry of device `dx`, if there is one. */
    method Unlink(dx: nat, ghost c0: seq<nat>, ghost gone: set<nat>)
      requires Distinct(c0) && clone == Without(c0, gone)
      modifies this`clone
      ensures clone == Without(old(clone), {dx})
    {
      var l, c := clone, 0;
      WithoutDistinct(c0, gone);
      while c < |l| && l[c] != dx
        invariant 0 <= c <= |l| && forall i | 0 <= i < c :: l[i] != dx
      {
        c := c + 1;
      }
      UnlinkIs(l, c, dx);
      if c < |l| {
        clone := l[..c] + l[c + 1..];
      }
    }
  }

  // ----- What the table is after sorting and rmdupdev() -----

  /** Strictly increasing (rdev, inode) pairs. */
  predicate Strict(d: seq<Dev>) {
    forall i, j | 0 <= i < j < |d| :: KeyLess(d[i], d[j])
  }

  function Select(t: seq<Dev>, p: seq<nat>): (d: seq<Dev>)
    requires Points(t, p)
    ensures |d| == |p| && forall i | 0 <= i < |p| :: d[i] == t[p[i]]
  {
    seq(|p|, i requires 0 <= i < |p| => t[p[i]])
  }

  /** The table holds the device's pair, under a name no greater. */
  ghost predicate Covers(d: seq<Dev>, x: Dev) {
    exists k | 0 <= k < |d| :: SameKey(d[k], x) && NameLe(d[k].name, x.name)
  }

  lemma CoversMore(d: seq<Dev>, e: seq<Dev>, x: Dev)
    requires Covers(d, x)
    ensures Covers(d + e, x)
  {
    var k :| 0 <= k < |d| && SameKey(d[k], x) && NameLe(d[k].name, x.name);
    assert (d + e)[k] == d[k];
  }

  /** The last pointer that was kept has the key of the last one seen. */
  ghost predicate EndsAlike(t: seq<Dev>, p: seq<nat>)
    requires Points(t, p)
  {
    p != [] ==> Kept(t, p) != [] && SameKey(t[Kept(t, p)[|Kept(t, p)| - 1]], t[p[|p| - 1]])
  }

  /** A pointer that starts a run comes strictly after what was kept. */
  lemma NewIsLater(t: seq<Dev>, p: seq<nat>)
    requires Points(t, p) && Sorted(t, p) && p != [] && !Repeats(t, p, |p| - 1) && EndsAlike(t, p[..|p| - 1])
    ensures var k := Kept(t, p[..|p| - 1]); k != [] ==> KeyLess(t[k[|k| - 1]], t[p[|p| - 1]])
  {
    hide Kept;
    var n := |p| - 1;
    KeptFrom(t, p[..n]);
    if n > 0 { assert DevLe(t[p[n - 1]], t[p[n]]); }
  }

  lemma SortedFront(t: seq<Dev>, p: seq<nat>)
    requires Points(t, p) && Sorted(t, p) && p != []
    ensures Points(t, p[..|p| - 1]) && Sorted(t, p[..|p| - 1])
  {
  }

  /** Each pair occurs once, with the least of its names; no pair is lost. */
  lemma {:induction false} KeptIsStrict(t: seq<Dev>, p: seq<nat>)
    requires Points(t, p) && Sorted(t, p)
    ensures Strict(Select(t, Kept(t, p))) && CoversAll(Select(t, Kept(t, p)), Select(t, p))
    ensures EndsAlike(t, p)
  {
    if p != [] {
      hide Strict, CoversAll, Covers, Sorted, Select, Kept, Dropped;
      var n := |p| - 1;
      var q := p[..n];
      SortedFront(t, p);
      KeptStep(t, p, n);
      assert p[..n + 1] == p;
      KeptIsStrict(t, q);
      var a, x := Select(t, Kept(t, q)), t[p[n]];
      SelectSnoc(t, p);
      if Repeats(t, p, n) {
        RepeatCovered(t, p);
        CoversAllSnoc(a, [], Select(t, q), x);
        assert a + [] == a;
      } else {
        var k := Kept(t, p);
        assert k[..|k| - 1] == Kept(t, q) && k[|k| - 1] == p[n];
        NewIsLater(t, p);
        SelectSnoc(t, k);
        StrictSnoc(a, x);
        CoversAllSnoc(a, [x], Select(t, q), x);
      }
    }
  }

  lemma SelectSnoc(t: seq<Dev>, p: seq<nat>)
    requires Points(t, p) && p != []
    ensures Select(t, p) == Select(t, p[..|p| - 1]) + [t[p[|p| - 1]]]
  {
  }

  lemma CoversAllSnoc(d: seq<Dev>, e: seq<Dev>, xs: seq<Dev>, x: Dev)
    requires CoversAll(d, xs) && (Covers(d + e, x) || Covers(d, x))
    ensures CoversAll(d + e, xs + [x])
  {
    if Covers(d, x) { CoversMore(d, e, x); }
    forall y | y in xs ensures Covers(d + e, y) { CoversMore(d, e, y); }
  }

  ghost predicate CoversAll(d: seq<Dev>, xs: seq<Dev>) {
    forall x | x in xs :: Covers(d, x)
  }

  lemma StrictSnoc(a: seq<Dev>, x: Dev)
    requires Strict(a) && (a != [] ==> KeyLess(a[|a| - 1], x))
    ensures Strict(a + [x]) && Covers(a + [x], x)
  {
    NameReflexive(x.name);
    assert (a + [x])[|a|] == x;
  }

  lemma RepeatCovered(t: seq<Dev>, p: seq<nat>)
    requires Points(t, p) && Sorted(t, p) && p != [] && Repeats(t, p, |p| - 1)
    requires var q := p[..|p| - 1]; var a := Kept(t, q); a != [] && SameKey(t[a[|a| - 1]], t[q[|q| - 1]])
    ensures Kept(t, p) == Kept(t, p[..|p| - 1]) && Covers(Select(t, Kept(t, p)), t[p[|p| - 1]])
  {
    var q := p[..|p| - 1];
    var a := Kept(t, q);
    KeptFrom(t, q);
    assert a[|a| - 1] in q;
    var i :| 0 <= i < |q| && q[i] == a[|a| - 1];
    assert DevLe(t[p[i]], t[p[|p| - 1]]);
    CoversAt(Select(t, a), |a| - 1, t[p[|p| - 1]]);
  }

  lemma CoversAt(d: seq<Dev>, k: nat, x: Dev)
    requires k < |d| && SameKey(d[k], x) && DevLe(d[k], x)
    ensures Covers(d, x)
  {
  }

  lemma {:induction false} NameReflexive(s: string)
    ensures NameLe(s, s)
  {
    if s != "" { NameReflexive(s[1..]); }
  }

  /** Every clone entry that remains points into the result. */
  lemma ClonesPointIn(t: seq<Dev>, p: seq<nat>, c: seq<nat>)
    requires Points(t, p) && forall x | x in c :: x in p
    ensures forall x | x in Without(c, Dropped(t, p)) :: x in Kept(t, p)
  {
    WithoutMembers(c, Dropped(t, p));
    KeptOrDropped(t, p);
  }

  lemma {:induction false} KeptOrDropped(t: seq<Dev>, p: seq<nat>)
    requires Points(t, p)
    ensures forall x | x in p :: x in Kept(t, p) || x in Dropped(t, p)
  {
    if p != [] { KeptOrDropped(t, p[..|p| - 1]); }
  }

  lemma {:induction false} WithoutMembers(c: seq<nat>, gone: set<nat>)
    ensures forall x | x in Without(c, gone) :: x in c && x !in gone
    ensures forall x | x in c && x !in gone :: x in Without(c, gone)
  {
    if c != [] { WithoutMembers(c[..|c| - 1], gone); }
  }
}
