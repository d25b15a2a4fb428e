/** The addresses of -i: the list they are kept in, how hosts and port ranges
    enter it, and the question it answers (src/arg.c, lib/misc.c). */
module Addresses {
  import opened Common
  import opened Ports

  const MAXNWAD := 100

  datatype Family = Unspecified | Inet | Inet6 | OtherFamily

  /** A search address; a zero address and a missing port (-1) match any. */
  datatype Nwad = Nwad(proto: Option<string>, af: Family, a: seq<bv8>, sport: int, eport: int, found: bool)

  /** What is known of a socket: protocol name, address, port and family */
  datatype Socket = Socket(iproto: string, ia: seq<bv8>, port: int, af: Family)

  function Lower(c: char): char {
    if 'A' <= c <= 'Z' then c - 'A' + 'a' else c
  }

  /** strcasecmp() is zero */
  predicate SameText(s: string, t: string) {
    |s| == |t| && forall i | 0 <= i < |s| :: Lower(s[i]) == Lower(t[i])
  }

  predicate AnySet(a: seq<bv8>) {
    exists i | 0 <= i < |a| :: a[i] != 0
  }

  /** The protocol, family and address of an entry agree with a socket's. */
  predicate Agrees(n: Nwad, q: Socket)
    requires |n.a| == 16 && |q.ia| == 16
  {
    && (n.proto.Some? ==> SameText(n.proto.value, q.iproto))
    && (n.af == Unspecified || n.af == q.af)
    && (if q.af == Inet6 then AnySet(n.a) ==> q.ia == n.a
        else q.af == Inet && (AnySet(n.a[..4]) ==> q.ia[..4] == n.a[..4]))
  }

  predicate PortIn(n: Nwad, q: Socket) {
    n.sport == -1 || n.sport <= q.port <= n.eport
  }

  predicate Matches(n: Nwad, q: Socket)
    requires |n.a| == 16 && |q.ia| == 16
  {
    Agrees(n, q) && PortIn(n, q)
  }

  function Least(a: nat, b: nat): nat {
    if a <= b then a else b
  }

  /** The entry says something: protocol, address or port. */
  predicate Complete(e: Nwad)
    requires |e.a| == 16
  {
    e.proto.Some? || AnySet(e.a[..4]) || (e.af == Inet6 && AnySet(e.a[4..])) || e.sport != -1
  }

  /** Some socket of the entry's family is not meant by it. */
  ghost predicate Leaves(e: Nwad)
    requires |e.a| == 16
  {
    exists q: Socket :: |q.ia| == 16 && q.af == e.af && !Matches(e, q)
  }

  /** An entry that says nothing is one that means every socket of its family. */
  lemma CompleteMeans(e: Nwad)
    requires |e.a| == 16 && (e.af == Inet || e.af == Inet6)
    ensures Complete(e) <==> Leaves(e)
  {
    var zero: seq<bv8> := seq(16, i => 0);
    var q := Socket(if e.proto.Some? then e.proto.value + "?" else "", zero, e.sport - 1, e.af);
    assert e.a == e.a[..4] + e.a[4..];
    if Complete(e) {
      assert !Matches(e, q) by { LeftOut(e, q); }
    } else {
      forall q: Socket | |q.ia| == 16 && q.af == e.af ensures Matches(e, q) { SaysNothing(e, q); }
    }
  }

  lemma LeftOut(e: Nwad, q: Socket)
    requires |e.a| == 16 && (e.af == Inet || e.af == Inet6) && Complete(e)
    requires |q.ia| == 16 && q.af == e.af && (forall i | 0 <= i < 16 :: q.ia[i] == 0) && q.port == e.sport - 1
    requires e.proto.Some? ==> |q.iproto| != |e.proto.value|
    ensures !Matches(e, q)
  {
    if AnySet(e.a[..4]) {
      var i :| 0 <= i < 4 && e.a[..4][i] != 0;
      assert e.a[i] != 0 && q.ia[..4][i] == 0;
    } else if e.af == Inet6 && AnySet(e.a[4..]) {
      var i :| 0 <= i < 12 && e.a[4..][i] != 0;
      assert e.a[4 + i] != 0;
    }
  }

  lemma SaysNothing(e: Nwad, q: Socket)
    requires |e.a| == 16 && (e.af == Inet || e.af == Inet6) && !Complete(e) && |q.ia| == 16 && q.af == e.af
    ensures Matches(e, q)
  {
    AnyPart(e.a);
  }

  lemma AnyPart(a: seq<bv8>)
    requires |a| == 16
    ensures AnySet(a) ==> AnySet(a[..4]) || AnySet(a[4..])
  {
    if i :| 0 <= i < 16 && a[i] != 0 {
      assert if i < 4 then a[..4][i] != 0 else a[4..][i - 4] != 0;
    }
  }

  /** The entries for a host: its first address, then the others, whose bytes
      are laid over the last */
  function Hosts(e: Nwad, more: seq<seq<bv8>>): (es: seq<Nwad>)
    requires |e.a| == 16 && forall i | 0 <= i < |more| :: |more[i]| <= 16
    ensures |es| == |more| + 1 && es[0] == e && forall i | 0 <= i < |es| :: |es[i].a| == 16
    decreases |more|
  {
    if more == [] then [e] else [e] + Hosts(e.(a := more[0] + e.a[|more[0]|..]), more[1..])
  }

  lemma {:induction false} HostsAt(e: Nwad, more: seq<seq<bv8>>, k: nat)
    requires |e.a| == 16 && (forall i | 0 <= i < |more| :: |more[i]| <= 16) && k <= |more|
    ensures k == 0 ==> Hosts(e, more)[0] == e
    ensures k > 0 ==>
      var before := Hosts(e, more)[k - 1];
      |before.a| == 16 && Hosts(e, more)[k] == before.(a := more[k - 1] + before.a[|more[k - 1]|..])
    decreases k
  {
    if k > 1 { HostsAt(e.(a := more[0] + e.a[|more[0]|..]), more[1..], k - 1); }
  }

  /** How many of these entries are made when `na` are there already */
  function Entered(na: nat, es: seq<Nwad>): (m: nat)
    requires forall i | 0 <= i < |es| :: |es[i].a| == 16
    ensures m <= |es| && (na <= MAXNWAD ==> na + m <= MAXNWAD)
    decreases |es|
  {
    if es == [] || !Complete(es[0]) || na >= MAXNWAD then 0 else 1 + Entered(na + 1, es[1..])
  }

  /** The list after entries are put before it one by one */
  function Chain(es: seq<Nwad>, base: seq<Nwad>): seq<Nwad> {
    if es == [] then base else [es[|es| - 1]] + Chain(es[..|es| - 1], base)
  }

  lemma ChainNone(es: seq<Nwad>, base: seq<Nwad>)
    requires es == []
    ensures Chain(es, base) == base
  {
  }

  lemma ChainMore(es: seq<Nwad>, m: nat, list: seq<Nwad>, base: seq<Nwad>)
    requires m < |es| && list == Chain(es[..m], base)
    ensures Chain(es[..m + 1], base) == [es[m]] + list
  {
    assert es[..m + 1][..m] == es[..m] && es[..m + 1][m] == es[m];
  }

  // ----- Hosts -----

  /** The entry with its ports */
  function Ported(e: Nwad, sp: int, ep: int): Nwad {
    e.(sport := sp, eport := ep, found := false)
  }

  function WithPorts(ts: seq<Nwad>, sp: int, ep: int): (es: seq<Nwad>)
    ensures |es| == |ts| && forall i | 0 <= i < |ts| :: es[i] == Ported(ts[i], sp, ep)
  {
    seq(|ts|, i requires 0 <= i < |ts| => Ported(ts[i], sp, ep))
  }

  /**
   * What -i names: the first address, the further ones of the same host, and,
   * where a host name was given without restriction to IPv6, the IPv4 addresses
   * that a second lookup finds, if any.
   */
  datatype Target = Target(n: Nwad, more: seq<seq<bv8>>, second: Option<Option<seq<seq<bv8>>>>)

  ghost predicate TargetOk(t: Target) {
    && |t.n.a| == 16 && (forall i | 0 <= i < |t.more| :: |t.more[i]| <= 16)
    && (t.second.Some? && t.second.value.Some? ==>
          && t.second.value.value != []
          && forall i | 0 <= i < |t.second.value.value| :: |t.second.value.value[i]| == 4)
  }

  /** The second lookup is to be made. */
  predicate Dual(t: Target) {
    t.second.Some? && t.n.af == Inet6
  }

  const ZEROS: seq<bv8> := [0, 0, 0, 0, 0, 0, 0, 0, 0, 0, 0, 0]

  /** What is left in place of the target after the second lookup */
  function Second(t: Target): (u: Target)
    requires TargetOk(t) && Dual(t)
    ensures TargetOk(u) && !Dual(u)
  {
    var found := t.second.value;
    if found.None? then Target(t.n.(af := Inet), [], t.second)
    else Target(t.n.(af := Inet, a := found.value[0] + ZEROS), found.value[1..], t.second)
  }

  function Templates(t: Target): (ts: seq<Nwad>)
    requires TargetOk(t)
    ensures |ts| > 0 && ts[0] == t.n && forall i | 0 <= i < |ts| :: |ts[i].a| == 16 && ts[i].af == t.n.af
  {
    HostsFamily(t.n, t.more);
    Hosts(t.n, t.more)
  }

  lemma {:induction false} HostsFamily(e: Nwad, more: seq<seq<bv8>>)
    requires |e.a| == 16 && forall i | 0 <= i < |more| :: |more[i]| <= 16
    ensures forall i | 0 <= i < |Hosts(e, more)| :: Hosts(e, more)[i].af == e.af
    decreases |more|
  {
    if more != [] { HostsFamily(e.(a := more[0] + e.a[|more[0]|..]), more[1..]); }
  }

  /** After a second lookup the entries are for the IPv4 addresses that it found. */
  lemma {:induction false} SecondIs(t: Target, k: nat)
    requires TargetOk(t) && Dual(t) && t.second.value.Some? && k < |t.second.value.value|
    ensures |Templates(Second(t))| == |t.second.value.value|
    ensures Templates(Second(t))[k] == t.n.(af := Inet, a := t.second.value.value[k] + ZEROS)
    decreases k
  {
    var u, fs := Second(t), t.second.value.value;
    if k > 0 {
      SecondIs(t, k - 1);
      HostsAt(u.n, u.more, k);
      assert (fs[k - 1] + ZEROS)[4..] == ZEROS;
    }
  }

  lemma {:induction false} HostsPorted(e: Nwad, more: seq<seq<bv8>>, sp: int, ep: int)
    requires |e.a| == 16 && forall i | 0 <= i < |more| :: |more[i]| <= 16
    ensures Hosts(Ported(e, sp, ep), more) == WithPorts(Hosts(e, more), sp, ep)
    decreases |more|
  {
    if more != [] {
      var e' := e.(a := more[0] + e.a[|more[0]|..]);
      HostsPorted(e', more[1..], sp, ep);
      assert Ported(e, sp, ep).(a := more[0] + e.a[|more[0]|..]) == Ported(e', sp, ep);
    }
  }

  /** What a range is entered for now */
  function Now(t: Target): (ts: seq<Nwad>)
    requires TargetOk(t)
    ensures |ts| > 0 && forall i | 0 <= i < |ts| :: |ts[i].a| == 16
  {
    Templates(t) + if Dual(t) && t.second.value.Some? then Templates(Second(t)) else []
  }

  /** What the next range is entered for: the second lookup has changed it. */
  function At(t: Target, k: nat): (u: Target)
    requires TargetOk(t)
    ensures TargetOk(u)
  {
    if k > 0 && Dual(t) then Second(t) else t
  }

  /** All entries for a list of ranges */
  function Entries(t: Target, rs: seq<Range>): (es: seq<Nwad>)
    requires TargetOk(t)
    ensures forall i | 0 <= i < |es| :: |es[i].a| == 16 && es[i].sport >= 0
  {
    if rs == [] then []
    else
      var n := |rs| - 1;
      Entries(t, rs[..n]) + WithPorts(Now(At(t, n)), rs[n].lo, rs[n].hi)
  }

  lemma EntriesStep(t: Target, rs: seq<Range>, d: nat)
    requires TargetOk(t) && d < |rs|
    ensures Entries(t, rs[..d + 1]) == Entries(t, rs[..d]) + WithPorts(Now(At(t, d)), rs[d].lo, rs[d].hi)
  {
    assert rs[..d + 1][..d] == rs[..d] && rs[..d + 1][d] == rs[d];
  }

  lemma {:induction false} EntriesPrefix(t: Target, rs: seq<Range>, d: nat)
    requires TargetOk(t) && d <= |rs|
    ensures Entries(t, rs[..d]) <= Entries(t, rs)
    decreases |rs| - d
  {
    hide Entries;
    if d == |rs| {
      assert rs[..d] == rs;
    } else {
      EntriesPrefix(t, rs, d + 1);
      EntriesStep(t, rs, d);
    }
  }

  // ----- Counting and chaining -----

  lemma {:induction false} EnteredCat(na: nat, a: seq<Nwad>, b: seq<Nwad>)
    requires (forall i | 0 <= i < |a| :: |a[i].a| == 16) && forall i | 0 <= i < |b| :: |b[i].a| == 16
    ensures Entered(na, a + b) == if Entered(na, a) < |a| then Entered(na, a) else |a| + Entered(na + |a|, b)
    decreases |a|
  {
    hide Complete;
    if a == [] {
      assert a + b == b;
    } else {
      assert (a + b)[0] == a[0] && (a + b)[1..] == a[1..] + b;
      if Complete(a[0]) && na < MAXNWAD { EnteredCat(na + 1, a[1..], b); }
    }
  }

  /** Entries with ports always say something, so only room counts. */
  lemma {:induction false} EnteredRoom(na: nat, es: seq<Nwad>)
    requires na <= MAXNWAD && forall i | 0 <= i < |es| :: |es[i].a| == 16 && es[i].sport >= 0
    ensures Entered(na, es) == Least(|es|, MAXNWAD - na)
    decreases |es|
  {
    hide AnySet;
    if es != [] && na < MAXNWAD { EnteredRoom(na + 1, es[1..]); }
  }

  lemma {:induction false} ChainCat(a: seq<Nwad>, b: seq<Nwad>, base: seq<Nwad>)
    ensures Chain(a + b, base) == Chain(b, Chain(a, base))
    decreases |b|
  {
    if b == [] {
      assert a + b == a;
    } else {
      var n := |b| - 1;
      ChainCat(a, b[..n], base);
      assert (a + b)[..|a + b| - 1] == a + b[..n];
    }
  }

  lemma NoMore(na: nat)
    ensures Entered(na, []) == 0
  {
  }

  lemma StartChain(t: Target, rs: seq<Range>, base: seq<Nwad>)
    requires TargetOk(t)
    ensures Entries(t, rs[..0]) == [] && Chain(Entries(t, rs[..0]), base) == base
  {
    assert rs[..0] == [];
  }

  lemma AtNext(t: Target, d: nat)
    requires TargetOk(t)
    ensures At(At(t, d), 1) == At(t, d + 1) && At(t, d + 1).n.proto == t.n.proto
  {
  }

  lemma WholeChain(t: Target, rs: seq<Range>, na0: nat, na: nat)
    requires TargetOk(t) && na == na0 + |Entries(t, rs)| <= MAXNWAD
    ensures Least(|Entries(t, rs)|, MAXNWAD - na0) == |Entries(t, rs)| && Entries(t, rs)[..|Entries(t, rs)|] == Entries(t, rs)
  {
  }

  /** The list and the count after one more range, all of it or what finds room */
  lemma RangeEntered(t: Target, rs: seq<Range>, d: nat, na0: nat, base: seq<Nwad>)
    requires TargetOk(t) && d < |rs| && na0 + |Entries(t, rs[..d])| <= MAXNWAD
    ensures
      var a, w := Entries(t, rs[..d]), WithPorts(Now(At(t, d)), rs[d].lo, rs[d].hi);
      var m := Entered(na0 + |a|, w);
      if m == |w| then Entries(t, rs[..d + 1]) == a + w && Chain(a + w, base) == Chain(w[..m], Chain(a, base))
      else
        var es := Entries(t, rs);
        && m < |w| && Least(|es|, MAXNWAD - na0) == |a| + m < |es|
        && Chain(es[..|a| + m], base) == Chain(w[..m], Chain(a, base))
  {
    hide Entries, Chain, Entered, Now, At;
    var a, w := Entries(t, rs[..d]), WithPorts(Now(At(t, d)), rs[d].lo, rs[d].hi);
    EnteredRoom(na0 + |a|, w);
    var m := Entered(na0 + |a|, w);
    EntriesStep(t, rs, d);
    EntriesPrefix(t, rs, d + 1);
    ChainCat(a, w[..m], base);
    assert w[..|w|] == w;
    assert Entries(t, rs)[..|a| + m] == (a + w)[..|a| + m] == a + w[..m];
  }

  class AddressList {
    var nwad: seq<Nwad>
    var na: nat

    predicate Valid()
      reads this
    {
      na <= MAXNWAD && forall i | 0 <= i < |nwad| :: |nwad[i].a| == 16
    }

    constructor ()
      ensures Valid() && nwad == [] && na == 0
    {
      nwad, na := [], 0;
    }

    /** enter_nwad(): the address and the further addresses of its host, each
        before what was there, up to one that says nothing or finds no room */
    method Enter(n: Nwad, sp: int, ep: int, more: seq<seq<bv8>>) returns (ok: bool)
      requires Valid() && |n.a| == 16 && forall i | 0 <= i < |more| :: |more[i]| <= 16
      modifies this
      ensures Valid()
      ensures
        var es := Hosts(n.(sport := sp, eport := ep, found := false), more);
        var m := Entered(old(na), es);
        (ok <==> m == |es|) && nwad == Chain(es[..m], old(nwad)) && na == old(na) + m
    {
      hide AnySet, Hosts, Chain;
      var nc := n.(sport := sp, eport := ep, found := false);
      ghost var es := Hosts(nc, more);
      ghost var m := 0;
      var ac := 0;
      HostsAt(nc, more, 0);
      ChainNone(es[..0], nwad);
      while true
        invariant 0 <= ac <= |more| && m == ac && |es| == |more| + 1 && Valid() && na == old(na) + m
        invariant |nc.a| == 16 && nc == es[ac] && nwad == Chain(es[..m], old(nwad))
        invariant Entered(old(na), es) == m + Entered(na, es[m..])
        decreases |more| - ac
      {
        if !Complete(nc) || na >= MAXNWAD {
          return false;
        }
        ChainMore(es, m, nwad, old(nwad));
        assert es[m..][1..] == es[m + 1..];
        nwad, na, m := [nc] + nwad, na + 1, m + 1;
        if ac == |more| {
          return true;
        }
        HostsAt(n.(sport := sp, eport := ep, found := false), more, ac + 1);
        nc := nc.(a := more[ac] + nc.a[|more[ac]|..]);
        ac := ac + 1;
      }
    }

    /** The loop around enter_nwad(): the target's addresses, then those of the
        second lookup, which stays in place of the target */
    method EnterAll(t: Target, sp: int, ep: int) returns (ok: bool, t': Target)
      requires Valid() && TargetOk(t)
      modifies this
      ensures Valid()
      ensures
        var es := WithPorts(Now(t), sp, ep);
        var m := Entered(old(na), es);
        (ok <==> m == |es|) && nwad == Chain(es[..m], old(nwad)) && na == old(na) + m
      ensures ok ==> t' == At(t, 1)
    {
      hide Hosts, Chain, Entered;
      t' := t;
      ghost var first := WithPorts(Templates(t), sp, ep);
      HostsPorted(t.n, t.more, sp, ep);
      ok := Enter(t.n, sp, ep, t.more);
      if !Dual(t) {
        assert WithPorts(Now(t), sp, ep) == first;
        return;
      }
      ghost var rest := if t.second.value.Some? then WithPorts(Templates(Second(t)), sp, ep) else [];
      assert WithPorts(Now(t), sp, ep) == first + rest;
      EnteredCat(old(na), first, rest);
      if !ok {
        assert (first + rest)[..Entered(old(na), first)] == first[..Entered(old(na), first)];
        return;
      }
      assert first[..|first|] == first;
      t' := Second(t);
      if t.second.value.Some? {
        HostsPorted(t'.n, t'.more, sp, ep);
        ok := Enter(t'.n, sp, ep, t'.more);
      } else {
        NoMore(na);
        ChainNone(rest[..0], nwad);
      }
      ghost var m := Entered(old(na) + |first|, rest);
      ChainCat(first, rest[..m], old(nwad));
      assert (first + rest)[..|first| + m] == first + rest[..m];
    }

    /** The port list part of enter_network_address(), from the colon on: the
        ranges before the first bad element are entered while there is room.
        Without a list the target is entered for all ports. */
    method EnterPorts(services: Services, t: Target, text: string) returns (ok: bool)
      requires Valid() && TargetOk(t)
      modifies this
      ensures Valid()
      ensures text == "" ==>
        var es := WithPorts(Now(t), -1, -1);
        var m := Entered(old(na), es);
        (ok <==> m == |es|) && nwad == Chain(es[..m], old(nwad)) && na == old(na) + m
      ensures text != "" && (|text| < 2 || text[0] != ':') ==> !ok && nwad == old(nwad) && na == old(na)
      ensures |text| >= 2 && text[0] == ':' ==>
        var list := Parse(services, t.n.proto, text, 1);
        var es := Entries(t, list.ranges);
        var m := Least(|es|, MAXNWAD - old(na));
        (ok <==> list.good && m == |es|) && nwad == Chain(es[..m], old(nwad)) && na == old(na) + m
    {
      hide Parse, Element, Entries, Chain, Entered, Now, Second;
      var target;
      if text == "" {
        ok, target := EnterAll(t, -1, -1);
        return;
      }
      if |text| < 2 || text[0] != ':' {
        return false;
      }
      ghost var list := Parse(services, t.n.proto, text, 1);
      ghost var d := 0;
      var i := 1;
      target := t;
      StartChain(t, list.ranges, nwad);
      while i < |text|
        invariant 1 <= i <= |text| && Valid() && d <= |list.ranges| && target == At(t, d) && target.n.proto == t.n.proto
        invariant na == old(na) + |Entries(t, list.ranges[..d])| && nwad == Chain(Entries(t, list.ranges[..d]), old(nwad))
        invariant Rest(list, d, Parse(services, t.n.proto, text, i))
      {
        var k, r := ReadElement(services, target.n.proto, text, i);
        ParseStep(services, t.n.proto, text, i, list, d);
        if r.None? {
          assert list.ranges[..d] == list.ranges;
          WholeChain(t, list.ranges, old(na), na);
          return false;
        }
        AtNext(t, d);
        ok, target := EnterAll(target, r.value.lo, r.value.hi);
        RangeEntered(t, list.ranges, d, old(na), old(nwad));
        if !ok {
          return false;
        }
        d := d + 1;
        if k == |text| {
          assert list.ranges[..d] == list.ranges;
          WholeChain(t, list.ranges, old(na), na);
          return true;
        }
        i := k + 1;
      }
      ParseEnd(services, t.n.proto, text, list, d);
      assert list.ranges[..d] == list.ranges;
      WholeChain(t, list.ranges, old(na), na);
      return true;
    }

    /** The tests is_nw_addr() makes of one entry */
    method Hit(n: Nwad, q: Socket) returns (hit: bool)
      requires |n.a| == 16 && |q.ia| == 16
      ensures hit == Matches(n, q)
    {
      if n.proto.Some? && !SameText(n.proto.value, q.iproto) {
        return false;
      }
      if q.af != Unspecified && n.af != Unspecified && q.af != n.af {
        return false;
      }
      if q.af == Inet6 {
        if AnySet(n.a) && q.ia != n.a {
          return false;
        }
      } else if q.af == Inet {
        if AnySet(n.a[..4]) && q.ia[..4] != n.a[..4] {
          return false;
        }
      } else {
        return false;
      }
      return n.sport == -1 || (q.port >= n.sport && q.port <= n.eport);
    }

    /** is_nw_addr(): the first entry that matches is marked. */
    method IsSelected(q: Socket) returns (yes: bool)
      requires Valid() && |q.ia| == 16
      modifies this`nwad
      ensures Valid()
      ensures yes <==> exists i | 0 <= i < |old(nwad)| :: Matches(old(nwad)[i], q)
      ensures !yes ==> nwad == old(nwad)
      ensures yes ==> exists i | 0 <= i < |old(nwad)| ::
        && Matches(old(nwad)[i], q) && nwad == old(nwad)[i := old(nwad)[i].(found := true)]
        && forall j | 0 <= j < i :: !Matches(old(nwad)[j], q)
    {
      hide Matches;
      var i := 0;
      while i < |nwad|
        invariant 0 <= i <= |nwad| && nwad == old(nwad) && forall j | 0 <= j < i :: !Matches(nwad[j], q)
      {
        var hit := Hit(nwad[i], q);
        if hit {
          nwad := nwad[i := nwad[i].(found := true)];
          return true;
        }
        i := i + 1;
      }
      return false;
    }
  }

  // ----- What is selected -----

  /** Some entry of the list matches */
  ghost predicate Selected(list: seq<Nwad>, q: Socket) {
    |q.ia| == 16 && exists i | 0 <= i < |list| :: |list[i].a| == 16 && Matches(list[i], q)
  }

  ghost predicate Covered(rs: seq<Range>, port: int) {
    exists j | 0 <= j < |rs| :: rs[j].lo <= port <= rs[j].hi
  }

  lemma SelectedCons(e: Nwad, list: seq<Nwad>, q: Socket)
    requires |e.a| == 16 && |q.ia| == 16
    ensures Selected([e] + list, q) <==> Matches(e, q) || Selected(list, q)
  {
    hide Matches;
    var all := [e] + list;
    assert all[0] == e && forall i | 0 <= i < |list| :: all[i + 1] == list[i];
    if Selected(list, q) {
      var i :| 0 <= i < |list| && |list[i].a| == 16 && Matches(list[i], q);
      assert all[i + 1] == list[i];
    }
  }

  /** All entries that are put before a list are searched. */
  lemma {:induction false} ChainSelects(es: seq<Nwad>, base: seq<Nwad>, q: Socket)
    requires |q.ia| == 16 && forall i | 0 <= i < |es| :: |es[i].a| == 16
    ensures Selected(Chain(es, base), q) <==> Selected(base, q) || Selected(es, q)
  {
    hide Matches;
    if es != [] {
      var front, e := es[..|es| - 1], es[|es| - 1];
      ChainSelects(front, base, q);
      SelectedCons(e, Chain(front, base), q);
      SelectedCat(front, [e], q);
      SelectedCons(e, [], q);
      assert es == front + [e] && [e] + [] == [e];
    }
  }

  lemma SelectedCat(a: seq<Nwad>, b: seq<Nwad>, q: Socket)
    ensures Selected(a + b, q) <==> Selected(a, q) || Selected(b, q)
  {
    hide Matches;
    var all := a + b;
    if Selected(a, q) {
      var i :| 0 <= i < |a| && |a[i].a| == 16 && Matches(a[i], q);
      assert all[i] == a[i];
    }
    if Selected(b, q) {
      var i :| 0 <= i < |b| && |b[i].a| == 16 && Matches(b[i], q);
      assert all[|a| + i] == b[i];
    }
    if Selected(all, q) {
      var i :| 0 <= i < |all| && |all[i].a| == 16 && Matches(all[i], q);
      assert all[i] == if i < |a| then a[i] else b[i - |a|];
    }
  }

  /** Protocol, family and address of some template agree. */
  ghost predicate AnyAgrees(ts: seq<Nwad>, q: Socket) {
    |q.ia| == 16 && exists i | 0 <= i < |ts| :: |ts[i].a| == 16 && Agrees(ts[i], q)
  }

  predicate Covers(r: Range, port: int) {
    r.lo <= port <= r.hi
  }

  lemma PortedSelects(ts: seq<Nwad>, r: Range, q: Socket)
    ensures Selected(WithPorts(ts, r.lo, r.hi), q) <==> AnyAgrees(ts, q) && Covers(r, q.port)
  {
    hide AnySet, SameText;
    var es := WithPorts(ts, r.lo, r.hi);
    if |q.ia| == 16 {
      assert forall i | 0 <= i < |ts| && |ts[i].a| == 16 :: Agrees(es[i], q) <==> Agrees(ts[i], q);
    }
  }

  /** Some range covers the port, and what it was entered for agrees. */
  ghost predicate SomeRange(t: Target, rs: seq<Range>, q: Socket)
    requires TargetOk(t)
  {
    exists k | 0 <= k < |rs| :: Covers(rs[k], q.port) && AnyAgrees(Now(At(t, k)), q)
  }

  lemma {:induction false} EntriesSelect(t: Target, rs: seq<Range>, q: Socket)
    requires TargetOk(t)
    ensures Selected(Entries(t, rs), q) <==> SomeRange(t, rs, q)
  {
    hide Now, At, AnyAgrees, Selected, Covers;
    if rs == [] {
      NoneSelected(q);
    } else {
      var n := |rs| - 1;
      var front, w := rs[..n], WithPorts(Now(At(t, n)), rs[n].lo, rs[n].hi);
      EntriesSelect(t, front, q);
      PortedSelects(Now(At(t, n)), rs[n], q);
      SelectedCat(Entries(t, front), w, q);
      assert forall k | 0 <= k < n :: front[k] == rs[k];
      if SomeRange(t, front, q) {
        var k :| 0 <= k < |front| && Covers(front[k], q.port) && AnyAgrees(Now(At(t, k)), q);
        assert Covers(rs[k], q.port);
      }
    }
  }

  lemma NoneSelected(q: Socket)
    ensures !Selected([], q)
  {
  }

  // ----- What was meant -----

  /** Every address of the target, for every range */
  ghost predicate Meant(t: Target, rs: seq<Range>, q: Socket)
    requires TargetOk(t)
  {
    AnyAgrees(Now(t), q) && Covered(rs, q.port)
  }

  /** Without a second lookup the list selects what was meant. */
  lemma PlainIsMeant(t: Target, rs: seq<Range>, q: Socket)
    requires TargetOk(t) && !Dual(t)
    ensures SomeRange(t, rs, q) <==> Meant(t, rs, q)
  {
    hide Now, AnyAgrees;
    if Meant(t, rs, q) {
      var j :| 0 <= j < |rs| && rs[j].lo <= q.port <= rs[j].hi;
      assert Covers(rs[j], q.port);
    }
  }

  lemma AgreeCat(a: seq<Nwad>, b: seq<Nwad>, q: Socket)
    ensures AnyAgrees(a + b, q) <==> AnyAgrees(a, q) || AnyAgrees(b, q)
  {
    hide Agrees;
    var all := a + b;
    if AnyAgrees(a, q) {
      var i :| 0 <= i < |a| && |a[i].a| == 16 && Agrees(a[i], q);
      assert all[i] == a[i];
    }
    if AnyAgrees(b, q) {
      var i :| 0 <= i < |b| && |b[i].a| == 16 && Agrees(b[i], q);
      assert all[|a| + i] == b[i];
    }
    if AnyAgrees(all, q) {
      var i :| 0 <= i < |all| && |all[i].a| == 16 && Agrees(all[i], q);
      assert all[i] == if i < |a| then a[i] else b[i - |a|];
    }
  }

  /** Addresses of one family agree with sockets of that family only. */
  lemma OneFamily(t: Target, q: Socket)
    requires TargetOk(t) && t.n.af != Unspecified && AnyAgrees(Templates(t), q)
    ensures q.af == t.n.af
  {
  }

  /** What the first range and the later ones are entered for, with a second lookup */
  lemma DualParts(t: Target, q: Socket, k: nat)
    requires TargetOk(t) && Dual(t)
    ensures AnyAgrees(Now(t), q) <==>
            AnyAgrees(Templates(t), q) || (t.second.value.Some? && AnyAgrees(Templates(Second(t)), q))
    ensures At(t, 0) == t && (k > 0 ==> Now(At(t, k)) == Templates(Second(t)))
  {
    hide AnyAgrees, Templates;
    if t.second.value.Some? { AgreeCat(Templates(t), Templates(Second(t)), q); }
    assert Templates(t) + [] == Templates(t) && Templates(Second(t)) + [] == Templates(Second(t));
  }

  /** A socket at the target's first address, as a family has it */
  function Probe(t: Target, af: Family, port: int): Socket {
    Socket(if t.n.proto.Some? then t.n.proto.value else "tcp", t.n.a, port, af)
  }

  lemma ProbeAgrees(t: Target, port: int)
    requires TargetOk(t)
    ensures t.n.af == Inet6 ==> AnyAgrees(Templates(t), Probe(t, Inet6, port))
    ensures t.n.af == Inet ==> AnyAgrees(Templates(t), Probe(t, Inet, port))
  {
    var ts := Templates(t);
    assert ts[0] == t.n;
    if t.n.af == Inet6 { assert Agrees(ts[0], Probe(t, Inet6, port)); }
    if t.n.af == Inet { assert Agrees(ts[0], Probe(t, Inet, port)); }
  }

  /** Every port of the later ranges is also in the first. */
  ghost predicate FirstSuffices(rs: seq<Range>) {
    forall k, port | 1 <= k < |rs| && Covers(rs[k], port) :: Covers(rs[0], port)
  }

  /**
   * With a second lookup the target's IPv6 addresses are entered for the first
   * range only.  So the list selects what was meant, for all sockets, if and
   * only if the host has IPv4 addresses and the first range has all the ports,
   * or it has none and there is only one range.
   */
  lemma DualIsMeantWhen(t: Target, rs: seq<Range>)
    requires TargetOk(t) && Dual(t) && rs != [] && forall k | 0 <= k < |rs| :: rs[k].lo <= rs[k].hi
    ensures (forall q: Socket | |q.ia| == 16 :: SomeRange(t, rs, q) <==> Meant(t, rs, q)) <==>
            if t.second.value.Some? then FirstSuffices(rs) else |rs| == 1
  {
    hide AnyAgrees, Templates, Now, At, Covers;
    if t.second.value.Some? && FirstSuffices(rs) {
      forall q: Socket | |q.ia| == 16 ensures SomeRange(t, rs, q) <==> Meant(t, rs, q) { FoundIsMeant(t, rs, q); }
    } else if t.second.value.Some? {
      var k, port :| 1 <= k < |rs| && Covers(rs[k], port) && !Covers(rs[0], port);
      SixIsLost(t, rs, k, port);
    } else if |rs| == 1 {
      forall q: Socket | |q.ia| == 16 ensures SomeRange(t, rs, q) <==> Meant(t, rs, q) { OneIsMeant(t, rs, q); }
    } else {
      FourIsInvented(t, rs);
    }
  }

  lemma CoveredBy(rs: seq<Range>, k: nat, port: int)
    requires k < |rs| && Covers(rs[k], port)
    ensures Covered(rs, port)
  {
  }

  lemma OneIsMeant(t: Target, rs: seq<Range>, q: Socket)
    requires TargetOk(t) && |rs| == 1
    ensures SomeRange(t, rs, q) <==> Meant(t, rs, q)
  {
    hide Now, AnyAgrees;
    assert At(t, 0) == t;
    if Meant(t, rs, q) { assert Covers(rs[0], q.port); }
  }

  lemma FoundIsMeant(t: Target, rs: seq<Range>, q: Socket)
    requires TargetOk(t) && Dual(t) && t.second.value.Some? && FirstSuffices(rs)
    ensures SomeRange(t, rs, q) <==> Meant(t, rs, q)
  {
    hide AnyAgrees, Templates, Now, At;
    DualParts(t, q, 0);
    if SomeRange(t, rs, q) {
      var k :| 0 <= k < |rs| && Covers(rs[k], q.port) && AnyAgrees(Now(At(t, k)), q);
      DualParts(t, q, k);
    }
    if Meant(t, rs, q) {
      var j :| 0 <= j < |rs| && rs[j].lo <= q.port <= rs[j].hi;
      assert Covers(rs[j], q.port) && Covers(rs[0], q.port);
      assert AnyAgrees(Now(At(t, 0)), q);
    }
  }

  /** An IPv6 socket of the host at a port of a later range is not selected. */
  lemma SixIsLost(t: Target, rs: seq<Range>, k: nat, port: int)
    requires TargetOk(t) && Dual(t) && 1 <= k < |rs| && Covers(rs[k], port) && !Covers(rs[0], port)
    ensures var q := Probe(t, Inet6, port); |q.ia| == 16 && Meant(t, rs, q) && !SomeRange(t, rs, q)
  {
    hide AnyAgrees, Templates, Now, At;
    var q := Probe(t, Inet6, port);
    ProbeAgrees(t, port);
    DualParts(t, q, 0);
    CoveredBy(rs, k, port);
    forall h | 0 <= h < |rs| ensures !(Covers(rs[h], port) && AnyAgrees(Now(At(t, h)), q)) {
      if h > 0 {
        DualParts(t, q, h);
        if AnyAgrees(Templates(Second(t)), q) { OneFamily(Second(t), q); }
      }
    }
  }

  /** A host without IPv4 addresses: a later range selects IPv4 sockets whose
      address begins like the IPv6 address. */
  lemma FourIsInvented(t: Target, rs: seq<Range>)
    requires TargetOk(t) && Dual(t) && t.second.value.None? && |rs| > 1 && rs[1].lo <= rs[1].hi
    ensures var q := Probe(t, Inet, rs[1].lo); |q.ia| == 16 && SomeRange(t, rs, q) && !Meant(t, rs, q)
  {
    hide AnyAgrees, Templates, Now, At;
    var q := Probe(t, Inet, rs[1].lo);
    assert Probe(Second(t), Inet, rs[1].lo) == q;
    ProbeAgrees(Second(t), rs[1].lo);
    DualParts(t, q, 1);
    assert Covers(rs[1], q.port) && AnyAgrees(Now(At(t, 1)), q);
    if AnyAgrees(Templates(t), q) { OneFamily(t, q); }
  }

  // ----- From the text to the answer -----

  /**
   * A printed list of ports and ascending ranges, entered in an empty address
   * list with room for it, and a socket: yes exactly if some range covers the
   * port and what it was entered for agrees.
   */
  method Asks(services: Services, t: Target, rs: seq<Range>, q: Socket) returns (yes: bool)
    requires TargetOk(t) && |q.ia| == 16 && rs != [] && |Entries(t, rs)| <= MAXNWAD
    requires forall i | 0 <= i < |rs| :: rs[i].lo <= rs[i].hi
    ensures yes <==> SomeRange(t, rs, q)
    ensures !Dual(t) ==> (yes <==> AnyAgrees(Now(t), q) && Covered(rs, q.port))
  {
    hide Parse, Entries, Chain, SomeRange, Meant, PrintList;
    ListBack(services, t.n.proto, ":", rs);
    var list := new AddressList();
    var text := ":" + PrintList(rs);
    PrintedNotEmpty(rs);
    var ok := list.EnterPorts(services, t, text);
    ghost var es := Entries(t, rs);
    assert es[..|es|] == es;
    ChainSelects(es, [], q);
    EntriesSelect(t, rs, q);
    NoneSelected(q);
    SameQuestion(list.nwad, q);
    yes := list.IsSelected(q);
    if !Dual(t) { PlainIsMeant(t, rs, q); MeantIs(t, rs, q); }
  }

  lemma MeantIs(t: Target, rs: seq<Range>, q: Socket)
    requires TargetOk(t)
    ensures Meant(t, rs, q) <==> AnyAgrees(Now(t), q) && Covered(rs, q.port)
  {
  }

  lemma PrintedNotEmpty(rs: seq<Range>)
    requires rs != []
    ensures PrintList(rs) != ""
  {
  }

  lemma SameQuestion(list: seq<Nwad>, q: Socket)
    requires |q.ia| == 16 && forall i | 0 <= i < |list| :: |list[i].a| == 16
    ensures Selected(list, q) <==> exists i | 0 <= i < |list| :: Matches(list[i], q)
  {
    hide Matches;
  }

  /** One address: as many entries as ranges, and it selects the union. */
  lemma {:induction false} PlainCount(t: Target, rs: seq<Range>)
    requires TargetOk(t) && t.more == [] && !Dual(t)
    ensures |Entries(t, rs)| == |rs|
  {
    if rs != [] { PlainCount(t, rs[..|rs| - 1]); }
  }

  /** A host with one address of each family, and two ports: the second is not
      searched for on IPv6. */
  lemma SecondPortIsLost(proto: Option<string>, six: seq<bv8>, four: seq<bv8>)
    requires |six| == 16 && |four| == 4
    ensures
      var t := Target(Nwad(proto, Inet6, six, -1, -1, false), [], Some(Some([four])));
      var rs, q := [Range(80, 80), Range(443, 443)], Probe(t, Inet6, 443);
      TargetOk(t) && Meant(t, rs, q) && !SomeRange(t, rs, q)
  {
    var t := Target(Nwad(proto, Inet6, six, -1, -1, false), [], Some(Some([four])));
    SixIsLost(t, [Range(80, 80), Range(443, 443)], 1, 443);
  }
}
