/** Port lists: their text, and how enter_network_address() reads it (src/arg.c). */
module Ports {
  import opened Common
  import opened Digits

  datatype Range = Range(lo: nat, hi: nat)

  /** The services file: the port of a name under a protocol */
  type Services = (string, string) -> Option<nat>

  // ----- The text of a port list -----

  /** A service name, under the protocol asked for or under both */
  function Service(services: Services, proto: Option<string>, name: string): Option<nat> {
    if proto.Some? then services(name, proto.value)
    else
      var tcp, udp := services(name, "tcp"), services(name, "udp");
      if tcp.Some? && udp.Some? && tcp != udp then None else if tcp.Some? then tcp else udp
  }

  /** The protocols whose service tables are asked */
  function Consulted(proto: Option<string>): set<string> {
    if proto.Some? then {proto.value} else {"tcp", "udp"}
  }

  /** A name stands for a port exactly if a table asked has it there, and none
      that is asked has it elsewhere. */
  lemma ServiceIs(services: Services, proto: Option<string>, name: string, p: nat)
    ensures Service(services, proto, name) == Some(p) <==>
            && (exists q | q in Consulted(proto) :: services(name, q) == Some(p))
            && (forall q | q in Consulted(proto) :: services(name, q).None? || services(name, q) == Some(p))
  {
    if proto.None? {
      assert "tcp" in Consulted(proto) && "udp" in Consulted(proto);
    } else {
      assert proto.value in Consulted(proto);
    }
  }

  predicate AllDec(s: string) {
    forall i | 0 <= i < |s| :: IsDec(s[i])
  }

  function Decimal(s: string): nat
    requires AllDec(s)
  {
    Value(s, 10, 0)
  }

  function Ordered(lo: nat, hi: nat): Option<Range> {
    if lo <= hi then Some(Range(lo, hi)) else None
  }

  /** What one element of the list means: a number, a number and a dash and a
      number, or a name in the place of the last number.  At the end of the
      text nothing at all may stand there and counts as 0. */
  function Element(services: Services, proto: Option<string>, s: string, last: bool): Option<Range> {
    var d := Run(s);
    if s == "" then None
    else if d == 0 then
      var p := Service(services, proto, s);
      if p.Some? then Ordered(p.value, p.value) else None
    else if d == |s| then Ordered(Decimal(s), Decimal(s))
    else if s[d] != '-' then None
    else Upper(services, proto, Decimal(s[..d]), s[d + 1..], last)
  }

  /** The range from `lo` to what the text after the dash means */
  function Upper(services: Services, proto: Option<string>, lo: nat, s: string, last: bool): Option<Range> {
    if s == "" then (if last then Ordered(lo, 0) else None)
    else if !IsDec(s[0]) then
      var p := Service(services, proto, s);
      if p.Some? then Ordered(lo, p.value) else None
    else if AllDec(s) then Ordered(lo, Decimal(s))
    else None
  }

  /** A missing upper end: refused before a comma, and at the end of the text
      accepted exactly if the lower end is 0. */
  lemma MissingUpper(services: Services, proto: Option<string>, lo: nat, last: bool)
    ensures Element(services, proto, Text(lo, 10) + "-", last) == if last && lo == 0 then Some(Range(0, 0)) else None
  {
    hide Text, Value;
    var t := Text(lo, 10);
    var s := t + "-";
    forall i | 0 <= i < |t| ensures IsDec(s[i]) { assert t[i] in t; }
    RunUnique(s, |t|);
    RoundTrip(lo, 10, 0);
    assert s[..|t|] == t && s[|t| + 1..] == "";
  }

  /** A name in the place of a number: a port, or the upper end of a range */
  lemma NamedPort(services: Services, proto: Option<string>, lo: nat, name: string, last: bool)
    requires name != "" && !IsDec(name[0])
    ensures var p := Service(services, proto, name);
            && Element(services, proto, name, last) == (if p.Some? then Some(Range(p.value, p.value)) else None)
            && Element(services, proto, Text(lo, 10) + ("-" + name), last) ==
               (if p.Some? && lo <= p.value then Some(Range(lo, p.value)) else None)
  {
    hide Text, Value, Service;
    var t := Text(lo, 10);
    var s := t + ("-" + name);
    RunUnique(name, 0);
    forall i | 0 <= i < |t| ensures IsDec(s[i]) { assert t[i] in t; }
    RunUnique(s, |t|);
    RoundTrip(lo, 10, 0);
    assert s[..|t|] == t && s[|t|] == '-' && s[|t| + 1..] == name;
  }

  /** The place of the first comma from `i` on, or the end */
  function Comma(t: string, i: nat): (k: nat)
    requires i <= |t|
    ensures i <= k <= |t| && (k < |t| ==> t[k] == ',') && forall j | i <= j < k :: t[j] != ','
    decreases |t| - i
  {
    if i == |t| || t[i] == ',' then i else Comma(t, i + 1)
  }

  lemma CommaUnique(t: string, i: nat, k: nat)
    requires i <= k <= |t| && (k < |t| ==> t[k] == ',') && forall j | i <= j < k :: t[j] != ','
    ensures Comma(t, i) == k
  {
  }

  /** The ranges of a list up to its first bad element, and whether there is none */
  datatype Parsed = Parsed(ranges: seq<Range>, good: bool)

  function Parse(services: Services, proto: Option<string>, t: string, i: nat): Parsed
    requires i <= |t|
    decreases |t| - i
  {
    if i == |t| then Parsed([], true)
    else
      var k := Comma(t, i);
      var e := Element(services, proto, t[i..k], k == |t|);
      if e.None? then Parsed([], false)
      else if k == |t| then Parsed([e.value], true)
      else
        var rest := Parse(services, proto, t, k + 1);
        Parsed([e.value] + rest.ranges, rest.good)
  }

  // ----- Reading it -----

  method NextComma(t: string, i: nat) returns (k: nat)
    requires i <= |t|
    ensures k == Comma(t, i)
  {
    k := i;
    while k < |t| && t[k] != ','
      invariant i <= k <= |t| && forall j | i <= j < k :: t[j] != ','
    {
      k := k + 1;
    }
    CommaUnique(t, i, k);
  }

  lemma DecimalSnoc(s: string, c: char)
    requires AllDec(s) && IsDec(c)
    ensures AllDec(s + [c]) && Decimal(s + [c]) == Decimal(s) * 10 + Digit(c)
  {
    ValueSnoc(s, c, 10, 0);
  }

  method ReadNumber(t: string, i: nat) returns (k: nat, v: nat)
    requires i <= |t|
    ensures i <= k <= |t| && AllDec(t[i..k]) && (k < |t| ==> !IsDec(t[k])) && v == Decimal(t[i..k])
  {
    hide Decimal, Digit;
    k, v := i, 0;
    assert t[i..i] == "" && Decimal("") == 0 by { DecimalNone(); }
    while k < |t| && IsDec(t[k])
      invariant i <= k <= |t| && AllDec(t[i..k]) && v == Decimal(t[i..k])
    {
      DecimalSnoc(t[i..k], t[k]);
      assert t[i..k] + [t[k]] == t[i..k + 1];
      v := v * 10 + Digit(t[k]);
      k := k + 1;
    }
  }

  lemma DecimalNone()
    ensures Decimal("") == 0
  {
  }

  /** A run of digits that stops before the comma is the element's run. */
  lemma RunOfElement(t: string, i: nat, k: nat)
    requires i <= k <= |t| && AllDec(t[i..k]) && (k < |t| ==> !IsDec(t[k]))
    ensures k <= Comma(t, i) && Run(t[i..Comma(t, i)]) == k - i
    ensures t[i..Comma(t, i)][..k - i] == t[i..k]
    ensures k < Comma(t, i) ==> t[i..Comma(t, i)][k - i] == t[k] && t[i..Comma(t, i)][k - i + 1..] == t[k + 1..Comma(t, i)]
    ensures k < |t| && t[k] != ',' ==> k < Comma(t, i) && (k + 1 <= |t|) && Comma(t, k + 1) == Comma(t, i)
  {
    var c := Comma(t, i);
    assert forall j | 0 <= j < k - i :: t[i..k][j] == t[i + j];
    assert forall j | 0 <= j < k - i :: t[i..c][j] == t[i..k][j];
    RunUnique(t[i..c], k - i);
    if k < |t| && t[k] != ',' { CommaUnique(t, k + 1, c); }
  }

  /** One element, as enter_network_address() reads it: where it ends, and its range */
  method ReadElement(services: Services, proto: Option<string>, t: string, i: nat) returns (k: nat, r: Option<Range>)
    requires i < |t|
    ensures r == Element(services, proto, t[i..Comma(t, i)], Comma(t, i) == |t|)
    ensures r.Some? ==> k == Comma(t, i)
  {
    hide Service;
    k := i;
    if !IsDec(t[i]) {
      k := NextComma(t, i);
      if k == i {
        return k, None;
      }
      RunUnique(t[i..k], 0);
      var p := Service(services, proto, t[i..k]);
      return k, if p.Some? then Some(Range(p.value, p.value)) else None;
    }
    var lo;
    k, lo := ReadNumber(t, i);
    RunOfElement(t, i, k);
    if k == |t| || t[k] == ',' {
      return k, Some(Range(lo, lo));
    }
    if t[k] != '-' {
      return k, None;
    }
    k, r := ReadUpper(services, proto, t, k + 1, lo);
  }

  /** What follows the dash */
  method ReadUpper(services: Services, proto: Option<string>, t: string, i: nat, lo: nat) returns (k: nat, r: Option<Range>)
    requires i <= |t|
    ensures r == Upper(services, proto, lo, t[i..Comma(t, i)], Comma(t, i) == |t|)
    ensures r.Some? ==> k == Comma(t, i)
  {
    hide Service;
    var hi := 0;
    k := i;
    if i == |t| {
      assert t[i..Comma(t, i)] == "";
    } else if !IsDec(t[i]) {
      k := NextComma(t, i);
      if k == i {
        return k, None;
      }
      var p := Service(services, proto, t[i..k]);
      if p.None? {
        return k, None;
      }
      hi := p.value;
    } else {
      k, hi := ReadNumber(t, i);
      RunOfElement(t, i, k);
      if k < |t| && t[k] != ',' {
        assert !AllDec(t[i..Comma(t, i)]);
        return k, None;
      }
    }
    return k, Ordered(lo, hi);
  }

  // ----- Walking the list -----

  /** What is left of a list once `m` of its ranges are known */
  ghost predicate Rest(list: Parsed, m: nat, rest: Parsed) {
    m <= |list.ranges| && rest.ranges == list.ranges[m..] && rest.good == list.good
  }

  lemma ParseStep(services: Services, proto: Option<string>, t: string, i: nat, list: Parsed, m: nat)
    requires i < |t| && Rest(list, m, Parse(services, proto, t, i))
    ensures
      var k := Comma(t, i);
      var e := Element(services, proto, t[i..k], k == |t|);
      if e.None? then m == |list.ranges| && !list.good
      else
        && m < |list.ranges| && list.ranges[m] == e.value
        && (if k == |t| then m + 1 == |list.ranges| && list.good else Rest(list, m + 1, Parse(services, proto, t, k + 1)))
  {
    hide Element;
    var k := Comma(t, i);
    var here := Parse(services, proto, t, i).ranges;
    if Element(services, proto, t[i..k], k == |t|).Some? {
      assert here[0] == list.ranges[m];
      if k < |t| { assert here[1..] == Parse(services, proto, t, k + 1).ranges; }
    }
  }

  lemma ParseEnd(services: Services, proto: Option<string>, t: string, list: Parsed, m: nat)
    requires Rest(list, m, Parse(services, proto, t, |t|))
    ensures m == |list.ranges| && list.good
  {
  }

  // ----- Printing and reading back -----

  function PrintRange(r: Range): string {
    if r.lo == r.hi then Text(r.lo, 10) else Text(r.lo, 10) + "-" + Text(r.hi, 10)
  }

  function PrintList(rs: seq<Range>): string
    requires rs != []
  {
    if |rs| == 1 then PrintRange(rs[0]) else PrintRange(rs[0]) + "," + PrintList(rs[1..])
  }

  lemma DecimalBack(n: nat)
    ensures AllDec(Text(n, 10)) && Decimal(Text(n, 10)) == n && Run(Text(n, 10)) == |Text(n, 10)|
  {
    var s := Text(n, 10);
    forall i | 0 <= i < |s| ensures IsDec(s[i]) { assert s[i] in s; }
    RoundTrip(n, 10, 0);
    RunUnique(s, |s|);
  }

  lemma RangeBack(services: Services, proto: Option<string>, r: Range, last: bool)
    requires r.lo <= r.hi
    ensures Element(services, proto, PrintRange(r), last) == Some(r) && PrintRange(r) != ""
    ensures forall i | 0 <= i < |PrintRange(r)| :: PrintRange(r)[i] != ','
  {
    hide Text, Value;
    var s, a, b := PrintRange(r), Text(r.lo, 10), Text(r.hi, 10);
    DecimalBack(r.lo);
    DecimalBack(r.hi);
    if r.lo < r.hi {
      RunUnique(s, |a|);
      assert s[..|a|] == a && s[|a| + 1..] == b;
      assert IsDec(b[0]);
    }
  }

  lemma CutOut(pre: string, e: string, post: string)
    requires (forall i | 0 <= i < |e| :: e[i] != ',') && (post == "" || post[0] == ',')
    ensures
      var t, k := pre + e + post, |pre| + |e|;
      Comma(t, |pre|) == k && t[|pre|..k] == e
  {
    var t, k := pre + e + post, |pre| + |e|;
    forall j | |pre| <= j < k ensures t[j] != ',' { assert t[j] == e[j - |pre|]; }
    CommaUnique(t, |pre|, k);
  }

  lemma ParseLast(services: Services, proto: Option<string>, pre: string, r: Range)
    requires r.lo <= r.hi
    ensures Parse(services, proto, pre + PrintRange(r), |pre|) == Parsed([r], true)
  {
    hide Element, PrintRange;
    var e := PrintRange(r);
    RangeBack(services, proto, r, true);
    assert pre + e + "" == pre + e;
    CutOut(pre, e, "");
  }

  /** An element that another follows */
  lemma ParseElement(services: Services, proto: Option<string>, t: string, i: nat, k: nat, r: Range)
    requires i < |t| && Comma(t, i) == k < |t| && Element(services, proto, t[i..k], false) == Some(r)
    ensures
      var rest := Parse(services, proto, t, k + 1);
      Parse(services, proto, t, i) == Parsed([r] + rest.ranges, rest.good)
  {
    hide Element, Comma;
  }

  lemma ParseFirst(services: Services, proto: Option<string>, pre: string, r: Range, post: string)
    requires r.lo <= r.hi
    ensures
      var before := pre + PrintRange(r) + ",";
      var rest := Parse(services, proto, before + post, |before|);
      Parse(services, proto, before + post, |pre|) == Parsed([r] + rest.ranges, rest.good)
  {
    hide Element, PrintRange, Comma, Parse;
    var e := PrintRange(r);
    var before := pre + e + ",";
    var t := before + post;
    RangeBack(services, proto, r, false);
    CutOut(pre, e, "," + post);
    assert pre + e + ("," + post) == t;
    ParseElement(services, proto, t, |pre|, |pre| + |e|, r);
  }

  /** A printed list of ascending ranges parses back to itself. */
  lemma {:induction false} ListBack(services: Services, proto: Option<string>, pre: string, rs: seq<Range>)
    requires rs != [] && forall i | 0 <= i < |rs| :: rs[i].lo <= rs[i].hi
    ensures Parse(services, proto, pre + PrintList(rs), |pre|) == Parsed(rs, true)
    decreases |rs|
  {
    hide Parse, PrintRange;
    if |rs| == 1 {
      ParseLast(services, proto, pre, rs[0]);
      assert [rs[0]] == rs;
    } else {
      var before := pre + PrintRange(rs[0]) + ",";
      ListBack(services, proto, before, rs[1..]);
      ParseFirst(services, proto, pre, rs[0], PrintList(rs[1..]));
      assert before + PrintList(rs[1..]) == pre + PrintList(rs);
      assert [rs[0]] + rs[1..] == rs;
    }
  }
}
