/** IPv4 addresses as text: printed by printinaddr() (src/print.c), recognised
    by isIPv4addr() (src/arg.c). */
module DottedQuad {
  import opened Common
  import opened Digits
  import opened Ports

  // ----- The grammar -----

  /** The parts of a text with one more character */
  function Extended(g: seq<string>, c: char): (h: seq<string>)
    requires |g| >= 1
    ensures |h| >= |g| && (forall k | 0 <= k < |g| - 1 :: h[k] == g[k]) && g[|g| - 1] <= h[|g| - 1]
  {
    if c == '.' then g + [""] else g[..|g| - 1] + [g[|g| - 1] + [c]]
  }

  /** A text's parts between dots */
  function Groups(s: string): (g: seq<string>)
    ensures |g| >= 1
  {
    if s == "" then [""]
    else
      Extended(Groups(s[..|s| - 1]), s[|s| - 1])
  }

  predicate Octet(g: string) {
    g != "" && AllDec(g) && Decimal(g) <= 255
  }

  /** The text up to the first colon */
  function Host(s: string): (h: string)
    ensures h <= s && ':' !in h && (|h| < |s| ==> s[|h|] == ':')
  {
    if s == "" || s[0] == ':' then "" else [s[0]] + Host(s[1..])
  }

  predicate IsQuad(s: string) {
    var g := Groups(Host(s));
    |g| == 4 && Octet(g[0]) && Octet(g[1]) && Octet(g[2]) && Octet(g[3])
  }

  function Octets(s: string): seq<nat>
    requires IsQuad(s)
  {
    var g := Groups(Host(s));
    [Decimal(g[0]), Decimal(g[1]), Decimal(g[2]), Decimal(g[3])]
  }

  // ----- Reading -----

  lemma HostUnique(s: string, h: string)
    requires h <= s && ':' !in h && (|h| < |s| ==> s[|h|] == ':')
    ensures Host(s) == h
  {
    HostReaches(s, |h|);
    assert forall i | 0 <= i < |Host(s)| :: s[i] in Host(s);
  }

  lemma {:induction false} HostReaches(s: string, i: nat)
    requires i <= |s| && ':' !in s[..i]
    ensures i <= |Host(s)| && Host(s)[..i] == s[..i]
  {
    if i > 0 {
      assert s[0] in s[..i] && s[1..][..i - 1] == s[..i][1..];
      HostReaches(s[1..], i - 1);
    }
  }

  lemma GroupsSnoc(s: string, c: char)
    ensures Groups(s + [c]) == Extended(Groups(s), c)
  {
    assert (s + [c])[..|s|] == s;
  }

  /** Reading on leaves every part but the last as it is, and only adds to that. */
  lemma {:induction false} GroupsGrow(s: string, i: nat)
    requires i <= |s|
    ensures
      var g, h := Groups(s[..i]), Groups(s);
      |g| <= |h| && (forall k | 0 <= k < |g| - 1 :: g[k] == h[k]) && g[|g| - 1] <= h[|g| - 1]
    decreases |s| - i
  {
    hide Groups, Extended;
    if i == |s| {
      assert s[..i] == s;
    } else {
      GroupsGrow(s, i + 1);
      assert s[..i + 1] == s[..i] + [s[i]];
      GroupsSnoc(s[..i], s[i]);
    }
  }

  /** The part being read has a character that is no digit, a part before it is
      no octet, or there are too many. */
  ghost predicate Hopeless(g: seq<string>)
    requires |g| >= 1
  {
    |g| > 4 || !AllDec(g[|g| - 1]) || exists k | 0 <= k < |g| - 1 :: !Octet(g[k])
  }

  lemma HopelessStays(s: string, i: nat)
    requires i <= |s| && ':' !in s[..i] && Hopeless(Groups(s[..i]))
    ensures !IsQuad(s)
  {
    hide Groups, Host;
    HostReaches(s, i);
    GroupsGrow(Host(s), i);
    var g, h := Groups(s[..i]), Groups(Host(s));
    var last := |g| - 1;
    if |g| <= 4 && !AllDec(g[last]) {
      var j :| 0 <= j < |g[last]| && !IsDec(g[last][j]);
      assert h[last][j] == g[last][j];
      assert !Octet(h[last]);
    }
  }

  /** ov[] and ovx once these parts have been read */
  ghost predicate Holds(g: seq<string>, o: seq<int>, ovx: nat) {
    && |o| == 4 && ovx < 4 && |g| == ovx + 1
    && (forall k | 0 <= k < ovx :: Octet(g[k]) && o[k] == Decimal(g[k]))
    && AllDec(g[ovx]) && o[ovx] == (if g[ovx] == "" then -1 else Decimal(g[ovx]))
  }

  /** One character of the loop */
  method Take(ov: array<int>, ovx: nat, c: char, ghost g: seq<string>) returns (ok: bool, ovx': nat)
    requires Holds(g, ov[..], ovx)
    modifies ov
    ensures if ok then Holds(Extended(g, c), ov[..], ovx') else Hopeless(Extended(g, c))
  {
    hide Decimal, Digit;
    ovx' := ovx;
    ghost var g' := Extended(g, c);
    if c == '.' {
      if ov[ovx] < 0 || ov[ovx] > 255 {
        assert !Octet(g'[ovx]);
        return false, ovx;
      }
      if ovx + 1 > 3 {
        return false, ovx;
      }
      ovx' := ovx + 1;
      ov[ovx'] := -1;
      return true, ovx';
    }
    if IsDec(c) {
      DecimalSnoc(g[ovx], c);
      DecimalNone();
      ov[ovx] := if ov[ovx] < 0 then Digit(c) else ov[ovx] * 10 + Digit(c);
      return true, ovx;
    }
    assert !IsDec(g'[ovx][|g[ovx]|]);
    return false, ovx;
  }

  /** isIPv4addr(): the octets and the place after them, exactly if the text up
      to the first colon is four octets between dots */
  method IsIPv4(hn: string) returns (r: Option<seq<nat>>, end: nat)
    ensures r.Some? <==> IsQuad(hn)
    ensures r.Some? ==> r.value == Octets(hn) && end == |Host(hn)|
  {
    hide Groups, Decimal, Digit, Host;
    r, end := None, 0;
    if hn == "" || !IsDec(hn[0]) {
      NoDigitNoQuad(hn);
      return;
    }
    var ov := new int[4];
    ov[0] := Digit(hn[0]);
    var dc, ovx := 0, 0;
    end := 1;
    FirstDigit(hn);
    assert Holds(Groups(hn[..end]), ov[..], ovx);
    while end < |hn| && hn[end] != ':'
      invariant 1 <= end <= |hn| && ':' !in hn[..end] && dc == ovx
      invariant Holds(Groups(hn[..end]), ov[..], ovx)
    {
      ghost var g := Groups(hn[..end]);
      assert hn[..end + 1] == hn[..end] + [hn[end]];
      GroupsSnoc(hn[..end], hn[end]);
      var c := hn[end];
      if c == '.' {
        dc := dc + 1;
      }
      var ok;
      ok, ovx := Take(ov, ovx, c, g);
      if !ok {
        HopelessStays(hn, end + 1);
        return;
      }
      end := end + 1;
    }
    HostUnique(hn, hn[..end]);
    if dc != 3 || ovx != 3 || ov[ovx] < 0 || ov[ovx] > 255 {
      return;
    }
    r := Some([ov[0], ov[1], ov[2], ov[3]]);
  }

  lemma NoDigitNoQuad(hn: string)
    requires hn == "" || !IsDec(hn[0])
    ensures !IsQuad(hn)
  {
    if hn != "" && hn[0] != ':' {
      assert hn[..1] == "" + [hn[0]];
      GroupsSnoc("", hn[0]);
      HopelessStays(hn, 1);
    }
  }

  lemma FirstDigit(hn: string)
    requires hn != "" && IsDec(hn[0])
    ensures Groups(hn[..1]) == [[hn[0]]] && Decimal([hn[0]]) == Digit(hn[0]) && ':' !in hn[..1]
  {
    hide Groups, Decimal, Digit;
    GroupsNone();
    DecimalNone();
    assert hn[..1] == "" + [hn[0]];
    GroupsSnoc("", hn[0]);
    DecimalSnoc("", hn[0]);
    assert "" + [hn[0]] == [hn[0]];
  }

  // ----- Printing and reading back -----

  /** "%u.%u.%u.%u" */
  function PrintQuad(a: nat, b: nat, c: nat, d: nat): string {
    Text(a, 10) + "." + Text(b, 10) + "." + Text(c, 10) + "." + Text(d, 10)
  }

  /** Text added to the last part */
  function WithLast(g: seq<string>, t: string): (h: seq<string>)
    requires |g| >= 1
    ensures |h| == |g|
  {
    g[..|g| - 1] + [g[|g| - 1] + t]
  }

  lemma WithLastMore(g: seq<string>, t: string, c: char)
    requires |g| >= 1 && c != '.'
    ensures Extended(WithLast(g, t), c) == WithLast(g, t + [c]) && WithLast(g, "") == g
  {
    var h := WithLast(g, t);
    assert h[..|h| - 1] == g[..|g| - 1] && h[|h| - 1] == g[|g| - 1] + t;
    assert g[|g| - 1] + t + [c] == g[|g| - 1] + (t + [c]);
    assert g[|g| - 1] + "" == g[|g| - 1];
  }

  lemma {:induction false} GroupsPlain(s: string, t: string)
    requires '.' !in t
    ensures Groups(s + t) == WithLast(Groups(s), t)
    decreases |t|
  {
    hide Groups, Extended, WithLast;
    if t == "" {
      assert s + t == s;
      WithLastMore(Groups(s), "", 'a');
    } else {
      var front, c := t[..|t| - 1], t[|t| - 1];
      GroupsPlain(s, front);
      GroupsSnoc(s + front, c);
      WithLastMore(Groups(s), front, c);
      assert s + t == s + front + [c] && t == front + [c];
    }
  }

  lemma GroupsDot(s: string, t: string)
    requires '.' !in t
    ensures Groups(s + "." + t) == Groups(s) + [t]
  {
    GroupsSnoc(s, '.');
    GroupsPlain(s + ".", t);
    assert "" + t == t;
  }

  /** Four octets printed, and followed by nothing or by a colon, are recognised
      as the same four octets. */
  lemma QuadBack(a: nat, b: nat, c: nat, d: nat, rest: string)
    requires a <= 255 && b <= 255 && c <= 255 && d <= 255 && (rest == "" || rest[0] == ':')
    ensures
      var s := PrintQuad(a, b, c, d);
      IsQuad(s + rest) && Octets(s + rest) == [a, b, c, d] && Host(s + rest) == s
  {
    hide Text, Groups, Value, Host;
    var s := PrintQuad(a, b, c, d);
    DecimalBack(a);
    DecimalBack(b);
    DecimalBack(c);
    DecimalBack(d);
    assert ':' !in s;
    HostUnique(s + rest, s);
    FourGroups(Text(a, 10), Text(b, 10), Text(c, 10), Text(d, 10));
  }

  lemma FourGroups(a: string, b: string, c: string, d: string)
    requires '.' !in a && '.' !in b && '.' !in c && '.' !in d
    ensures Groups(a + "." + b + "." + c + "." + d) == [a, b, c, d]
  {
    hide Groups;
    assert Groups(a) == [a] by { assert "" + a == a; GroupsPlain("", a); GroupsNone(); }
    GroupsDot(a, b);
    GroupsDot(a + "." + b, c);
    GroupsDot(a + "." + b + "." + c, d);
  }

  lemma GroupsNone()
    ensures Groups("") == [""]
  {
  }
}
