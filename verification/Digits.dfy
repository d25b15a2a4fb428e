/** Numbers in text, as printf() writes them and digit loops read them. */
module Digits {

  const CHARS: string := "0123456789abcdef"

  predicate IsDec(c: char) {
    '0' <= c <= '9'
  }

  predicate IsHex(c: char) {
    IsDec(c) || 'a' <= c <= 'f' || 'A' <= c <= 'F'
  }

  function Digit(c: char): (d: nat)
    requires IsHex(c)
    ensures d < 16 && (IsDec(c) ==> d < 10)
  {
    if IsDec(c) then (c - '0') as nat
    else if 'a' <= c then 10 + (c - 'a') as nat
    else 10 + (c - 'A') as nat
  }

  /** `n` in base `b`, without leading zeros. */
  function Text(n: nat, b: nat): (s: string)
    requires b == 10 || b == 16
    ensures s != "" && forall c | c in s :: IsHex(c) && (b == 10 ==> IsDec(c))
  {
    var d := CHARS[n % b];
    if n < b then [d] else Text(n / b, b) + [d]
  }

  /** The value of a digit text, read from the left and kept modulo `m` (0: not at all). */
  function Value(s: string, b: nat, m: nat): nat
    requires forall c | c in s :: IsHex(c)
  {
    if s == "" then 0
    else
      var r := Value(s[..|s| - 1], b, m) * b + Digit(s[|s| - 1]);
      if m == 0 then r else r % m
  }

  lemma DigitChar(d: nat)
    requires d < 16
    ensures Digit(CHARS[d]) == d
  {
  }

  lemma ValueSnoc(t: string, c: char, b: nat, m: nat)
    requires IsHex(c) && forall h | h in t :: IsHex(h)
    ensures Value(t + [c], b, m) == var r := Value(t, b, m) * b + Digit(c); if m == 0 then r else r % m
  {
    var s := t + [c];
    assert s[..|s| - 1] == t && s[|s| - 1] == c;
  }

  lemma SmallRemainder(n: nat, m: nat)
    requires n < m
    ensures n % m == n
  {
  }

  lemma AddDigit(t: string, n: nat, b: nat, m: nat)
    requires (b == 10 || b == 16) && (m == 0 || n < m)
    requires (forall h | h in t :: IsHex(h)) && Value(t, b, m) == n / b
    ensures Value(t + [CHARS[n % b]], b, m) == n
  {
    DigitChar(n % b);
    ValueSnoc(t, CHARS[n % b], b, m);
    if m != 0 { SmallRemainder(n, m); }
  }

  /** Reading back what was printed, as long as the number fits. */
  lemma {:induction false} RoundTrip(n: nat, b: nat, m: nat)
    requires (b == 10 || b == 16) && (m == 0 || n < m)
    ensures Value(Text(n, b), b, m) == n
  {
    var q := Quotient(n, b);
    if n < b {
      AddDigit("", n, b, m);
    } else {
      RoundTrip(q, b, m);
      AddDigit(Text(q, b), n, b, m);
    }
  }

  lemma Quotient(n: nat, b: nat) returns (q: nat)
    requires b == 10 || b == 16
    ensures q == n / b && (n >= b ==> q < n)
    ensures Text(n, b) == (if n < b then "" else Text(q, b)) + [CHARS[n % b]]
    ensures n < b ==> q == 0
  {
    q := n / b;
    assert "" + [CHARS[n % b]] == [CHARS[n % b]];
  }

  function Pow(b: nat, k: nat): (p: nat)
    ensures b > 0 ==> p > 0
  {
    if k == 0 then 1 else b * Pow(b, k - 1)
  }

  lemma {:induction false} TextLength(n: nat, b: nat, k: nat)
    requires (b == 10 || b == 16) && k > 0 && n < Pow(b, k)
    ensures |Text(n, b)| <= k
  {
    if n >= b {
      assert Pow(b, 1) == b * Pow(b, 0) == b;
      assert n / b < Pow(b, k - 1);
      TextLength(n / b, b, k - 1);
    }
  }

  lemma Associate(a: nat, b: nat, c: nat)
    ensures a * (b * c) == a * b * c
  {
  }

  lemma {:induction false} PowAdd(b: nat, i: nat, j: nat)
    ensures Pow(b, i + j) == Pow(b, i) * Pow(b, j)
  {
    if i > 0 {
      PowAdd(b, i - 1, j);
      Associate(b, Pow(b, i - 1), Pow(b, j));
    }
  }

  /** The powers that bound 64-bit numbers. */
  lemma Bounds()
    ensures Pow(16, 16) == 0x1_0000_0000_0000_0000 && Pow(10, 20) == 100_000_000_000_000_000_000
  {
    assert Pow(16, 4) == 0x1_0000 by { PowAdd(16, 2, 2); }
    assert Pow(16, 8) == 0x1_0000_0000 by { PowAdd(16, 4, 4); }
    PowAdd(16, 8, 8);
    assert Pow(10, 5) == 100_000 by { PowAdd(10, 3, 2); }
    assert Pow(10, 10) == 10_000_000_000 by { PowAdd(10, 5, 5); }
    PowAdd(10, 10, 10);
  }

  lemma NoLeadingZero(n: nat, b: nat)
    requires b == 10 || b == 16
    ensures Text(n, b)[0] == '0' ==> Text(n, b) == "0"
  {
  }

  lemma {:induction false} Injective(n: nat, k: nat, b: nat)
    requires (b == 10 || b == 16) && Text(n, b) == Text(k, b)
    ensures n == k
  {
    RoundTrip(n, b, 0);
    RoundTrip(k, b, 0);
  }

  /** The length of the run of decimal digits that begins a text. */
  function Run(s: string): (k: nat)
    ensures k <= |s| && (forall i | 0 <= i < k :: IsDec(s[i])) && (k < |s| ==> !IsDec(s[k]))
  {
    if s == "" || !IsDec(s[0]) then 0 else 1 + Run(s[1..])
  }

  lemma RunUnique(s: string, k: nat)
    requires k <= |s| && (forall i | 0 <= i < k :: IsDec(s[i])) && (k < |s| ==> !IsDec(s[k]))
    ensures Run(s) == k
  {
  }
}
