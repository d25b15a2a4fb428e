/** crcbld() and crc(): the table-driven checksum of the device cache file,
    against the CRC-16 that shifts one bit at a time. */
module Crc {

  const POLY: bv32 := 0xA001 // CRC_POLY, octal 0120001
  const TBLL: nat := 256     // CRC_TBLL
  const BITS: nat := 8       // CRC_BITS

  /** One bit of the reflected division. */
  function Shift(x: bv32): bv32 {
    if x & 1 == 1 then (x >> 1) ^ POLY else x >> 1
  }

  function Shifts(x: bv32, n: nat): bv32 {
    if n == 0 then x else Shift(Shifts(x, n - 1))
  }

  /** A byte enters at the low end and is shifted out bit by bit. */
  function Step(s: bv32, c: bv8): bv32 {
    Shifts(s ^ (c as bv32), BITS)
  }

  /** The reference sum of a block of bytes, continuing from `s`. */
  function Sum(b: seq<bv8>, s: bv32): bv32 {
    if b == [] then s else Sum(b[1..], Step(s, b[0]))
  }

  predicate IsXor(z: bv32, a: bv32, b: bv32) {
    z == a ^ b
  }

  // ----- The table is right -----

  lemma XorFacts(a: bv32, b: bv32, p: bv32)
    ensures (a ^ b) >> 1 == (a >> 1) ^ (b >> 1) && (a ^ b) & 1 == (a & 1) ^ (b & 1)
    ensures (a & 1 == 0 || a & 1 == 1) && (b & 1 == 0 || b & 1 == 1)
    ensures (a ^ p) ^ (b ^ p) == a ^ b && (a ^ p) ^ b == (a ^ b) ^ p && a ^ (b ^ p) == (a ^ b) ^ p
  {
  }

  lemma ShiftLinear(x: bv32, y: bv32)
    ensures Shift(x ^ y) == Shift(x) ^ Shift(y)
  {
    XorFacts(x, y, POLY);
    XorFacts(x >> 1, y >> 1, POLY);
  }

  lemma ShiftXor(z: bv32, a: bv32, b: bv32)
    requires IsXor(z, a, b)
    ensures IsXor(Shift(z), Shift(a), Shift(b))
  {
    ShiftLinear(a, b);
  }

  lemma {:induction false} ShiftsXor(z: bv32, a: bv32, b: bv32, n: nat)
    requires IsXor(z, a, b)
    ensures IsXor(Shifts(z, n), Shifts(a, n), Shifts(b, n))
  {
    if n > 0 {
      ShiftsXor(z, a, b, n - 1);
      ShiftXor(Shifts(z, n - 1), Shifts(a, n - 1), Shifts(b, n - 1));
    }
  }

  lemma EightShifts(x: bv32)
    ensures Shifts(x, BITS) == Shift(Shift(Shift(Shift(Shift(Shift(Shift(Shift(x))))))))
  {
    assert Shifts(x, 1) == Shift(x);
    assert Shifts(x, 2) == Shift(Shifts(x, 1));
    assert Shifts(x, 3) == Shift(Shifts(x, 2));
    assert Shifts(x, 4) == Shift(Shifts(x, 3));
    assert Shifts(x, 5) == Shift(Shifts(x, 4));
    assert Shifts(x, 6) == Shift(Shifts(x, 5));
    assert Shifts(x, 7) == Shift(Shifts(x, 6));
  }

  /** With a zero low byte, eight shifts only move the rest down. */
  lemma HighBytes(x: bv32)
    requires x & 0xff == 0
    ensures Shift(Shift(Shift(Shift(Shift(Shift(Shift(Shift(x)))))))) == x >> 8
  {
  }

  lemma SplitLow(x: bv32)
    ensures IsXor(x, x & 0xffffff00, x & 0xff)
    ensures (x & 0xffffff00) & 0xff == 0 && (x & 0xffffff00) >> 8 == x >> 8
  {
  }

  /** One table step is eight bit steps. */
  lemma TableStep(x: bv32)
    ensures IsXor(Shifts(x, BITS), x >> 8, Shifts(x & 0xff, BITS))
  {
    var hi := x & 0xffffff00;
    SplitLow(x);
    HighBytes(hi);
    EightShifts(hi);
    ShiftsXor(x, hi, x & 0xff, BITS);
  }

  /** The table crcbld() leaves. */
  ghost predicate IsTable(t: seq<bv32>) {
    |t| == TBLL && forall i | 0 <= i < TBLL :: t[i] == Shifts(i as bv32, BITS)
  }

  lemma ShiftIs(x: bv32)
    ensures Shift(x) == if x & 1 == 1 then (x >> 1) ^ POLY else x >> 1
  {
  }

  /** The inner loop of crcbld() */
  method BuildEntry(x: bv32) returns (entry: bv32)
    ensures entry == Shifts(x, BITS)
  {
    hide Shift;
    entry := x;
    var j := 1;
    while j <= BITS
      invariant 1 <= j <= BITS + 1 && entry == Shifts(x, j - 1)
    {
      ShiftIs(entry);
      var bit := entry & 1;
      entry := entry >> 1;
      if bit == 1 {
        entry := entry ^ POLY;
      }
      j := j + 1;
    }
  }

  method Build() returns (crctbl: array<bv32>)
    ensures fresh(crctbl) && IsTable(crctbl[..])
  {
    hide Shifts;
    crctbl := new bv32[TBLL];
    var i := 0;
    while i < TBLL
      invariant 0 <= i <= TBLL
      invariant forall h | 0 <= h < i :: crctbl[h] == Shifts(h as bv32, BITS)
    {
      crctbl[i] := BuildEntry(i as bv32);
      i := i + 1;
    }
  }

  lemma IndexInBounds(x: bv32)
    ensures 0 <= (x & 0xff) as int < TBLL
  {
  }

  lemma IndexIsByte(k: bv32)
    ensures (k as int) as bv32 == k
  {
  }

  /** crc(), whose loop tests its limit only after the first byte. */
  method Block(b: seq<bv8>, s: bv32, crctbl: array<bv32>) returns (sum: bv32)
    requires b != [] && IsTable(crctbl[..])
    ensures sum == Sum(b, s)
  {
    sum := s;
    var cp := 0;
    while true
      invariant 0 <= cp < |b| && Sum(b, s) == Sum(b[cp..], sum)
      decreases |b| - cp
    {
      sum := TableLookup(sum ^ (b[cp] as bv32), crctbl);
      cp := cp + 1;
      if cp >= |b| {
        break;
      }
    }
  }

  method TableLookup(x: bv32, crctbl: array<bv32>) returns (y: bv32)
    requires IsTable(crctbl[..])
    ensures y == Shifts(x, BITS)
  {
    IndexInBounds(x);
    IndexIsByte(x & 0xff);
    var i := (x & 0xff) as int;
    TableStep(x);
    assert crctbl[..][i] == Shifts(x & 0xff, BITS);
    y := (x >> 8) ^ crctbl[i];
  }

  // ----- What it detects -----

  lemma {:induction false} SumAppend(a: seq<bv8>, b: seq<bv8>, s: bv32)
    ensures Sum(a + b, s) == Sum(b, Sum(a, s))
  {
    if a == [] {
      assert a + b == b;
    } else {
      assert (a + b)[1..] == a[1..] + b;
      SumAppend(a[1..], b, Step(s, a[0]));
    }
  }

  predicate Small(x: bv32) {
    x <= 0xffff
  }

  function Unshift(y: bv32): bv32 {
    if y & 0x8000 == 0 then y << 1 else ((y ^ POLY) << 1) | 1
  }

  lemma ShiftSmall(x: bv32)
    requires Small(x)
    ensures Small(Shift(x)) && Unshift(Shift(x)) == x
  {
  }

  lemma {:induction false} ShiftsInjective(x: bv32, y: bv32, n: nat)
    requires Small(x) && Small(y)
    ensures Small(Shifts(x, n)) && Small(Shifts(y, n)) && (Shifts(x, n) == Shifts(y, n) ==> x == y)
  {
    if n > 0 {
      ShiftsInjective(x, y, n - 1);
      ShiftSmall(Shifts(x, n - 1));
      ShiftSmall(Shifts(y, n - 1));
    }
  }

  lemma XorCancel(x: bv32, s: bv32, t: bv32, a: bv32)
    requires IsXor(x, s, a) && IsXor(x, t, a)
    ensures s == t
  {
    assert x ^ a == s;
  }

  lemma XorSmall(x: bv32, s: bv32, a: bv32)
    requires IsXor(x, s, a) && Small(s) && Small(a)
    ensures Small(x)
  {
  }

  lemma MixInjective(x: bv32, y: bv32, s: bv32, t: bv32, a: bv32)
    requires IsXor(x, s, a) && IsXor(y, t, a) && Small(s) && Small(t) && Small(a)
    ensures Small(Shifts(x, BITS)) && Small(Shifts(y, BITS))
    ensures Shifts(x, BITS) == Shifts(y, BITS) ==> s == t
  {
    XorSmall(x, s, a);
    XorSmall(y, t, a);
    ShiftsInjective(x, y, BITS);
    if x == y { XorCancel(x, s, t, a); }
  }

  lemma StepInjective(s: bv32, t: bv32, c: bv8)
    requires Small(s) && Small(t)
    ensures Small(Step(s, c)) && Small(Step(t, c)) && (Step(s, c) == Step(t, c) ==> s == t)
  {
    var x, a := Mixed(s, c);
    var y, b := Mixed(t, c);
    MixInjective(x, y, s, t, a);
  }

  function Word(c: bv8): bv32 {
    c as bv32
  }

  lemma Mixed(s: bv32, c: bv8) returns (x: bv32, a: bv32)
    ensures a == c as bv32 == Word(c) && Small(a) && a <= 0xff && IsXor(x, s, a) && Step(s, c) == Shifts(x, BITS)
  {
    a := c as bv32;
    x := s ^ a;
  }

  lemma {:induction false} SumInjective(b: seq<bv8>, s: bv32, t: bv32)
    requires Small(s) && Small(t)
    ensures Small(Sum(b, s)) && (Sum(b, s) == Sum(b, t) ==> s == t)
  {
    if b != [] {
      StepInjective(s, t, b[0]);
      SumInjective(b[1..], Step(s, b[0]), Step(t, b[0]));
    }
  }

  /** Of the table's entries only the first has a zero high byte. */
  lemma TableHighByte(d: bv32)
    requires d <= 0xff && d != 0
    ensures Shift(Shift(Shift(Shift(Shift(Shift(Shift(Shift(d)))))))) > 0xff
  {
  }

  lemma TwoSteps(s: bv32, a1: bv8, a2: bv8, b1: bv8, b2: bv8)
    requires Small(s) && Step(Step(s, a1), a2) == Step(Step(s, b1), b2)
    ensures a1 == b1 && a2 == b2
  {
    var x, a := Mixed(s, a1);
    var y, b := Mixed(s, b1);
    SameDifference(x, y, s, a, b);
    var d := a ^ b;
    var u, v := Step(s, a1), Step(s, b1);
    ShiftsXor(d, x, y, BITS);
    var p, e := Mixed(u, a2);
    var q, f := Mixed(v, b2);
    StepInjective(s, s, a1);
    StepInjective(s, s, b1);
    XorSmall(p, u, e);
    XorSmall(q, v, f);
    ShiftsInjective(p, q, BITS);
    HighByteZero(d, u, v, p, e, f);
  }

  lemma SameDifference(x: bv32, y: bv32, s: bv32, a: bv32, b: bv32)
    requires IsXor(x, s, a) && IsXor(y, s, b)
    ensures IsXor(a ^ b, x, y)
  {
  }

  lemma HighByteZero(d: bv32, u: bv32, v: bv32, p: bv32, e: bv32, f: bv32)
    requires d <= 0xff && e <= 0xff && f <= 0xff
    requires IsXor(Shifts(d, BITS), u, v) && IsXor(p, u, e) && IsXor(p, v, f)
    ensures d == 0 && e == f
  {
    if d != 0 {
      TableHighByte(d);
      EightShifts(d);
    }
  }

  /** Damage confined to two adjacent bytes always changes the sum. */
  lemma AdjacentDamage(pre: seq<bv8>, a1: bv8, a2: bv8, b1: bv8, b2: bv8, post: seq<bv8>, s: bv32)
    requires Small(s) && (a1, a2) != (b1, b2)
    ensures Sum(pre + [a1, a2] + post, s) != Sum(pre + [b1, b2] + post, s)
  {
    var m := Sum(pre, s);
    SumInjective(pre, s, s);
    AfterTwo(pre, a1, a2, post, s);
    AfterTwo(pre, b1, b2, post, s);
    StepInjective(m, m, a1);
    StepInjective(m, m, b1);
    StepInjective(Step(m, a1), Step(m, a1), a2);
    StepInjective(Step(m, b1), Step(m, b1), b2);
    SumInjective(post, Step(Step(m, a1), a2), Step(Step(m, b1), b2));
    if Step(Step(m, a1), a2) == Step(Step(m, b1), b2) { TwoSteps(m, a1, a2, b1, b2); }
  }

  lemma AfterTwo(pre: seq<bv8>, a1: bv8, a2: bv8, post: seq<bv8>, s: bv32)
    ensures Sum(pre + [a1, a2] + post, s) == Sum(post, Step(Step(Sum(pre, s), a1), a2))
  {
    SumAppend(pre + [a1, a2], post, s);
    SumAppend(pre, [a1, a2], s);
    SumTwo(a1, a2, Sum(pre, s));
  }

  lemma SumTwo(a1: bv8, a2: bv8, m: bv32)
    ensures Sum([a1, a2], m) == Step(Step(m, a1), a2)
  {
    assert [a1, a2][1..] == [a2];
    assert Sum([a2], Step(m, a1)) == Sum([], Step(Step(m, a1), a2));
  }

  // ----- An odd number of wrong bits -----

  predicate Low(x: bv32) {
    x & 1 == 1
  }

  function Half(x: bv32): bv32 {
    x >> 1
  }

  /** The number of ones in the low `n` bits */
  function Ones(x: bv32, n: nat): nat {
    if n == 0 then 0 else (if Low(x) then 1 else 0) + Ones(Half(x), n - 1)
  }

  /** The number of ones in the low `n` bits is odd. */
  predicate Odd(x: bv32, n: nat) {
    n > 0 && Low(x) != Odd(Half(x), n - 1)
  }

  lemma {:induction false} OnesOdd(x: bv32, n: nat)
    ensures Ones(x, n) % 2 == 1 <==> Odd(x, n)
    decreases n
  {
    hide Low, Half;
    if n > 0 { OnesOdd(Half(x), n - 1); }
  }

  lemma HalfXor(z: bv32, x: bv32, y: bv32)
    requires IsXor(z, x, y)
    ensures IsXor(Half(z), Half(x), Half(y)) && Low(z) == (Low(x) != Low(y))
  {
  }

  lemma {:induction false} OddXor(z: bv32, x: bv32, y: bv32, n: nat)
    requires IsXor(z, x, y)
    ensures Odd(z, n) == (Odd(x, n) != Odd(y, n))
    decreases n
  {
    hide IsXor, Low, Half;
    if n > 0 {
      HalfXor(z, x, y);
      OddXor(Half(z), Half(x), Half(y), n - 1);
    }
  }

  /** The polynomial has three ones. */
  lemma OddPoly()
    ensures Odd(POLY, 16)
  {
    assert !Odd(0, 0) && Odd(1, 1) && Odd(2, 2);
    assert 5 as bv32 >> 1 == 2 && !Odd(5, 3) && !Odd(0xA, 4) && !Odd(0x14, 5) && !Odd(0x28, 6) && !Odd(0x50, 7);
    assert !Odd(0xA0, 8) && !Odd(0x140, 9) && !Odd(0x280, 10) && !Odd(0x500, 11) && !Odd(0xA00, 12);
    assert !Odd(0x1400, 13) && !Odd(0x2800, 14) && !Odd(0x5000, 15);
  }

  lemma {:induction false} OddZero(n: nat)
    ensures !Odd(0, n)
  {
    if n > 0 { OddZero(n - 1); }
  }

  /** No bit from place `n` on is set. */
  predicate Below(x: bv32, n: nat) {
    if n == 0 then x == 0 else Below(Half(x), n - 1)
  }

  lemma {:induction false} OneBitMore(x: bv32, n: nat)
    requires Below(x, n)
    ensures Odd(x, n + 1) == Odd(x, n)
    decreases n
  {
    hide Low, Half;
    if n == 0 { OddZero(1); } else { OneBitMore(Half(x), n - 1); }
  }

  predicate AtMost(x: bv32, b: bv32) {
    x <= b
  }

  lemma HalfLess(x: bv32, b: bv32)
    requires AtMost(x, b)
    ensures AtMost(Half(x), Half(b)) && (b == 0 ==> x == 0)
  {
  }

  lemma {:induction false} BelowLess(x: bv32, b: bv32, n: nat)
    requires AtMost(x, b) && Below(b, n)
    ensures Below(x, n)
    decreases n
  {
    hide AtMost, Half;
    HalfLess(x, b);
    if n > 0 { BelowLess(Half(x), Half(b), n - 1); }
  }

  lemma SmallBelow(x: bv32)
    requires Small(x)
    ensures Below(x, 16)
  {
    assert Below(0, 0) && Below(1, 1) && Below(3, 2) && Below(7, 3) && Below(0xf, 4);
    assert Below(0x1f, 5) && Below(0x3f, 6) && Below(0x7f, 7) && Below(0xff, 8);
    assert Below(0x1ff, 9) && Below(0x3ff, 10) && Below(0x7ff, 11) && Below(0xfff, 12);
    assert Below(0x1fff, 13) && Below(0x3fff, 14) && Below(0x7fff, 15) && Below(0xffff, 16);
    BelowLess(x, 0xffff, 16);
  }

  lemma ShiftCases(x: bv32)
    ensures Low(x) ==> IsXor(Shift(x), Half(x), POLY)
    ensures !Low(x) ==> Shift(x) == Half(x)
  {
  }

  /** A bit that falls out brings the polynomial's odd number of ones in. */
  lemma ShiftKeepsParity(x: bv32)
    requires Small(x)
    ensures Odd(Shift(x), 16) == Odd(x, 16)
  {
    hide Shift, IsXor, Below, Low, Half, Small;
    SmallBelow(x);
    OneBitMore(x, 16);
    ShiftCases(x);
    OddPoly();
    if Low(x) { OddXor(Shift(x), Half(x), POLY, 16); }
  }

  lemma {:induction false} ShiftsKeepParity(x: bv32, n: nat)
    requires Small(x)
    ensures Small(Shifts(x, n)) && Odd(Shifts(x, n), 16) == Odd(x, 16)
  {
    hide Odd, Shift;
    if n > 0 {
      ShiftsKeepParity(x, n - 1);
      ShiftSmall(Shifts(x, n - 1));
      ShiftKeepsParity(Shifts(x, n - 1));
    }
  }

  predicate OddByte(c: bv8) {
    Odd(Word(c), 16)
  }

  predicate OddText(b: seq<bv8>) {
    b != [] && OddByte(b[0]) != OddText(b[1..])
  }

  lemma StepParity(s: bv32, c: bv8)
    requires Small(s)
    ensures Small(Step(s, c)) && Odd(Step(s, c), 16) == (Odd(s, 16) != OddByte(c))
  {
    hide Odd, Shift, Shifts, IsXor, Small, Step, Word;
    var x, a := Mixed(s, c);
    XorSmall(x, s, a);
    ShiftsKeepParity(x, BITS);
    OddXor(x, s, a, 16);
  }

  /** The parity of the sum is that of the text. */
  lemma {:induction false} SumParity(b: seq<bv8>, s: bv32)
    requires Small(s)
    ensures Odd(Sum(b, s), 16) == (Odd(s, 16) != OddText(b))
  {
    hide Odd, Step, Small, OddByte;
    if b != [] {
      StepParity(s, b[0]);
      SumParity(b[1..], Step(s, b[0]));
    }
  }

  function MixByte(a: bv8, b: bv8): bv8 {
    a ^ b
  }

  lemma ByteXor(a: bv8, b: bv8)
    ensures IsXor(Word(MixByte(a, b)), Word(a), Word(b))
  {
  }

  function Differ(a: bv8, b: bv8): nat {
    Ones(Word(MixByte(a, b)), 16)
  }

  /** The number of bits in which two texts differ */
  function Flips(a: seq<bv8>, b: seq<bv8>): nat
    requires |a| == |b|
  {
    if a == [] then 0 else Differ(a[0], b[0]) + Flips(a[1..], b[1..])
  }

  lemma DifferParity(a: bv8, b: bv8)
    ensures Differ(a, b) % 2 == 1 <==> OddByte(a) != OddByte(b)
  {
    hide Odd, Ones, Word, MixByte, IsXor;
    OnesOdd(Word(MixByte(a, b)), 16);
    ByteXor(a, b);
    OddXor(Word(MixByte(a, b)), Word(a), Word(b), 16);
  }

  lemma {:induction false} FlipsParity(a: seq<bv8>, b: seq<bv8>)
    requires |a| == |b|
    ensures Flips(a, b) % 2 == 1 <==> OddText(a) != OddText(b)
  {
    hide OddByte, Differ;
    if a != [] {
      FlipsParity(a[1..], b[1..]);
      DifferParity(a[0], b[0]);
    }
  }

  /** An odd number of wrong bits, anywhere, always changes the sum. */
  lemma OddDamage(a: seq<bv8>, b: seq<bv8>, s: bv32)
    requires |a| == |b| && Small(s) && Flips(a, b) % 2 == 1
    ensures Sum(a, s) != Sum(b, s)
  {
    hide Odd, Sum, OddText, Flips;
    SumParity(a, s);
    SumParity(b, s);
    FlipsParity(a, b);
  }

  // ----- A burst of wrong bits -----

  function XorText(a: seq<bv8>, b: seq<bv8>): (d: seq<bv8>)
    requires |a| == |b|
    ensures |d| == |a| && forall i | 0 <= i < |a| :: d[i] == MixByte(a[i], b[i])
  {
    if a == [] then [] else [MixByte(a[0], b[0])] + XorText(a[1..], b[1..])
  }

  lemma FourXor(x: bv32, y: bv32, z: bv32, s: bv32, t: bv32, w: bv32, a: bv32, b: bv32, d: bv32)
    requires IsXor(x, s, a) && IsXor(y, t, b) && IsXor(z, w, d) && IsXor(w, s, t) && IsXor(d, a, b)
    ensures IsXor(z, x, y)
  {
  }

  /** The sum is linear: the difference of two sums is the sum of the difference. */
  lemma {:induction false} SumLinear(a: seq<bv8>, b: seq<bv8>, w: bv32, s: bv32, t: bv32)
    requires |a| == |b| && IsXor(w, s, t)
    ensures IsXor(Sum(XorText(a, b), w), Sum(a, s), Sum(b, t))
    decreases |a|
  {
    hide IsXor, Shifts, Step, Small, Word, MixByte;
    if a != [] {
      var x, p := Mixed(s, a[0]);
      var y, q := Mixed(t, b[0]);
      var z, d := Mixed(w, MixByte(a[0], b[0]));
      ByteXor(a[0], b[0]);
      FourXor(x, y, z, s, t, w, p, q, d);
      ShiftsXor(z, x, y, BITS);
      SumLinear(a[1..], b[1..], Step(w, MixByte(a[0], b[0])), Step(s, a[0]), Step(t, b[0]));
      assert XorText(a, b)[1..] == XorText(a[1..], b[1..]);
    }
  }

  lemma {:induction false} ShiftsZero(n: nat)
    ensures Shifts(0, n) == 0
  {
    if n > 0 { ShiftsZero(n - 1); }
  }

  /** Zeros leave an empty register empty. */
  lemma {:induction false} SumZeros(b: seq<bv8>)
    requires forall i | 0 <= i < |b| :: b[i] == 0
    ensures Sum(b, 0) == 0
  {
    if b != [] {
      ShiftsZero(BITS);
      assert 0 ^ (0 as bv32) == 0;
      SumZeros(b[1..]);
    }
  }

  lemma {:induction false} ShiftsAdd(x: bv32, m: nat, n: nat)
    ensures Shifts(x, m + n) == Shifts(Shifts(x, m), n)
  {
    if n > 0 { ShiftsAdd(x, m, n - 1); }
  }

  function Mix(x: bv32, y: bv32): bv32 {
    x ^ y
  }

  function Up8(x: bv32): bv32 {
    x << 8
  }

  function Up16(x: bv32): bv32 {
    x << 16
  }

  function Down8(x: bv32): bv32 {
    x >> 8
  }

  /** Three bytes in the order in which their bits are taken */
  function Join(a: bv8, b: bv8, c: bv8): bv32 {
    Mix(Word(a), Mix(Up8(Word(b)), Up16(Word(c))))
  }

  /** `high` has an empty low byte, over which lies `rest`. */
  predicate Lifted(high: bv32, rest: bv32) {
    high & 0xff == 0 && rest == Down8(high)
  }

  /** A byte that still lies above the register's low byte is not touched. */
  lemma StepJoin(x: bv32, s: bv32, high: bv32, rest: bv32)
    requires IsXor(x, s, high) && Lifted(high, rest)
    ensures IsXor(Shifts(x, BITS), Shifts(s, BITS), rest)
  {
    hide Shift, IsXor;
    ShiftsXor(x, s, high, BITS);
    EightShifts(high);
    HighBytes(high);
  }

  lemma Joined(a: bv8, b: bv8, c: bv8) returns (h: bv32, g: bv32, l: bv32)
    ensures IsXor(Join(a, b, c), Word(a), h) && Lifted(h, g) && IsXor(g, Word(b), l) && Lifted(l, Word(c))
  {
    hide Word, Up8, Up16, Down8, Lifted, IsXor, Mix;
    h, l := Mix(Up8(Word(b)), Up16(Word(c))), Up8(Word(c));
    g := Down8(h);
    MixIsXor(Word(a), h);
    ByteWord(b);
    ByteWord(c);
    LiftedPair(Word(b), Word(c));
    LiftedByte(Word(c));
    MovedDown(Word(b), Word(c));
  }

  lemma MixIsXor(x: bv32, y: bv32)
    ensures IsXor(Mix(x, y), x, y)
  {
  }

  predicate IsByte(x: bv32) {
    x <= 0xff
  }

  lemma ByteWord(c: bv8)
    ensures IsByte(Word(c))
  {
  }

  lemma LiftedPair(b: bv32, c: bv32)
    ensures Lifted(Mix(Up8(b), Up16(c)), Down8(Mix(Up8(b), Up16(c))))
  {
  }

  lemma LiftedByte(c: bv32)
    requires IsByte(c)
    ensures Lifted(Up8(c), c)
  {
  }

  lemma MovedDown(b: bv32, c: bv32)
    requires IsByte(b) && IsByte(c)
    ensures IsXor(Down8(Mix(Up8(b), Up16(c))), b, Up8(c))
  {
  }

  lemma XorNone(x: bv32, a: bv32)
    requires IsXor(x, 0, a)
    ensures x == a
  {
  }

  lemma Reassociate(x: bv32, p: bv32, s: bv32, g: bv32, b: bv32, l: bv32)
    requires IsXor(x, s, g) && IsXor(g, b, l) && IsXor(p, s, b)
    ensures IsXor(x, p, l)
  {
  }

  lemma XorSame(x: bv32, y: bv32, a: bv32, b: bv32)
    requires IsXor(x, a, b) && IsXor(y, a, b)
    ensures x == y
  {
  }

  /** Three bytes into an empty register are the shifts of all their bits. */
  lemma ThreeBytes(a: bv8, b: bv8, c: bv8)
    ensures Step(Step(Step(0, a), b), c) == Shifts(Join(a, b, c), 24)
  {
    hide Shift, Shifts, IsXor, Step, Small, Join, Lifted, Word;
    var p0, a' := Mixed(0, a);
    var p1, b' := Mixed(Step(0, a), b);
    var p2, c' := Mixed(Step(Step(0, a), b), c);
    var x0 := Join(a, b, c);
    var h, g, l := Joined(a, b, c);
    XorNone(p0, a');
    StepJoin(x0, p0, h, g);
    var x1 := Shifts(x0, BITS);
    Reassociate(x1, p1, Step(0, a), g, b', l);
    StepJoin(x1, p1, l, c');
    XorSame(Shifts(x1, BITS), p2, Step(Step(0, a), b), c');
    ShiftsAdd(x0, BITS, BITS);
    ShiftsAdd(x0, BITS + BITS, BITS);
  }

  function Double(x: bv32): bv32 {
    x << 1
  }

  /** `e` moved `k` places on */
  function Moved(e: bv32, k: nat): bv32 {
    if k == 0 then e else Double(Moved(e, k - 1))
  }

  /** The largest 16-bit number moved `k` places on, with ones behind it */
  function Cap(k: nat): bv32 {
    if k == 0 then 0xffff else Above(Cap(k - 1))
  }

  function Above(c: bv32): bv32 {
    Double(c) | 1
  }

  lemma CapFits()
    ensures forall k | 0 <= k < 8 :: AtMost(Cap(k), 0x7fffff)
  {
    assert Cap(1) == 0x1ffff && Cap(2) == 0x3ffff && Cap(3) == 0x7ffff && Cap(4) == 0xfffff;
    assert Cap(5) == 0x1fffff && Cap(6) == 0x3fffff && Cap(7) == 0x7fffff;
  }

  lemma DoubleFits(x: bv32, c: bv32)
    requires AtMost(x, c) && AtMost(c, 0x7fffff)
    ensures AtMost(Double(x), Above(c)) && !Low(Double(x)) && Half(Double(x)) == x
  {
  }

  lemma SmallFits(e: bv32)
    requires Small(e)
    ensures AtMost(e, 0xffff)
  {
  }

  lemma {:induction false} MovedFits(e: bv32, k: nat)
    requires Small(e) && k <= 8
    ensures AtMost(Moved(e, k), Cap(k))
  {
    hide AtMost, Double, Above, Small;
    if k == 0 {
      SmallFits(e);
    } else {
      MovedFits(e, k - 1);
      CapFits();
      DoubleFits(Moved(e, k - 1), Cap(k - 1));
    }
  }

  lemma MovedOne(e: bv32, k: nat)
    requires Small(e) && 0 < k <= 8
    ensures Shift(Moved(e, k)) == Moved(e, k - 1)
  {
    hide AtMost, Double, Shift, Low, Half, Cap, Above, Small;
    MovedFits(e, k - 1);
    CapFits();
    DoubleFits(Moved(e, k - 1), Cap(k - 1));
    ShiftCases(Moved(e, k));
  }

  lemma {:induction false} MovedBack(e: bv32, k: nat)
    requires Small(e) && k <= 8
    ensures Shifts(Moved(e, k), k) == e
    decreases k
  {
    hide Shift, Small, Double;
    if k > 0 {
      MovedOne(e, k);
      ShiftsAdd(Moved(e, k), 1, k - 1);
      assert Shifts(Moved(e, k), 1) == Shift(Shifts(Moved(e, k), 0));
      MovedBack(e, k - 1);
    }
  }

  /** A burst of up to 16 bits leaves something in the register. */
  lemma BurstRemains(a: bv8, b: bv8, c: bv8, e: bv32, k: nat)
    requires Small(e) && e != 0 && k <= 8 && Join(a, b, c) == Moved(e, k)
    ensures Step(Step(Step(0, a), b), c) != 0 && Small(Step(Step(Step(0, a), b), c))
  {
    hide Shift, Join, Moved;
    ThreeBytes(a, b, c);
    MovedBack(e, k);
    ShiftsAdd(Moved(e, k), k, 24 - k);
    ShiftsZero(24 - k);
    ShiftsInjective(e, 0, 24 - k);
  }

  /** The texts differ only in a burst of at most 16 consecutive bits, which
      begins `k` bits into byte `i` and may reach into three bytes. */
  ghost predicate Burst(a: seq<bv8>, b: seq<bv8>, i: nat, e: bv32, k: nat) {
    && |a| == |b| && i + 3 <= |a| && k <= 8 && Small(e) && e != 0
    && (forall j | 0 <= j < |a| && !(i <= j < i + 3) :: a[j] == b[j])
    && Join(MixByte(a[i], b[i]), MixByte(a[i + 1], b[i + 1]), MixByte(a[i + 2], b[i + 2])) == Moved(e, k)
  }

  lemma SumThree(a: bv8, b: bv8, c: bv8, m: bv32)
    ensures Sum([a, b, c], m) == Step(Step(Step(m, a), b), c)
  {
    hide Shifts;
    assert [a, b, c][1..] == [b, c];
    SumTwo(b, c, Step(m, a));
  }

  /** Every burst of at most 16 wrong bits changes the sum. */
  lemma BurstDamage(a: seq<bv8>, b: seq<bv8>, s: bv32, i: nat, e: bv32, k: nat)
    requires Burst(a, b, i, e, k)
    ensures Sum(a, s) != Sum(b, s)
  {
    hide Sum, Step, Join, Moved, Shift;
    var d := XorText(a, b);
    var pre, mid, post := d[..i], [d[i], d[i + 1], d[i + 2]], d[i + 3..];
    assert d == pre + mid + post;
    XorSelf(a, b, i);
    SumLinear(a, b, 0, s, s) by { assert IsXor(0, s, s) by { XorZero(s); } }
    SumZeros(pre);
    SumZeros(post);
    SumAppend(pre + mid, post, 0);
    SumAppend(pre, mid, 0);
    SumThree(d[i], d[i + 1], d[i + 2], 0);
    BurstRemains(d[i], d[i + 1], d[i + 2], e, k);
    var r := Sum(mid, 0);
    SumInjective(post, r, 0);
    if Sum(a, s) == Sum(b, s) { XorZero(Sum(a, s)); }
  }

  lemma XorZero(s: bv32)
    ensures s ^ s == 0
  {
  }

  lemma XorSelf(a: seq<bv8>, b: seq<bv8>, i: nat)
    requires |a| == |b| && i + 3 <= |a| && forall j | 0 <= j < |a| && !(i <= j < i + 3) :: a[j] == b[j]
    ensures forall j | 0 <= j < |a| && !(i <= j < i + 3) :: XorText(a, b)[j] == 0
  {
    forall j | 0 <= j < |a| && !(i <= j < i + 3) ensures XorText(a, b)[j] == 0 {
      ByteZero(a[j]);
    }
  }

  lemma ByteZero(c: bv8)
    ensures MixByte(c, c) == 0
  {
  }
}
