/** What read_dcache() refuses: files that are not what write_dcache() wrote. */
module DevCacheDamage {
  import opened Common
  import opened DevTable
  import opened Digits
  import opened DevCache
  import Crc

  // ----- Every accepted file is sealed -----

  /** The cursor stands in `text`, and its sum is that of the text before it. */
  ghost predicate Tracks(text: string, c: Cursor) {
    && |c.rest| <= |text| && c.rest == text[|text| - |c.rest|..]
    && c.sum == Sum(text[..|text| - |c.rest|], 0)
  }

  lemma NextTracks(text: string, c: Cursor)
    requires Tracks(text, c) && DevCache.Next(c).Some?
    ensures var (line, c') := DevCache.Next(c).value;
            && Tracks(text, c') && |c'.rest| < |c.rest|
            && text[|text| - |c.rest|..|text| - |c'.rest|] == line && c.rest == line + c'.rest
  {
    hide Sum;
    var (line, c') := DevCache.Next(c).value;
    var i, j := |text| - |c.rest|, |text| - |c'.rest|;
    assert text[i..j] == c.rest[..j - i] == line;
    assert text[..j] == text[..i] + line;
    SumCat(text[..i], line, 0);
  }

  lemma {:induction false} RowsTrack(text: string, c: Cursor, n: nat, acc: seq<Dev>)
    requires Tracks(text, c) && ReadRows(c, n, acc).Some?
    ensures var c' := ReadRows(c, n, acc).value.1; Tracks(text, c') && |c'.rest| <= |c.rest|
    decreases n
  {
    hide Tracks, DevCache.Next, ParseRow;
    if n > 0 {
      var (line, c') := DevCache.Next(c).value;
      NextTracks(text, c);
      RowsTrack(text, c', n - 1, acc + [ParseRow(line).value]);
    }
  }

  lemma {:induction false} ClonesTrack(text: string, c: Cursor, ds: seq<Dev>, n: nat, acc: seq<nat>)
    requires Tracks(text, c) && ReadClones(c, ds, n, acc).Some?
    ensures var c' := ReadClones(c, ds, n, acc).value.1; Tracks(text, c') && |c'.rest| <= |c.rest|
    decreases n
  {
    hide Tracks, DevCache.Next, ParseClone;
    if n > 0 {
      var (line, c') := DevCache.Next(c).value;
      NextTracks(text, c);
      ClonesTrack(text, c', ds, n - 1, [ParseClone(line, ds).value] + acc);
    }
  }

  /** `text` is its first `n` characters, followed by their checksum line. */
  ghost predicate SealedAt(text: string, n: nat) {
    n <= |text| && text == Sealed(text[..n], 0)
  }

  lemma CrcSeals(text: string, c: Cache, c6: Cursor) returns (n: nat)
    requires Tracks(text, c6) && ReadCrc(c, c6).Some?
    ensures SealedAt(text, n) && n == |text| - |c6.rest|
  {
    hide Sum, CrcLine;
    n := |text| - |c6.rest|;
    NextTracks(text, c6);
    assert text == text[..n] + text[n..];
  }

  lemma ClonesSeal(text: string, devs: seq<Dev>, blks: seq<Dev>, c4: Cursor) returns (n: nat)
    requires Tracks(text, c4) && ReadCloneSection(devs, blks, c4).Some?
    ensures SealedAt(text, n) && n >= |text| - |c4.rest|
  {
    hide Tracks, SealedAt, DevCache.Next, ReadClones, ReadCrc, ParseHeader;
    var (l5, c5) := DevCache.Next(c4).value;
    var (clones, c6) := ReadClones(c5, devs, ParseHeader(CLONES, l5).value, []).value;
    NextTracks(text, c4);
    ClonesTrack(text, c5, devs, ParseHeader(CLONES, l5).value, []);
    n := CrcSeals(text, Cache(devs, blks, clones), c6);
  }

  lemma BlocksSeal(text: string, devs: seq<Dev>, c2: Cursor) returns (n: nat)
    requires Tracks(text, c2) && ReadBlocks(devs, c2).Some?
    ensures SealedAt(text, n) && n >= |text| - |c2.rest|
  {
    hide Tracks, SealedAt, DevCache.Next, ReadRows, ReadCloneSection, ParseHeader;
    var (l3, c3) := DevCache.Next(c2).value;
    var h := ParseHeader(BLOCKS, l3).value;
    var (blks, c4) := ReadRows(c3, if h > 0 then h else 0, []).value;
    NextTracks(text, c2);
    RowsTrack(text, c3, if h > 0 then h else 0, []);
    n := ClonesSeal(text, devs, blks, c4);
  }

  lemma DevicesSeal(text: string, c0: Cursor) returns (n: nat)
    requires Tracks(text, c0) && ReadDevices(c0).Some?
    ensures SealedAt(text, n) && n >= |text| - |c0.rest|
  {
    hide Tracks, SealedAt, DevCache.Next, ReadRows, ReadBlocks, ParseHeader;
    var (l1, c1) := DevCache.Next(c0).value;
    var (devs, c2) := ReadRows(c1, ParseHeader(DEVICES, l1).value, []).value;
    NextTracks(text, c0);
    RowsTrack(text, c1, ParseHeader(DEVICES, l1).value, []);
    n := BlocksSeal(text, devs, c2);
  }

  /** Every text that is read begins with the section count for this /dev and
      ends in the checksum line of all that goes before. */
  lemma AcceptedIsSealed(text: string, dev: nat)
    requires Read(text, dev).Some?
    ensures CountLine(dev) <= text
    ensures exists n: nat :: SealedAt(text, n) && n >= |CountLine(dev)|
  {
    hide SealedAt, DevCache.Next, ReadDevices, CountLine;
    var c := Cursor(text, 0);
    var (l0, c0) := DevCache.Next(c).value;
    assert Tracks(text, c) by {
      assert text[..0] == "";
      SumEmpty(0);
    }
    NextTracks(text, c);
    var n := DevicesSeal(text, c0);
  }

  // ----- Where the checksum line is -----

  const TITLE := "CRC section: "

  /** The text has one capital R and one s, where the title has them. */
  predicate Marked(s: string) {
    |s| >= |TITLE| && forall j | 0 <= j < |s| :: (s[j] == 'R' <==> j == 1) && (s[j] == 's' <==> j == 4)
  }

  lemma CrcMarks(sum: bv32)
    ensures |TITLE| + 2 <= |CrcLine(sum)| <= |TITLE| + 9 && TITLE <= CrcLine(sum) && Marked(CrcLine(sum))
  {
    hide Marked, Text;
    NumberMarks(sum as int);
    var t := Text(sum as int, 16);
    assert CrcLine(sum) == TITLE + (t + "\n");
    TitleMarks(t + "\n");
  }

  lemma NumberMarks(x: nat)
    requires x < 0x1_0000_0000
    ensures var t := Text(x, 16); 1 <= |t| <= 8 && 'R' !in t + "\n" && 's' !in t + "\n"
  {
    assert Pow(16, 4) == 0x1_0000 by { PowAdd(16, 2, 2); }
    PowAdd(16, 4, 4);
    TextLength(x, 16, 8);
  }

  lemma TitleMarks(t: string)
    requires 'R' !in t && 's' !in t
    ensures Marked(TITLE + t)
  {
    forall j | |TITLE| <= j < |TITLE + t| ensures (TITLE + t)[j] != 'R' && (TITLE + t)[j] != 's' {
      assert (TITLE + t)[j] in t;
    }
  }

  /** The title stands at `n`, but perhaps for its character number `p`. */
  ghost predicate TitleAt(text: string, n: nat, p: nat) {
    n + |TITLE| <= |text| && forall j | 0 <= j < |TITLE| && j != p :: text[n + j] == TITLE[j]
  }

  /** A text sealed somewhere is sealed where its title is, even if that is damaged. */
  lemma OneSeal(text: string, m: nat, n: nat, p: nat)
    requires SealedAt(text, m) && TitleAt(text, n, p) && n + |TITLE| + 2 <= |text| <= n + |TITLE| + 9
    ensures m == n
  {
    hide CrcLine, Sum, Marked, TitleAt;
    var line := CrcLine(Sum(text[..m], 0));
    CrcMarks(Sum(text[..m], 0));
    TitleMarks("");
    assert TITLE + "" == TITLE;
    if m <= n { TitleBefore(text, line, m, n, p); } else { TitleAfter(text, line, m, n, p); }
  }

  lemma TitleBefore(text: string, line: string, m: nat, n: nat, p: nat)
    requires m <= n <= |text| && n - m + 4 < |line| && text[..m] + line == text && TitleAt(text, n, p)
    requires Marked(line) && Marked(TITLE)
    ensures m == n
  {
    var j := if p == 1 then 4 else 1;
    assert text[n + j] == line[n - m + j] && text[n + j] == TITLE[j];
  }

  lemma TitleAfter(text: string, line: string, m: nat, n: nat, p: nat)
    requires n <= m <= |text| && m - n + 4 < |TITLE| && text[..m] + line == text && TitleAt(text, n, p)
    requires Marked(line) && Marked(TITLE)
    ensures m == n
  {
    var j := if m - n + 1 == p then 4 else 1;
    assert text[n + (m - n + j)] == line[j] && text[n + (m - n + j)] == TITLE[m - n + j];
  }

  /** If a text that ends in a titled line is read, the line is the checksum line
      of what goes before it. */
  lemma ReadOnlySealed(body: string, line: string, p: nat, dev: nat)
    requires Read(body + line, dev).Some? && TitleAt(line, 0, p) && |TITLE| + 2 <= |line| <= |TITLE| + 9
    ensures line == CrcLine(Sum(body, 0))
  {
    hide Read, CountLine, Sum, CrcLine, SealedAt, TitleAt;
    var text, n := body + line, |body|;
    AcceptedIsSealed(text, dev);
    var m: nat :| SealedAt(text, m) && m >= |CountLine(dev)|;
    TitleMoves(body, line, p);
    OneSeal(text, m, n, p);
    SealIs(body, line);
  }

  lemma TitleMoves(body: string, line: string, p: nat)
    requires TitleAt(line, 0, p)
    ensures TitleAt(body + line, |body|, p)
  {
    forall j | 0 <= j < |TITLE| && j != p ensures (body + line)[|body| + j] == TITLE[j] {
      assert line[0 + j] == TITLE[j];
    }
  }

  lemma SealIs(body: string, line: string)
    requires SealedAt(body + line, |body|)
    ensures line == CrcLine(Sum(body, 0))
  {
    hide Sum, CrcLine;
    var text, n := body + line, |body|;
    assert text[..n] == body && text[n..] == line;
    assert (body + CrcLine(Sum(body, 0)))[n..] == CrcLine(Sum(body, 0));
  }

  // ----- Damage -----

  lemma CrcLineInjective(a: bv32, b: bv32)
    requires CrcLine(a) == CrcLine(b)
    ensures a == b
  {
    var x, y := a as int, b as int;
    SameText(Text(x, 16), Text(y, 16));
    Injective(x, y, 16);
    SameNumber(a, b);
  }

  function Cast(x: int): bv32
    requires 0 <= x < 0x1_0000_0000
  {
    x as bv32
  }

  lemma CastBack(a: bv32)
    ensures Cast(a as int) == a
  {
  }

  lemma SameNumber(a: bv32, b: bv32)
    requires a as int == b as int
    ensures a == b
  {
    hide Cast;
    CastBack(a);
    CastBack(b);
  }

  lemma SameText(a: string, b: string)
    requires TITLE + a + "\n" == TITLE + b + "\n"
    ensures a == b
  {
    assert (TITLE + a + "\n")[|TITLE|..|TITLE| + |a|] == a && |a| == |b|;
    assert (TITLE + b + "\n")[|TITLE|..|TITLE| + |b|] == b;
  }

  /** A sealed text whose body was changed to one of another sum is refused. */
  lemma ChangedBody(body: string, body': string, dev: nat)
    requires |body| == |body'| && Sum(body, 0) != Sum(body', 0)
    ensures Read(body' + CrcLine(Sum(body, 0)), dev).None?
  {
    hide Read, Sum, CrcLine;
    var line := CrcLine(Sum(body, 0));
    CrcMarks(Sum(body, 0));
    if Read(body' + line, dev).Some? {
      ReadOnlySealed(body', line, |TITLE|, dev);
      CrcLineInjective(Sum(body, 0), Sum(body', 0));
    }
  }

  /** A written file with an odd number of wrong bits before its checksum line is refused. */
  lemma OddDamageIsRefused(c: Cache, dev: nat, body': string, dev': nat)
    requires Representable(c)
    requires var body := CountLine(dev) + DeviceBody(c);
             |body| == |body'| && Crc.Flips(Bytes(body), Bytes(body')) % 2 == 1
    ensures var line := CrcLine(Sum(CountLine(dev) + DeviceBody(c), 0));
            File(c, dev) == CountLine(dev) + DeviceBody(c) + line && Read(body' + line, dev').None?
  {
    hide Read, CrcLine, CountLine, DeviceBody, Crc.Flips;
    var body := CountLine(dev) + DeviceBody(c);
    Crc.OddDamage(Bytes(body), Bytes(body'), 0);
    ChangedBody(body, body', dev');
  }

  /** And so is one whose wrong bits lie within sixteen consecutive ones. */
  lemma BurstIsRefused(c: Cache, dev: nat, body': string, dev': nat, i: nat, e: bv32, k: nat)
    requires Representable(c)
    requires var body := CountLine(dev) + DeviceBody(c);
             |body| == |body'| && Crc.Burst(Bytes(body), Bytes(body'), i, e, k)
    ensures var line := CrcLine(Sum(CountLine(dev) + DeviceBody(c), 0));
            File(c, dev) == CountLine(dev) + DeviceBody(c) + line && Read(body' + line, dev').None?
  {
    hide Read, CrcLine, CountLine, DeviceBody, Crc.Burst;
    var body := CountLine(dev) + DeviceBody(c);
    Crc.BurstDamage(Bytes(body), Bytes(body'), 0, i, e, k);
    ChangedBody(body, body', dev');
  }

  /** A checksum line changed in any way but in two places of its title is refused. */
  lemma ChangedLine(body: string, line: string, p: nat, dev: nat)
    requires |line| == |CrcLine(Sum(body, 0))| && line != CrcLine(Sum(body, 0)) && TitleAt(line, 0, p)
    ensures Read(body + line, dev).None?
  {
    hide Read, Sum, CrcLine;
    CrcMarks(Sum(body, 0));
    if Read(body + line, dev).Some? { ReadOnlySealed(body, line, p, dev); }
  }

  predicate IsByte(c: char) {
    c as int < 256
  }

  lemma OtherByte(body: string, i: nat, c: char)
    requires i < |body| && |body| >= 2 && IsByte(c) && IsByte(body[i]) && c != body[i]
    ensures Sum(body, 0) != Sum(body[i := c], 0)
  {
    hide Crc.Sum;
    ByteInjective(body[i], c);
    OneByte(Bytes(body), Bytes(body[i := c]), i);
  }

  lemma OneByte(a: seq<bv8>, b: seq<bv8>, i: nat)
    requires i < |a| == |b| && |a| >= 2 && a[i] != b[i] && forall j | 0 <= j < |a| && j != i :: a[j] == b[j]
    ensures Crc.Sum(a, 0) != Crc.Sum(b, 0)
  {
    hide Crc.Sum;
    var h := if i + 1 < |a| then i else i - 1;
    assert a == a[..h] + [a[h], a[h + 1]] + a[h + 2..];
    assert b == a[..h] + [b[h], b[h + 1]] + a[h + 2..];
    Crc.AdjacentDamage(a[..h], a[h], a[h + 1], b[h], b[h + 1], a[h + 2..], 0);
  }

  lemma ByteInjective(c: char, d: char)
    requires IsByte(c) && IsByte(d) && c != d
    ensures (c as int % 256) as bv8 != (d as int % 256) as bv8
  {
    assert ((c as int % 256) as bv8) as int == c as int;
    assert ((d as int % 256) as bv8) as int == d as int;
  }

  /** One wrong byte, anywhere in a file that was good, and the file is refused. */
  lemma OneWrongByte(text: string, dev: nat, i: nat, c: char, dev': nat)
    requires Read(text, dev).Some? && i < |text| && IsByte(c) && IsByte(text[i]) && c != text[i]
    ensures Read(text[i := c], dev').None?
  {
    hide Read, Sum, CrcLine;
    AcceptedIsSealed(text, dev);
    var n: nat :| SealedAt(text, n) && n >= |CountLine(dev)|;
    var body := text[..n];
    var line := CrcLine(Sum(body, 0));
    assert text == body + line;
    if i < n {
      assert text[i := c] == body[i := c] + line;
      OtherByte(body, i, c);
      ChangedBody(body, body[i := c], dev');
    } else {
      assert text[i := c] == body + line[i - n := c] && line[i - n] == text[i];
      CrcMarks(Sum(body, 0));
      ChangedLine(body, line[i - n := c], i - n, dev');
    }
  }
}
