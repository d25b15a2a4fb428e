/** The device cache file: the text that write_dcache() writes and what
    read_dcache() makes of a text. */
module DevCache {
  import opened Common
  import opened DevTable
  import opened Digits
  import Crc

  const LIMIT: nat := 2 * 4096 - 1 // characters that fit a line buffer, MAXPATHLEN * 2 with its NUL
  const TWO63: nat := 0x8000_0000_0000_0000
  const TWO64: nat := 0x1_0000_0000_0000_0000

  /** Device rows, block device rows, and the clone list as positions among the rows. */
  datatype Cache = Cache(devs: seq<Dev>, blks: seq<Dev>, clones: seq<nat>)

  /** What the C types and strings hold. */
  predicate Representable(c: Cache) {
    && |c.devs| < 0x8000_0000 && |c.blks| < 0x8000_0000 && |c.clones| < 0x8000_0000
    && (forall i | 0 <= i < |c.devs| :: c.devs[i].rdev < TWO64 && c.devs[i].inode < TWO64)
    && (forall i | 0 <= i < |c.blks| :: c.blks[i].rdev < TWO64 && c.blks[i].inode < TWO64)
    && (forall i | 0 <= i < |c.clones| :: c.clones[i] < |c.devs|)
  }

  // ----- Checksums of text -----

  function Bytes(s: string): seq<bv8> {
    seq(|s|, i requires 0 <= i < |s| => (s[i] as int % 256) as bv8)
  }

  function Sum(s: string, acc: bv32): bv32 {
    Crc.Sum(Bytes(s), acc)
  }

  lemma BytesCat(a: string, b: string)
    ensures Bytes(a + b) == Bytes(a) + Bytes(b)
  {
    forall i | 0 <= i < |a + b| ensures Bytes(a + b)[i] == (Bytes(a) + Bytes(b))[i] {
      assert (a + b)[i] == if i < |a| then a[i] else b[i - |a|];
    }
  }

  lemma SumCat(a: string, b: string, acc: bv32)
    ensures Sum(a + b, acc) == Sum(b, Sum(a, acc))
  {
    hide Bytes;
    BytesCat(a, b);
    Crc.SumAppend(Bytes(a), Bytes(b), acc);
  }

  lemma SumEmpty(acc: bv32)
    ensures Sum("", acc) == acc
  {
    assert Bytes("") == [];
  }

  // ----- Writing -----

  /** snpf() into a line buffer */
  function Cut(s: string): string {
    if |s| <= LIMIT then s else s[..LIMIT]
  }

  /** "%ld" of an inode number */
  function Signed(n: nat): string
    requires n < TWO64
  {
    if n < TWO63 then Text(n, 10) else "-" + Text(TWO64 - n, 10)
  }

  function FullRow(d: Dev): string
    requires d.inode < TWO64
  {
    Text(d.rdev, 16) + " " + Signed(d.inode) + " " + d.name + "\n"
  }

  function FullClone(k: nat, name: string): string {
    Text(k, 10) + " " + name + "\n"
  }

  function Rows(ds: seq<Dev>): string
    requires forall i | 0 <= i < |ds| :: ds[i].inode < TWO64
  {
    if ds == [] then "" else Cut(FullRow(ds[0])) + Rows(ds[1..])
  }

  function CloneRows(ks: seq<nat>, ds: seq<Dev>): string
    requires forall i | 0 <= i < |ks| :: ks[i] < |ds|
  {
    if ks == [] then "" else Cut(FullClone(ks[0], ds[ks[0]].name)) + CloneRows(ks[1..], ds)
  }

  /** The three-section form: device, block device and clone sections. */
  function CountLine(dev: nat): string {
    "3 sections, dev=" + Text(dev, 16) + "\n"
  }

  const DEVICES := "device section: "
  const BLOCKS := "block device section: "
  const CLONES := "clone section: "

  function Header(title: string, n: nat): string {
    title + Text(n, 10) + "\n"
  }

  function CrcLine(sum: bv32): string {
    "CRC section: " + Text(sum as int, 16) + "\n"
  }

  function CloneBody(c: Cache): string
    requires Representable(c)
  {
    Header(CLONES, |c.clones|) + CloneRows(c.clones, c.devs)
  }

  function BlockBody(c: Cache): string
    requires Representable(c)
  {
    Header(BLOCKS, |c.blks|) + (Rows(c.blks) + CloneBody(c))
  }

  function DeviceBody(c: Cache): string
    requires Representable(c)
  {
    Header(DEVICES, |c.devs|) + (Rows(c.devs) + BlockBody(c))
  }

  /** Text followed by the checksum line that a sum begun at `sum` gives it. */
  function Sealed(body: string, sum: bv32): string {
    body + CrcLine(Sum(body, sum))
  }

  function File(c: Cache, dev: nat): string
    requires Representable(c)
  {
    Sealed(CountLine(dev) + DeviceBody(c), 0)
  }

  // ----- Reading -----

  /** Where reading stands: the text left, and the sum of the lines read. */
  datatype Cursor = Cursor(rest: string, sum: bv32)

  function LineLength(s: string, m: nat): (k: nat)
    ensures k <= m && k <= |s| && (m > 0 && s != "" ==> k > 0)
    ensures forall i | 0 <= i < k - 1 :: s[i] != '\n'
  {
    if m == 0 || s == "" then 0 else if s[0] == '\n' then 1 else 1 + LineLength(s[1..], m - 1)
  }

  /** fgets() of the next line, and crc() over it */
  function Next(c: Cursor): (r: Option<(string, Cursor)>)
    ensures r.Some? ==> |r.value.1.rest| < |c.rest|
  {
    if c.rest == "" then None
    else
      var k := LineLength(c.rest, LIMIT);
      Some((c.rest[..k], Cursor(c.rest[k..], Sum(c.rest[..k], c.sum))))
  }

  predicate IsSpace(c: char) {
    c == ' ' || '\t' <= c <= '\r'
  }

  function Atoi(s: string): int {
    if s == "" then 0
    else if IsSpace(s[0]) then Atoi(s[1..])
    else if s[0] == '-' then -(Value(s[1..][..Run(s[1..])], 10, 0) as int)
    else if s[0] == '+' then Value(s[1..][..Run(s[1..])], 10, 0)
    else Value(s[..Run(s)], 10, 0)
  }

  /** A section header: its count, if the title is right. */
  function ParseHeader(title: string, line: string): Option<int> {
    if title <= line then Some(Atoi(line[|title|..])) else None
  }

  function HexRun(s: string): (k: nat)
    ensures k <= |s| && (forall i | 0 <= i < k :: IsHex(s[i])) && (k < |s| ==> !IsHex(s[k]))
  {
    if s == "" || !IsHex(s[0]) then 0 else 1 + HexRun(s[1..])
  }

  predicate AllF(s: string) {
    forall i | 0 <= i < |s| :: s[i] == 'f' || s[i] == 'F'
  }

  /** x2dev(): the device number, and the text after it. */
  function X2dev(line: string): Option<(nat, string)> {
    X2devDigits(line[Prefix0x(line)..])
  }

  function Prefix0x(line: string): (k: nat)
    ensures k <= |line|
  {
    if |line| >= 2 && line[0] == '0' && (line[1] == 'x' || line[1] == 'X') then 2 else 0
  }

  function X2devDigits(s: string): Option<(nat, string)> {
    var n := HexRun(s);
    if n < |s| && s[n] != ' ' && s[n] != ',' then None
    else if n == 0 then None
    else if n > 16 && !AllF(s[..n - 16]) then None
    else Some((Value(s[if n > 16 then n - 16 else 0..n], 16, TWO64), s[n..]))
  }

  function ParseRow(line: string): Option<Dev> {
    match X2dev(line)
    case None => None
    case Some((rdev, s)) =>
      if s == "" || s[0] != ' ' then None else ParseRest(rdev, s[1..])
  }

  /** What follows the device number and its space: the inode number and the name. */
  function ParseRest(rdev: nat, t: string): Option<Dev> {
    var k := Run(t);
    if k == |t| || t[k] != ' ' then None
    else
      var nm := t[k + 1..];
      if |nm| < 2 || nm[|nm| - 1] != '\n' then None
      else Some(Dev(rdev, Value(t[..k], 10, TWO64), nm[..|nm| - 1]))
  }

  function ReadRows(c: Cursor, n: nat, acc: seq<Dev>): Option<(seq<Dev>, Cursor)>
    decreases n
  {
    if n == 0 then Some((acc, c))
    else
      match Next(c)
      case None => None
      case Some((line, c')) =>
        match ParseRow(line)
        case None => None
        case Some(d) => ReadRows(c', n - 1, acc + [d])
  }

  function NewlineAt(s: string): (k: nat)
    ensures k <= |s| && '\n' !in s[..k] && (k < |s| ==> s[k] == '\n')
  {
    if s == "" || s[0] == '\n' then 0 else 1 + NewlineAt(s[1..])
  }

  /** A clone line: the device it names, if the name there agrees. */
  function ParseClone(line: string, ds: seq<Dev>): (r: Option<nat>)
    ensures r.Some? ==> r.value < |ds|
  {
    var k := Run(line);
    if k == |line| || line[k] != ' ' then None
    else
      var j, nm := Value(line[..k], 10, 0), line[k + 1..];
      var e := NewlineAt(nm);
      if j >= |ds| || e == |nm| || !(nm[..e] <= ds[j].name) then None else Some(j)
  }

  /** Each clone read goes to the front of the list. */
  function ReadClones(c: Cursor, ds: seq<Dev>, n: nat, acc: seq<nat>): Option<(seq<nat>, Cursor)>
    decreases n
  {
    if n == 0 then Some((acc, c))
    else
      match Next(c)
      case None => None
      case Some((line, c')) =>
        match ParseClone(line, ds)
        case None => None
        case Some(j) => ReadClones(c', ds, n - 1, [j] + acc)
  }

  /** read_dcache() up to its closing stat() check, on the text of the file. */
  function Read(text: string, dev: nat): Option<Cache> {
    match Next(Cursor(text, 0))
    case None => None
    case Some((l0, c0)) =>
      if l0 != CountLine(dev) then None else ReadDevices(c0)
  }

  function ReadDevices(c0: Cursor): Option<Cache> {
    match Next(c0)
    case None => None
    case Some((l1, c1)) =>
      var n := ParseHeader(DEVICES, l1);
      if n.None? || n.value < 1 then None
      else match ReadRows(c1, n.value, [])
        case None => None
        case Some((devs, c2)) => ReadBlocks(devs, c2)
  }

  function ReadBlocks(devs: seq<Dev>, c2: Cursor): Option<Cache> {
    match Next(c2)
    case None => None
    case Some((l3, c3)) =>
      var n := ParseHeader(BLOCKS, l3);
      if n.None? then None
      else match ReadRows(c3, if n.value > 0 then n.value else 0, [])
        case None => None
        case Some((blks, c4)) => ReadCloneSection(devs, blks, c4)
  }

  function ReadCloneSection(devs: seq<Dev>, blks: seq<Dev>, c4: Cursor): Option<Cache> {
    match Next(c4)
    case None => None
    case Some((l5, c5)) =>
      var n := ParseHeader(CLONES, l5);
      if n.None? || n.value < 0 then None
      else match ReadClones(c5, devs, n.value, [])
        case None => None
        case Some((clones, c6)) => ReadCrc(Cache(devs, blks, clones), c6)
  }

  function ReadCrc(c: Cache, c6: Cursor): Option<Cache> {
    match Next(c6)
    case None => None
    case Some((l7, c7)) => if l7 == CrcLine(c6.sum) && c7.rest == "" then Some(c) else None
  }

  // ----- One line, written and read back -----

  lemma {:induction false} LineIs(s: string, rest: string, m: nat)
    requires 0 < |s| <= m && (forall i | 0 <= i < |s| - 1 :: s[i] != '\n') && (s[|s| - 1] == '\n' || |s| == m)
    ensures LineLength(s + rest, m) == |s|
  {
    if |s| > 1 {
      LineIs(s[1..], rest, m - 1);
      assert (s + rest)[1..] == s[1..] + rest;
    }
  }

  /** A line in the file: a newline at its end and nowhere else, or a buffer full without one. */
  ghost predicate IsLine(s: string) {
    0 < |s| <= LIMIT && (forall i | 0 <= i < |s| - 1 :: s[i] != '\n') && (s[|s| - 1] == '\n' || |s| == LIMIT)
  }

  lemma NextIs(line: string, rest: string, sum: bv32)
    requires IsLine(line)
    ensures Next(Cursor(line + rest, sum)) == Some((line, Cursor(rest, Sum(line, sum))))
  {
    LineIs(line, rest, LIMIT);
    assert (line + rest)[..|line|] == line && (line + rest)[|line|..] == rest;
  }

  lemma HexRunUnique(s: string, k: nat)
    requires k <= |s| && (forall i | 0 <= i < k :: IsHex(s[i])) && (k < |s| ==> !IsHex(s[k]))
    ensures HexRun(s) == k
  {
  }

  lemma HexThen(n: nat, rest: string)
    requires n < TWO64 && rest != "" && rest[0] == ' '
    ensures var s, h := Text(n, 16) + rest, Text(n, 16);
            HexRun(s) == |h| && 0 < |h| <= 16 && s[0..|h|] == h && s[|h|..] == rest && s[|h|] == ' '
            && !(s[0] == '0' && (s[1] == 'x' || s[1] == 'X')) && Value(h, 16, TWO64) == n
  {
    var h := Text(n, 16);
    NoLeadingZero(n, 16);
    HexRunUnique(h + rest, |h|);
    Bounds();
    TextLength(n, 16, 16);
    RoundTrip(n, 16, TWO64);
  }

  lemma X2devText(rdev: nat, rest: string)
    requires rdev < TWO64 && rest != "" && rest[0] == ' '
    ensures X2dev(Text(rdev, 16) + rest) == Some((rdev, rest))
  {
    var s := Text(rdev, 16) + rest;
    HexThen(rdev, rest);
    assert s[0..] == s;
  }

  /** The text before a row's name. */
  function RowStart(d: Dev): string
    requires d.inode < TWO64
  {
    Text(d.rdev, 16) + (" " + (Signed(d.inode) + " "))
  }

  lemma RowStartShort(d: Dev)
    requires d.rdev < TWO64 && d.inode < TWO64
    ensures |RowStart(d)| < 40 && '\n' !in RowStart(d)
  {
    Bounds();
    TextLength(d.rdev, 16, 16);
    TextLength(if d.inode < TWO63 then d.inode else TWO64 - d.inode, 10, 20);
  }

  lemma DigitsThen(n: nat, rest: string)
    requires rest != "" && !IsDec(rest[0])
    ensures var t := Text(n, 10) + rest; Run(t) == |Text(n, 10)| && t[..Run(t)] == Text(n, 10) && t[Run(t)..] == rest
  {
    var t := Text(n, 10) + rest;
    RunUnique(t, |Text(n, 10)|);
  }

  /** How a row parses, whatever follows its numbers. */
  lemma ParseRowIs(d: Dev, tail: string)
    requires d.rdev < TWO64 && d.inode < TWO64
    ensures ParseRow(RowStart(d) + tail) ==
            if d.inode < TWO63 && |tail| >= 2 && tail[|tail| - 1] == '\n'
            then Some(Dev(d.rdev, d.inode, tail[..|tail| - 1])) else None
  {
    var t := Signed(d.inode) + " " + tail;
    assert RowStart(d) + tail == Text(d.rdev, 16) + (" " + t);
    X2devText(d.rdev, " " + t);
    assert (" " + t)[1..] == t;
    ParseRestIs(d, tail);
  }

  lemma ParseRestIs(d: Dev, tail: string)
    requires d.inode < TWO64
    ensures ParseRest(d.rdev, Signed(d.inode) + " " + tail) ==
            if d.inode < TWO63 && |tail| >= 2 && tail[|tail| - 1] == '\n'
            then Some(Dev(d.rdev, d.inode, tail[..|tail| - 1])) else None
  {
    hide Text, Value, Run;
    var t := Signed(d.inode) + " " + tail;
    if d.inode < TWO63 {
      assert t == Text(d.inode, 10) + (" " + tail);
      DigitsThen(d.inode, " " + tail);
      assert t[Run(t)] == ' ' && t[Run(t) + 1..] == (" " + tail)[1..] == tail;
      RoundTrip(d.inode, 10, TWO64);
    } else {
      assert t[0] == '-';
      RunUnique(t, 0);
    }
  }

  /** The rows that survive: what the file format can hold. */
  predicate Good(d: Dev) {
    d.inode < TWO63 && d.name != "" && '\n' !in d.name && |FullRow(d)| <= LIMIT
  }

  lemma RowLine(d: Dev)
    requires d.rdev < TWO64 && d.inode < TWO64 && '\n' !in d.name
    ensures IsLine(Cut(FullRow(d)))
    ensures ParseRow(Cut(FullRow(d))) == if Good(d) then Some(d) else None
  {
    hide ParseRow, IsLine, RowStart;
    var s := RowStart(d);
    RowStartShort(d);
    RowSplit(d);
    assert FullRow(d) == s + (d.name + "\n");
    if |FullRow(d)| <= LIMIT {
      ParseRowIs(d, d.name + "\n");
      assert (d.name + "\n")[..|d.name|] == d.name;
      EndsLine(s, d.name);
    } else {
      var tail := d.name[..LIMIT - |s|];
      CutLine(s, d.name);
      ParseRowIs(d, tail);
    }
  }

  lemma RowSplit(d: Dev)
    requires d.inode < TWO64
    ensures FullRow(d) == RowStart(d) + (d.name + "\n")
  {
  }

  lemma EndsLine(s: string, t: string)
    requires '\n' !in s && '\n' !in t && |s| + |t| < LIMIT
    ensures IsLine(s + (t + "\n"))
  {
  }

  lemma CutLine(s: string, t: string)
    requires '\n' !in s && '\n' !in t && |s| < LIMIT <= |s| + |t|
    ensures var u := t[..LIMIT - |s|];
            (s + (t + "\n"))[..LIMIT] == s + u && IsLine(s + u) && '\n' !in u && u[|u| - 1] != '\n'
  {
  }

  /** A name that was read holds no newline. */
  lemma ReadNewlineFree(c: Cursor)
    requires Next(c).Some? && ParseRow(Next(c).value.0).Some?
    ensures '\n' !in ParseRow(Next(c).value.0).value.name
  {
    hide ParseRow, Sum, LineLength;
    var line := Next(c).value.0;
    var nm := ParseRow(line).value.name;
    ParsedSuffix(line);
    forall i | 0 <= i < |nm| ensures nm[i] != '\n' {
      assert nm[i] == line[|line| - 1 - |nm| + i];
    }
  }

  ghost predicate Suffix(s: string, t: string) {
    |s| <= |t| && s == t[|t| - |s|..]
  }

  lemma DropSuffix(s: string, t: string, k: nat)
    requires Suffix(s, t) && k <= |s|
    ensures Suffix(s[k..], t)
  {
    hide X2dev, Run, ParseRest;
  }

  lemma ParsedSuffix(line: string)
    requires ParseRow(line).Some?
    ensures var nm := ParseRow(line).value.name; |nm| < |line| && nm == line[|line| - 1 - |nm|..|line| - 1]
  {
    hide X2dev, Run, ParseRest, Suffix, Value;
    var (rdev, s) := X2dev(line).value;
    assert ParseRow(line) == ParseRest(rdev, s[1..]);
    X2devSuffix(line);
    DropSuffix(s, line, 1);
    RestSuffix(line, rdev, s[1..]);
    ParsedName(line, rdev, s[1..]);
  }

  lemma RestSuffix(line: string, rdev: nat, t: string)
    requires ParseRest(rdev, t).Some? && Suffix(t, line)
    ensures Run(t) < |t| && Suffix(t[Run(t) + 1..], line)
  {
    DropSuffix(t, line, Run(t) + 1);
  }

  lemma ParsedName(line: string, rdev: nat, t: string)
    requires ParseRest(rdev, t).Some? && Run(t) < |t| && Suffix(t[Run(t) + 1..], line)
    ensures var nm := ParseRest(rdev, t).value.name; |nm| < |line| && nm == line[|line| - 1 - |nm|..|line| - 1]
  {
  }

  lemma X2devSuffix(line: string)
    requires X2dev(line).Some?
    ensures Suffix(X2dev(line).value.1, line)
  {
    var k := Prefix0x(line);
    DropSuffix(line, line, k);
    DropSuffix(line[k..], line, HexRun(line[k..]));
  }

  // ----- Sections -----

  lemma {:induction false} ReadRowsExtends(c: Cursor, n: nat, acc: seq<Dev>)
    requires ReadRows(c, n, acc).Some?
    ensures |ReadRows(c, n, acc).value.0| == |acc| + n && acc <= ReadRows(c, n, acc).value.0
    decreases n
  {
    hide Next, ParseRow;
    if n > 0 {
      var (line, c') := Next(c).value;
      ReadRowsExtends(c', n - 1, acc + [ParseRow(line).value]);
    }
  }

  predicate AllGood(ds: seq<Dev>) {
    forall i | 0 <= i < |ds| :: Good(ds[i])
  }

  predicate Sized(ds: seq<Dev>) {
    forall i | 0 <= i < |ds| :: ds[i].rdev < TWO64 && ds[i].inode < TWO64
  }

  /** Good rows come back as they were. */
  lemma {:induction false} RowsComeBack(ds: seq<Dev>, rest: string, sum: bv32, acc: seq<Dev>)
    requires Sized(ds) && AllGood(ds)
    ensures ReadRows(Cursor(Rows(ds) + rest, sum), |ds|, acc) == Some((acc + ds, Cursor(rest, Sum(Rows(ds), sum))))
    decreases |ds|
  {
    hide Next, ParseRow, Sum, Cut, FullRow;
    if ds == [] {
      assert acc + ds == acc && Rows(ds) + rest == rest;
      SumEmpty(sum);
    } else {
      RowStep(ds, rest, sum);
      RowsComeBack(ds[1..], rest, Sum(Cut(FullRow(ds[0])), sum), acc + [ds[0]]);
      assert acc + [ds[0]] + ds[1..] == acc + ds;
    }
  }

  lemma RowStep(ds: seq<Dev>, rest: string, sum: bv32)
    requires Sized(ds) && ds != [] && '\n' !in ds[0].name
    ensures var l := Cut(FullRow(ds[0]));
            && Next(Cursor(Rows(ds) + rest, sum)) == Some((l, Cursor(Rows(ds[1..]) + rest, Sum(l, sum))))
            && ParseRow(l) == (if Good(ds[0]) then Some(ds[0]) else None)
            && Sum(Rows(ds), sum) == Sum(Rows(ds[1..]), Sum(l, sum))
  {
    hide Next, ParseRow, Sum, Cut, FullRow, IsLine, Good;
    var l := Cut(FullRow(ds[0]));
    RowLine(ds[0]);
    assert Rows(ds) + rest == l + (Rows(ds[1..]) + rest);
    NextIs(l, Rows(ds[1..]) + rest, sum);
    SumCat(l, Rows(ds[1..]), sum);
  }

  /** And rows that come back as they were are good. */
  lemma {:induction false} RowsMustBeGood(ds: seq<Dev>, rest: string, sum: bv32, acc: seq<Dev>)
    requires Sized(ds)
    requires var r := ReadRows(Cursor(Rows(ds) + rest, sum), |ds|, acc); r.Some? && r.value.0 == acc + ds
    ensures AllGood(ds)
    decreases |ds|
  {
    hide Next, ParseRow, Sum, Cut, FullRow, Good;
    if ds != [] {
      var c := Cursor(Rows(ds) + rest, sum);
      var (line, c') := Next(c).value;
      var d := ParseRow(line).value;
      ReadRowsExtends(c', |ds| - 1, acc + [d]);
      assert d == (acc + [d])[|acc|] == ds[0];
      ReadNewlineFree(c);
      RowStep(ds, rest, sum);
      assert acc + [d] + ds[1..] == acc + ds;
      RowsMustBeGood(ds[1..], rest, c'.sum, acc + [d]);
    }
  }

  /** The same of the clone lines, which name good rows. */
  predicate ClonesFit(ks: seq<nat>, ds: seq<Dev>)
    requires forall i | 0 <= i < |ks| :: ks[i] < |ds|
  {
    forall i | 0 <= i < |ks| :: |FullClone(ks[i], ds[ks[i]].name)| <= LIMIT
  }

  function Reverse(s: seq<nat>): (r: seq<nat>)
    ensures |r| == |s| && forall i | 0 <= i < |s| :: r[i] == s[|s| - 1 - i]
  {
    seq(|s|, i requires 0 <= i < |s| => s[|s| - 1 - i])
  }

  lemma CloneLine(k: nat, ds: seq<Dev>)
    requires k < |ds| < 0x8000_0000 && '\n' !in ds[k].name
    ensures var l := Cut(FullClone(k, ds[k].name));
            IsLine(l) && ParseClone(l, ds) == if |FullClone(k, ds[k].name)| <= LIMIT then Some(k) else None
  {
    var t, nm := Text(k, 10), ds[k].name;
    Bounds();
    TextLength(k, 10, 20);
    assert '\n' !in t;
    assert FullClone(k, nm) == (t + " ") + (nm + "\n");
    if |FullClone(k, nm)| <= LIMIT {
      EndsLine(t + " ", nm);
      ParseCloneIs(k, ds, nm + "\n");
    } else {
      CutLine(t + " ", nm);
      ParseCloneIs(k, ds, nm[..LIMIT - |t + " "|]);
    }
  }

  lemma ParseCloneIs(k: nat, ds: seq<Dev>, tail: string)
    requires k < |ds| && '\n' !in ds[k].name && (tail == ds[k].name + "\n" || '\n' !in tail)
    ensures ParseClone(Text(k, 10) + " " + tail, ds) == if '\n' in tail then Some(k) else None
  {
    hide Text, Value, Run, NewlineAt;
    var line := Text(k, 10) + " " + tail;
    assert line == Text(k, 10) + (" " + tail);
    DigitsThen(k, " " + tail);
    RoundTrip(k, 10, 0);
    assert line[Run(line)] == ' ' && line[Run(line) + 1..] == (" " + tail)[1..] == tail;
    NewlineIs(ds[k].name, tail);
  }

  /** A clone line names a device by its number and by a beginning of its name. */
  lemma CloneNamed(k: nat, ds: seq<Dev>, nm: string)
    requires '\n' !in nm
    ensures ParseClone(Text(k, 10) + " " + (nm + "\n"), ds) == if k < |ds| && nm <= ds[k].name then Some(k) else None
  {
    hide Text, Value, Run, NewlineAt;
    var tail := nm + "\n";
    var line := Text(k, 10) + " " + tail;
    assert line == Text(k, 10) + (" " + tail);
    DigitsThen(k, " " + tail);
    RoundTrip(k, 10, 0);
    assert line[Run(line)] == ' ' && line[Run(line) + 1..] == (" " + tail)[1..] == tail;
    assert tail[|nm|] == '\n';
    NewlineIs(nm, tail);
  }

  lemma NewlineIs(nm: string, tail: string)
    requires '\n' !in nm && (tail == nm + "\n" || '\n' !in tail)
    ensures '\n' in tail ==> NewlineAt(tail) == |nm| && tail[..|nm|] == nm
    ensures '\n' !in tail ==> NewlineAt(tail) == |tail|
  {
    if '\n' in tail {
      assert tail[|nm|] == '\n' && forall i | 0 <= i < |nm| :: tail[i] == nm[i];
    }
  }

  lemma CloneStep(ks: seq<nat>, ds: seq<Dev>, rest: string, sum: bv32)
    requires (forall i | 0 <= i < |ks| :: ks[i] < |ds|) && |ds| < 0x8000_0000 && AllGood(ds) && ks != []
    ensures var l := Cut(FullClone(ks[0], ds[ks[0]].name));
            && Next(Cursor(CloneRows(ks, ds) + rest, sum)) == Some((l, Cursor(CloneRows(ks[1..], ds) + rest, Sum(l, sum))))
            && ParseClone(l, ds) == (if |FullClone(ks[0], ds[ks[0]].name)| <= LIMIT then Some(ks[0]) else None)
            && Sum(CloneRows(ks, ds), sum) == Sum(CloneRows(ks[1..], ds), Sum(l, sum))
  {
    hide Next, Sum, ParseClone, Cut, FullClone, IsLine;
    var l := Cut(FullClone(ks[0], ds[ks[0]].name));
    CloneLine(ks[0], ds);
    assert CloneRows(ks, ds) + rest == l + (CloneRows(ks[1..], ds) + rest);
    NextIs(l, CloneRows(ks[1..], ds) + rest, sum);
    SumCat(l, CloneRows(ks[1..], ds), sum);
  }

  /** The clones come back in reverse, exactly if their lines fit. */
  lemma {:induction false} ClonesComeBack(ks: seq<nat>, ds: seq<Dev>, rest: string, sum: bv32, acc: seq<nat>)
    requires (forall i | 0 <= i < |ks| :: ks[i] < |ds|) && |ds| < 0x8000_0000 && AllGood(ds)
    ensures ReadClones(Cursor(CloneRows(ks, ds) + rest, sum), ds, |ks|, acc) ==
            if ClonesFit(ks, ds) then Some((Reverse(ks) + acc, Cursor(rest, Sum(CloneRows(ks, ds), sum)))) else None
    decreases |ks|
  {
    hide Next, ParseClone, Sum, Cut, FullClone, AllGood;
    if ks == [] {
      assert Reverse(ks) + acc == acc && CloneRows(ks, ds) + rest == rest;
      SumEmpty(sum);
    } else {
      var l := Cut(FullClone(ks[0], ds[ks[0]].name));
      CloneStep(ks, ds, rest, sum);
      ClonesComeBack(ks[1..], ds, rest, Sum(l, sum), [ks[0]] + acc);
      assert Reverse(ks[1..]) + ([ks[0]] + acc) == Reverse(ks) + acc;
      assert ClonesFit(ks, ds) <==> |FullClone(ks[0], ds[ks[0]].name)| <= LIMIT && ClonesFit(ks[1..], ds);
    }
  }

  // ----- The whole file -----

  lemma HeaderParses(title: string, n: nat)
    ensures ParseHeader(title, Header(title, n)) == Some(n)
  {
    var t := Text(n, 10) + "\n";
    assert Header(title, n) == title + t && Header(title, n)[|title|..] == t;
    DigitsThen(n, "\n");
    RoundTrip(n, 10, 0);
    assert IsDec(t[0]);
  }

  lemma HeaderLine(title: string, n: nat, rest: string, sum: bv32)
    requires n < 0x8000_0000 && |title| < 30 && '\n' !in title
    ensures var l := Header(title, n); Next(Cursor(l + rest, sum)) == Some((l, Cursor(rest, Sum(l, sum))))
  {
    hide Next;
    Bounds();
    TextLength(n, 10, 20);
    assert Header(title, n) == title + (Text(n, 10) + "\n");
    EndsLine(title, Text(n, 10));
    NextIs(Header(title, n), rest, sum);
  }

  lemma CountLineIs(dev: nat, rest: string, sum: bv32)
    requires dev < TWO64
    ensures var l := CountLine(dev); Next(Cursor(l + rest, sum)) == Some((l, Cursor(rest, Sum(l, sum))))
  {
    Bounds();
    TextLength(dev, 16, 16);
    var t := "3 sections, dev=";
    assert CountLine(dev) == t + (Text(dev, 16) + "\n");
    EndsLine(t, Text(dev, 16));
    NextIs(CountLine(dev), rest, sum);
  }

  lemma CountLineInjective(a: nat, b: nat)
    requires CountLine(a) == CountLine(b)
    ensures a == b
  {
    var t := "3 sections, dev=";
    assert CountLine(a)[|t|..|CountLine(a)| - 1] == Text(a, 16);
    assert CountLine(b)[|t|..|CountLine(b)| - 1] == Text(b, 16);
    Injective(a, b, 16);
  }

  lemma CrcLineIs(sum: bv32)
    ensures Next(Cursor(CrcLine(sum), sum)) == Some((CrcLine(sum), Cursor("", Sum(CrcLine(sum), sum))))
  {
    Bounds();
    TextLength(sum as int, 16, 16);
    var t := "CRC section: ";
    assert CrcLine(sum) == t + (Text(sum as int, 16) + "\n");
    EndsLine(t, Text(sum as int, 16));
    assert CrcLine(sum) + "" == CrcLine(sum);
    NextIs(CrcLine(sum), "", sum);
  }

  lemma Peel(a: string, b: string, sum: bv32)
    ensures Sealed(a + b, sum) == a + Sealed(b, Sum(a, sum))
  {
    SumCat(a, b, sum);
    assert a + b + CrcLine(Sum(b, Sum(a, sum))) == a + (b + CrcLine(Sum(b, Sum(a, sum))));
  }

  lemma CloneSectionBack(c: Cache, sum: bv32)
    requires Representable(c) && AllGood(c.devs)
    ensures ReadCloneSection(c.devs, c.blks, Cursor(Sealed(CloneBody(c), sum), sum)) ==
            if ClonesFit(c.clones, c.devs) then Some(c.(clones := Reverse(c.clones))) else None
  {
    hide Next, ReadClones, Sum, ParseHeader, Header, CrcLine, AllGood, CloneRows, ClonesFit;
    var h, rows := Header(CLONES, |c.clones|), CloneRows(c.clones, c.devs);
    var s1 := Sum(h, sum);
    var s2 := Sum(rows, s1);
    Peel(h, rows, sum);
    HeaderLine(CLONES, |c.clones|, Sealed(rows, s1), sum);
    HeaderParses(CLONES, |c.clones|);
    ClonesComeBack(c.clones, c.devs, CrcLine(s2), s1, []);
    assert Reverse(c.clones) + [] == Reverse(c.clones);
    CrcLineIs(s2);
  }

  lemma BlocksBack(c: Cache, sum: bv32)
    requires Representable(c) && AllGood(c.devs)
    ensures ReadBlocks(c.devs, Cursor(Sealed(BlockBody(c), sum), sum)) == Some(c.(clones := Reverse(c.clones)))
            <==> AllGood(c.blks) && ClonesFit(c.clones, c.devs)
  {
    hide Next, ReadRows, Sum, ParseHeader, Header, CrcLine, AllGood, Rows, ClonesFit, CloneBody, ReadCloneSection;
    var h, rows, n := Header(BLOCKS, |c.blks|), Rows(c.blks), |c.blks|;
    var s1 := Sum(h, sum);
    var s2 := Sum(rows, s1);
    Peel(h, rows + CloneBody(c), sum);
    Peel(rows, CloneBody(c), s1);
    HeaderLine(BLOCKS, n, rows + Sealed(CloneBody(c), s2), sum);
    HeaderParses(BLOCKS, n);
    if AllGood(c.blks) {
      RowsComeBack(c.blks, Sealed(CloneBody(c), s2), s1, []);
      assert [] + c.blks == c.blks;
      CloneSectionBack(c, s2);
    } else if ReadBlocks(c.devs, Cursor(Sealed(BlockBody(c), sum), sum)) == Some(c.(clones := Reverse(c.clones))) {
      var r := ReadRows(Cursor(rows + Sealed(CloneBody(c), s2), s1), n, []);
      BlocksKept(c.devs, r.value.0, r.value.1);
      assert [] + c.blks == c.blks;
      RowsMustBeGood(c.blks, Sealed(CloneBody(c), s2), s1, []);
    }
  }

  lemma BlocksKept(devs: seq<Dev>, blks: seq<Dev>, c4: Cursor)
    ensures var r := ReadCloneSection(devs, blks, c4); r.Some? ==> r.value.devs == devs && r.value.blks == blks
  {
  }

  lemma DevicesKept(devs: seq<Dev>, c2: Cursor)
    ensures var r := ReadBlocks(devs, c2); r.Some? ==> r.value.devs == devs
  {
  }

  /** What a cache must be to survive its file. */
  predicate Storable(c: Cache)
    requires Representable(c)
  {
    c.devs != [] && AllGood(c.devs) && AllGood(c.blks) && ClonesFit(c.clones, c.devs)
  }

  /** The rows after the section count, read back. */
  lemma DevicesBack(c: Cache, sum: bv32)
    requires Representable(c)
    ensures ReadDevices(Cursor(Sealed(DeviceBody(c), sum), sum)) == Some(c.(clones := Reverse(c.clones))) <==> Storable(c)
  {
    hide Next, ReadRows, Sum, ParseHeader, Header, CrcLine, AllGood, Rows, ClonesFit, BlockBody, ReadBlocks;
    var h, rows, n := Header(DEVICES, |c.devs|), Rows(c.devs), |c.devs|;
    var s1 := Sum(h, sum);
    var s2 := Sum(rows, s1);
    Peel(h, rows + BlockBody(c), sum);
    Peel(rows, BlockBody(c), s1);
    HeaderLine(DEVICES, n, rows + Sealed(BlockBody(c), s2), sum);
    HeaderParses(DEVICES, n);
    if n > 0 && AllGood(c.devs) {
      RowsComeBack(c.devs, Sealed(BlockBody(c), s2), s1, []);
      assert [] + c.devs == c.devs;
      BlocksBack(c, s2);
    } else if ReadDevices(Cursor(Sealed(DeviceBody(c), sum), sum)) == Some(c.(clones := Reverse(c.clones))) {
      var r := ReadRows(Cursor(rows + Sealed(BlockBody(c), s2), s1), n, []);
      DevicesKept(r.value.0, r.value.1);
      assert [] + c.devs == c.devs;
      RowsMustBeGood(c.devs, Sealed(BlockBody(c), s2), s1, []);
    }
  }

  /**
   * Reading what was written gives the same rows in the same order, and the
   * same clones in reverse, exactly if /dev is the same device, the cache is
   * storable, and so the checksum agrees.
   */
  lemma FileComesBack(c: Cache, dev: nat, dev': nat)
    requires Representable(c) && dev < TWO64 && dev' < TWO64
    ensures Read(File(c, dev), dev') == Some(c.(clones := Reverse(c.clones))) <==> dev == dev' && Storable(c)
  {
    hide Next, ReadDevices, Sum, CountLine, DeviceBody, Storable;
    var h := CountLine(dev);
    Peel(h, DeviceBody(c), 0);
    CountLineIs(dev, Sealed(DeviceBody(c), Sum(h, 0)), 0);
    if h == CountLine(dev') {
      CountLineInjective(dev, dev');
      DevicesBack(c, Sum(h, 0));
    }
  }

  /** A cache of one device with the inode 2^63, which is written and not read back */
  lemma LargeInodeIsLost(dev: nat)
    requires dev < TWO64
    ensures
      var c := Cache([Dev(1, TWO63, "/dev/a")], [], []);
      Representable(c) && Read(File(c, dev), dev) != Some(c)
  {
    hide Read, File;
    var c := Cache([Dev(1, TWO63, "/dev/a")], [], []);
    assert !Good(c.devs[0]);
    FileComesBack(c, dev, dev);
    assert Reverse([]) == [];
  }
}
