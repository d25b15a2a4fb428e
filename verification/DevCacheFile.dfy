/** write_dcache(), read_dcache() and x2dev() as the program runs them, each
    proved to compute what DevCache describes. */
module DevCacheFile {
  import opened Common
  import opened DevTable
  import opened Digits
  import opened DevCache
  import Crc

  // ----- Writing -----

  /** The position of a pointer among the sorted pointers. */
  function PositionOf(p: seq<nat>, x: nat): (j: nat)
    requires x in p
    ensures j < |p| && p[j] == x
  {
    if p[0] == x then 0 else 1 + PositionOf(p[1..], x)
  }

  function Positions(p: seq<nat>, clone: seq<nat>): (r: seq<nat>)
    requires forall i | 0 <= i < |clone| :: clone[i] in p
    ensures |r| == |clone| && forall i | 0 <= i < |r| :: r[i] < |p| && p[r[i]] == clone[i]
  {
    seq(|clone|, i requires 0 <= i < |clone| => PositionOf(p, clone[i]))
  }

  /** The cache that a device table, its pointers and its clone list amount to. */
  function TableCache(t: seq<Dev>, p: seq<nat>, blks: seq<Dev>, clone: seq<nat>): Cache
    requires Points(t, p) && forall i | 0 <= i < |clone| :: clone[i] in p
  {
    Cache(Select(t, p), blks, Positions(p, clone))
  }

  /** The search for a device's pointer; |p| when it has none. */
  method FindPointer(p: seq<nat>, x: nat) returns (j: nat)
    ensures j <= |p| && (j < |p| <==> x in p) && (x in p ==> j == PositionOf(p, x))
  {
    j := 0;
    while j < |p| && p[j] != x
      invariant 0 <= j <= |p| && forall h | 0 <= h < j :: p[h] != x
    {
      j := j + 1;
    }
    if j < |p| { FirstPosition(p, x, j); }
  }

  lemma NoClones(ds: seq<Dev>, c: bv32)
    ensures CloneRows([], ds) == "" && Sum(CloneRows([], ds), c) == c
  {
    SumEmpty(c);
  }

  lemma {:induction false} CloneRowsSnoc(q: seq<nat>, j: nat, ds: seq<Dev>, c: bv32)
    requires j < |ds| && forall i | 0 <= i < |q| :: q[i] < |ds|
    ensures var l := Cut(FullClone(j, ds[j].name));
            && CloneRows(q + [j], ds) == CloneRows(q, ds) + l
            && Sum(CloneRows(q + [j], ds), c) == Sum(l, Sum(CloneRows(q, ds), c))
  {
    hide Sum, Cut, FullClone;
    var l := Cut(FullClone(j, ds[j].name));
    if q == [] {
      assert [j][1..] == [] && q + [j] == [j];
      NoClones(ds, c);
    } else {
      assert (q + [j])[1..] == q[1..] + [j];
      CloneRowsSnoc(q[1..], j, ds, c);
    }
    SumCat(CloneRows(q, ds), l, c);
  }

  lemma {:induction false} FirstPosition(p: seq<nat>, x: nat, j: nat)
    requires j < |p| && p[j] == x && forall h | 0 <= h < j :: p[h] != x
    ensures PositionOf(p, x) == j
  {
    if j > 0 {
      assert p[1..][j - 1] == x;
      FirstPosition(p[1..], x, j - 1);
    }
  }

  lemma RowNotEmpty(d: Dev)
    requires d.inode < TWO64
    ensures Cut(FullRow(d)) != ""
  {
    assert FullRow(d)[|FullRow(d)| - 1] == '\n';
  }

  lemma CloneNotEmpty(k: nat, name: string)
    ensures Cut(FullClone(k, name)) != ""
  {
    assert FullClone(k, name)[|FullClone(k, name)| - 1] == '\n';
  }

  lemma NotEmpty(dev: nat)
    ensures CountLine(dev) != "" && forall s: string, n: nat :: Header(s, n) != ""
  {
    forall s: string, n: nat ensures Header(s, n) != "" { assert Header(s, n)[|Header(s, n)| - 1] == '\n'; }
  }

  /** Seven pieces summed in turn are the whole text summed. */
  lemma Assembled(a: string, b: string, c: string, d: string, e: string, f: string, g: string)
    ensures var body := a + (b + (c + (d + (e + (f + g)))));
            && a + b + c + d + e + f + g == body
            && Sum(g, Sum(f, Sum(e, Sum(d, Sum(c, Sum(b, Sum(a, 0))))))) == Sum(body, 0)
  {
    hide Sum;
    assert a + b + c + d == a + (b + (c + d));
    assert a + (b + (c + d)) + e + f + g == a + (b + (c + (d + (e + (f + g)))));
    var s := Sum(a, 0);
    SumCat(a, b + (c + (d + (e + (f + g)))), 0);
    SumCat(b, c + (d + (e + (f + g))), s);
    SumCat(c, d + (e + (f + g)), Sum(b, s));
    SumCat(d, e + (f + g), Sum(c, Sum(b, s)));
    SumCat(e, f + g, Sum(d, Sum(c, Sum(b, s))));
    SumCat(f, g, Sum(e, Sum(d, Sum(c, Sum(b, s)))));
  }

  class Writer {
    const crctbl: array<bv32>
    var out: string
    var cksum: bv32

    ghost predicate Valid()
      reads this, crctbl
    {
      Crc.IsTable(crctbl[..])
    }

    constructor ()
      ensures Valid() && fresh(crctbl) && out == "" && cksum == 0
    {
      var table := Crc.Build();
      crctbl := table;
      out, cksum := "", 0;
    }

    /** wr2DCfd() with a checksum receiver */
    method Put(b: string)
      requires Valid() && b != ""
      modifies this
      ensures out == old(out) + b && cksum == Sum(b, old(cksum))
    {
      cksum := Crc.Block(Bytes(b), cksum, crctbl);
      out := out + b;
    }

    method PutRows(ds: seq<Dev>)
      requires Valid() && Sized(ds)
      modifies this
      ensures out == old(out) + Rows(ds) && cksum == Sum(Rows(ds), old(cksum))
    {
      hide Sum, Cut, FullRow;
      SumEmpty(cksum);
      ghost var o, c := out, cksum;
      var i := 0;
      while i < |ds|
        invariant 0 <= i <= |ds|
        invariant out + Rows(ds[i..]) == o + Rows(ds) && Sum(Rows(ds[i..]), cksum) == Sum(Rows(ds), c)
      {
        var l := Cut(FullRow(ds[i]));
        RowNotEmpty(ds[i]);
        assert ds[i..][1..] == ds[i + 1..];
        SumCat(l, Rows(ds[i + 1..]), cksum);
        assert out + (l + Rows(ds[i + 1..])) == out + l + Rows(ds[i + 1..]);
        Put(l);
        i := i + 1;
      }
      SumEmpty(cksum);
    }

    /** rw_clone_sect(2): fails where a clone has no pointer. */
    method PutClones(t: seq<Dev>, p: seq<nat>, clone: seq<nat>) returns (ok: bool)
      requires Valid() && Points(t, p)
      modifies this
      ensures ok <==> forall i | 0 <= i < |clone| :: clone[i] in p
      ensures ok ==> var r := CloneRows(Positions(p, clone), Select(t, p));
                     out == old(out) + r && cksum == Sum(r, old(cksum))
    {
      hide Sum, Cut, FullClone, CloneRows;
      ghost var q, o, c := [], out, cksum;
      NoClones(Select(t, p), cksum);
      var i := 0;
      while i < |clone|
        invariant 0 <= i <= |clone| && |q| == i
        invariant forall h | 0 <= h < i :: clone[h] in p && q[h] < |p| && q[h] == PositionOf(p, clone[h])
        invariant out == o + CloneRows(q, Select(t, p)) && cksum == Sum(CloneRows(q, Select(t, p)), c)
      {
        var j := FindPointer(p, clone[i]);
        if j >= |p| {
          return false;
        }
        var l := Cut(FullClone(j, t[p[j]].name));
        CloneNotEmpty(j, t[p[j]].name);
        CloneRowsSnoc(q, j, Select(t, p), c);
        Put(l);
        q := q + [j];
        i := i + 1;
      }
      assert q == Positions(p, clone);
      return true;
    }

    /** write_dcache() with a clone section that succeeds or fails. */
    method Write(t: seq<Dev>, p: seq<nat>, blks: seq<Dev>, clone: seq<nat>, dev: nat) returns (ok: bool)
      requires Valid() && out == "" && cksum == 0 && dev < TWO64
      requires Points(t, p) && Sized(t) && Sized(blks)
      requires |p| < 0x8000_0000 && |blks| < 0x8000_0000 && |clone| < 0x8000_0000
      modifies this
      ensures ok <==> forall i | 0 <= i < |clone| :: clone[i] in p
      ensures ok ==> Representable(TableCache(t, p, blks, clone)) && out == File(TableCache(t, p, blks, clone), dev)
    {
      hide Sum, CountLine, Header, Rows, CloneRows, CrcLine;
      var ds := Select(t, p);
      NotEmpty(dev);
      Put(CountLine(dev));
      Put(Header(DEVICES, |p|));
      PutRows(ds);
      Put(Header(BLOCKS, |blks|));
      PutRows(blks);
      Put(Header(CLONES, |clone|));
      ok := PutClones(t, p, clone);
      if ok {
        ghost var c := TableCache(t, p, blks, clone);
        Assembled(CountLine(dev), Header(DEVICES, |p|), Rows(ds), Header(BLOCKS, |blks|), Rows(blks),
                  Header(CLONES, |clone|), CloneRows(c.clones, ds));
        out := out + CrcLine(cksum);
      }
    }
  }

  // ----- Reading -----

  /** The device looked at has the name, device and inode that stat() gives. */
  predicate Current(d: Dev, stat: string -> Option<(nat, nat)>) {
    stat(d.name) == Some((d.rdev, d.inode))
  }

  /** A cache as the closing check leaves it */
  function Checked(r: Option<Cache>, pid: nat, stat: string -> Option<(nat, nat)>): Option<Cache> {
    if r.Some? && |r.value.devs| > 0 && Current(r.value.devs[pid % |r.value.devs|], stat) then r else None
  }

  /** What is read has a device. */
  lemma ReadHasDevices(text: string, dev: nat)
    requires Read(text, dev).Some?
    ensures Read(text, dev).value.devs != []
  {
    hide Next, ReadRows, ReadBlocks, ParseHeader, CountLine;
    var (l0, c0) := Next(Cursor(text, 0)).value;
    var (l1, c1) := Next(c0).value;
    var n := ParseHeader(DEVICES, l1).value;
    ReadRowsExtends(c1, n, []);
    var (devs, c2) := ReadRows(c1, n, []).value;
    DevicesKept(devs, c2);
  }

  /** A written file is loaded again if and only if the device directory is the
      same, the cache is storable, and the device looked at has not changed. */
  lemma FileLoads(c: Cache, dev: nat, dev': nat, pid: nat, stat: string -> Option<(nat, nat)>)
    requires Representable(c) && dev < TWO64 && dev' < TWO64
    ensures Checked(Read(File(c, dev), dev'), pid, stat) == Some(c.(clones := Reverse(c.clones))) <==>
            dev == dev' && Storable(c) && Current(c.devs[pid % |c.devs|], stat)
  {
    hide Read, File;
    FileComesBack(c, dev, dev');
  }

  /** x2dev(): the number, and where the text after it begins. */
  method GetNumber(line: string) returns (r: Option<(nat, nat)>)
    ensures r.None? <==> X2dev(line).None?
    ensures r.Some? ==> r.value.1 <= |line| && X2dev(line) == Some((r.value.0, line[r.value.1..]))
  {
    hide X2devDigits;
    var s := 0;
    if |line| >= 2 && line[0] == '0' && (line[1] == 'x' || line[1] == 'X') {
      s := 2;
    }
    r := GetDigits(line[s..]);
    if r.Some? {
      assert line[s..][r.value.1..] == line[s + r.value.1..];
      r := Some((r.value.0, s + r.value.1));
    }
  }

  method GetDigits(s: string) returns (r: Option<(nat, nat)>)
    ensures r.None? <==> X2devDigits(s).None?
    ensures r.Some? ==> r.value.1 <= |s| && X2devDigits(s) == Some((r.value.0, s[r.value.1..]))
  {
    var n := 0;
    while n < |s| && IsHex(s[n])
      invariant 0 <= n <= |s| && forall i | 0 <= i < n :: IsHex(s[i])
    {
      n := n + 1;
    }
    HexRunUnique(s, n);
    if (n < |s| && s[n] != ' ' && s[n] != ',') || n == 0 {
      return None;
    }
    var a := 0;
    if n > 16 {
      a := n - 16;
      var ok := OnlyF(s[..a]);
      if !ok {
        return None;
      }
    }
    var v := Assemble(s[a..n], 16);
    return Some((v, n));
  }

  /** Whether excess leading digits come from sign extension. */
  method OnlyF(s: string) returns (ok: bool)
    ensures ok == AllF(s)
  {
    var cp1 := 0;
    while cp1 < |s|
      invariant 0 <= cp1 <= |s| && AllF(s[..cp1])
    {
      if s[cp1] != 'f' && s[cp1] != 'F' {
        return false;
      }
      cp1 := cp1 + 1;
    }
    return true;
  }

  /** The digits of a number taken in from the left, modulo 64 bits. */
  method Assemble(s: string, b: nat) returns (v: nat)
    requires forall c | c in s :: IsHex(c)
    ensures v == Value(s, b, TWO64)
  {
    v := 0;
    var i := 0;
    while i < |s|
      invariant 0 <= i <= |s| && v == Value(s[..i], b, TWO64)
    {
      assert s[..i + 1] == s[..i] + [s[i]];
      ValueSnoc(s[..i], s[i], b, TWO64);
      v := (v * b + Digit(s[i])) % TWO64;
      i := i + 1;
    }
    assert s[..i] == s;
  }

  /** One device line. */
  method GetDevice(line: string) returns (r: Option<Dev>)
    ensures r == ParseRow(line)
  {
    hide X2dev, ParseRest;
    var num := GetNumber(line);
    if num.None? {
      return None;
    }
    var (rdev, cp) := num.value;
    if cp == |line| || line[cp] != ' ' {
      return None;
    }
    assert line[cp..][1..] == line[cp + 1..];
    r := GetRest(rdev, line[cp + 1..]);
  }

  /** The inode number and the name that end a device line. */
  method GetRest(rdev: nat, t: string) returns (r: Option<Dev>)
    ensures r == ParseRest(rdev, t)
  {
    var cp := 0;
    while cp < |t| && t[cp] != ' '
      invariant 0 <= cp <= |t| && forall i | 0 <= i < cp :: IsDec(t[i])
    {
      if t[cp] < '0' || t[cp] > '9' {
        RunUnique(t, cp);
        return None;
      }
      cp := cp + 1;
    }
    RunUnique(t, cp);
    if cp == |t| {
      return None;
    }
    var inode := Assemble(t[..cp], 10);
    var nm := t[cp + 1..];
    if |nm| < 2 || nm[|nm| - 1] != '\n' {
      return None;
    }
    return Some(Dev(rdev, inode, nm[..|nm| - 1]));
  }

  class Reader {
    const crctbl: array<bv32>
    const text: string
    var pos: nat
    var cksum: bv32

    ghost predicate Valid()
      reads this, crctbl
    {
      Crc.IsTable(crctbl[..]) && pos <= |text|
    }

    ghost function At(): Cursor
      requires pos <= |text|
      reads this
    {
      Cursor(text[pos..], cksum)
    }

    constructor (text: string)
      ensures Valid() && fresh(crctbl) && At() == Cursor(text, 0)
    {
      var table := Crc.Build();
      crctbl := table;
      this.text, pos, cksum := text, 0, 0;
    }

    /** fgets() into the line buffer, and the line's part of the checksum. */
    method GetLine() returns (r: Option<string>)
      requires Valid()
      modifies this
      ensures Valid()
      ensures r.None? <==> Next(old(At())).None?
      ensures r.Some? ==> Next(old(At())) == Some((r.value, At()))
    {
      if pos == |text| {
        return None;
      }
      var k := FullLine();
      var line := text[pos..pos + k];
      assert text[pos..][..k] == line && text[pos..][k..] == text[pos + k..];
      cksum := Crc.Block(Bytes(line), cksum, crctbl);
      pos := pos + k;
      return Some(line);
    }

    /** The length of the line at the current position, as far as the buffer takes it. */
    method FullLine() returns (k: nat)
      requires pos <= |text|
      ensures k == LineLength(text[pos..], LIMIT)
    {
      k := 0;
      while k < LIMIT && pos + k < |text|
        invariant k <= LIMIT && pos + k <= |text|
        invariant LineLength(text[pos..], LIMIT) == k + LineLength(text[pos + k..], LIMIT - k)
        decreases LIMIT - k
      {
        assert text[pos + k..][1..] == text[pos + k + 1..] && text[pos + k..][0] == text[pos + k];
        k := k + 1;
        if text[pos + k - 1] == '\n' {
          return;
        }
      }
    }

    /** The device lines of a section. */
    method GetRows(n: nat) returns (r: Option<seq<Dev>>)
      requires Valid()
      modifies this
      ensures Valid()
      ensures r.None? <==> ReadRows(old(At()), n, []).None?
      ensures r.Some? ==> ReadRows(old(At()), n, []) == Some((r.value, At()))
    {
      hide Next, ParseRow;
      var devtp: seq<Dev> := [];
      var i := 0;
      while i < n
        invariant Valid() && 0 <= i <= n && ReadRows(old(At()), n, []) == ReadRows(At(), n - i, devtp)
      {
        var line := GetLine();
        if line.None? {
          return None;
        }
        var d := GetDevice(line.value);
        if d.None? {
          return None;
        }
        devtp := devtp + [d.value];
        i := i + 1;
      }
      return Some(devtp);
    }

    /** rw_clone_sect(1) after its header */
    method GetClones(ds: seq<Dev>, n: nat) returns (r: Option<seq<nat>>)
      requires Valid()
      modifies this
      ensures Valid()
      ensures r.None? <==> ReadClones(old(At()), ds, n, []).None?
      ensures r.Some? ==> ReadClones(old(At()), ds, n, []) == Some((r.value, At()))
    {
      hide Next, ParseClone;
      var clone: seq<nat> := [];
      var i := 0;
      while i < n
        invariant Valid() && 0 <= i <= n && ReadClones(old(At()), ds, n, []) == ReadClones(At(), ds, n - i, clone)
      {
        var line := GetLine();
        if line.None? {
          return None;
        }
        var j := ParseClone(line.value, ds);
        if j.None? {
          return None;
        }
        clone := [j.value] + clone;
        i := i + 1;
      }
      return Some(clone);
    }

    /** A section header's count. */
    method GetHeader(title: string) returns (r: Option<int>)
      requires Valid()
      modifies this
      ensures Valid()
      ensures Next(old(At())).None? ==> r.None?
      ensures Next(old(At())).Some? ==> var (l, c) := Next(old(At())).value; At() == c && r == ParseHeader(title, l)
    {
      var line := GetLine();
      return if line.None? then None else ParseHeader(title, line.value);
    }

    /** read_dcache() from the opened file to its end, where one device, chosen
        by the PID, must still be what stat() says of its name. */
    method Load(dev: nat, pid: nat, stat: string -> Option<(nat, nat)>) returns (r: Option<Cache>)
      requires Valid() && pos == 0 && cksum == 0
      modifies this
      ensures r == Checked(Read(text, dev), pid, stat)
    {
      hide Read;
      r := Get(dev);
      if r.Some? {
        ReadHasDevices(text, dev);
        var d := r.value.devs[pid % |r.value.devs|];
        var sb := stat(d.name);
        if sb.None? || sb.value.0 != d.rdev || sb.value.1 != d.inode {
          return None;
        }
      }
    }

    /** read_dcache() from the opened file to the last line. */
    method Get(dev: nat) returns (r: Option<Cache>)
      requires Valid() && pos == 0 && cksum == 0
      modifies this
      ensures r == Read(text, dev)
    {
      hide Next, ReadRows, ReadClones, ParseHeader, CountLine, CrcLine;
      assert text[0..] == text;
      var line := GetLine();
      if line.None? || line.value != CountLine(dev) {
        return None;
      }
      var n := GetHeader(DEVICES);
      if n.None? || n.value < 1 {
        return None;
      }
      var devs := GetRows(n.value);
      if devs.None? {
        return None;
      }
      n := GetHeader(BLOCKS);
      if n.None? {
        return None;
      }
      var blks := GetRows(if n.value > 0 then n.value else 0);
      if blks.None? {
        return None;
      }
      n := GetHeader(CLONES);
      if n.None? || n.value < 0 {
        return None;
      }
      var clones := GetClones(devs.value, n.value);
      if clones.None? {
        return None;
      }
      var cbuf := CrcLine(cksum);
      line := GetLine();
      if line.None? || line.value != cbuf {
        return None;
      }
      if pos < |text| {
        return None;
      }
      return Some(Cache(devs.value, blks.value, clones.value));
    }
  }

  // ----- From the directory scan to the table read back -----

  /** The clones read back are the devices they were, the last one first. */
  lemma ClonesReversed(t: seq<Dev>, k: seq<nat>, blks: seq<Dev>, clone: seq<nat>)
    requires Points(t, k) && forall i | 0 <= i < |clone| :: clone[i] in k
    ensures var c := TableCache(t, k, blks, clone);
            && c.devs == Select(t, k) && c.blks == blks && |c.clones| == |clone|
            && forall i | 0 <= i < |clone| ::
                 Reverse(c.clones)[i] < |c.devs| && c.devs[Reverse(c.clones)[i]] == t[clone[|clone| - 1 - i]]
  {
  }

  /**
   * Sorting, removing duplicates, writing and reading: when the result is
   * storable, the table read back is strictly ordered, covers every device
   * found, and its clones are the surviving ones in reverse.
   */
  lemma ScanToCache(t: seq<Dev>, p: seq<nat>, clone: seq<nat>, blks: seq<Dev>, dev: nat)
    requires Points(t, p) && Sorted(t, p) && forall x | x in clone :: x in p
    ensures forall i | 0 <= i < |Without(clone, Dropped(t, p))| :: Without(clone, Dropped(t, p))[i] in Kept(t, p)
    ensures var c := TableCache(t, Kept(t, p), blks, Without(clone, Dropped(t, p)));
            Representable(c) && dev < TWO64 && Storable(c) ==>
              var r := Read(File(c, dev), dev);
              && r.Some? && r.value.devs == Select(t, Kept(t, p)) && Strict(r.value.devs)
              && CoversAll(r.value.devs, Select(t, p)) && r.value.blks == blks
              && |r.value.clones| == |c.clones|
              && forall i | 0 <= i < |c.clones| ::
                   r.value.clones[i] < |r.value.devs|
                   && r.value.devs[r.value.clones[i]] == t[Without(clone, Dropped(t, p))[|c.clones| - 1 - i]]
  {
    hide Read, File, Storable, Kept, Dropped, Without, Sorted, Strict, CoversAll, TableCache, Reverse;
    ClonesPointIn(t, p, clone);
    KeptIsStrict(t, p);
    var c := TableCache(t, Kept(t, p), blks, Without(clone, Dropped(t, p)));
    if Representable(c) && dev < TWO64 && Storable(c) {
      FileComesBack(c, dev, dev);
      ClonesReversed(t, Kept(t, p), blks, Without(clone, Dropped(t, p)));
    }
  }
}
