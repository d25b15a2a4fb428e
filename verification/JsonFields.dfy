/** What a reader of the JSON output finds under each key. */
module JsonFields {
  import opened Common
  import opened Digits
  import opened Json
  import opened JsonPrinter
  import opened JsonKeys

  // ----- A reader -----

  function Find(ms: seq<Member>, key: string): Option<Json> {
    if ms == [] then None else if ms[0].key == key then Some(ms[0].value) else Find(ms[1..], key)
  }

  function AsStr(v: Option<Json>): Option<string> {
    match v
    case Some(Str(s)) => Some(s)
    case _ => None
  }

  function AsInt(v: Option<Json>): Option<int> {
    match v
    case Some(Num(n)) => Some(n)
    case _ => None
  }

  function AsNat(v: Option<Json>): Option<nat> {
    match v
    case Some(Num(n)) => if n >= 0 then Some(n) else None
    case _ => None
  }

  function AsDec(v: Option<Json>): Option<nat> {
    match v
    case Some(Str(s)) => if s != "" && forall c | c in s :: IsDec(c) then Some(Value(s, 10, 0)) else None
    case _ => None
  }

  function AsHex(v: Option<Json>): Option<nat> {
    match v
    case Some(Str(s)) =>
      if "0x" < s && forall c | c in s[2..] :: IsHex(c) then Some(Value(s[2..], 16, 0)) else None
    case _ => None
  }

  /** The letters of the manual page */
  function AsAccess(v: Option<Json>): Option<AccessMode> {
    match v
    case Some(Str(s)) =>
      if s == "r" then Some(ReadOnly) else if s == "w" then Some(WriteOnly) else if s == "u" then Some(ReadWrite)
      else None
    case _ => None
  }

  function AsLock(v: Option<Json>): Option<LockMode> {
    match v
    case Some(Str(s)) =>
      if s == "N" then Some(SolarisNfs)
      else if s == "r" then Some(ReadPartial)
      else if s == "R" then Some(ReadFull)
      else if s == "w" then Some(WritePartial)
      else if s == "W" then Some(WriteFull)
      else if s == "u" then Some(ReadWriteLock)
      else if s == "U" then Some(UnknownLock)
      else if s == "x" then Some(ScoPartial)
      else if s == "X" then Some(ScoFull)
      else None
    case _ => None
  }

  function ReadTcp(ms: seq<Member>): Tcp {
    Tcp(AsStr(Find(ms, "state")), AsNat(Find(ms, "recv_queue")), AsNat(Find(ms, "send_queue")),
        AsNat(Find(ms, "read_window")), AsNat(Find(ms, "write_window")))
  }

  function AsTcp(v: Option<Json>): Option<Tcp> {
    match v
    case Some(Obj(ms)) => Some(ReadTcp(ms))
    case _ => None
  }

  /** What an output says of a file; None where it says nothing. */
  datatype FileView =
    FileView(fd: Option<string>, access: Option<AccessMode>, lock: Option<LockMode>, ftype: Option<string>,
             device: Option<string>, dev: Option<nat>, rdev: Option<nat>, size: Option<nat>, offset: Option<nat>,
             inode: Option<nat>, nlink: Option<int>, proto: Option<string>, flags: Option<string>,
             name: Option<string>, tcp: Option<Tcp>)

  function ReadFile(ms: seq<Member>): FileView {
    FileView(AsStr(Find(ms, "fd")), AsAccess(Find(ms, "access")), AsLock(Find(ms, "lock")), AsStr(Find(ms, "type")),
             AsStr(Find(ms, "device")), AsHex(Find(ms, "device_number")), AsHex(Find(ms, "raw_device")),
             AsDec(Find(ms, "size")), AsDec(Find(ms, "offset")), AsDec(Find(ms, "inode")), AsInt(Find(ms, "nlink")),
             AsStr(Find(ms, "protocol")), AsStr(Find(ms, "flags")), AsStr(Find(ms, "name")), AsTcp(Find(ms, "tcp_info")))
  }

  datatype ProcView =
    ProcView(pid: Option<int>, tid: Option<int>, taskCmd: Option<string>, zone: Option<string>, cntx: Option<string>,
             pgid: Option<int>, ppid: Option<int>, cmd: Option<string>, uid: Option<int>, login: Option<string>)

  function ReadProc(ms: seq<Member>): ProcView {
    ProcView(AsInt(Find(ms, "pid")), AsInt(Find(ms, "tid")), AsStr(Find(ms, "task_cmd")), AsStr(Find(ms, "zone")),
             AsStr(Find(ms, "security_context")), AsInt(Find(ms, "pgid")), AsInt(Find(ms, "ppid")),
             AsStr(Find(ms, "command")), AsInt(Find(ms, "uid")), AsStr(Find(ms, "login")))
  }

  // ----- What it should find -----

  function Only<T>(c: bool, v: Option<T>): Option<T> {
    if c then v else None
  }

  /** The text after its leading spaces, if there is any */
  function Unspaced(s: Option<string>): Option<string> {
    if s.Some? && SkipSpaces(s.value) != "" then Some(SkipSpaces(s.value)) else None
  }

  function TcpOf(o: Options, t: Tcp): Tcp {
    Tcp(Only(o.tcpState, t.state), Only(o.tcpQueues, t.recvQ), Only(o.tcpQueues, t.sendQ),
        Only(o.tcpWindows, t.readW), Only(o.tcpWindows, t.writeW))
  }

  /** What is known of the file and selected */
  function FileOf(o: Options, f: File): FileView {
    FileView(
      Only(Fd in o.sel, Some(f.fd)),
      Only(Access in o.sel && f.access != NoAccess, Some(f.access)),
      Only(Lock in o.sel && f.lock != NoLock, Some(f.lock)),
      Only(Type in o.sel, f.ftype),
      Only(DevCh in o.sel, Unspaced(Some(f.devCh))),
      Only(DevN in o.sel, f.dev),
      Only(Rdev in o.sel, f.rdev),
      Only(Size in o.sel, f.size),
      Only(Offset in o.sel, f.offset),
      Only(Inode in o.sel, f.inode),
      Only(Nlink in o.sel, f.nlink),
      Only(Proto in o.sel, Unspaced(f.proto)),
      Only(Flags in o.sel, f.flags),
      Only(Name in o.sel, f.name),
      Only(TcpTpi in o.sel, if f.tcp.Some? then Some(TcpOf(o, f.tcp.value)) else None))
  }

  function ProcOf(o: Options, p: Proc): ProcView {
    ProcView(
      Only(Pid in o.sel, Some(p.pid)),
      Only(Tid in o.sel && p.tid != 0, Some(p.tid)),
      Only(TaskCmd in o.sel, p.taskCmd),
      Only(Zone in o.sel && o.zone, p.zone),
      Only(Cntx in o.sel && o.cntx, p.cntx),
      Only(Pgid in o.sel && o.pgid, Some(p.pgid)),
      Only(Ppid in o.sel && o.ppid, Some(p.ppid)),
      Only(Cmd in o.sel, if p.cmd.Some? then p.cmd else Some("(unknown)")),
      Only(Uid in o.sel, Some(p.uid)),
      Only(Login in o.sel, p.login))
  }

  // ----- Members as a table -----

  /** A key and its value, if that is shown */
  datatype Entry = Entry(key: string, value: Option<Json>)

  function Row(e: Entry): seq<Member> {
    if e.value.Some? then [Member(e.key, e.value.value)] else []
  }

  /** The members of the first `n` entries */
  function Table(t: seq<Entry>, n: nat): seq<Member>
    requires n <= |t|
  {
    if n == 0 then NOTHING else Table(t, n - 1) + Row(t[n - 1])
  }

  function StrEntry(c: bool, key: string, v: Option<string>): Entry {
    Entry(key, if c && v.Some? then Some(Str(v.value)) else None)
  }

  function IntEntry(c: bool, key: string, v: Option<int>): Entry {
    Entry(key, if c && v.Some? then Some(Num(v.value)) else None)
  }

  function ObjEntry(c: bool, key: string, ms: seq<Member>): Entry {
    Entry(key, if c then Some(Obj(ms)) else None)
  }

  /** The keys of the table have the first of these marks, which are distinct. */
  ghost predicate Keyed(t: seq<Entry>, s: seq<int>) {
    |t| <= |s| && forall i | 0 <= i < |t| :: Fits(s, i, t[i].key)
  }

  lemma {:induction false} FindCat(a: seq<Member>, b: seq<Member>, key: string)
    ensures Find(a + b, key) == if Find(a, key).Some? then Find(a, key) else Find(b, key)
  {
    if a == [] {
      assert a + b == b;
    } else {
      assert (a + b)[1..] == a[1..] + b;
      FindCat(a[1..], b, key);
    }
  }

  lemma {:induction false} NotFound(t: seq<Entry>, n: nat, key: string)
    requires n <= |t| && forall i | 0 <= i < n :: t[i].key != key
    ensures Find(Table(t, n), key) == None
  {
    if n > 0 {
      NotFound(t, n - 1, key);
      FindCat(Table(t, n - 1), Row(t[n - 1]), key);
    }
  }

  lemma KeysDiffer(t: seq<Entry>, s: seq<int>, i: nat, j: nat)
    requires Keyed(t, s) && i < j < |t|
    ensures t[i].key != t[j].key
  {
    hide Mark;
    assert Fits(s, i, t[i].key) && Fits(s, j, t[j].key);
  }

  lemma FindRow(e: Entry, key: string)
    ensures Find(Row(e), key) == if e.key == key then e.value else None
  {
  }

  /** Under each key stands the value of its entry. */
  lemma {:induction false} Found(t: seq<Entry>, n: nat, s: seq<int>, i: nat)
    requires Keyed(t, s) && i < n <= |t|
    ensures Find(Table(t, n), t[i].key) == t[i].value
  {
    hide Mark, Keyed, Find, Row;
    var e, key := t[n - 1], t[i].key;
    FindCat(Table(t, n - 1), Row(e), key);
    FindRow(e, key);
    if i < n - 1 {
      Found(t, n - 1, s, i);
      KeysDiffer(t, s, i, n - 1);
    } else {
      forall j | 0 <= j < n - 1 ensures t[j].key != key { KeysDiffer(t, s, j, i); }
      NotFound(t, n - 1, key);
    }
  }

  lemma Starts(t: seq<Entry>)
    ensures Table(t, 0) == NOTHING
  {
  }

  lemma NextRow(t: seq<Entry>, n: nat, ms: seq<Member>) returns (more: seq<Member>)
    requires n < |t| && Table(t, n) == ms
    ensures more == ms + Row(t[n]) && Table(t, n + 1) == more
  {
    more := ms + Row(t[n]);
  }

  lemma NextStr(t: seq<Entry>, n: nat, ms: seq<Member>, c: bool, key: string, v: Option<string>)
    returns (more: seq<Member>)
    requires n < |t| && t[n] == StrEntry(c, key, v) && Table(t, n) == ms
    ensures more == ms + WhenStr(c, key, v) && Table(t, n + 1) == more
  {
    more := ms + WhenStr(c, key, v);
  }

  lemma NextInt(t: seq<Entry>, n: nat, ms: seq<Member>, c: bool, key: string, v: Option<int>)
    returns (more: seq<Member>)
    requires n < |t| && t[n] == IntEntry(c, key, v) && Table(t, n) == ms
    ensures more == ms + WhenInt(c, key, v) && Table(t, n + 1) == more
  {
    more := ms + WhenInt(c, key, v);
  }

  // ----- The TCP part -----

  function TcpEntries(o: Options, x: Tcp): seq<Entry> {
    [StrEntry(o.tcpState, "state", x.state),
     IntEntry(o.tcpQueues, "recv_queue", x.recvQ), IntEntry(o.tcpQueues, "send_queue", x.sendQ),
     IntEntry(o.tcpWindows, "read_window", x.readW), IntEntry(o.tcpWindows, "write_window", x.writeW)]
  }

  lemma TcpTable(o: Options, x: Tcp)
    ensures Keyed(TcpEntries(o, x), TCP) && Table(TcpEntries(o, x), 5) == TcpMembers(o, x)
  {
    hide Table, Fits, WhenStr, WhenInt;
    var t := TcpEntries(o, x);
    TcpFits();
    Starts(t);
    var m := NextStr(t, 0, NOTHING, o.tcpState, "state", x.state);
    m := NextInt(t, 1, m, o.tcpQueues, "recv_queue", x.recvQ);
    m := NextInt(t, 2, m, o.tcpQueues, "send_queue", x.sendQ);
    m := NextInt(t, 3, m, o.tcpWindows, "read_window", x.readW);
    m := NextInt(t, 4, m, o.tcpWindows, "write_window", x.writeW);
  }

  lemma TcpReads(o: Options, x: Tcp)
    ensures ReadTcp(TcpMembers(o, x)) == TcpOf(o, x)
  {
    hide Find, Keyed, Table, TcpMembers;
    TcpTable(o, x);
    var t := TcpEntries(o, x);
    Found(t, 5, TCP, 0);
    Found(t, 5, TCP, 1);
    Found(t, 5, TCP, 2);
    Found(t, 5, TCP, 3);
    Found(t, 5, TCP, 4);
  }

  // ----- A file -----

  function StartEntries(o: Options, f: File): seq<Entry> {
    var ch := SkipSpaces(f.devCh);
    [StrEntry(Fd in o.sel, "fd", Some(f.fd)),
     StrEntry(Access in o.sel && f.access != NoAccess, "access", Some([AccessChar(f.access)])),
     StrEntry(Lock in o.sel && f.lock != NoLock, "lock", Some([LockChar(f.lock)])),
     StrEntry(Type in o.sel, "type", f.ftype),
     StrEntry(DevCh in o.sel && ch != "", "device", Some(ch)),
     StrEntry(DevN in o.sel, "device_number", HexText(f.dev)),
     StrEntry(Rdev in o.sel, "raw_device", HexText(f.rdev))]
  }

  function EndEntries(o: Options, f: File): seq<Entry> {
    var pr := SkipSpaces(if f.proto.Some? then f.proto.value else "");
    [StrEntry(Size in o.sel, "size", DecText(f.size)),
     StrEntry(Offset in o.sel, "offset", DecText(f.offset)),
     StrEntry(Inode in o.sel, "inode", DecText(f.inode)),
     IntEntry(Nlink in o.sel, "nlink", f.nlink),
     StrEntry(Proto in o.sel && pr != "", "protocol", Some(pr)),
     StrEntry(Flags in o.sel, "flags", f.flags),
     StrEntry(Name in o.sel, "name", f.name),
     ObjEntry(TcpTpi in o.sel && f.tcp.Some?, "tcp_info", if f.tcp.Some? then TcpMembers(o, f.tcp.value) else [])]
  }

  lemma StartTable(o: Options, f: File, t: seq<Entry>)
    requires StartEntries(o, f) <= t
    ensures Table(t, 7) == FileStart(o, f)
  {
    hide Table, WhenStr, SkipSpaces, HexText, StrEntry, AccessChar, LockChar, StartEntries;
    var ch := SkipSpaces(f.devCh);
    PlacedFirst(o, f, t);
    Starts(t);
    var m := NextStr(t, 0, NOTHING, Fd in o.sel, "fd", Some(f.fd));
    m := NextStr(t, 1, m, Access in o.sel && f.access != NoAccess, "access", Some([AccessChar(f.access)]));
    m := NextStr(t, 2, m, Lock in o.sel && f.lock != NoLock, "lock", Some([LockChar(f.lock)]));
    m := NextStr(t, 3, m, Type in o.sel, "type", f.ftype);
    m := NextStr(t, 4, m, DevCh in o.sel && ch != "", "device", Some(ch));
    m := NextStr(t, 5, m, DevN in o.sel, "device_number", HexText(f.dev));
    m := NextStr(t, 6, m, Rdev in o.sel, "raw_device", HexText(f.rdev));
  }

  /** The first seven entries */
  lemma PlacedFirst(o: Options, f: File, t: seq<Entry>)
    requires StartEntries(o, f) <= t
    ensures var ch := SkipSpaces(f.devCh);
            && |t| >= 7
            && t[0] == StrEntry(Fd in o.sel, "fd", Some(f.fd))
            && t[1] == StrEntry(Access in o.sel && f.access != NoAccess, "access", Some([AccessChar(f.access)]))
            && t[2] == StrEntry(Lock in o.sel && f.lock != NoLock, "lock", Some([LockChar(f.lock)]))
            && t[3] == StrEntry(Type in o.sel, "type", f.ftype)
            && t[4] == StrEntry(DevCh in o.sel && ch != "", "device", Some(ch))
            && t[5] == StrEntry(DevN in o.sel, "device_number", HexText(f.dev))
            && t[6] == StrEntry(Rdev in o.sel, "raw_device", HexText(f.rdev))
  {
    hide SkipSpaces, StrEntry, HexText, AccessChar, LockChar;
    var e := StartEntries(o, f);
    assert forall i | 0 <= i < 7 :: t[i] == e[i];
  }

  lemma FileKeyed(o: Options, f: File)
    ensures Keyed(StartEntries(o, f) + EndEntries(o, f), FILE)
  {
    hide Fits, SkipSpaces, HexText, DecText, TcpMembers;
    FileStartFits();
    FileFits();
  }

  lemma MiddleTable(o: Options, f: File, t: seq<Entry>) returns (m: seq<Member>)
    requires t == StartEntries(o, f) + EndEntries(o, f)
    ensures m == FileStart(o, f) + WhenStr(Size in o.sel, "size", DecText(f.size)) +
                 WhenStr(Offset in o.sel, "offset", DecText(f.offset)) +
                 WhenStr(Inode in o.sel, "inode", DecText(f.inode)) + WhenInt(Nlink in o.sel, "nlink", f.nlink)
    ensures |t| == 15 && Table(t, 11) == m
  {
    hide Table, WhenStr, WhenInt, WhenObj, StrEntry, IntEntry, ObjEntry, SkipSpaces, DecText, FileStart, TcpMembers,
         StartEntries, EndEntries, Row;
    Placed(o, f, t);
    StartTable(o, f, t);
    m := NextStr(t, 7, FileStart(o, f), Size in o.sel, "size", DecText(f.size));
    m := NextStr(t, 8, m, Offset in o.sel, "offset", DecText(f.offset));
    m := NextStr(t, 9, m, Inode in o.sel, "inode", DecText(f.inode));
    m := NextInt(t, 10, m, Nlink in o.sel, "nlink", f.nlink);
  }

  lemma FileTable(o: Options, f: File)
    ensures Table(StartEntries(o, f) + EndEntries(o, f), 15) == FileMembers(o, f)
  {
    hide Table, WhenStr, WhenInt, WhenObj, StrEntry, IntEntry, ObjEntry, SkipSpaces, DecText, FileStart, TcpMembers,
         StartEntries, EndEntries, Row;
    var t := StartEntries(o, f) + EndEntries(o, f);
    var pr := SkipSpaces(if f.proto.Some? then f.proto.value else "");
    Placed(o, f, t);
    var m := MiddleTable(o, f, t);
    m := NextStr(t, 11, m, Proto in o.sel && pr != "", "protocol", Some(pr));
    m := NextStr(t, 12, m, Flags in o.sel, "flags", f.flags);
    m := NextStr(t, 13, m, Name in o.sel, "name", f.name);
    m := NextRow(t, 14, m);
  }

  /** The entries after the first seven */
  lemma Placed(o: Options, f: File, t: seq<Entry>)
    requires t == StartEntries(o, f) + EndEntries(o, f)
    ensures var pr := SkipSpaces(if f.proto.Some? then f.proto.value else "");
            && |t| == 15 && StartEntries(o, f) <= t
            && t[7] == StrEntry(Size in o.sel, "size", DecText(f.size))
            && t[8] == StrEntry(Offset in o.sel, "offset", DecText(f.offset))
            && t[9] == StrEntry(Inode in o.sel, "inode", DecText(f.inode))
            && t[10] == IntEntry(Nlink in o.sel, "nlink", f.nlink)
            && t[11] == StrEntry(Proto in o.sel && pr != "", "protocol", Some(pr))
            && t[12] == StrEntry(Flags in o.sel, "flags", f.flags)
            && t[13] == StrEntry(Name in o.sel, "name", f.name)
            && Row(t[14]) == WhenObj(TcpTpi in o.sel && f.tcp.Some?, "tcp_info",
                                     if f.tcp.Some? then TcpMembers(o, f.tcp.value) else [])
  {
    hide SkipSpaces, StrEntry, IntEntry, DecText, TcpMembers;
    var e := EndEntries(o, f);
    assert forall i | 0 <= i < 8 :: t[7 + i] == e[i];
  }

  lemma StartFound(o: Options, f: File, i: nat)
    requires i < 7
    ensures var e := StartEntries(o, f)[i]; Find(FileMembers(o, f), e.key) == e.value
  {
    hide Find, Keyed, Table, FileMembers, StrEntry, IntEntry, ObjEntry;
    FileTable(o, f);
    FileKeyed(o, f);
    var t := StartEntries(o, f) + EndEntries(o, f);
    assert t[i] == StartEntries(o, f)[i];
    Found(t, 15, FILE, i);
  }

  lemma EndFound(o: Options, f: File, i: nat)
    requires i < 8
    ensures var e := EndEntries(o, f)[i]; Find(FileMembers(o, f), e.key) == e.value
  {
    hide Find, Keyed, Table, FileMembers, StrEntry, IntEntry, ObjEntry;
    FileTable(o, f);
    FileKeyed(o, f);
    var t := StartEntries(o, f) + EndEntries(o, f);
    assert t[7 + i] == EndEntries(o, f)[i];
    Found(t, 15, FILE, 7 + i);
  }

  lemma DecReads(c: bool, key: string, v: Option<nat>)
    ensures AsDec(StrEntry(c, key, DecText(v)).value) == Only(c, v)
  {
    if v.Some? { RoundTrip(v.value, 10, 0); }
  }

  lemma HexReads(c: bool, key: string, v: Option<nat>)
    ensures AsHex(StrEntry(c, key, HexText(v)).value) == Only(c, v)
  {
    if v.Some? {
      RoundTrip(v.value, 16, 0);
      assert ("0x" + Text(v.value, 16))[2..] == Text(v.value, 16);
    }
  }

  lemma AccessReads(c: bool, key: string, a: AccessMode)
    ensures AsAccess(StrEntry(c && a != NoAccess, key, Some([AccessChar(a)])).value) ==
            Only(c && a != NoAccess, Some(a))
  {
  }

  lemma LockReads(c: bool, key: string, l: LockMode)
    ensures AsLock(StrEntry(c && l != NoLock, key, Some([LockChar(l)])).value) == Only(c && l != NoLock, Some(l))
  {
  }

  lemma TcpEntryReads(c: bool, key: string, o: Options, x: Option<Tcp>)
    ensures AsTcp(ObjEntry(c && x.Some?, key, if x.Some? then TcpMembers(o, x.value) else []).value) ==
            Only(c, if x.Some? then Some(TcpOf(o, x.value)) else None)
  {
    hide TcpMembers, ReadTcp, TcpOf;
    if x.Some? { TcpReads(o, x.value); }
  }

  lemma StartReads(o: Options, f: File)
    ensures var v, w := ReadFile(FileMembers(o, f)), FileOf(o, f);
            && v.fd == w.fd && v.access == w.access && v.lock == w.lock && v.ftype == w.ftype
            && v.device == w.device && v.dev == w.dev && v.rdev == w.rdev
  {
    hide Find, FileMembers, SkipSpaces, HexText, AsHex, AsAccess, AsLock, AsDec, AsTcp, AccessChar, LockChar, TcpOf;
    StartFound(o, f, 0);
    StartFound(o, f, 1);
    StartFound(o, f, 2);
    StartFound(o, f, 3);
    StartFound(o, f, 4);
    StartFound(o, f, 5);
    StartFound(o, f, 6);
    AccessReads(Access in o.sel, "access", f.access);
    LockReads(Lock in o.sel, "lock", f.lock);
    HexReads(DevN in o.sel, "device_number", f.dev);
    HexReads(Rdev in o.sel, "raw_device", f.rdev);
  }

  lemma EndReads(o: Options, f: File)
    ensures var v, w := ReadFile(FileMembers(o, f)), FileOf(o, f);
            && v.size == w.size && v.offset == w.offset && v.inode == w.inode && v.nlink == w.nlink
            && v.proto == w.proto && v.flags == w.flags && v.name == w.name && v.tcp == w.tcp
  {
    hide Find, FileMembers, DecText, AsHex, AsAccess, AsLock, AsDec, AsTcp, TcpMembers, TcpOf;
    EndFound(o, f, 0);
    EndFound(o, f, 1);
    EndFound(o, f, 2);
    EndFound(o, f, 3);
    EndFound(o, f, 4);
    EndFound(o, f, 5);
    EndFound(o, f, 6);
    EndFound(o, f, 7);
    DecReads(Size in o.sel, "size", f.size);
    DecReads(Offset in o.sel, "offset", f.offset);
    DecReads(Inode in o.sel, "inode", f.inode);
    TcpEntryReads(TcpTpi in o.sel, "tcp_info", o, f.tcp);
  }

  /** From a file's members a reader gets back each of its values that is known
      and selected, and nothing for the others. */
  lemma FileReads(o: Options, f: File)
    ensures ReadFile(FileMembers(o, f)) == FileOf(o, f)
  {
    hide ReadFile, FileOf, FileMembers;
    StartReads(o, f);
    EndReads(o, f);
  }

  // ----- A process -----

  function ProcEntries(o: Options, p: Proc): seq<Entry> {
    [IntEntry(Pid in o.sel, "pid", Some(p.pid)),
     IntEntry(Tid in o.sel && p.tid != 0, "tid", Some(p.tid)),
     StrEntry(TaskCmd in o.sel, "task_cmd", p.taskCmd),
     StrEntry(Zone in o.sel && o.zone, "zone", p.zone),
     StrEntry(Cntx in o.sel && o.cntx, "security_context", p.cntx),
     IntEntry(Pgid in o.sel && o.pgid, "pgid", Some(p.pgid)),
     IntEntry(Ppid in o.sel && o.ppid, "ppid", Some(p.ppid)),
     StrEntry(Cmd in o.sel, "command", Some(if p.cmd.Some? then p.cmd.value else "(unknown)")),
     IntEntry(Uid in o.sel, "uid", Some(p.uid)),
     StrEntry(Login in o.sel, "login", p.login)]
  }

  lemma ProcStartTable(o: Options, p: Proc)
    ensures Table(ProcEntries(o, p), 5) == ProcStart(o, p)
  {
    hide Table, WhenStr, WhenInt, StrEntry, IntEntry;
    var t := ProcEntries(o, p);
    Starts(t);
    var m := NextInt(t, 0, NOTHING, Pid in o.sel, "pid", Some(p.pid));
    m := NextInt(t, 1, m, Tid in o.sel && p.tid != 0, "tid", Some(p.tid));
    m := NextStr(t, 2, m, TaskCmd in o.sel, "task_cmd", p.taskCmd);
    m := NextStr(t, 3, m, Zone in o.sel && o.zone, "zone", p.zone);
    m := NextStr(t, 4, m, Cntx in o.sel && o.cntx, "security_context", p.cntx);
  }

  lemma ProcTable(o: Options, p: Proc)
    ensures Keyed(ProcEntries(o, p), PROC) && Table(ProcEntries(o, p), 10) == ProcMembers(o, p)
  {
    hide Table, Fits, WhenStr, WhenInt, ProcStart;
    var t := ProcEntries(o, p);
    ProcFits();
    ProcStartTable(o, p);
    var m := NextInt(t, 5, ProcStart(o, p), Pgid in o.sel && o.pgid, "pgid", Some(p.pgid));
    m := NextInt(t, 6, m, Ppid in o.sel && o.ppid, "ppid", Some(p.ppid));
    m := NextStr(t, 7, m, Cmd in o.sel, "command", Some(if p.cmd.Some? then p.cmd.value else "(unknown)"));
    m := NextInt(t, 8, m, Uid in o.sel, "uid", Some(p.uid));
    m := NextStr(t, 9, m, Login in o.sel, "login", p.login);
  }

  lemma ProcStartReads(o: Options, p: Proc)
    ensures var v, w := ReadProc(ProcMembers(o, p)), ProcOf(o, p);
            v.pid == w.pid && v.tid == w.tid && v.taskCmd == w.taskCmd && v.zone == w.zone && v.cntx == w.cntx
  {
    hide Find, ProcMembers;
    ProcFound(o, p, 0);
    ProcFound(o, p, 1);
    ProcFound(o, p, 2);
    ProcFound(o, p, 3);
    ProcFound(o, p, 4);
  }

  lemma ProcEndReads(o: Options, p: Proc)
    ensures var v, w := ReadProc(ProcMembers(o, p)), ProcOf(o, p);
            v.pgid == w.pgid && v.ppid == w.ppid && v.cmd == w.cmd && v.uid == w.uid && v.login == w.login
  {
    hide Find, ProcMembers;
    ProcFound(o, p, 5);
    ProcFound(o, p, 6);
    ProcFound(o, p, 7);
    ProcFound(o, p, 8);
    ProcFound(o, p, 9);
  }

  /** The same for a process. */
  lemma ProcReads(o: Options, p: Proc)
    ensures ReadProc(ProcMembers(o, p)) == ProcOf(o, p)
  {
    hide ReadProc, ProcOf, ProcMembers;
    ProcStartReads(o, p);
    ProcEndReads(o, p);
  }

  lemma ProcFound(o: Options, p: Proc, i: nat)
    requires i < 10
    ensures var e := ProcEntries(o, p)[i]; Find(ProcMembers(o, p), e.key) == e.value
  {
    hide Find, ProcMembers, Keyed, Table, StrEntry, IntEntry;
    ProcTable(o, p);
    Found(ProcEntries(o, p), 10, PROC, i);
  }

  // ----- Objects that hold both -----

  lemma {:induction false} NoneMarked(ms: seq<Member>, marks: set<int>, key: string)
    requires Marked(ms, marks) && Mark(key) !in marks
    ensures Find(ms, key) == None
  {
    hide Mark;
    if ms != [] {
      assert ms[0].key != key;
      NoneMarked(ms[1..], marks, key);
    }
  }

  lemma MarkedAs(s: seq<int>, i: nat, key: string)
    requires Fits(s, i, key)
    ensures Mark(key) in Marks(s, |s|)
  {
    hide Mark, Marks;
    MarksAre(s, |s|);
  }

  /** A key of the second part, which the first part does not have */
  lemma FindRight(a: seq<Member>, s: seq<int>, b: seq<Member>, z: seq<int>, i: nat, key: string)
    requires Marked(a, Marks(s, |s|)) && Fits(z, i, key) && Marks(s, |s|) !! Marks(z, |z|)
    ensures Find(a + b, key) == Find(b, key)
  {
    hide Mark, Marks, Marked, Fits;
    MarkedAs(z, i, key);
    NoneMarked(a, Marks(s, |s|), key);
    FindCat(a, b, key);
  }

  lemma FindLeft(a: seq<Member>, s: seq<int>, i: nat, b: seq<Member>, marks: set<int>, key: string)
    requires Fits(s, i, key) && Marked(b, marks) && Marks(s, |s|) !! marks
    ensures Find(a + b, key) == Find(a, key)
  {
    hide Mark, Marks, Marked, Fits;
    MarkedAs(s, i, key);
    NoneMarked(b, marks, key);
    FindCat(a, b, key);
  }

  lemma ReadFileRight(a: seq<Member>, b: seq<Member>)
    requires Marked(a, Marks(PROC, 10))
    ensures ReadFile(a + b) == ReadFile(b)
  {
    hide Mark, Marks, Marked, Fits, Find, AsStr, AsInt, AsHex, AsDec, AsAccess, AsLock, AsTcp;
    Apart();
    FileStartFits();
    FileFits();
    FindRight(a, PROC, b, FILE, 0, "fd");
    FindRight(a, PROC, b, FILE, 1, "access");
    FindRight(a, PROC, b, FILE, 2, "lock");
    FindRight(a, PROC, b, FILE, 3, "type");
    FindRight(a, PROC, b, FILE, 4, "device");
    FindRight(a, PROC, b, FILE, 5, "device_number");
    FindRight(a, PROC, b, FILE, 6, "raw_device");
    FindRight(a, PROC, b, FILE, 7, "size");
    FindRight(a, PROC, b, FILE, 8, "offset");
    FindRight(a, PROC, b, FILE, 9, "inode");
    FindRight(a, PROC, b, FILE, 10, "nlink");
    FindRight(a, PROC, b, FILE, 11, "protocol");
    FindRight(a, PROC, b, FILE, 12, "flags");
    FindRight(a, PROC, b, FILE, 13, "name");
    FindRight(a, PROC, b, FILE, 14, "tcp_info");
  }

  lemma ReadProcLeft(a: seq<Member>, b: seq<Member>, marks: set<int>)
    requires Marked(b, marks) && Marks(PROC, 10) !! marks
    ensures ReadProc(a + b) == ReadProc(a)
  {
    hide Mark, Marks, Marked, Fits, Find, AsStr, AsInt;
    ProcFits();
    FindLeft(a, PROC, 0, b, marks, "pid");
    FindLeft(a, PROC, 1, b, marks, "tid");
    FindLeft(a, PROC, 2, b, marks, "task_cmd");
    FindLeft(a, PROC, 3, b, marks, "zone");
    FindLeft(a, PROC, 4, b, marks, "security_context");
    FindLeft(a, PROC, 5, b, marks, "pgid");
    FindLeft(a, PROC, 6, b, marks, "ppid");
    FindLeft(a, PROC, 7, b, marks, "command");
    FindLeft(a, PROC, 8, b, marks, "uid");
    FindLeft(a, PROC, 9, b, marks, "login");
  }

  /** From a `-j` line a reader gets the process's values and the file's. */
  lemma LineReads(o: Options, p: Proc, f: File)
    ensures var ms := ProcMembers(o, p) + FileMembers(o, f);
            ReadProc(ms) == ProcOf(o, p) && ReadFile(ms) == FileOf(o, f)
  {
    hide ReadProc, ReadFile, ProcMembers, FileMembers, ProcOf, FileOf, Marks, Marked;
    ProcKeys(o, p);
    FileKeys(o, f);
    Apart();
    ReadFileRight(ProcMembers(o, p), FileMembers(o, f));
    ReadProcLeft(ProcMembers(o, p), FileMembers(o, f), Marks(FILE, 15));
    ProcReads(o, p);
    FileReads(o, f);
  }

  // ----- Whole outputs -----

  /** A process and the files under it */
  datatype Report = Report(proc: ProcView, files: seq<FileView>)

  function ReadFiles(vs: seq<Json>): Option<seq<FileView>> {
    if vs == [] then Some([])
    else
      match (vs[0], ReadFiles(vs[1..]))
      case (Obj(ms), Some(fs)) => Some([ReadFile(ms)] + fs)
      case _ => None
  }

  function ReadReport(v: Json): Option<Report> {
    if !v.Obj? then None
    else
      match Find(v.members, "files")
      case Some(Arr(vs)) =>
        (match ReadFiles(vs)
         case Some(fs) => Some(Report(ReadProc(v.members), fs))
         case None => None)
      case _ => None
  }

  function ReadReports(vs: seq<Json>): Option<seq<Report>> {
    if vs == [] then Some([])
    else
      match (ReadReport(vs[0]), ReadReports(vs[1..]))
      case (Some(r), Some(rs)) => Some([r] + rs)
      case _ => None
  }

  /** The version and the processes of a `-J` document */
  function ReadDocument(v: Json): Option<(string, seq<Report>)> {
    if !v.Obj? then None
    else
      match (Find(v.members, "lsof_version"), Find(v.members, "processes"))
      case (Some(Str(s)), Some(Arr(vs))) =>
        (match ReadReports(vs)
         case Some(rs) => Some((s, rs))
         case None => None)
      case _ => None
  }

  function FilesOf(o: Options, fs: seq<File>): (r: seq<FileView>)
    ensures |r| == |fs| && forall i | 0 <= i < |fs| :: r[i] == FileOf(o, fs[i])
  {
    seq(|fs|, i requires 0 <= i < |fs| => FileOf(o, fs[i]))
  }

  function ReportsOf(o: Options, ps: seq<Proc>): (r: seq<Report>)
    ensures |r| == |ps| && forall i | 0 <= i < |ps| :: r[i] == Report(ProcOf(o, ps[i]), FilesOf(o, Selected(ps[i].files)))
  {
    seq(|ps|, i requires 0 <= i < |ps| => Report(ProcOf(o, ps[i]), FilesOf(o, Selected(ps[i].files))))
  }

  lemma {:induction false} FilesRead(o: Options, fs: seq<File>)
    ensures ReadFiles(FileObjects(o, fs)) == Some(FilesOf(o, fs))
  {
    hide FileMembers, ReadFile, FileOf;
    if fs != [] {
      var vs := FileObjects(o, fs);
      assert vs[1..] == FileObjects(o, fs[1..]);
      FilesRead(o, fs[1..]);
      FileReads(o, fs[0]);
      assert FilesOf(o, fs) == [FileOf(o, fs[0])] + FilesOf(o, fs[1..]);
    }
  }

  lemma ReportRead(o: Options, p: Proc)
    ensures ReadReport(ProcObject(o, p)) == Some(Report(ProcOf(o, p), FilesOf(o, Selected(p.files))))
  {
    hide Mark, Marks, Marked, ProcMembers, ReadProc, ProcOf, FileObjects, ReadFiles, FilesOf, Find;
    var vs := FileObjects(o, Selected(p.files));
    var a, b := ProcMembers(o, p), [Member("files", Arr(vs))];
    ProcKeys(o, p);
    FilesMark();
    assert Marked(b, {Mark("files")}) by { OneMarked(b[0]); }
    NoneMarked(a, Marks(PROC, 10), "files");
    FindCat(a, b, "files");
    FindOne(b[0]);
    ReadProcLeft(a, b, {Mark("files")});
    ProcReads(o, p);
    FilesRead(o, Selected(p.files));
  }

  lemma OneMarked(m: Member)
    ensures Marked([m], {Mark(m.key)})
  {
    hide Mark;
  }

  lemma FindOne(m: Member)
    ensures Find([m], m.key) == Some(m.value)
  {
  }

  lemma FindTwo(a: Member, b: Member)
    requires a.key != b.key
    ensures Find([a, b], a.key) == Some(a.value) && Find([a, b], b.key) == Some(b.value)
  {
    assert [a, b][1..] == [b];
    FindOne(b);
  }

  lemma {:induction false} ReportsRead(o: Options, ps: seq<Proc>)
    ensures ReadReports(ProcObjects(o, ps)) == Some(ReportsOf(o, ps))
  {
    hide ProcObject, ReadReport, ProcOf, FilesOf, Selected;
    if ps != [] {
      var vs := ProcObjects(o, ps);
      assert vs[1..] == ProcObjects(o, ps[1..]);
      ReportsRead(o, ps[1..]);
      ReportRead(o, ps[0]);
      assert ReportsOf(o, ps) == [ReportsOf(o, ps)[0]] + ReportsOf(o, ps[1..]);
    }
  }

  lemma DocumentReads(o: Options, ps: seq<Proc>)
    ensures ReadDocument(Document(o, ps)) == Some((VERSION, ReportsOf(o, Shown(ps))))
  {
    hide ProcObjects, ReadReports, ReportsOf, Shown, Find;
    var a, b := Member("lsof_version", Str(VERSION)), Member("processes", Arr(ProcObjects(o, Shown(ps))));
    assert |a.key| != |b.key|;
    FindTwo(a, b);
    ReportsRead(o, Shown(ps));
  }

  /**
   * What a `-J` cycle writes is one JSON text, and a reader who looks the
   * values up by their keys gets from it, for each process shown and each of
   * its selected files, just what is known of them and selected.
   */
  lemma CycleReads(o: Options, ps: seq<Proc>, rest: string)
    ensures var r := ParseValue(Print(Document(o, ps)) + ("\n" + rest));
            r.Some? && r.value.1 == "\n" + rest && ReadDocument(r.value.0) == Some((VERSION, ReportsOf(o, Shown(ps))))
  {
    hide ParseValue, Print, Document, ReadDocument, ReportsOf, Shown;
    CycleParses(o, ps, rest);
    DocumentReads(o, ps);
  }

  /** The processes and files of `-j` lines */
  function ReadLines(vs: seq<Json>): Option<seq<(ProcView, FileView)>> {
    if vs == [] then Some([])
    else
      match (vs[0], ReadLines(vs[1..]))
      case (Obj(ms), Some(ls)) => Some([(ReadProc(ms), ReadFile(ms))] + ls)
      case _ => None
  }

  function LinesOf(o: Options, p: Proc, fs: seq<File>): seq<(ProcView, FileView)> {
    if fs == [] then [] else [(ProcOf(o, p), FileOf(o, fs[0]))] + LinesOf(o, p, fs[1..])
  }

  function AllLinesOf(o: Options, ps: seq<Proc>): seq<(ProcView, FileView)> {
    if ps == [] then [] else LinesOf(o, ps[0], Selected(ps[0].files)) + AllLinesOf(o, ps[1..])
  }

  lemma {:induction false} LinesRead(o: Options, p: Proc, fs: seq<File>, more: seq<Json>, ls: seq<(ProcView, FileView)>)
    requires ReadLines(more) == Some(ls)
    ensures ReadLines(LineObjects(o, p, fs) + more) == Some(LinesOf(o, p, fs) + ls)
    decreases |fs|
  {
    hide ProcMembers, FileMembers, ReadProc, ReadFile, ProcOf, FileOf;
    if fs == [] {
      assert LineObjects(o, p, fs) + more == more && LinesOf(o, p, fs) + ls == ls;
    } else {
      var vs := LineObjects(o, p, fs) + more;
      assert vs[1..] == LineObjects(o, p, fs[1..]) + more;
      LinesRead(o, p, fs[1..], more, ls);
      LineReads(o, p, fs[0]);
      assert LinesOf(o, p, fs) + ls == [(ProcOf(o, p), FileOf(o, fs[0]))] + (LinesOf(o, p, fs[1..]) + ls);
    }
  }

  /** And from each `-j` line a process's values and a file's. */
  lemma {:induction false} LineCycleReads(o: Options, ps: seq<Proc>)
    ensures ParseLines(AllLines(o, ps)) == Some(AllLineObjects(o, ps))
    ensures ReadLines(AllLineObjects(o, ps)) == Some(AllLinesOf(o, ps))
  {
    hide ParseLines, AllLines, Lines, LineObjects, LinesOf, Selected;
    LineCycleParses(o, ps);
    if ps != [] {
      LineCycleReads(o, ps[1..]);
      LinesRead(o, ps[0], Selected(ps[0].files), AllLineObjects(o, ps[1..]), AllLinesOf(o, ps[1..]));
    }
  }

  // ----- Which files and processes -----

  lemma {:induction false} SelectedExactly(fs: seq<File>, f: File)
    ensures multiset(Selected(fs))[f] == if f.selected then multiset(fs)[f] else 0
  {
    if fs != [] {
      SelectedExactly(fs[1..], f);
      assert fs == [fs[0]] + fs[1..];
    }
  }

  predicate HasSelected(p: Proc) {
    p.pss && exists i | 0 <= i < |p.files| :: p.files[i].selected
  }

  lemma SomeSelected(fs: seq<File>)
    ensures Selected(fs) != [] <==> exists i | 0 <= i < |fs| :: fs[i].selected
  {
    hide Selected;
    if Selected(fs) != [] {
      var f := Selected(fs)[0];
      SelectedExactly(fs, f);
      assert f in multiset(Selected(fs)) && f in multiset(fs);
    }
    forall i | 0 <= i < |fs| && fs[i].selected ensures Selected(fs) != [] {
      SelectedExactly(fs, fs[i]);
      assert fs[i] in multiset(fs);
    }
  }

  /** Shown are the processes that have a selected file, each as often as it is listed. */
  lemma {:induction false} ShownExactly(ps: seq<Proc>, p: Proc)
    ensures multiset(Shown(ps))[p] == if HasSelected(p) then multiset(ps)[p] else 0
  {
    hide Selected;
    if ps != [] {
      ShownExactly(ps[1..], p);
      SomeSelected(ps[0].files);
      assert ps == [ps[0]] + ps[1..];
    }
  }
}
