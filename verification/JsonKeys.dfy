/** No key occurs twice in an object of the JSON output. */
module JsonKeys {
  import opened Common
  import opened Json
  import opened JsonPrinter

  ghost predicate DistinctKeys(ms: seq<Member>) {
    forall i, j | 0 <= i < j < |ms| :: ms[i].key != ms[j].key
  }

  /** A number that tells the keys apart: the length and two letters */
  function Mark(key: string): int {
    if |key| < 2 then -1 else 1000000 * |key| + 1000 * key[0] as int + key[1] as int
  }

  /** The keys are distinct, and these are their marks or some more. */
  ghost predicate Marked(ms: seq<Member>, marks: set<int>) {
    DistinctKeys(ms) && forall i | 0 <= i < |ms| :: Mark(ms[i].key) in marks
  }

  /** An optional member under this key */
  predicate AtMostOne(w: seq<Member>, key: string) {
    w == [] || (|w| == 1 && w[0].key == key)
  }

  lemma OptionalMember(c: bool, key: string, s: Option<string>, n: Option<int>, ms: seq<Member>)
    ensures AtMostOne(WhenStr(c, key, s), key) && AtMostOne(WhenInt(c, key, n), key) && AtMostOne(WhenObj(c, key, ms), key)
  {
  }

  lemma OneMore(ms: seq<Member>, marks: set<int>, w: seq<Member>, key: string)
    requires Marked(ms, marks) && AtMostOne(w, key) && Mark(key) !in marks
    ensures Marked(ms + w, marks + {Mark(key)})
  {
    hide Mark;
  }

  lemma Together(a: seq<Member>, s: set<int>, b: seq<Member>, t: set<int>)
    requires Marked(a, s) && Marked(b, t) && s !! t
    ensures Marked(a + b, s + t)
  {
    hide Mark;
    forall i, j | 0 <= i < j < |a + b| ensures (a + b)[i].key != (a + b)[j].key {
      if i < |a| <= j { assert Mark(a[i].key) in s && Mark(b[j - |a|].key) in t; }
    }
  }

  // The marks of the keys, in the order of output.

  const TCP: seq<int> := [5115116, 10114101, 10115101, 11114101, 12119114]
  const FILE: seq<int> := [2102100, 6097099, 4108111, 4116121, 6100101, 13100101, 10114097, 4115105, 6111102, 5105110,
                           5110108, 8112114, 5102108, 4110097, 8116099]
  const PROC: seq<int> := [3112105, 3116105, 8116097, 4122111, 16115101, 4112103, 4112112, 7099111, 3117105, 5108111]

  function Marks(s: seq<int>, n: nat): set<int>
    requires n <= |s|
  {
    if n == 0 then {} else Marks(s, n - 1) + {s[n - 1]}
  }

  lemma {:induction false} MarksAre(s: seq<int>, n: nat)
    requires n <= |s|
    ensures forall x :: x in Marks(s, n) <==> exists i | 0 <= i < n :: s[i] == x
  {
    if n > 0 { MarksAre(s, n - 1); }
  }

  /** The next key of a list */
  lemma Next(ms: seq<Member>, s: seq<int>, n: nat, w: seq<Member>, key: string)
    requires n < |s| && Marked(ms, Marks(s, n)) && AtMostOne(w, key)
    requires Mark(key) == s[n] && forall i | 0 <= i < n :: s[i] != s[n]
    ensures Marked(ms + w, Marks(s, n + 1))
  {
    hide Mark, Marked;
    MarksAre(s, n);
    OneMore(ms, Marks(s, n), w, key);
  }

  /** The mark of the next key, different from those before it */
  predicate Fits(s: seq<int>, n: nat, key: string) {
    n < |s| && Mark(key) == s[n] && forall i | 0 <= i < n :: s[i] != s[n]
  }

  lemma NextStr(ms: seq<Member>, s: seq<int>, n: nat, c: bool, key: string, v: Option<string>) returns (more: seq<Member>)
    requires Fits(s, n, key) && Marked(ms, Marks(s, n))
    ensures more == ms + WhenStr(c, key, v) && Marked(more, Marks(s, n + 1))
  {
    OptionalMember(c, key, v, None, []);
    Next(ms, s, n, WhenStr(c, key, v), key);
    more := ms + WhenStr(c, key, v);
  }

  lemma NextInt(ms: seq<Member>, s: seq<int>, n: nat, c: bool, key: string, v: Option<int>) returns (more: seq<Member>)
    requires Fits(s, n, key) && Marked(ms, Marks(s, n))
    ensures more == ms + WhenInt(c, key, v) && Marked(more, Marks(s, n + 1))
  {
    OptionalMember(c, key, None, v, []);
    Next(ms, s, n, WhenInt(c, key, v), key);
    more := ms + WhenInt(c, key, v);
  }

  lemma NothingMarked(s: seq<int>)
    ensures Marked(NOTHING, Marks(s, 0))
  {
  }

  lemma TcpKeys(o: Options, t: Tcp)
    ensures DistinctKeys(TcpMembers(o, t))
  {
    hide Marked, Marks, Fits, WhenStr, WhenInt;
    TcpFits();
    NothingMarked(TCP);
    var m := NextStr(NOTHING, TCP, 0, o.tcpState, "state", t.state);
    m := NextInt(m, TCP, 1, o.tcpQueues, "recv_queue", t.recvQ);
    m := NextInt(m, TCP, 2, o.tcpQueues, "send_queue", t.sendQ);
    m := NextInt(m, TCP, 3, o.tcpWindows, "read_window", t.readW);
    m := NextInt(m, TCP, 4, o.tcpWindows, "write_window", t.writeW);
    MarkedDistinct(m, Marks(TCP, 5));
  }

  lemma MarkedDistinct(ms: seq<Member>, marks: set<int>)
    requires Marked(ms, marks)
    ensures DistinctKeys(ms)
  {
  }

  lemma TcpFits()
    ensures Fits(TCP, 0, "state") && Fits(TCP, 1, "recv_queue") && Fits(TCP, 2, "send_queue")
    ensures Fits(TCP, 3, "read_window") && Fits(TCP, 4, "write_window")
  {
  }

  lemma FileStartFits()
    ensures Fits(FILE, 0, "fd") && Fits(FILE, 1, "access") && Fits(FILE, 2, "lock") && Fits(FILE, 3, "type")
    ensures Fits(FILE, 4, "device") && Fits(FILE, 5, "device_number") && Fits(FILE, 6, "raw_device")
  {
  }

  lemma FileFits()
    ensures Fits(FILE, 7, "size") && Fits(FILE, 8, "offset") && Fits(FILE, 9, "inode") && Fits(FILE, 10, "nlink")
    ensures Fits(FILE, 11, "protocol") && Fits(FILE, 12, "flags") && Fits(FILE, 13, "name") && Fits(FILE, 14, "tcp_info")
  {
  }

  lemma ProcFits()
    ensures Fits(PROC, 0, "pid") && Fits(PROC, 1, "tid") && Fits(PROC, 2, "task_cmd") && Fits(PROC, 3, "zone")
    ensures Fits(PROC, 4, "security_context") && Fits(PROC, 5, "pgid") && Fits(PROC, 6, "ppid")
    ensures Fits(PROC, 7, "command") && Fits(PROC, 8, "uid") && Fits(PROC, 9, "login")
  {
  }

  lemma FileStartKeys(o: Options, f: File)
    ensures Marked(FileStart(o, f), Marks(FILE, 7))
  {
    hide Marked, Marks, Fits, WhenStr, WhenInt, SkipSpaces, HexText;
    FileStartFits();
    NothingMarked(FILE);
    var ch := SkipSpaces(f.devCh);
    var m := NextStr(NOTHING, FILE, 0, Fd in o.sel, "fd", Some(f.fd));
    m := NextStr(m, FILE, 1, Access in o.sel && f.access != NoAccess, "access", Some([AccessChar(f.access)]));
    m := NextStr(m, FILE, 2, Lock in o.sel && f.lock != NoLock, "lock", Some([LockChar(f.lock)]));
    m := NextStr(m, FILE, 3, Type in o.sel, "type", f.ftype);
    m := NextStr(m, FILE, 4, DevCh in o.sel && ch != "", "device", Some(ch));
    m := NextStr(m, FILE, 5, DevN in o.sel, "device_number", HexText(f.dev));
    m := NextStr(m, FILE, 6, Rdev in o.sel, "raw_device", HexText(f.rdev));
  }

  lemma FileKeys(o: Options, f: File)
    ensures Marked(FileMembers(o, f), Marks(FILE, 15))
  {
    hide Marked, Marks, Fits, WhenStr, WhenInt, WhenObj, SkipSpaces, DecText, FileStart, TcpMembers, AtMostOne;
    FileStartKeys(o, f);
    FileFits();
    var pr := SkipSpaces(if f.proto.Some? then f.proto.value else "");
    var m := NextStr(FileStart(o, f), FILE, 7, Size in o.sel, "size", DecText(f.size));
    m := NextStr(m, FILE, 8, Offset in o.sel, "offset", DecText(f.offset));
    m := NextStr(m, FILE, 9, Inode in o.sel, "inode", DecText(f.inode));
    m := NextInt(m, FILE, 10, Nlink in o.sel, "nlink", f.nlink);
    m := NextStr(m, FILE, 11, Proto in o.sel && pr != "", "protocol", Some(pr));
    m := NextStr(m, FILE, 12, Flags in o.sel, "flags", f.flags);
    m := NextStr(m, FILE, 13, Name in o.sel, "name", f.name);
    var c, ms := TcpTpi in o.sel && f.tcp.Some?, if f.tcp.Some? then TcpMembers(o, f.tcp.value) else [];
    OptionalMember(c, "tcp_info", None, None, ms);
    NextFits(m, FILE, 14, WhenObj(c, "tcp_info", ms), "tcp_info");
  }

  lemma NextFits(ms: seq<Member>, s: seq<int>, n: nat, w: seq<Member>, key: string)
    requires Fits(s, n, key) && Marked(ms, Marks(s, n)) && AtMostOne(w, key)
    ensures Marked(ms + w, Marks(s, n + 1))
  {
    Next(ms, s, n, w, key);
  }

  lemma ProcStartKeys(o: Options, p: Proc)
    ensures Marked(ProcStart(o, p), Marks(PROC, 5))
  {
    hide Marked, Marks, Fits, WhenStr, WhenInt;
    ProcFits();
    NothingMarked(PROC);
    var m := NextInt(NOTHING, PROC, 0, Pid in o.sel, "pid", Some(p.pid));
    m := NextInt(m, PROC, 1, Tid in o.sel && p.tid != 0, "tid", Some(p.tid));
    m := NextStr(m, PROC, 2, TaskCmd in o.sel, "task_cmd", p.taskCmd);
    m := NextStr(m, PROC, 3, Zone in o.sel && o.zone, "zone", p.zone);
    m := NextStr(m, PROC, 4, Cntx in o.sel && o.cntx, "security_context", p.cntx);
  }

  lemma ProcKeys(o: Options, p: Proc)
    ensures Marked(ProcMembers(o, p), Marks(PROC, 10))
  {
    hide Marked, Marks, Fits, WhenStr, WhenInt, ProcStart;
    ProcStartKeys(o, p);
    ProcFits();
    var m := NextInt(ProcStart(o, p), PROC, 5, Pgid in o.sel && o.pgid, "pgid", Some(p.pgid));
    m := NextInt(m, PROC, 6, Ppid in o.sel && o.ppid, "ppid", Some(p.ppid));
    m := NextStr(m, PROC, 7, Cmd in o.sel, "command", Some(if p.cmd.Some? then p.cmd.value else "(unknown)"));
    m := NextInt(m, PROC, 8, Uid in o.sel, "uid", Some(p.uid));
    m := NextStr(m, PROC, 9, Login in o.sel, "login", p.login);
  }

  lemma NotOfFile(i: nat)
    requires i < 10
    ensures forall j | 0 <= j < 15 :: PROC[i] != FILE[j]
  {
  }

  /** No key of a file is one of a process. */
  lemma Apart()
    ensures Marks(PROC, 10) !! Marks(FILE, 15)
  {
    hide Marks;
    MarksAre(PROC, 10);
    MarksAre(FILE, 15);
    forall x | x in Marks(PROC, 10) ensures x !in Marks(FILE, 15) {
      var i :| 0 <= i < 10 && PROC[i] == x;
      NotOfFile(i);
    }
  }

  lemma FilesMark()
    ensures Mark("files") !in Marks(PROC, 10)
  {
    hide Marks;
    MarksAre(PROC, 10);
    assert Mark("files") == 5102105;
  }

  /** Whatever is selected, every object has distinct keys: those of a `-J`
      process with its files, of a file, of its TCP part, and of a `-j` line. */
  lemma ObjectsHaveDistinctKeys(o: Options, p: Proc, f: File)
    ensures DistinctKeys(ProcObject(o, p).members) && DistinctKeys(FileMembers(o, f))
    ensures DistinctKeys(ProcMembers(o, p) + FileMembers(o, f))
    ensures f.tcp.Some? ==> DistinctKeys(TcpMembers(o, f.tcp.value))
  {
    hide Marked, Marks, Mark, ProcMembers, FileMembers, TcpMembers, FileObjects, DistinctKeys;
    ProcKeys(o, p);
    FileKeys(o, f);
    Apart();
    Together(ProcMembers(o, p), Marks(PROC, 10), FileMembers(o, f), Marks(FILE, 15));
    MarkedDistinct(ProcMembers(o, p) + FileMembers(o, f), Marks(PROC, 10) + Marks(FILE, 15));
    MarkedDistinct(FileMembers(o, f), Marks(FILE, 15));
    var files := [Member("files", Arr(FileObjects(o, Selected(p.files))))];
    FilesMark();
    OneMore(ProcMembers(o, p), Marks(PROC, 10), files, "files");
    MarkedDistinct(ProcMembers(o, p) + files, Marks(PROC, 10) + {Mark("files")});
    if f.tcp.Some? { TcpKeys(o, f.tcp.value); }
  }
}
