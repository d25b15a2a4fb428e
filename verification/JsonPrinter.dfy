/** The -J and -j output of print_proc(): separators are carried in flags
    while the text is appended piece by piece. */
module JsonPrinter {
  import opened Common
  import opened Digits
  import opened Json

  /** LSOF_VERSION; its characters need no escaping. */
  const VERSION: string := "4.99.6"

  datatype Field =
    | Fd | Access | Lock | Type | DevCh | DevN | Rdev | Size | Offset | Inode | Nlink | Proto | Flags | Name
    | TcpTpi | Pid | Tid | TaskCmd | Zone | Cntx | Pgid | Ppid | Cmd | Uid | Login

  /** FieldSel[], the options that gate process fields, and the -T selections. */
  datatype Options = Options(sel: set<Field>, zone: bool, cntx: bool, pgid: bool, ppid: bool,
                             tcpState: bool, tcpQueues: bool, tcpWindows: bool)

  datatype Tcp = Tcp(state: Option<string>, recvQ: Option<nat>, sendQ: Option<nat>,
                     readW: Option<nat>, writeW: Option<nat>)

  datatype AccessMode = NoAccess | ReadOnly | WriteOnly | ReadWrite

  datatype LockMode = NoLock | UnknownLock | ReadPartial | ReadFull | WritePartial | WriteFull | ReadWriteLock
                    | SolarisNfs | ScoPartial | ScoFull

  /** access_to_char() */
  function AccessChar(a: AccessMode): (c: char)
    ensures ' ' <= c <= '~' && (c == ' ' <==> a == NoAccess)
  {
    match a
    case NoAccess => ' '
    case ReadOnly => 'r'
    case WriteOnly => 'w'
    case ReadWrite => 'u'
  }

  /** lock_to_char() */
  function LockChar(l: LockMode): (c: char)
    ensures ' ' <= c <= '~' && (c == ' ' <==> l == NoLock)
  {
    match l
    case NoLock => ' '
    case UnknownLock => 'U'
    case ReadPartial => 'r'
    case ReadFull => 'R'
    case WritePartial => 'w'
    case WriteFull => 'W'
    case ReadWriteLock => 'u'
    case SolarisNfs => 'N'
    case ScoPartial => 'x'
    case ScoFull => 'X'
  }

  /** A file; an absent value is None. */
  datatype File = File(selected: bool, fd: string, access: AccessMode, lock: LockMode, ftype: Option<string>,
                       devCh: string, dev: Option<nat>, rdev: Option<nat>, size: Option<nat>, offset: Option<nat>,
                       inode: Option<nat>, nlink: Option<int>, proto: Option<string>, flags: Option<string>,
                       name: Option<string>, tcp: Option<Tcp>)

  datatype Proc = Proc(pss: bool, pid: int, tid: int, taskCmd: Option<string>, zone: Option<string>,
                       cntx: Option<string>, pgid: int, ppid: int, cmd: Option<string>, uid: int,
                       login: Option<string>, files: seq<File>)

  // ----- What the output must say -----

  function WhenStr(c: bool, key: string, v: Option<string>): seq<Member> {
    if c && v.Some? then [Member(key, Str(v.value))] else []
  }

  function WhenInt(c: bool, key: string, v: Option<int>): seq<Member> {
    if c && v.Some? then [Member(key, Num(v.value))] else []
  }

  function WhenObj(c: bool, key: string, ms: seq<Member>): seq<Member> {
    if c then [Member(key, Obj(ms))] else []
  }

  /** A 64-bit number, which goes out as a string. */
  function DecText(v: Option<nat>): Option<string> {
    if v.Some? then Some(Text(v.value, 10)) else None
  }

  function HexText(v: Option<nat>): Option<string> {
    if v.Some? then Some("0x" + Text(v.value, 16)) else None
  }

  function SkipSpaces(s: string): string {
    if s != "" && s[0] == ' ' then SkipSpaces(s[1..]) else s
  }

  /** What is left of a text is all of it from its first other character on. */
  lemma {:induction false} SpacesSkipped(s: string)
    ensures var r := SkipSpaces(s);
            && |r| <= |s| && s[|s| - |r|..] == r && (r != "" ==> r[0] != ' ')
            && forall i | 0 <= i < |s| - |r| :: s[i] == ' '
  {
    if s != "" && s[0] == ' ' {
      SpacesSkipped(s[1..]);
      var r := SkipSpaces(s);
      forall i | 0 <= i < |s| - |r| ensures s[i] == ' ' {
        if i > 0 { assert s[i] == s[1..][i - 1]; }
      }
    }
  }

  const NOTHING: seq<Member> := []

  function TcpMembers(o: Options, t: Tcp): seq<Member> {
    NOTHING + WhenStr(o.tcpState, "state", t.state) +
    WhenInt(o.tcpQueues, "recv_queue", t.recvQ) + WhenInt(o.tcpQueues, "send_queue", t.sendQ) +
    WhenInt(o.tcpWindows, "read_window", t.readW) + WhenInt(o.tcpWindows, "write_window", t.writeW)
  }

  function FileStart(o: Options, f: File): seq<Member> {
    var ch := SkipSpaces(f.devCh);
    NOTHING + WhenStr(Fd in o.sel, "fd", Some(f.fd)) +
    WhenStr(Access in o.sel && f.access != NoAccess, "access", Some([AccessChar(f.access)])) +
    WhenStr(Lock in o.sel && f.lock != NoLock, "lock", Some([LockChar(f.lock)])) +
    WhenStr(Type in o.sel, "type", f.ftype) +
    WhenStr(DevCh in o.sel && ch != "", "device", Some(ch)) +
    WhenStr(DevN in o.sel, "device_number", HexText(f.dev)) +
    WhenStr(Rdev in o.sel, "raw_device", HexText(f.rdev))
  }

  function FileMembers(o: Options, f: File): seq<Member> {
    var pr := SkipSpaces(if f.proto.Some? then f.proto.value else "");
    FileStart(o, f) +
    WhenStr(Size in o.sel, "size", DecText(f.size)) +
    WhenStr(Offset in o.sel, "offset", DecText(f.offset)) +
    WhenStr(Inode in o.sel, "inode", DecText(f.inode)) +
    WhenInt(Nlink in o.sel, "nlink", f.nlink) +
    WhenStr(Proto in o.sel && pr != "", "protocol", Some(pr)) +
    WhenStr(Flags in o.sel, "flags", f.flags) +
    WhenStr(Name in o.sel, "name", f.name) +
    WhenObj(TcpTpi in o.sel && f.tcp.Some?, "tcp_info", if f.tcp.Some? then TcpMembers(o, f.tcp.value) else [])
  }

  function ProcStart(o: Options, p: Proc): seq<Member> {
    NOTHING + WhenInt(Pid in o.sel, "pid", Some(p.pid)) +
    WhenInt(Tid in o.sel && p.tid != 0, "tid", Some(p.tid)) +
    WhenStr(TaskCmd in o.sel, "task_cmd", p.taskCmd) +
    WhenStr(Zone in o.sel && o.zone, "zone", p.zone) +
    WhenStr(Cntx in o.sel && o.cntx, "security_context", p.cntx)
  }

  function ProcMembers(o: Options, p: Proc): seq<Member> {
    ProcStart(o, p) +
    WhenInt(Pgid in o.sel && o.pgid, "pgid", Some(p.pgid)) +
    WhenInt(Ppid in o.sel && o.ppid, "ppid", Some(p.ppid)) +
    WhenStr(Cmd in o.sel, "command", Some(if p.cmd.Some? then p.cmd.value else "(unknown)")) +
    WhenInt(Uid in o.sel, "uid", Some(p.uid)) +
    WhenStr(Login in o.sel, "login", p.login)
  }

  /** The selected files, in order. */
  function Selected(fs: seq<File>): seq<File> {
    if fs == [] then [] else (if fs[0].selected then [fs[0]] else []) + Selected(fs[1..])
  }

  /** The processes that have a selected file, in order. */
  function Shown(ps: seq<Proc>): seq<Proc> {
    if ps == [] then [] else (if ps[0].pss && Selected(ps[0].files) != [] then [ps[0]] else []) + Shown(ps[1..])
  }

  function FileObjects(o: Options, fs: seq<File>): (r: seq<Json>)
    ensures |r| == |fs| && forall i | 0 <= i < |fs| :: r[i] == Obj(FileMembers(o, fs[i]))
  {
    seq(|fs|, i requires 0 <= i < |fs| => Obj(FileMembers(o, fs[i])))
  }

  function ProcObject(o: Options, p: Proc): Json {
    Obj(ProcMembers(o, p) + [Member("files", Arr(FileObjects(o, Selected(p.files))))])
  }

  function ProcObjects(o: Options, ps: seq<Proc>): (r: seq<Json>)
    ensures |r| == |ps| && forall i | 0 <= i < |ps| :: r[i] == ProcObject(o, ps[i])
  {
    seq(|ps|, i requires 0 <= i < |ps| => ProcObject(o, ps[i]))
  }

  /** The one value of a -J cycle. */
  function Document(o: Options, ps: seq<Proc>): Json {
    Obj([Member("lsof_version", Str(VERSION)), Member("processes", Arr(ProcObjects(o, Shown(ps))))])
  }

  /** The lines of a -j cycle: each a process's fields and then a file's. */
  function Lines(o: Options, p: Proc, fs: seq<File>): string {
    if fs == [] then "" else Print(Obj(ProcMembers(o, p) + FileMembers(o, fs[0]))) + "\n" + Lines(o, p, fs[1..])
  }

  function AllLines(o: Options, ps: seq<Proc>): string {
    if ps == [] then "" else Lines(o, ps[0], Selected(ps[0].files)) + AllLines(o, ps[1..])
  }

  // ----- Printing piecewise -----

  lemma {:induction false} MembersCat(sep: bool, a: seq<Member>, b: seq<Member>)
    ensures PrintMembers(sep, a + b) == PrintMembers(sep, a) + PrintMembers(sep || a != [], b)
    decreases |a|
  {
    if a == [] {
      assert a + b == b;
    } else {
      assert (a + b)[1..] == a[1..] + b;
      MembersCat(true, a[1..], b);
    }
  }

  lemma {:induction false} ItemsCat(sep: bool, a: seq<Json>, b: seq<Json>)
    ensures PrintItems(sep, a + b) == PrintItems(sep, a) + PrintItems(sep || a != [], b)
    decreases |a|
  {
    if a == [] {
      assert a + b == b;
    } else {
      assert (a + b)[1..] == a[1..] + b;
      ItemsCat(true, a[1..], b);
    }
  }

  lemma OneMember(sep: bool, m: Member)
    ensures PrintMembers(sep, [m]) == Comma(sep) + PrintMember(m)
  {
    assert [m][1..] == [];
    assert PrintMembers(true, []) == "";
  }

  lemma OneItem(sep: bool, v: Json)
    ensures PrintItems(sep, [v]) == Comma(sep) + Print(v)
  {
    assert [v][1..] == [];
    assert PrintItems(true, []) == "";
  }

  /** `out` is `from` and the members so far, and `sep` says whether a comma is due. */
  ghost predicate Going(out: string, from: string, sep0: bool, sep: bool, ms: seq<Member>) {
    out == from + PrintMembers(sep0, ms) && sep == (sep0 || ms != [])
  }

  lemma MemberAdded(out: string, from: string, sep0: bool, sep: bool, ms: seq<Member>, m: Member)
    requires Going(out, from, sep0, sep, ms)
    ensures Going(out + Comma(sep) + PrintMember(m), from, sep0, true, ms + [m])
  {
    hide PrintMember, PrintMembers;
    MembersCat(sep0, ms, [m]);
    OneMember(sep, m);
  }

  predicate PlainText(s: string) {
    forall i | 0 <= i < |s| :: s[i] >= ' ' && s[i] != '"' && s[i] != '\\'
  }

  lemma {:induction false} EscapePlain(s: string)
    requires PlainText(s)
    ensures Escape(s) == s
  {
    if s != "" {
      EscapePlain(s[1..]);
      assert [s[0]] + s[1..] == s;
    }
  }

  lemma CharText(c: char)
    ensures Escape([c]) == EscapeChar(c)
  {
    assert [c][1..] == "" && EscapeChar(c) + "" == EscapeChar(c);
  }

  lemma CharMember(o: string, key: string, val: char)
    requires ' ' <= val <= '~'
    ensures o + Quote(key) + [':'] + ['"'] + CharEscape(val) + ['"'] == o + PrintMember(Member(key, Str([val])))
  {
    hide Escape, CharEscape;
    CharText(val);
    CharEscapeBack(val, "");
    assert o + Quote(key) + [':'] + ['"'] + CharEscape(val) + ['"'] == o + (Quote(key) + [':'] + (['"'] + CharEscape(val) + ['"']));
  }

  lemma FileObjectsSnoc(o: Options, fs: seq<File>, f: File)
    ensures FileObjects(o, fs + [f]) == FileObjects(o, fs) + [Obj(FileMembers(o, f))]
  {
  }

  lemma ProcObjectsSnoc(o: Options, ps: seq<Proc>, p: Proc)
    ensures ProcObjects(o, ps + [p]) == ProcObjects(o, ps) + [ProcObject(o, p)]
  {
  }

  lemma NoneShown(ps: seq<Proc>)
    requires ps == []
    ensures Shown(ps) == []
  {
  }

  lemma {:induction false} ShownCat(a: seq<Proc>, b: seq<Proc>)
    ensures Shown(a + b) == Shown(a) + Shown(b)
  {
    if a == [] {
      assert a + b == b;
    } else {
      assert (a + b)[1..] == a[1..] + b;
      ShownCat(a[1..], b);
    }
  }

  lemma ShownSnoc(ps: seq<Proc>, i: nat)
    requires i < |ps|
    ensures Shown(ps[..i + 1]) ==
            if ps[i].pss && Selected(ps[i].files) != [] then Shown(ps[..i]) + [ps[i]] else Shown(ps[..i])
  {
    assert ps[..i + 1] == ps[..i] + [ps[i]] && [ps[i]][1..] == [];
    ShownCat(ps[..i], [ps[i]]);
    assert Shown([]) == [];
  }

  lemma ProcText(o: Options, p: Proc, before: string, sep: bool)
    ensures var a := PrintMembers(false, ProcMembers(o, p));
            var items := PrintItems(false, FileObjects(o, Selected(p.files)));
            before + Comma(sep) + "{" + a + Comma(ProcMembers(o, p) != []) + "\"files\":[" + items + "]}" ==
            before + Comma(sep) + Print(ProcObject(o, p))
  {
    hide PrintItems, PrintMembers, ProcMembers, Print, Comma;
    var ms := ProcMembers(o, p);
    PrintProc(o, p);
    JoinProc(before + Comma(sep), PrintMembers(false, ms), Comma(ms != []), PrintItems(false, FileObjects(o, Selected(p.files))));
  }

  lemma PrintProc(o: Options, p: Proc)
    ensures var ms := ProcMembers(o, p);
            var items := PrintItems(false, FileObjects(o, Selected(p.files)));
            Print(ProcObject(o, p)) ==
            ['{'] + (PrintMembers(false, ms) + (Comma(ms != []) + ("\"files\":[" + items + "]"))) + ['}']
  {
    hide PrintItems, PrintMembers, ProcMembers, PrintMember, Comma;
    var ms, fs := ProcMembers(o, p), FileObjects(o, Selected(p.files));
    MembersCat(false, ms, [Member("files", Arr(fs))]);
    OneMember(ms != [], Member("files", Arr(fs)));
    ArrayMember("files", fs);
    Literal("\"" + "files" + "\":[", "\"files\":[");
  }

  lemma Literal(a: string, b: string)
    requires a == b
    ensures forall s :: a + s == b + s
  {
  }

  lemma JoinProc(b: string, a: string, c: string, items: string)
    ensures b + "{" + a + c + "\"files\":[" + items + "]}" ==
            b + (['{'] + (a + (c + ("\"files\":[" + items + "]"))) + ['}'])
  {
  }

  lemma ArrayMember(key: string, items: seq<Json>)
    requires PlainText(key)
    ensures PrintMember(Member(key, Arr(items))) == "\"" + key + "\":[" + PrintItems(false, items) + "]"
  {
    hide PrintItems, Escape;
    EscapePlain(key);
  }

  lemma Regroup(a: string, b: string, c: string, d: string)
    ensures a + b + c + d == a + (b + c + d)
  {
  }

  lemma DocumentText(o: Options, ps: seq<Proc>)
    ensures "{\"lsof_version\":\"" + VERSION + "\",\"processes\":[" + PrintItems(false, ProcObjects(o, Shown(ps))) + "]}\n" ==
            Print(Document(o, ps)) + "\n"
  {
    hide PrintItems, PrintMembers, Shown, PrintMember, Comma;
    var a, b := Member("lsof_version", Str(VERSION)), Member("processes", Arr(ProcObjects(o, Shown(ps))));
    assert [a, b] == [a] + [b];
    MembersCat(false, [a], [b]);
    OneMember(false, a);
    OneMember(true, b);
    VersionText();
    ArrayMember("processes", ProcObjects(o, Shown(ps)));
    JoinDocument(PrintItems(false, ProcObjects(o, Shown(ps))));
  }

  lemma VersionText()
    ensures Comma(false) == "" && Comma(true) == ","
    ensures PrintMember(Member("lsof_version", Str(VERSION))) == "\"" + "lsof_version" + "\":\"" + VERSION + "\""
  {
    hide PrintMember;
    StringMember("lsof_version", VERSION);
  }

  lemma StringMember(key: string, val: string)
    requires PlainText(key) && PlainText(val)
    ensures PrintMember(Member(key, Str(val))) == "\"" + key + "\":\"" + val + "\""
  {
    hide Escape, PlainText;
    EscapePlain(key);
    EscapePlain(val);
  }

  lemma JoinDocument(items: string)
    ensures "{\"lsof_version\":\"" + VERSION + "\",\"processes\":[" + items + "]}\n" ==
            (['{'] + (("" + ("\"" + "lsof_version" + "\":\"" + VERSION + "\"")) + ("," + ("\"" + "processes" + "\":[" + items + "]"))) + ['}']) + "\n"
  {
    Literals();
    Nest(['{'], "\"", "lsof_version", "\":\"", VERSION, ",", "processes", "\":[", items, "]", ['}'], "\n");
  }

  lemma Nest(a: string, q: string, k: string, c: string, v: string, m: string, p: string, o: string, items: string,
             e: string, b: string, n: string)
    ensures (a + (("" + (q + k + c + v + q)) + (m + (q + p + o + items + e))) + b) + n ==
            (a + q + k + c) + v + (q + m + q + p + o) + items + (e + b + n)
  {
    var h, t := a + q + k + c, q + m + q + p + o;
    var x, y := q + k + c + v + q, m + (q + p + o + items + e);
    NestLeft(a, q, k, c, v);
    NestRight(q, m, p, o, items, e);
    assert "" + x == x;
    NestWhole(a, x, y, b, n, h + v, q, t + items, e);
    assert h + v + (t + items) == h + v + t + items;
  }

  lemma NestLeft(a: string, q: string, k: string, c: string, v: string)
    ensures a + (q + k + c + v + q) == (a + q + k + c) + v + q
  {
  }

  lemma NestRight(q: string, m: string, p: string, o: string, items: string, e: string)
    ensures q + (m + (q + p + o + items + e)) == (q + m + q + p + o) + items + e
  {
  }

  lemma NestWhole(a: string, x: string, y: string, b: string, n: string, l: string, q: string, r: string, e: string)
    requires a + x == l + q && q + y == r + e
    ensures (a + (x + y) + b) + n == l + r + (e + b + n)
  {
    assert a + (x + y) == (a + x) + y == l + (q + y) == l + r + e;
  }

  lemma Literals()
    ensures ['{'] + "\"" + "lsof_version" + "\":\"" == "{\"lsof_version\":\""
    ensures "\"" + "," + "\"" + "processes" + "\":[" == "\",\"processes\":["
    ensures "]" + ['}'] + "\n" == "]}\n"
  {
  }

  lemma LineText(before: string, ms: seq<Member>, fs: seq<Member>, sep: bool)
    requires sep == (ms != [])
    ensures before + "{" + PrintMembers(false, ms) + PrintMembers(sep, fs) + "}\n" ==
            before + (Print(Obj(ms + fs)) + "\n")
  {
    hide PrintMembers;
    MembersCat(false, ms, fs);
  }

  lemma NoLines(o: Options, p: Proc)
    ensures Lines(o, p, []) == "" && AllLines(o, []) == ""
  {
  }

  lemma {:induction false} LinesSnoc(o: Options, p: Proc, fs: seq<File>, f: File)
    ensures Lines(o, p, fs + [f]) == Lines(o, p, fs) + (Print(Obj(ProcMembers(o, p) + FileMembers(o, f))) + "\n")
  {
    hide Print, ProcMembers, FileMembers;
    if fs == [] {
      assert fs + [f] == [f] && [f][1..] == [];
      NoLines(o, p);
    } else {
      assert (fs + [f])[1..] == fs[1..] + [f];
      LinesSnoc(o, p, fs[1..], f);
    }
  }

  lemma {:induction false} AllLinesSnoc(o: Options, ps: seq<Proc>, p: Proc)
    ensures AllLines(o, ps + [p]) == AllLines(o, ps) + Lines(o, p, Selected(p.files))
  {
    hide Lines;
    if ps == [] {
      assert ps + [p] == [p] && [p][1..] == [];
      NoLines(o, p);
    } else {
      assert (ps + [p])[1..] == ps[1..] + [p];
      AllLinesSnoc(o, ps[1..], p);
    }
  }

  lemma NoSelected()
    ensures Selected([]) == []
  {
  }

  lemma NoItems()
    ensures PrintItems(false, []) == ""
  {
  }

  lemma {:induction false} SelectedCat(a: seq<File>, b: seq<File>)
    ensures Selected(a + b) == Selected(a) + Selected(b)
  {
    if a == [] {
      assert a + b == b;
    } else {
      var head, rest := if a[0].selected then [a[0]] else [], a[1..];
      SelectedCat(rest, b);
      assert (a + b)[0] == a[0] && (a + b)[1..] == rest + b;
      assert head + (Selected(rest) + Selected(b)) == head + Selected(rest) + Selected(b);
    }
  }

  lemma SelectedSnoc(fs: seq<File>, i: nat)
    requires i < |fs|
    ensures Selected(fs[..i + 1]) == if fs[i].selected then Selected(fs[..i]) + [fs[i]] else Selected(fs[..i])
  {
    assert fs[..i + 1] == fs[..i] + [fs[i]] && [fs[i]][1..] == [];
    SelectedCat(fs[..i], [fs[i]]);
    assert Selected([]) == [];
  }

  lemma ItemAdded(from: string, vs: seq<Json>, v: Json)
    ensures from + PrintItems(false, vs + [v]) == from + PrintItems(false, vs) + Comma(vs != []) + Print(v)
  {
    ItemsCat(false, vs, [v]);
    OneItem(vs != [], v);
  }

  lemma ObjectItem(before: string, at: string, sep: bool, ms: seq<Member>)
    requires at == before + Comma(sep) + "{"
    ensures at + PrintMembers(false, ms) + "}" == before + Comma(sep) + Print(Obj(ms))
  {
    hide PrintMembers;
    assert Print(Obj(ms)) == "{" + PrintMembers(false, ms) + "}";
  }

  lemma {:induction false} EscapeSnoc(s: string, c: char)
    ensures Escape(s + [c]) == Escape(s) + EscapeChar(c)
  {
    if s == "" {
      CharText(c);
      assert s + [c] == [c];
    } else {
      assert (s + [c])[1..] == s[1..] + [c];
      EscapeSnoc(s[1..], c);
    }
  }

  lemma NothingYet(out: string, sep: bool)
    ensures Going(out, out, sep, sep, NOTHING)
  {
  }

  lemma WhatGoing(out: string, from: string, sep0: bool, sep: bool, ms: seq<Member>)
    requires Going(out, from, sep0, sep, ms)
    ensures out == from + PrintMembers(sep0, ms) && sep == (sep0 || ms != [])
  {
  }

  /** A member whose value is an object, opened, filled and closed. */
  lemma ObjectMember(key: string, ms: seq<Member>, o: string, from: string)
    requires PlainText(key) && from == o + ("\"" + key + "\":{")
    ensures from + PrintMembers(false, ms) + "}" == o + PrintMember(Member(key, Obj(ms)))
  {
    hide PrintMembers, Escape;
    EscapePlain(key);
    assert PrintMember(Member(key, Obj(ms))) == "\"" + key + "\":{" + PrintMembers(false, ms) + "}";
  }

  method AfterSpaces(s: string) returns (r: string)
    ensures r == SkipSpaces(s)
  {
    var cp := 0;
    while cp < |s| && s[cp] == ' '
      invariant 0 <= cp <= |s| && SkipSpaces(s) == SkipSpaces(s[cp..])
    {
      assert s[cp..][1..] == s[cp + 1..];
      cp := cp + 1;
    }
    r := s[cp..];
  }

  class Stdout {
    var out: string
    var firstProc: bool // Fjson_first_proc

    constructor ()
      ensures out == ""
    {
      out, firstProc := "", false;
    }

    method Put(s: string)
      modifies this`out
      ensures out == old(out) + s
    {
      out := out + s;
    }

    /** json_puts_escaped() */
    method PutEscaped(s: string)
      modifies this`out
      ensures out == old(out) + Escape(s)
    {
      hide EscapeChar;
      var p := 0;
      while p < |s|
        invariant 0 <= p <= |s| && out == old(out) + Escape(s[..p])
      {
        EscapeSnoc(s[..p], s[p]);
        assert s[..p] + [s[p]] == s[..p + 1];
        Put(EscapeChar(s[p]));
        p := p + 1;
      }
      assert s[..p] == s;
    }

    /** A quoted string */
    method PutQuoted(s: string)
      modifies this`out
      ensures out == old(out) + Quote(s)
    {
      hide Escape;
      Put(['"']);
      PutEscaped(s);
      Put(['"']);
      assert out == old(out) + (['"'] + Escape(s) + ['"']) == old(out) + Quote(s);
    }

    /** json_print_key() */
    method PutKey(sep: bool, key: string)
      modifies this`out
      ensures out == old(out) + Comma(sep) + Quote(key) + [':']
    {
      hide Quote;
      if sep {
        Put(",");
      }
      PutQuoted(key);
      Put([':']);
      assert old(out) + "" == old(out);
    }

    /** json_print_str() and json_print_uint64_str() */
    method PutStr(sep: bool, key: string, val: string)
      modifies this`out
      ensures out == old(out) + Comma(sep) + PrintMember(Member(key, Str(val)))
    {
      hide Quote;
      PutKey(sep, key);
      PutQuoted(val);
      assert out == old(out) + Comma(sep) + (Quote(key) + [':'] + Quote(val));
    }

    /** json_print_int(), json_print_long() and json_print_ulong() */
    method PutNum(sep: bool, key: string, val: int)
      modifies this`out
      ensures out == old(out) + Comma(sep) + PrintMember(Member(key, Num(val)))
    {
      hide Quote, Number;
      PutKey(sep, key);
      Put(Number(val));
      assert out == old(out) + Comma(sep) + (Quote(key) + [':'] + Number(val));
    }

    /** json_print_char() */
    method PutChar(sep: bool, key: string, val: char)
      modifies this`out
      ensures out == old(out) + Comma(sep) + Quote(key) + [':'] + ['"'] + CharEscape(val) + ['"']
      ensures ' ' <= val <= '~' ==> out == old(out) + Comma(sep) + PrintMember(Member(key, Str([val])))
    {
      hide Quote, CharEscape, PrintMember;
      PutKey(sep, key);
      ghost var before := out;
      Put(['"'] + CharEscape(val) + ['"']);
      assert before + (['"'] + CharEscape(val) + ['"']) == before + ['"'] + CharEscape(val) + ['"'];
      if ' ' <= val <= '~' {
        CharMember(old(out) + Comma(sep), key, val);
      }
    }

    // A conditional field: it prints and sets the separator flag, or does neither.

    method OptStr(sep: bool, c: bool, key: string, v: Option<string>, ghost from: string, ghost sep0: bool, ghost ms: seq<Member>)
      returns (sep': bool, ghost ms': seq<Member>)
      requires Going(out, from, sep0, sep, ms)
      modifies this`out
      ensures ms' == ms + WhenStr(c, key, v) && Going(out, from, sep0, sep', ms')
    {
      hide Going, PrintMember;
      sep', ms' := sep, ms + WhenStr(c, key, v);
      if c && v.Some? {
        MemberAdded(out, from, sep0, sep, ms, Member(key, Str(v.value)));
        PutStr(sep, key, v.value);
        sep' := true;
      } else {
        assert ms + [] == ms;
      }
    }

    method OptNum(sep: bool, c: bool, key: string, v: Option<int>, ghost from: string, ghost sep0: bool, ghost ms: seq<Member>)
      returns (sep': bool, ghost ms': seq<Member>)
      requires Going(out, from, sep0, sep, ms)
      modifies this`out
      ensures ms' == ms + WhenInt(c, key, v) && Going(out, from, sep0, sep', ms')
    {
      hide Going, PrintMember;
      sep', ms' := sep, ms + WhenInt(c, key, v);
      if c && v.Some? {
        MemberAdded(out, from, sep0, sep, ms, Member(key, Num(v.value)));
        PutNum(sep, key, v.value);
        sep' := true;
      } else {
        assert ms + [] == ms;
      }
    }

    method OptChar(sep: bool, c: bool, key: string, v: char, ghost from: string, ghost sep0: bool, ghost ms: seq<Member>)
      returns (sep': bool, ghost ms': seq<Member>)
      requires Going(out, from, sep0, sep, ms) && ' ' <= v <= '~'
      modifies this`out
      ensures ms' == ms + WhenStr(c, key, Some([v])) && Going(out, from, sep0, sep', ms')
    {
      hide Going, PrintMember;
      sep', ms' := sep, ms + WhenStr(c, key, Some([v]));
      if c {
        MemberAdded(out, from, sep0, sep, ms, Member(key, Str([v])));
        PutChar(sep, key, v);
        sep' := true;
      } else {
        assert ms + [] == ms;
      }
    }

    method OptTcp(sep: bool, c: bool, o: Options, t: Option<Tcp>, ghost from: string, ghost sep0: bool, ghost ms: seq<Member>)
      returns (sep': bool, ghost ms': seq<Member>)
      requires Going(out, from, sep0, sep, ms)
      modifies this`out
      ensures ms' == ms + WhenObj(c && t.Some?, "tcp_info", if t.Some? then TcpMembers(o, t.value) else [])
      ensures Going(out, from, sep0, sep', ms')
    {
      hide Going, PrintMember, TcpMembers;
      sep', ms' := sep, ms + WhenObj(c && t.Some?, "tcp_info", if t.Some? then TcpMembers(o, t.value) else []);
      if c && t.Some? {
        MemberAdded(out, from, sep0, sep, ms, Member("tcp_info", Obj(TcpMembers(o, t.value))));
        PutTcp(o, t.value, sep);
        sep' := true;
      } else {
        assert ms + [] == ms;
      }
    }

    /** json_print_proc_fields() */
    method PutProcFields(o: Options, p: Proc) returns (sep: bool)
      modifies this`out
      ensures Going(out, old(out), false, sep, ProcMembers(o, p))
    {
      hide Going, WhenStr, WhenInt, ProcStart;
      ghost var from := out;
      sep := PutProcStart(o, p);
      ghost var ms := ProcStart(o, p);
      sep, ms := OptNum(sep, Pgid in o.sel && o.pgid, "pgid", Some(p.pgid), from, false, ms);
      sep, ms := OptNum(sep, Ppid in o.sel && o.ppid, "ppid", Some(p.ppid), from, false, ms);
      sep, ms := OptStr(sep, Cmd in o.sel, "command", Some(if p.cmd.Some? then p.cmd.value else "(unknown)"), from, false, ms);
      sep, ms := OptNum(sep, Uid in o.sel, "uid", Some(p.uid), from, false, ms);
      sep, ms := OptStr(sep, Login in o.sel, "login", p.login, from, false, ms);
    }

    method PutProcStart(o: Options, p: Proc) returns (sep: bool)
      modifies this`out
      ensures Going(out, old(out), false, sep, ProcStart(o, p))
    {
      hide Going, WhenStr, WhenInt;
      ghost var from, ms := out, NOTHING;
      NothingYet(out, false);
      sep := false;
      sep, ms := OptNum(sep, Pid in o.sel, "pid", Some(p.pid), from, false, ms);
      sep, ms := OptNum(sep, Tid in o.sel && p.tid != 0, "tid", Some(p.tid), from, false, ms);
      sep, ms := OptStr(sep, TaskCmd in o.sel, "task_cmd", p.taskCmd, from, false, ms);
      sep, ms := OptStr(sep, Zone in o.sel && o.zone, "zone", p.zone, from, false, ms);
      sep, ms := OptStr(sep, Cntx in o.sel && o.cntx, "security_context", p.cntx, from, false, ms);
    }

    /** json_print_file(), continuing after whatever `sep0` says */
    method PutFileFields(o: Options, f: File, sep0: bool) returns (sep: bool)
      modifies this`out
      ensures Going(out, old(out), sep0, sep, FileMembers(o, f))
    {
      hide Going, WhenStr, WhenInt, WhenObj, DecText, TcpMembers, FileStart;
      ghost var from := out;
      sep := PutFileStart(o, f, sep0);
      ghost var ms := FileStart(o, f);
      sep, ms := OptStr(sep, Size in o.sel, "size", DecText(f.size), from, sep0, ms);
      sep, ms := OptStr(sep, Offset in o.sel, "offset", DecText(f.offset), from, sep0, ms);
      sep, ms := OptStr(sep, Inode in o.sel, "inode", DecText(f.inode), from, sep0, ms);
      sep, ms := OptNum(sep, Nlink in o.sel, "nlink", f.nlink, from, sep0, ms);
      var pr := AfterSpaces(if f.proto.Some? then f.proto.value else "");
      sep, ms := OptStr(sep, Proto in o.sel && pr != "", "protocol", Some(pr), from, sep0, ms);
      sep, ms := OptStr(sep, Flags in o.sel, "flags", f.flags, from, sep0, ms);
      sep, ms := OptStr(sep, Name in o.sel, "name", f.name, from, sep0, ms);
      sep, ms := OptTcp(sep, TcpTpi in o.sel, o, f.tcp, from, sep0, ms);
    }

    method PutFileStart(o: Options, f: File, sep0: bool) returns (sep: bool)
      modifies this`out
      ensures Going(out, old(out), sep0, sep, FileStart(o, f))
    {
      hide Going, WhenStr, HexText;
      ghost var from, ms := out, NOTHING;
      NothingYet(out, sep0);
      sep := sep0;
      sep, ms := OptStr(sep, Fd in o.sel, "fd", Some(f.fd), from, sep0, ms);
      var a, l := AccessChar(f.access), LockChar(f.lock);
      sep, ms := OptChar(sep, Access in o.sel && a != ' ', "access", a, from, sep0, ms);
      sep, ms := OptChar(sep, Lock in o.sel && l != ' ', "lock", l, from, sep0, ms);
      sep, ms := OptStr(sep, Type in o.sel, "type", f.ftype, from, sep0, ms);
      var ch := AfterSpaces(f.devCh);
      sep, ms := OptStr(sep, DevCh in o.sel && ch != "", "device", Some(ch), from, sep0, ms);
      sep, ms := OptStr(sep, DevN in o.sel, "device_number", HexText(f.dev), from, sep0, ms);
      sep, ms := OptStr(sep, Rdev in o.sel, "raw_device", HexText(f.rdev), from, sep0, ms);
    }

    /** The nested tcp_info object */
    method PutTcp(o: Options, t: Tcp, sep0: bool)
      modifies this`out
      ensures out == old(out) + Comma(sep0) + PrintMember(Member("tcp_info", Obj(TcpMembers(o, t))))
    {
      hide Going, PrintMember, PrintMembers, TcpMembers;
      if sep0 {
        Put(",");
      }
      assert out == old(out) + Comma(sep0);
      Put("\"tcp_info\":{");
      ghost var from := out;
      var sep := PutTcpFields(o, t);
      WhatGoing(out, from, false, sep, TcpMembers(o, t));
      Put("}");
      ObjectMember("tcp_info", TcpMembers(o, t), old(out) + Comma(sep0), from);
    }

    method PutTcpFields(o: Options, t: Tcp) returns (sep: bool)
      modifies this`out
      ensures Going(out, old(out), false, sep, TcpMembers(o, t))
    {
      hide Going, WhenStr, WhenInt;
      ghost var from, ms := out, NOTHING;
      NothingYet(out, false);
      sep := false;
      sep, ms := OptStr(sep, o.tcpState, "state", t.state, from, false, ms);
      sep, ms := OptNum(sep, o.tcpQueues, "recv_queue", t.recvQ, from, false, ms);
      sep, ms := OptNum(sep, o.tcpQueues, "send_queue", t.sendQ, from, false, ms);
      sep, ms := OptNum(sep, o.tcpWindows, "read_window", t.readW, from, false, ms);
      sep, ms := OptNum(sep, o.tcpWindows, "write_window", t.writeW, from, false, ms);
    }

    /** One file of the nested form */
    method PutFile(o: Options, f: File, first: bool)
      modifies this`out
      ensures out == old(out) + Comma(!first) + Print(Obj(FileMembers(o, f)))
    {
      hide Going, FileMembers;
      if !first {
        Put(",");
      }
      assert out == old(out) + Comma(!first);
      Put("{");
      ghost var at := out;
      var fsep := PutFileFields(o, f, false);
      WhatGoing(out, at, false, fsep, FileMembers(o, f));
      Put("}");
      ObjectItem(old(out), at, !first, FileMembers(o, f));
    }

    /** The print_proc() loop over a process's files, in nested form */
    method PutFiles(o: Options, fs: seq<File>)
      modifies this`out
      ensures out == old(out) + PrintItems(false, FileObjects(o, Selected(fs)))
    {
      hide PrintItems, FileMembers, Print;
      var firstFile := true;
      ghost var from, done := out, [];
      NoItems();
      var i := 0;
      while i < |fs|
        invariant 0 <= i <= |fs| && done == Selected(fs[..i]) && firstFile == (done == [])
        invariant out == from + PrintItems(false, FileObjects(o, done))
      {
        SelectedSnoc(fs, i);
        if fs[i].selected {
          PutFile(o, fs[i], firstFile);
          ItemAdded(from, FileObjects(o, done), Obj(FileMembers(o, fs[i])));
          FileObjectsSnoc(o, done, fs[i]);
          firstFile := false;
          done := done + [fs[i]];
        }
        i := i + 1;
      }
      assert fs[..i] == fs;
    }

    /** Whether print_proc() finds a selected file. */
    method AnySelected(fs: seq<File>) returns (found: bool)
      ensures found <==> Selected(fs) != []
    {
      hide Selected;
      NoSelected();
      assert fs[..0] == [];
      var i := 0;
      while i < |fs|
        invariant 0 <= i <= |fs| && Selected(fs[..i]) == []
      {
        SelectedSnoc(fs, i);
        if fs[i].selected {
          assert fs == fs[..i + 1] + fs[i + 1..];
          SelectedCat(fs[..i + 1], fs[i + 1..]);
          return true;
        }
        i := i + 1;
      }
      assert fs[..i] == fs;
      return false;
    }

    /** print_proc() under -J */
    method PutProc(o: Options, p: Proc) returns (rv: bool)
      modifies this
      ensures rv <==> p.pss && Selected(p.files) != []
      ensures out == if rv then old(out) + Comma(!old(firstProc)) + Print(ProcObject(o, p)) else old(out)
      ensures firstProc == (old(firstProc) && !rv)
    {
      hide Going, ProcMembers, PrintItems, PrintMembers;
      if !p.pss {
        return false;
      }
      rv := AnySelected(p.files);
      if !rv {
        return false;
      }
      if !firstProc {
        Put(",");
      }
      assert out == old(out) + Comma(!old(firstProc));
      firstProc := false;
      Put("{");
      ghost var at := out;
      var sep := PutProcFields(o, p);
      WhatGoing(out, at, false, sep, ProcMembers(o, p));
      ghost var a := PrintMembers(false, ProcMembers(o, p));
      if sep {
        Put(",");
      }
      assert out == at + a + Comma(sep);
      Put("\"files\":[");
      PutFiles(o, p.files);
      Put("]}");
      ProcText(o, p, old(out), !old(firstProc));
    }

    /** One -J cycle of the main program: the envelopes and the processes between. */
    method Cycle(o: Options, ps: seq<Proc>)
      modifies this
      ensures out == old(out) + (Print(Document(o, ps)) + "\n")
    {
      hide PrintItems, ProcObject, Print, Shown, Selected;
      var start := "{\"lsof_version\":\"" + VERSION + "\",\"processes\":[";
      ghost var open := out + start;
      Put(start);
      firstProc := true;
      ghost var done := [];
      NoItems();
      NoneShown(ps[..0]);
      var i := 0;
      while i < |ps|
        invariant 0 <= i <= |ps| && done == Shown(ps[..i]) && firstProc == (done == [])
        invariant out == open + PrintItems(false, ProcObjects(o, done))
      {
        ShownSnoc(ps, i);
        var rv := PutProc(o, ps[i]);
        if rv {
          ItemAdded(open, ProcObjects(o, done), ProcObject(o, ps[i]));
          ProcObjectsSnoc(o, done, ps[i]);
          done := done + [ps[i]];
        }
        i := i + 1;
      }
      assert ps[..i] == ps;
      Put("]}\n");
      DocumentText(o, ps);
      Regroup(old(out), start, PrintItems(false, ProcObjects(o, Shown(ps))), "]}\n");
    }

    /** print_proc() under -j: a line for each selected file */
    method PutLines(o: Options, p: Proc) returns (rv: bool)
      modifies this`out
      ensures rv <==> p.pss && Selected(p.files) != []
      ensures out == old(out) + if p.pss then Lines(o, p, Selected(p.files)) else ""
    {
      hide Lines, ProcMembers, FileMembers, Print;
      NoLines(o, p);
      assert out + "" == out;
      if !p.pss {
        return false;
      }
      rv := AnySelected(p.files);
      if !rv {
        return false;
      }
      PutFileLines(o, p, p.files);
    }

    method PutFileLines(o: Options, p: Proc, fs: seq<File>)
      modifies this`out
      ensures out == old(out) + Lines(o, p, Selected(fs))
    {
      hide Lines, ProcMembers, FileMembers, Print, Selected;
      ghost var done := [];
      NoLines(o, p);
      NoSelected();
      var i := 0;
      while i < |fs|
        invariant 0 <= i <= |fs| && done == Selected(fs[..i]) && out == old(out) + Lines(o, p, done)
      {
        SelectedSnoc(fs, i);
        if fs[i].selected {
          PutLine(o, p, fs[i]);
          LinesSnoc(o, p, done, fs[i]);
          done := done + [fs[i]];
        }
        i := i + 1;
      }
      assert fs[..i] == fs;
    }

    method PutLine(o: Options, p: Proc, f: File)
      modifies this`out
      ensures out == old(out) + (Print(Obj(ProcMembers(o, p) + FileMembers(o, f))) + "\n")
    {
      hide Going, ProcMembers, FileMembers;
      Put("{");
      ghost var at := out;
      var sep := PutProcFields(o, p);
      WhatGoing(out, at, false, sep, ProcMembers(o, p));
      ghost var mid := out;
      var sep' := PutFileFields(o, f, sep);
      WhatGoing(out, mid, sep, sep', FileMembers(o, f));
      Put("}\n");
      LineText(old(out), ProcMembers(o, p), FileMembers(o, f), sep);
    }

    /** One -j cycle */
    method LineCycle(o: Options, ps: seq<Proc>, repeating: bool)
      modifies this`out
      ensures out == old(out) + (AllLines(o, Shown(ps)) + (if repeating then "\n" else ""))
    {
      hide Lines, AllLines, Shown, Selected;
      NoLines(o, Proc(false, 0, 0, None, None, None, 0, 0, None, 0, None, []));
      NoneShown(ps[..0]);
      var i := 0;
      while i < |ps|
        invariant 0 <= i <= |ps| && out == old(out) + AllLines(o, Shown(ps[..i]))
      {
        ShownSnoc(ps, i);
        ghost var before := AllLines(o, Shown(ps[..i]));
        var rv := PutLines(o, ps[i]);
        if rv {
          AllLinesSnoc(o, Shown(ps[..i]), ps[i]);
          assert old(out) + before + Lines(o, ps[i], Selected(ps[i].files)) == old(out) + (before + Lines(o, ps[i], Selected(ps[i].files)));
        } else {
          NoLines(o, ps[i]);
          assert old(out) + before + "" == old(out) + before;
        }
        i := i + 1;
      }
      assert ps[..i] == ps;
      if repeating {
        Put("\n");
      }
    }
  }

  // ----- What a reader of the output gets -----

  /** The text of a -J cycle is one JSON text, and it says exactly the document. */
  lemma CycleParses(o: Options, ps: seq<Proc>, rest: string)
    ensures ParseValue(Print(Document(o, ps)) + ("\n" + rest)) == Some((Document(o, ps), "\n" + rest))
  {
    ValueBack(Document(o, ps), "\n" + rest);
  }

  /** JSON texts, one a line */
  function ParseLines(s: string): Option<seq<Json>>
    decreases |s|
  {
    if s == "" then Some([])
    else
      match ParseValue(s)
      case None => None
      case Some((v, t)) =>
        if t == "" || t[0] != '\n' then None
        else
          match ParseLines(t[1..])
          case None => None
          case Some(vs) => Some([v] + vs)
  }

  function LineObjects(o: Options, p: Proc, fs: seq<File>): (r: seq<Json>)
    ensures |r| == |fs| && forall i | 0 <= i < |fs| :: r[i] == Obj(ProcMembers(o, p) + FileMembers(o, fs[i]))
  {
    seq(|fs|, i requires 0 <= i < |fs| => Obj(ProcMembers(o, p) + FileMembers(o, fs[i])))
  }

  function AllLineObjects(o: Options, ps: seq<Proc>): seq<Json> {
    if ps == [] then [] else LineObjects(o, ps[0], Selected(ps[0].files)) + AllLineObjects(o, ps[1..])
  }

  lemma LineParses(v: Json, t: string, vs: seq<Json>)
    requires ParseLines(t) == Some(vs)
    ensures ParseLines(Print(v) + ("\n" + t)) == Some([v] + vs)
  {
    hide ParseValue, Print;
    PrintHead(v);
    ValueBack(v, "\n" + t);
    assert ("\n" + t)[1..] == t;
  }

  lemma {:induction false} LinesParse(o: Options, p: Proc, fs: seq<File>, rest: string, vs: seq<Json>)
    requires ParseLines(rest) == Some(vs)
    ensures ParseLines(Lines(o, p, fs) + rest) == Some(LineObjects(o, p, fs) + vs)
  {
    hide ParseLines, Print, ProcMembers, FileMembers;
    if fs == [] {
      assert Lines(o, p, fs) + rest == rest && LineObjects(o, p, fs) + vs == vs;
    } else {
      var v := Obj(ProcMembers(o, p) + FileMembers(o, fs[0]));
      var t := Lines(o, p, fs[1..]) + rest;
      LinesParse(o, p, fs[1..], rest, vs);
      assert Lines(o, p, fs) + rest == Print(v) + ("\n" + t);
      LineParses(v, t, LineObjects(o, p, fs[1..]) + vs);
      assert LineObjects(o, p, fs) + vs == [v] + (LineObjects(o, p, fs[1..]) + vs);
    }
  }

  /** The text of a -j cycle is a JSON text a line: for each process shown and
      each of its selected files, the process's fields and then the file's. */
  lemma {:induction false} LineCycleParses(o: Options, ps: seq<Proc>)
    ensures ParseLines(AllLines(o, ps)) == Some(AllLineObjects(o, ps))
  {
    if ps != [] {
      LineCycleParses(o, ps[1..]);
      LinesParse(o, ps[0], Selected(ps[0].files), AllLines(o, ps[1..]), AllLineObjects(o, ps[1..]));
    }
  }

  // ----- Repeat mode -----

  /** What `-J` writes in several cycles */
  function JsonRun(o: Options, cycles: seq<seq<Proc>>): string {
    if cycles == [] then "" else Print(Document(o, cycles[0])) + "\n" + JsonRun(o, cycles[1..])
  }

  /** What `-j` writes in several cycles */
  function LinesRun(o: Options, cycles: seq<seq<Proc>>): string {
    if cycles == [] then "" else AllLines(o, Shown(cycles[0])) + "\n" + LinesRun(o, cycles[1..])
  }

  function Documents(o: Options, cycles: seq<seq<Proc>>): (r: seq<Json>)
    ensures |r| == |cycles| && forall i | 0 <= i < |r| :: r[i] == Document(o, cycles[i])
  {
    if cycles == [] then [] else [Document(o, cycles[0])] + Documents(o, cycles[1..])
  }

  /** The objects of each cycle */
  function ObjectRuns(o: Options, cycles: seq<seq<Proc>>): (r: seq<seq<Json>>)
    ensures |r| == |cycles| && forall i | 0 <= i < |r| :: r[i] == AllLineObjects(o, Shown(cycles[i]))
  {
    if cycles == [] then [] else [AllLineObjects(o, Shown(cycles[0]))] + ObjectRuns(o, cycles[1..])
  }

  /** JSON texts, one a line, in groups that an empty line ends */
  function ParseGroups(s: string, group: seq<Json>): Option<seq<seq<Json>>>
    decreases |s|
  {
    if s == "" then if group == [] then Some([]) else None
    else if s[0] == '\n' then
      match ParseGroups(s[1..], [])
      case None => None
      case Some(gs) => Some([group] + gs)
    else
      match ParseValue(s)
      case None => None
      case Some((v, t)) => if t == "" || t[0] != '\n' then None else ParseGroups(t[1..], group + [v])
  }

  /** Every run of `-J` cycles is the documents of the cycles, one a line. */
  lemma {:induction false} JsonRunParses(o: Options, cycles: seq<seq<Proc>>)
    ensures ParseLines(JsonRun(o, cycles)) == Some(Documents(o, cycles))
    decreases |cycles|
  {
    hide Document, ParseValue, Print;
    if cycles != [] {
      var d, rest := Document(o, cycles[0]), JsonRun(o, cycles[1..]);
      JsonRunParses(o, cycles[1..]);
      CycleParses(o, cycles[0], rest);
      assert JsonRun(o, cycles) == Print(d) + ("\n" + rest) && ("\n" + rest)[1..] == rest;
      PrintHead(d);
    }
  }

  /** A line of a group */
  lemma GroupLine(v: Json, rest: string, group: seq<Json>)
    ensures ParseGroups(Print(v) + "\n" + rest, group) == ParseGroups(rest, group + [v])
  {
    hide Print, ParseValue;
    ValueBack(v, "\n" + rest);
    PrintHead(v);
    assert Print(v) + "\n" + rest == Print(v) + ("\n" + rest) && ("\n" + rest)[1..] == rest;
  }

  lemma {:induction false} GroupFile(o: Options, p: Proc, fs: seq<File>, rest: string, group: seq<Json>)
    ensures ParseGroups(Lines(o, p, fs) + rest, group) == ParseGroups(rest, group + LineObjects(o, p, fs))
    decreases |fs|
  {
    hide ParseGroups, Print, ProcMembers, FileMembers;
    if fs == [] {
      assert Lines(o, p, fs) + rest == rest && group + LineObjects(o, p, fs) == group;
    } else {
      var v, more := Obj(ProcMembers(o, p) + FileMembers(o, fs[0])), Lines(o, p, fs[1..]) + rest;
      assert Lines(o, p, fs) + rest == Print(v) + "\n" + more;
      GroupLine(v, more, group);
      GroupFile(o, p, fs[1..], rest, group + [v]);
      assert group + [v] + LineObjects(o, p, fs[1..]) == group + LineObjects(o, p, fs);
    }
  }

  lemma {:induction false} GroupCycle(o: Options, ps: seq<Proc>, rest: string, group: seq<Json>)
    ensures ParseGroups(AllLines(o, ps) + rest, group) == ParseGroups(rest, group + AllLineObjects(o, ps))
    decreases |ps|
  {
    hide ParseGroups, Lines, LineObjects, Selected;
    if ps == [] {
      assert AllLines(o, ps) + rest == rest && group + AllLineObjects(o, ps) == group;
    } else {
      var fs, more := Selected(ps[0].files), AllLines(o, ps[1..]) + rest;
      assert AllLines(o, ps) + rest == Lines(o, ps[0], fs) + more;
      GroupFile(o, ps[0], fs, more, group);
      GroupCycle(o, ps[1..], rest, group + LineObjects(o, ps[0], fs));
      assert group + LineObjects(o, ps[0], fs) + AllLineObjects(o, ps[1..]) == group + AllLineObjects(o, ps);
    }
  }

  /** Every run of `-j` cycles in repeat mode gives the objects of each cycle
      back, cycle by cycle. */
  lemma {:induction false} LinesRunParses(o: Options, cycles: seq<seq<Proc>>)
    ensures ParseGroups(LinesRun(o, cycles), []) == Some(ObjectRuns(o, cycles))
    decreases |cycles|
  {
    hide AllLines, AllLineObjects, Shown, ParseValue;
    if cycles != [] {
      var ps, rest := Shown(cycles[0]), LinesRun(o, cycles[1..]);
      LinesRunParses(o, cycles[1..]);
      assert LinesRun(o, cycles) == AllLines(o, ps) + ("\n" + rest) && ("\n" + rest)[1..] == rest;
      GroupCycle(o, ps, "\n" + rest, []);
      assert [] + AllLineObjects(o, ps) == AllLineObjects(o, ps);
    }
  }
}
