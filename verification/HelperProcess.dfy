/**
 * doinchild() and childx(): a request/reply protocol with a forked helper over
 * two pipes, in which an alarm may abandon any call at any point.  One step is
 * one write(), one read(), one wait(), one signal, or the death of a process.
 */
module HelperProcess {
  import opened Common

  const NCTSIGS: nat := 3 // waits in childx(): after closing the pipes, SIGINT, SIGKILL

  datatype Fn = DoStat | DoLstat | DoReadlink

  datatype Call = Call(fn: Fn, path: string, rbln: int)

  datatype Answer = Answer(rv: int, en: int, buf: string)

  /** What one write() puts into a pipe. */
  datatype Token =
    | FnTok(fn: Fn) | LenTok(len: int) | PathTok(path: string) | RblnTok(rbln: int)
    | RvTok(rv: int) | EnTok(en: int) | BufTok(buf: string)

  /** `step` counts through the child's loop: four reads, the function, three
      writes.  Each child has its own two pipes; `linked` says whether the
      parent still holds its ends of them. */
  datatype Child = Child(alive: bool, step: nat, confused: bool, call: Call, ans: Answer,
                         req: seq<Token>, rep: seq<Token>, linked: bool)

  datatype Why = TimedOut | Broken

  datatype Parent =
    | Idle
    | Sending(k: nat)                     // the next of four writes
    | Receiving(k: nat, rv: int, en: int) // the next of three reads
    | Completing(ans: Answer)             // all read, the alarm not yet off
    | Reaping(sx: nat, why: Why)          // in childx(), at signal index sx

  /** A function performed by child number `child`. */
  datatype Entry = Entry(child: nat, call: Call, ans: Answer)

  datatype Reply = Replied(call: Call, ans: Answer, child: nat, since: nat, upto: nat) | Failed(call: Call, why: Why)

  /** `log` and `replies` record what was computed and what calls returned;
      `start` is the length of `log` when the current call began. */
  datatype State = State(pc: Parent, call: Call, cpid: Option<nat>, pipes: seq<Option<nat>>,
                         children: seq<Child>, log: seq<Entry>, start: nat, waits: nat, replies: seq<Reply>)

  const CLOSED: seq<Option<nat>> := [None, None, None, None]

  function Request(c: Call): seq<Token> {
    [FnTok(c.fn), LenTok(|c.path| + 1), PathTok(c.path), RblnTok(c.rbln)]
  }

  function Response(a: Answer): seq<Token> {
    [RvTok(a.rv), EnTok(a.en), BufTok(a.buf)]
  }

  function Init(): State {
    var c := Call(DoStat, "", 0);
    State(Idle, c, None, CLOSED, [], [], 0, 0, [])
  }

  function NewChild(): Child {
    Child(true, 0, false, Call(DoStat, "", 0), Answer(0, 0, ""), [], [], true)
  }

  // ----- The child's loop -----

  predicate LengthOk(n: int) {
    1 <= n <= MAXPATHLEN + 1
  }

  function Exit(c: Child): Child {
    c.(alive := false)
  }

  /** One of the child's four reads.  At the end of the pipe it exits. */
  function ChildRead(c: Child): Option<Child>
    requires c.step < 4
  {
    if c.req == [] then
      if c.linked then None else Some(Exit(c))
    else
      var d := c.(req := c.req[1..], step := c.step + 1);
      match (c.step, c.req[0])
      case (0, FnTok(fn)) => Some(d.(call := c.call.(fn := fn)))
      case (1, LenTok(n)) => Some(if LengthOk(n) then d else Exit(c))
      case (2, PathTok(p)) => Some(d.(call := c.call.(path := p)))
      case (3, RblnTok(n)) => Some(if LengthOk(n) then d.(call := c.call.(rbln := n)) else Exit(c))
      case _ => Some(c.(confused := true))
  }

  /** One of its three writes.  With no reader left it exits. */
  function ChildWrite(c: Child): Child
    requires 5 <= c.step <= 7
  {
    if !c.linked then Exit(c)
    else c.(rep := c.rep + [Response(c.ans)[c.step - 5]], step := if c.step == 7 then 0 else c.step + 1)
  }

  // ----- Steps -----

  datatype Event =
    | Begin(call: Call)      // doinchild() is entered
    | ParentIO               // its next write or read completes or fails, or it returns
    | Alarm                  // the alarm rings in doinchild()
    | Wait(reaped: bool)     // childx(): wait() returns the child, or does not
    | ChildIO(i: nat)        // child i completes its next read or write
    | Perform(i: nat, ans: Answer)
    | Die(i: nat)            // child i is killed or crashes

  function Close(s: State, why: Why): State
    requires s.cpid.Some? && s.cpid.value < |s.children|
  {
    var i := s.cpid.value;
    s.(pc := Reaping(0, why), pipes := CLOSED, waits := 0,
       children := s.children[i := s.children[i].(linked := false)])
  }

  /** The effect of an event, or None where it cannot happen. */
  function Next(s: State, e: Event): Option<State> {
    match e
    case Begin(call) => if s.pc.Idle? && call.rbln <= MAXPATHLEN then Some(BeginCall(s, call)) else None
    case ParentIO => if s.cpid.Some? && s.cpid.value < |s.children| then ParentStep(s, s.cpid.value) else None
    case Alarm =>
      if (s.pc.Sending? || s.pc.Receiving? || s.pc.Completing?) && s.cpid.Some? && s.cpid.value < |s.children|
      then Some(Close(s, TimedOut)) else None
    case Wait(reaped) => if s.pc.Reaping? then WaitStep(s, reaped) else None
    case ChildIO(i) => if i < |s.children| && s.children[i].alive then ChildStep(s, i) else None
    case Perform(i, ans) =>
      if i < |s.children| && s.children[i].alive && !s.children[i].confused && s.children[i].step == 4 then
        var c := s.children[i];
        Some(s.(children := s.children[i := c.(step := 5, ans := ans)], log := s.log + [Entry(i, c.call, ans)]))
      else None
    case Die(i) =>
      if i < |s.children| then Some(s.(children := s.children[i := Exit(s.children[i])])) else None
  }

  /** Forks a helper when there is none. */
  function BeginCall(s: State, call: Call): State {
    var t := s.(pc := Sending(0), call := call, start := |s.log|);
    if s.cpid.Some? then t
    else
      var i := |s.children|;
      t.(children := s.children + [NewChild()], cpid := Some(i), pipes := [None, Some(i), Some(i), None])
  }

  function ParentStep(s: State, i: nat): Option<State>
    requires s.cpid == Some(i) && i < |s.children|
  {
    var c := s.children[i];
    match s.pc
    case Sending(k) =>
      if k >= 4 then None
      else if !c.alive then Some(Close(s, Broken))
      else Some(s.(pc := if k == 3 then Receiving(0, 0, 0) else Sending(k + 1),
                   children := s.children[i := c.(req := c.req + [Request(s.call)[k]])]))
    case Receiving(k, rv, en) =>
      if c.rep == [] then
        if c.alive then None else Some(Close(s, Broken))
      else
        var t := s.(children := s.children[i := c.(rep := c.rep[1..])]);
        (match (k, c.rep[0])
         case (0, RvTok(v)) => Some(t.(pc := Receiving(1, v, en)))
         case (1, EnTok(v)) => Some(t.(pc := Receiving(2, rv, v)))
         case (2, BufTok(b)) => Some(t.(pc := Completing(Answer(rv, en, b))))
         case _ => None)
    case Completing(ans) => Some(s.(pc := Idle, replies := s.replies + [Replied(s.call, ans, i, s.start, |s.log|)]))
    case _ => None
  }

  function WaitStep(s: State, reaped: bool): Option<State>
    requires s.pc.Reaping?
  {
    var t := s.(waits := s.waits + 1);
    if reaped && !(s.cpid.Some? && s.cpid.value < |s.children| && !s.children[s.cpid.value].alive) then None
    else if reaped || s.pc.sx + 1 >= NCTSIGS then
      Some(t.(pc := Idle, cpid := None, replies := s.replies + [Failed(s.call, s.pc.why)]))
    else Some(t.(pc := Reaping(s.pc.sx + 1, s.pc.why)))
  }

  function ChildStep(s: State, i: nat): Option<State>
    requires i < |s.children|
  {
    var c := s.children[i];
    if c.confused then None
    else if c.step < 4 then
      match ChildRead(c)
      case None => None
      case Some(d) => Some(s.(children := s.children[i := d]))
    else if 5 <= c.step <= 7 then Some(s.(children := s.children[i := ChildWrite(c)]))
    else None
  }

  /** The state after a run of events, or None if some event could not happen. */
  function Run(es: seq<Event>): Option<State> {
    if es == [] then Some(Init())
    else
      match Run(es[..|es| - 1])
      case None => None
      case Some(s) => Next(s, es[|es| - 1])
  }

  // ----- What every step keeps -----

  /** The place of a token in its message. */
  function Place(t: Token): nat {
    match t
    case FnTok(_) => 0
    case LenTok(_) => 1
    case PathTok(_) => 2
    case RblnTok(_) => 3
    case RvTok(_) => 0
    case EnTok(_) => 1
    case BufTok(_) => 2
  }

  predicate InRequest(t: Token) {
    t.FnTok? || t.LenTok? || t.PathTok? || t.RblnTok?
  }

  /** A child, abandoned or not, never meets a token it does not expect. */
  ghost predicate InStep(c: Child) {
    && !c.confused && c.step <= 7
    && (if c.step >= 4 then c.req == [] else c.step + |c.req| <= 4)
    && forall h | 0 <= h < |c.req| :: InRequest(c.req[h]) && Place(c.req[h]) == c.step + h
  }

  /** The child has read as much of the call as its step says. */
  predicate Read(c: Child, call: Call) {
    && (1 <= c.step <= 4 ==> c.call.fn == call.fn)
    && (3 <= c.step <= 4 ==> c.call.path == call.path)
    && (c.step == 4 ==> c.call == call)
  }

  /** Child `i` performed nothing in `log[start..]`. */
  predicate Performed0(log: seq<Entry>, start: nat, i: nat) {
    forall j | start <= j < |log| :: log[j].child != i
  }

  /** Child `i` performed, in `log[start..]`, just the entry at `j`. */
  predicate Performed1(log: seq<Entry>, start: nat, i: nat, j: nat) {
    start <= j < |log| && log[j].child == i && forall h | start <= h < |log| && log[h].child == i :: h == j
  }

  ghost predicate Waiting(c: Child) {
    c.rep == [] && (c.alive ==> c.step == 0 && c.req == [])
  }

  /** The child is still reading the request, of which `k` tokens are sent. */
  ghost predicate Asked(c: Child, i: nat, call: Call, k: nat, log: seq<Entry>, start: nat)
    requires k <= 4
  {
    && c.rep == [] && Performed0(log, start, i)
    && (c.alive ==> c.step <= k && c.req == Request(call)[c.step..k] && Read(c, call))
  }

  /** The child has performed the call and the parent has read `k` tokens of the response. */
  ghost predicate Answered(c: Child, i: nat, call: Call, pc: Parent, log: seq<Entry>, start: nat, j: nat, w: nat)
    requires pc.Receiving?
  {
    && Performed1(log, start, i, j) && log[j].call == call
    && pc.k <= w <= 3 && c.rep == Response(log[j].ans)[pc.k..w]
    && (pc.k >= 1 ==> pc.rv == log[j].ans.rv) && (pc.k >= 2 ==> pc.en == log[j].ans.en)
    && (c.alive ==> c.req == [] && (if w < 3 then c.step == 5 + w && c.ans == log[j].ans else c.step == 0))
  }

  /** The answer is the one the child gave, and the child waits again. */
  ghost predicate Collected(c: Child, i: nat, call: Call, ans: Answer, log: seq<Entry>, start: nat) {
    Waiting(c) && exists j: nat :: Performed1(log, start, i, j) && log[j] == Entry(i, call, ans)
  }

  /** How the parent and its child stand to each other. */
  ghost predicate Together(pc: Parent, call: Call, c: Child, i: nat, log: seq<Entry>, start: nat) {
    match pc
    case Idle => Waiting(c)
    case Sending(k) => k < 4 && Asked(c, i, call, k, log, start)
    case Receiving(k, _, _) =>
      k < 3 && ((k == 0 && Asked(c, i, call, 4, log, start)) ||
                exists j: nat, w: nat :: Answered(c, i, call, pc, log, start, j, w))
    case Completing(ans) => Collected(c, i, call, ans, log, start)
    case Reaping(_, _) => true
  }

  /** The reply was computed for this very call by the child that served it,
      which performed nothing else meanwhile. */
  ghost predicate Genuine(r: Reply, log: seq<Entry>) {
    r.Replied? ==>
      && r.since <= r.upto <= |log|
      && exists j: nat :: Performed1(log[..r.upto], r.since, r.child, j) && log[j] == Entry(r.child, r.call, r.ans)
  }

  ghost predicate Inv(s: State) {
    && s.start <= |s.log| && s.waits <= NCTSIGS
    && (forall c | c in s.children :: InStep(c))
    && (forall r | r in s.replies :: Genuine(r, s.log))
    && match s.cpid
       case None => s.pc.Idle? && s.pipes == CLOSED
       case Some(i) =>
         && i < |s.children|
         && (if s.pc.Reaping? then s.pipes == CLOSED && s.waits == s.pc.sx < NCTSIGS
             else s.pipes == [None, Some(i), Some(i), None] && s.children[i].linked)
         && Together(s.pc, s.call, s.children[i], i, s.log, s.start)
  }

  lemma InvBegin(s: State, call: Call)
    requires Inv(s) && s.pc.Idle?
    ensures Inv(BeginCall(s, call))
  {
    assert [] == Request(call)[0..0];
  }

  lemma InvClose(s: State, why: Why)
    requires Inv(s) && s.cpid.Some?
    ensures Inv(Close(s, why))
  {
    assert s.children[s.cpid.value] in s.children;
  }

  lemma InvSend(s: State)
    requires Inv(s) && s.pc.Sending? && s.cpid.Some? && s.children[s.cpid.value].alive
    ensures var t := ParentStep(s, s.cpid.value); t.Some? && Inv(t.value)
  {
    hide InStep, Genuine, Asked, Answered, Request;
    var i, k := s.cpid.value, s.pc.k;
    var c := s.children[i];
    assert c in s.children && k < 4;
    SendKeeps(c, i, s.call, k, s.log, s.start);
  }

  lemma SendKeeps(c: Child, i: nat, call: Call, k: nat, log: seq<Entry>, start: nat)
    requires InStep(c) && c.alive && k < 4 && Asked(c, i, call, k, log, start)
    ensures var d := c.(req := c.req + [Request(call)[k]]); InStep(d) && Asked(d, i, call, k + 1, log, start)
  {
    hide Performed0, Place, InRequest, Request;
    PlacedRequest(call, k);
    SliceSnoc(Request(call), c.step, k);
  }

  lemma PlacedRequest(call: Call, k: nat)
    requires k < 4
    ensures |Request(call)| == 4 && InRequest(Request(call)[k]) && Place(Request(call)[k]) == k
  {
  }

  lemma SliceSnoc(r: seq<Token>, a: nat, k: nat)
    requires a <= k < |r|
    ensures r[a..k] + [r[k]] == r[a..k + 1]
  {
  }

  lemma InvReceive(s: State)
    requires Inv(s) && s.pc.Receiving? && s.cpid.Some? && s.children[s.cpid.value].rep != []
    ensures var t := ParentStep(s, s.cpid.value); t.Some? && Inv(t.value)
  {
    var i, k := s.cpid.value, s.pc.k;
    var c := s.children[i];
    var d := c.(rep := c.rep[1..]);
    var j: nat, w: nat :| Answered(c, i, s.call, s.pc, s.log, s.start, j, w);
    assert c in s.children;
    assert d.rep == Response(s.log[j].ans)[k + 1..w] && c.rep[0] == Response(s.log[j].ans)[k];
    var t := ParentStep(s, i).value;
    if k < 2 {
      assert t.pc == if k == 0 then Receiving(1, s.log[j].ans.rv, s.pc.en) else Receiving(2, s.pc.rv, s.log[j].ans.en);
      assert Answered(d, i, s.call, t.pc, s.log, s.start, j, w);
    } else {
      assert s.log[j] == Entry(i, s.call, t.pc.ans);
      assert Collected(d, i, s.call, t.pc.ans, s.log, s.start);
    }
  }

  lemma InvComplete(s: State)
    requires Inv(s) && s.pc.Completing? && s.cpid.Some?
    ensures var t := ParentStep(s, s.cpid.value); t.Some? && Inv(t.value)
  {
    var i := s.cpid.value;
    var t := ParentStep(s, i).value;
    var j: nat :| Performed1(s.log, s.start, i, j) && s.log[j] == Entry(i, s.call, s.pc.ans);
    assert s.log[..|s.log|] == s.log;
    var r := Replied(s.call, s.pc.ans, i, s.start, |s.log|);
    assert Performed1(s.log[..r.upto], r.since, i, j);
    assert Genuine(r, s.log);
    assert forall x | x in t.replies :: x in s.replies || x == r;
  }

  /** A length that its buffers cannot hold makes the child exit. */
  lemma RefusesLength(c: Child, n: int)
    requires c.alive && c.req != []
    requires (c.step == 1 && c.req[0] == LenTok(n)) || (c.step == 3 && c.req[0] == RblnTok(n))
    ensures ChildRead(c).Some? && (ChildRead(c).value.alive <==> 1 <= n <= MAXPATHLEN + 1)
  {
  }

  lemma ReadInStep(c: Child)
    requires InStep(c) && c.step < 4 && ChildRead(c).Some?
    ensures InStep(ChildRead(c).value)
  {
    if c.req != [] {
      var t := c.req[1..];
      assert forall h | 0 <= h < |t| :: t[h] == c.req[h + 1];
      assert Place(c.req[0]) == c.step && InRequest(c.req[0]);
    }
  }

  lemma ReadTogether(pc: Parent, call: Call, c: Child, i: nat, log: seq<Entry>, start: nat)
    requires InStep(c) && c.alive && c.linked && c.step < 4 && ChildRead(c).Some?
    requires Together(pc, call, c, i, log, start)
    ensures Together(pc, call, ChildRead(c).value, i, log, start)
  {
    hide Performed0;
    if pc.Sending? || pc.Receiving? {
      var k := if pc.Sending? then pc.k else 4;
      assert Asked(c, i, call, k, log, start);
      ReadAsked(call, c, i, k, log, start);
    }
  }

  lemma ReadAsked(call: Call, c: Child, i: nat, k: nat, log: seq<Entry>, start: nat)
    requires c.alive && c.linked && c.step < 4 && ChildRead(c).Some? && k <= 4 && Asked(c, i, call, k, log, start)
    ensures Asked(ChildRead(c).value, i, call, k, log, start)
  {
    hide Performed0;
    assert c.req[0] == Request(call)[c.step];
    assert c.req[1..] == Request(call)[c.step + 1..k];
  }

  lemma WriteInStep(c: Child)
    requires InStep(c) && 5 <= c.step <= 7
    ensures InStep(ChildWrite(c))
  {
  }

  lemma WriteTogether(pc: Parent, call: Call, c: Child, i: nat, log: seq<Entry>, start: nat)
    requires c.alive && c.linked && 5 <= c.step <= 7 && Together(pc, call, c, i, log, start)
    ensures Together(pc, call, ChildWrite(c), i, log, start)
  {
    if pc.Receiving? {
      var j: nat, w: nat :| Answered(c, i, call, pc, log, start, j, w);
      var d := ChildWrite(c);
      SliceSnoc(Response(log[j].ans), pc.k, w);
      assert Answered(d, i, call, pc, log, start, j, w + 1);
    }
  }

  lemma InvChild(s: State, i: nat)
    requires Inv(s) && i < |s.children| && s.children[i].alive && ChildStep(s, i).Some?
    ensures Inv(ChildStep(s, i).value)
  {
    var c := s.children[i];
    var ours := s.cpid == Some(i) && !s.pc.Reaping?;
    assert c in s.children;
    if c.step < 4 {
      ReadInStep(c);
      if ours { ReadTogether(s.pc, s.call, c, i, s.log, s.start); }
    } else {
      WriteInStep(c);
      if ours { WriteTogether(s.pc, s.call, c, i, s.log, s.start); }
    }
  }

  lemma InvDie(s: State, i: nat)
    requires Inv(s) && i < |s.children|
    ensures Inv(s.(children := s.children[i := Exit(s.children[i])]))
  {
    var c := s.children[i];
    var d := Exit(c);
    assert c in s.children;
    if s.cpid == Some(i) && s.pc.Receiving? && !(s.pc.k == 0 && Asked(c, i, s.call, 4, s.log, s.start)) {
      var j: nat, w: nat :| Answered(c, i, s.call, s.pc, s.log, s.start, j, w);
      assert Answered(d, i, s.call, s.pc, s.log, s.start, j, w);
    }
  }

  /** Growing the log leaves earlier replies genuine. */
  lemma GenuineGrows(r: Reply, log: seq<Entry>, e: Entry)
    requires Genuine(r, log)
    ensures Genuine(r, log + [e])
  {
    if r.Replied? {
      assert (log + [e])[..r.upto] == log[..r.upto];
      var j: nat :| Performed1(log[..r.upto], r.since, r.child, j) && log[j] == Entry(r.child, r.call, r.ans);
      assert (log + [e])[j] == log[j];
    }
  }

  lemma InvPerform(s: State, i: nat, ans: Answer)
    requires Inv(s) && i < |s.children| && s.children[i].alive && !s.children[i].confused && s.children[i].step == 4
    ensures Inv(Next(s, Perform(i, ans)).value)
  {
    var c := s.children[i];
    var e := Entry(i, c.call, ans);
    var t := Next(s, Perform(i, ans)).value;
    assert c in s.children;
    forall r | r in s.replies ensures Genuine(r, t.log) { GenuineGrows(r, s.log, e); }
    if s.cpid.Some? && !s.pc.Reaping? {
      if s.cpid == Some(i) {
        assert t.children[i].rep == Response(ans)[0..0];
        assert Answered(t.children[i], i, s.call, s.pc, t.log, s.start, |s.log|, 0);
      } else {
        PerformElsewhere(s, i, e);
      }
    }
  }

  lemma PerformElsewhere(s: State, i: nat, e: Entry)
    requires Inv(s) && s.cpid.Some? && s.cpid.value != i == e.child
    ensures Together(s.pc, s.call, s.children[s.cpid.value], s.cpid.value, s.log + [e], s.start)
  {
    var h := s.cpid.value;
    var c := s.children[h];
    if s.pc.Receiving? && !(s.pc.k == 0 && Asked(c, h, s.call, 4, s.log, s.start)) {
      var j: nat, w: nat :| Answered(c, h, s.call, s.pc, s.log, s.start, j, w);
      assert Answered(c, h, s.call, s.pc, s.log + [e], s.start, j, w);
    }
    if s.pc.Completing? {
      var j: nat :| Performed1(s.log, s.start, h, j) && s.log[j] == Entry(h, s.call, s.pc.ans);
      assert Performed1(s.log + [e], s.start, h, j) && (s.log + [e])[j] == s.log[j];
    }
  }

  lemma InvNext(s: State, e: Event)
    requires Inv(s) && Next(s, e).Some?
    ensures Inv(Next(s, e).value)
  {
    match e
    case Begin(call) => InvBegin(s, call);
    case ParentIO =>
      if s.pc.Sending? && s.children[s.cpid.value].alive {
        InvSend(s);
      } else if s.pc.Receiving? && s.children[s.cpid.value].rep != [] {
        InvReceive(s);
      } else if s.pc.Completing? {
        InvComplete(s);
      } else {
        InvClose(s, Broken);
      }
    case Alarm => InvClose(s, TimedOut);
    case Wait(_) =>
    case ChildIO(i) => InvChild(s, i);
    case Perform(i, ans) => InvPerform(s, i, ans);
    case Die(i) => InvDie(s, i);
  }

  /**
   * Over every run: each reply a call returned was computed from that call's
   * own function and path, during it, exactly once; between calls there is no
   * helper and no descriptor, or a helper at its loop head with empty pipes;
   * childx() ends after at most three waits; neither side ever misreads a pipe.
   */
  lemma {:induction false} EveryRun(es: seq<Event>)
    requires Run(es).Some?
    ensures var s := Run(es).value;
            && Inv(s)
            && (forall r | r in s.replies :: Genuine(r, s.log))
            && (forall c | c in s.children :: !c.confused)
            && (s.pc.Idle? ==> (s.cpid.None? && s.pipes == CLOSED) ||
                               (s.cpid.Some? && s.cpid.value < |s.children| && Waiting(s.children[s.cpid.value])))
            && (s.pc.Reaping? ==> s.pipes == CLOSED) && s.waits <= NCTSIGS
            && (s.pc.Receiving? ==> s.cpid.Some? && (s.children[s.cpid.value].rep != [] ==> Next(s, ParentIO).Some?))
  {
    if es != [] {
      EveryRun(es[..|es| - 1]);
      InvNext(Run(es[..|es| - 1]).value, es[|es| - 1]);
    }
    if Run(es).value.pc.Receiving? { NeverMisread(Run(es).value); }
  }

  /** What the parent finds in the reply pipe is what it expects next. */
  lemma NeverMisread(s: State)
    requires Inv(s) && s.pc.Receiving?
    ensures s.cpid.Some? && s.cpid.value < |s.children|
    ensures s.children[s.cpid.value].rep != [] ==> Next(s, ParentIO).Some?
  {
    if s.children[s.cpid.value].rep != [] { InvReceive(s); }
  }

  // ----- A call that nothing disturbs -----

  function RunFrom(s: State, es: seq<Event>): Option<State>
    decreases |es|
  {
    if es == [] then Some(s)
    else
      match Next(s, es[0])
      case None => None
      case Some(t) => RunFrom(t, es[1..])
  }

  lemma {:induction false} RunFromAppend(s: State, es: seq<Event>, fs: seq<Event>)
    requires RunFrom(s, es).Some?
    ensures RunFrom(s, es + fs) == RunFrom(RunFrom(s, es).value, fs)
    decreases |es|
  {
    if es == [] {
      assert es + fs == fs;
    } else {
      assert (es + fs)[1..] == es[1..] + fs;
      RunFromAppend(Next(s, es[0]).value, es[1..], fs);
    }
  }

  /** One event in the middle of a run. */
  lemma StepThen(s: State, e: Event, t: State, es: seq<Event>, u: State)
    requires Next(s, e) == Some(t) && RunFrom(t, es) == Some(u)
    ensures RunFrom(s, [e] + es) == Some(u)
  {
    assert ([e] + es)[1..] == es;
  }

  function With(s: State, pc: Parent, i: nat, c: Child): State
    requires i < |s.children|
  {
    s.(pc := pc, children := s.children[i := c])
  }

  const THRICE: seq<Event> := [ParentIO, ParentIO, ParentIO]

  function Thrice(i: nat): seq<Event> {
    [ChildIO(i), ChildIO(i), ChildIO(i)]
  }

  lemma SendsRequest(s: State, i: nat)
    requires s.cpid == Some(i) && i < |s.children| && s.pc == Sending(0)
    requires s.children[i].alive && s.children[i].req == []
    ensures RunFrom(s, [ParentIO] + THRICE) ==
            Some(With(s, Receiving(0, 0, 0), i, s.children[i].(req := Request(s.call))))
  {
    var c, r := s.children[i], Request(s.call);
    var s1 := With(s, Sending(1), i, c.(req := r[..1]));
    var s2 := With(s, Sending(2), i, c.(req := r[..2]));
    var s3 := With(s, Sending(3), i, c.(req := r[..3]));
    var s4 := With(s, Receiving(0, 0, 0), i, c.(req := r));
    assert r[..1] == c.req + [r[0]] && r[..2] == r[..1] + [r[1]] && r[..3] == r[..2] + [r[2]] && r == r[..3] + [r[3]];
    assert s1.children[i := c.(req := r[..2])] == s2.children;
    assert s2.children[i := c.(req := r[..3])] == s3.children;
    assert s3.children[i := c.(req := r)] == s4.children;
    StepThen(s3, ParentIO, s4, [], s4);
    StepThen(s2, ParentIO, s3, [ParentIO], s4);
    StepThen(s1, ParentIO, s2, [ParentIO, ParentIO], s4);
    StepThen(s, ParentIO, s1, THRICE, s4);
  }

  /** A child's read among other events. */
  lemma ReadThen(s: State, i: nat, d: Child, es: seq<Event>, u: State)
    requires i < |s.children| && s.children[i].alive && !s.children[i].confused && s.children[i].step < 4
    requires ChildRead(s.children[i]) == Some(d) && RunFrom(With(s, s.pc, i, d), es) == Some(u)
    ensures RunFrom(s, [ChildIO(i)] + es) == Some(u)
  {
    StepThen(s, ChildIO(i), With(s, s.pc, i, d), es, u);
  }

  lemma ReadsRequest(s: State, i: nat)
    requires i < |s.children| && LengthOk(|s.call.path| + 1) && LengthOk(s.call.rbln)
    requires var c := s.children[i]; c.alive && !c.confused && c.step == 0 && c.req == Request(s.call)
    ensures RunFrom(s, [ChildIO(i)] + Thrice(i)) ==
            Some(With(s, s.pc, i, s.children[i].(req := [], step := 4, call := s.call)))
  {
    hide RunFrom, ChildRead;
    var e := ChildIO(i);
    var c1, c2, c3, c4 := FourReads(s.children[i], s.call);
    var s1, s2, s3, s4 := With(s, s.pc, i, c1), With(s, s.pc, i, c2), With(s, s.pc, i, c3), With(s, s.pc, i, c4);
    assert With(s1, s.pc, i, c2) == s2 && With(s2, s.pc, i, c3) == s3 && With(s3, s.pc, i, c4) == s4;
    RunNothing(s4);
    assert [e] + [] == [e] && [e] + [e] == [e, e] && [e] + [e, e] == Thrice(i);
    ReadThen(s3, i, c4, [], s4);
    ReadThen(s2, i, c3, [e], s4);
    ReadThen(s1, i, c2, [e, e], s4);
    ReadThen(s, i, c1, Thrice(i), s4);
  }

  lemma FourReads(c: Child, q: Call) returns (c1: Child, c2: Child, c3: Child, c4: Child)
    requires c.alive && !c.confused && c.step == 0 && c.req == Request(q)
    requires LengthOk(|q.path| + 1) && LengthOk(q.rbln)
    ensures c1.alive && !c1.confused && c1.step == 1 && c2.alive && !c2.confused && c2.step == 2
    ensures c3.alive && !c3.confused && c3.step == 3 && c4 == c.(req := [], step := 4, call := q)
    ensures ChildRead(c) == Some(c1) && ChildRead(c1) == Some(c2)
    ensures ChildRead(c2) == Some(c3) && ChildRead(c3) == Some(c4)
  {
    var r := Request(q);
    c1 := c.(req := r[1..], step := 1, call := c.call.(fn := q.fn));
    c2 := c1.(req := r[2..], step := 2);
    c3 := c2.(req := r[3..], step := 3, call := c1.call.(path := q.path));
    c4 := c.(req := [], step := 4, call := q);
    assert r[1..][1..] == r[2..] && r[2..][1..] == r[3..] && r[3..][1..] == [];
  }

  lemma RunNothing(s: State)
    ensures RunFrom(s, []) == Some(s)
  {
  }

  lemma WritesResponse(s: State, i: nat)
    requires i < |s.children|
    requires var c := s.children[i]; c.alive && !c.confused && c.linked && c.step == 5 && c.rep == []
    ensures RunFrom(s, Thrice(i)) ==
            Some(With(s, s.pc, i, s.children[i].(step := 0, rep := Response(s.children[i].ans))))
  {
    var c, e := s.children[i], ChildIO(i);
    var r := Response(c.ans);
    var c1, c2, c3 := c.(step := 6, rep := r[..1]), c.(step := 7, rep := r[..2]), c.(step := 0, rep := r);
    assert r[..1] == c.rep + [r[0]] && r[..2] == r[..1] + [r[1]] && r == r[..2] + [r[2]];
    var s1, s2, s3 := With(s, s.pc, i, c1), With(s, s.pc, i, c2), With(s, s.pc, i, c3);
    assert s1.children[i := c2] == s2.children && s2.children[i := c3] == s3.children;
    StepThen(s2, e, s3, [], s3);
    StepThen(s1, e, s2, [e], s3);
    StepThen(s, e, s1, [e, e], s3);
  }

  lemma ReceivesResponse(s: State, i: nat, a: Answer)
    requires s.cpid == Some(i) && i < |s.children| && s.pc == Receiving(0, 0, 0) && s.children[i].rep == Response(a)
    ensures RunFrom(s, [ParentIO] + THRICE) == Some(With(s, Idle, i, s.children[i].(rep := [])).(
              replies := s.replies + [Replied(s.call, a, i, s.start, |s.log|)]))
  {
    var c, r := s.children[i], Response(a);
    var s1 := With(s, Receiving(1, a.rv, 0), i, c.(rep := r[1..]));
    var s2 := With(s, Receiving(2, a.rv, a.en), i, c.(rep := r[2..]));
    var s3 := With(s, Completing(a), i, c.(rep := []));
    var s4 := With(s, Idle, i, c.(rep := [])).(replies := s.replies + [Replied(s.call, a, i, s.start, |s.log|)]);
    assert r[1..][1..] == r[2..] && r[2..][1..] == [];
    assert s1.children[i := c.(rep := r[2..])] == s2.children && s2.children[i := c.(rep := [])] == s3.children;
    hide RunFrom;
    RunNothing(s4);
    assert [ParentIO] + [] == [ParentIO] && [ParentIO] + [ParentIO] == [ParentIO, ParentIO];
    StepThen(s3, ParentIO, s4, [], s4);
    StepThen(s2, ParentIO, s3, [ParentIO], s4);
    StepThen(s1, ParentIO, s2, [ParentIO, ParentIO], s4);
    assert [ParentIO] + [ParentIO, ParentIO] == THRICE;
    StepThen(s, ParentIO, s1, THRICE, s4);
  }

  /** The events of a call served by child `i` in turn. */
  function Answering(i: nat, ans: Answer): seq<Event> {
    [Perform(i, ans)] + (Thrice(i) + ([ParentIO] + THRICE))
  }

  function Serving(i: nat, ans: Answer): seq<Event> {
    ([ParentIO] + THRICE) + (([ChildIO(i)] + Thrice(i)) + Answering(i, ans))
  }

  /** The state in which child `i` has answered the call. */
  ghost predicate Done(s: State, t: State, i: nat, ans: Answer) {
    && t.pc.Idle? && t.cpid == s.cpid
    && t.replies == s.replies + [Replied(s.call, ans, i, s.start, |s.log| + 1)]
    && i < |t.children| && t.children[i].alive && Waiting(t.children[i])
  }

  lemma Answers(s: State, i: nat, ans: Answer) returns (u: State)
    requires s.cpid == Some(i) && i < |s.children| && s.pc == Receiving(0, 0, 0)
    requires var c := s.children[i]; c.alive && !c.confused && c.linked && c.step == 4 && c.rep == [] && c.req == []
    requires s.children[i].call == s.call
    ensures RunFrom(s, Answering(i, ans)) == Some(u) && Done(s, u, i, ans)
  {
    var s3 := s.(children := s.children[i := s.children[i].(step := 5, ans := ans)], log := s.log + [Entry(i, s.call, ans)]);
    var s4 := With(s3, s3.pc, i, s3.children[i].(step := 0, rep := Response(ans)));
    WritesResponse(s3, i);
    ReceivesResponse(s4, i, ans);
    u := RunFrom(s4, [ParentIO] + THRICE).value;
    RunFromAppend(s3, Thrice(i), [ParentIO] + THRICE);
    StepThen(s, Perform(i, ans), s3, Thrice(i) + ([ParentIO] + THRICE), u);
  }

  lemma Serves(s: State, i: nat, ans: Answer) returns (u: State)
    requires s.cpid == Some(i) && i < |s.children| && s.pc == Sending(0)
    requires LengthOk(|s.call.path| + 1) && LengthOk(s.call.rbln)
    requires var c := s.children[i]; c.alive && !c.confused && c.linked && c.step == 0 && c.rep == [] && c.req == []
    ensures RunFrom(s, Serving(i, ans)) == Some(u) && Done(s, u, i, ans)
  {
    var c := s.children[i];
    var s1 := With(s, Receiving(0, 0, 0), i, c.(req := Request(s.call)));
    var s2 := With(s1, s1.pc, i, c.(req := [], step := 4, call := s.call));
    SendsRequest(s, i);
    ReadsRequest(s1, i);
    u := Answers(s2, i, ans);
    RunFromAppend(s1, [ChildIO(i)] + Thrice(i), Answering(i, ans));
    RunFromAppend(s, [ParentIO] + THRICE, ([ChildIO(i)] + Thrice(i)) + Answering(i, ans));
  }

  /** With no helper, or a live one, a call that nothing disturbs returns just
      what its function returned and leaves the helper waiting. */
  lemma UndisturbedCall(s: State, call: Call, ans: Answer)
    requires Inv(s) && s.pc.Idle? && (s.cpid.Some? ==> s.children[s.cpid.value].alive)
    requires |call.path| <= MAXPATHLEN && 1 <= call.rbln <= MAXPATHLEN
    ensures var i := if s.cpid.Some? then s.cpid.value else |s.children|;
            var t := RunFrom(s, [Begin(call)] + Serving(i, ans));
            && t.Some? && t.value.pc.Idle? && t.value.cpid == Some(i)
            && t.value.replies == s.replies + [Replied(call, ans, i, |s.log|, |s.log| + 1)]
            && i < |t.value.children| && t.value.children[i].alive && Waiting(t.value.children[i])
  {
    var i := if s.cpid.Some? then s.cpid.value else |s.children|;
    var b := BeginCall(s, call);
    InvBegin(s, call);
    assert b.children[i] in b.children;
    var u := Serves(b, i, ans);
    StepThen(s, Begin(call), b, Serving(i, ans), u);
  }
}
