/** What doinchild() returned, call by call, read off the events of a run alone. */
module HelperHistory {
  import opened Common
  import opened HelperProcess

  /** The calls that a run begins, in order */
  function Calls(es: seq<Event>): seq<Call> {
    if es == [] then []
    else
      var cs := Calls(es[..|es| - 1]);
      if es[|es| - 1].Begin? then cs + [es[|es| - 1].call] else cs
  }

  /** For each of them, whether the alarm rang before the next one */
  function Rang(es: seq<Event>): (r: seq<bool>)
    ensures |r| == |Calls(es)|
  {
    if es == [] then []
    else
      var rs := Rang(es[..|es| - 1]);
      match es[|es| - 1]
      case Begin(_) => rs + [false]
      case Alarm => if rs == [] then [] else rs[|rs| - 1 := true]
      case _ => rs
  }

  /** After `i` events, call number `k` has lost the helper it is talking to. */
  ghost predicate Lost(es: seq<Event>, k: nat, i: nat) {
    && i <= |es| && Run(es[..i]).Some?
    && var s := Run(es[..i]).value;
       && |s.replies| == k && (s.pc.Sending? || s.pc.Receiving?)
       && s.cpid.Some? && s.cpid.value < |s.children| && !s.children[s.cpid.value].alive
  }

  ghost predicate LostAt(es: seq<Event>, k: nat) {
    exists i: nat :: Lost(es, k, i)
  }

  /** What the reply to call number `k` must be like. */
  ghost predicate Accounted(es: seq<Event>, r: Reply, k: nat)
    requires k < |Calls(es)|
  {
    && r.call == Calls(es)[k]
    && (Rang(es)[k] <==> r == Failed(r.call, TimedOut))
    && (r == Failed(r.call, Broken) ==> LostAt(es, k))
  }

  /** How the call in progress stands. */
  ghost predicate InProgress(es: seq<Event>, s: State, k: nat)
    requires k < |Calls(es)|
  {
    && s.call == Calls(es)[k]
    && (Rang(es)[k] <==> s.pc.Reaping? && s.pc.why == TimedOut)
    && (s.pc.Reaping? && s.pc.why == Broken ==> LostAt(es, k))
  }

  lemma LostStays(es: seq<Event>, e: Event, k: nat)
    requires LostAt(es, k)
    ensures LostAt(es + [e], k)
  {
    var i: nat :| Lost(es, k, i);
    assert (es + [e])[..i] == es[..i];
    assert Lost(es + [e], k, i);
  }

  lemma LostNow(es: seq<Event>, e: Event, s: State)
    requires Run(es) == Some(s) && (s.pc.Sending? || s.pc.Receiving?)
    requires s.cpid.Some? && s.cpid.value < |s.children| && !s.children[s.cpid.value].alive
    ensures LostAt(es + [e], |s.replies|)
  {
    assert (es + [e])[..|es|] == es;
    assert Lost(es + [e], |s.replies|, |es|);
  }

  lemma HistoryGrows(es: seq<Event>, e: Event)
    ensures Calls(es + [e]) == if e.Begin? then Calls(es) + [e.call] else Calls(es)
    ensures var rs := Rang(es);
            Rang(es + [e]) == if e.Begin? then rs + [false]
                              else if e.Alarm? && rs != [] then rs[|rs| - 1 := true] else rs
  {
    assert (es + [e])[..|es|] == es;
  }

  /** An event changes the record of no call that has returned. */
  lemma AccountedStays(es: seq<Event>, e: Event, r: Reply, k: nat)
    requires k < |Calls(es)| && Accounted(es, r, k) && (e.Alarm? ==> k < |Calls(es)| - 1)
    ensures k < |Calls(es + [e])| && Accounted(es + [e], r, k)
  {
    hide Calls, Rang, LostAt;
    HistoryGrows(es, e);
    if LostAt(es, k) { LostStays(es, e, k); }
  }

  /** The replies of a run are those of its calls, in order. */
  ghost predicate Recorded(es: seq<Event>, s: State) {
    && |Calls(es)| == |s.replies| + (if s.pc.Idle? then 0 else 1)
    && (forall k | 0 <= k < |s.replies| :: Accounted(es, s.replies[k], k))
    && (!s.pc.Idle? ==> InProgress(es, s, |s.replies|))
  }

  lemma RecordedStays(es: seq<Event>, s: State, e: Event)
    requires Recorded(es, s) && (e.Alarm? ==> !s.pc.Idle?)
    ensures |Calls(es)| <= |Calls(es + [e])|
    ensures forall k | 0 <= k < |s.replies| :: Accounted(es + [e], s.replies[k], k)
  {
    hide Calls, Rang, Accounted, InProgress;
    HistoryGrows(es, e);
    forall k | 0 <= k < |s.replies| ensures Accounted(es + [e], s.replies[k], k) {
      AccountedStays(es, e, s.replies[k], k);
    }
  }

  /** A step that neither begins, abandons nor ends a call. */
  lemma ProgressStays(es: seq<Event>, s: State, e: Event)
    requires |Calls(es)| == |s.replies| + 1 && InProgress(es, s, |s.replies|) && !e.Begin? && !e.Alarm?
    ensures |Calls(es + [e])| == |s.replies| + 1 && InProgress(es + [e], s, |s.replies|)
  {
    hide Calls, Rang, LostAt;
    HistoryGrows(es, e);
    if LostAt(es, |s.replies|) { LostStays(es, e, |s.replies|); }
  }

  /** A step of the parent: it goes on, finds the helper gone, or returns. */
  lemma RecordedIO(es: seq<Event>, s: State)
    requires Run(es) == Some(s) && Recorded(es, s) && Next(s, ParentIO).Some?
    ensures Recorded(es + [ParentIO], Next(s, ParentIO).value)
  {
    hide Calls, Rang, Accounted, Run, LostAt;
    var t := Next(s, ParentIO).value;
    assert !s.pc.Idle?;
    RecordedStays(es, s, ParentIO);
    ProgressStays(es, s, ParentIO);
    if t.pc.Reaping? {
      LostNow(es, ParentIO, s);
    } else if t.pc.Idle? {
      Returns(es + [ParentIO], s, Replied(s.call, s.pc.ans, s.cpid.value, s.start, |s.log|));
    }
  }

  lemma RecordedWait(es: seq<Event>, s: State, reaped: bool)
    requires Recorded(es, s) && Next(s, Wait(reaped)).Some?
    ensures Recorded(es + [Wait(reaped)], Next(s, Wait(reaped)).value)
  {
    hide Calls, Rang, Accounted, LostAt;
    var t := Next(s, Wait(reaped)).value;
    RecordedStays(es, s, Wait(reaped));
    ProgressStays(es, s, Wait(reaped));
    if t.pc.Idle? { Returns(es + [Wait(reaped)], s, Failed(s.call, s.pc.why)); }
  }

  /** The reply that ends a call accounts for it. */
  lemma Returns(es: seq<Event>, s: State, r: Reply)
    requires |Calls(es)| == |s.replies| + 1 && InProgress(es, s, |s.replies|)
    requires if s.pc.Reaping? then r == Failed(s.call, s.pc.why) else r.Replied? && r.call == s.call
    ensures Accounted(es, r, |s.replies|)
  {
  }

  lemma RecordedNext(es: seq<Event>, s: State, e: Event)
    requires Run(es) == Some(s) && Recorded(es, s) && Next(s, e).Some?
    ensures Recorded(es + [e], Next(s, e).value)
  {
    hide Calls, Rang, Accounted, Run, LostAt;
    match e
    case ParentIO => RecordedIO(es, s);
    case Wait(reaped) => RecordedWait(es, s, reaped);
    case Begin(_) =>
      RecordedStays(es, s, e);
      HistoryGrows(es, e);
    case Alarm =>
      RecordedStays(es, s, e);
      HistoryGrows(es, e);
    case _ =>
      RecordedStays(es, s, e);
      HistoryGrows(es, e);
      if !s.pc.Idle? { ProgressStays(es, s, e); }
  }

  /**
   * Over every run: the calls that have returned are those begun, in order, but
   * for the one in progress; a call returns "timed out" exactly if the alarm
   * rang in it, "broken" only if it lost its helper while it was talking to it,
   * and otherwise an answer.
   */
  lemma {:induction false} EveryReply(es: seq<Event>)
    requires Run(es).Some?
    ensures Recorded(es, Run(es).value)
  {
    if es != [] {
      var es' := es[..|es| - 1];
      assert es == es' + [es[|es| - 1]];
      EveryReply(es');
      RecordedNext(es', Run(es').value, es[|es| - 1]);
    }
  }

  // ----- After an abandoned call -----

  const UNREAPED: seq<Event> := [Wait(false), Wait(false), Wait(false)]

  lemma GivesUp(s: State)
    requires Inv(s) && s.pc.Reaping? && s.pc.sx == 0
    ensures var t := RunFrom(s, UNREAPED);
            && t.Some? && Inv(t.value) && t.value.pc.Idle? && t.value.cpid.None? && t.value.log == s.log
            && t.value.children == s.children && t.value.replies == s.replies + [Failed(s.call, s.pc.why)]
  {
    var s1 := s.(waits := s.waits + 1, pc := Reaping(1, s.pc.why));
    var s2 := s1.(waits := s.waits + 2, pc := Reaping(2, s.pc.why));
    var s3 := s2.(waits := s.waits + 3, pc := Idle, cpid := None, replies := s.replies + [Failed(s.call, s.pc.why)]);
    hide Inv, RunFrom;
    RunNothing(s3);
    InvNext(s, Wait(false));
    InvNext(s1, Wait(false));
    InvNext(s2, Wait(false));
    StepThen(s2, Wait(false), s3, [], s3);
    StepThen(s1, Wait(false), s2, [Wait(false)], s3);
    StepThen(s, Wait(false), s1, [Wait(false), Wait(false)], s3);
  }

  /**
   * Wherever the alarm catches a call, and although the helper ignores every
   * signal, the call ends as timed out, and the next one, served by a new
   * helper, returns just what its own function returned.
   */
  lemma Recovers(es: seq<Event>, next: Call, ans: Answer)
    requires Run(es).Some? && var pc := Run(es).value.pc; pc.Sending? || pc.Receiving? || pc.Completing?
    requires |next.path| <= MAXPATHLEN && 1 <= next.rbln <= MAXPATHLEN
    ensures var s := Run(es).value;
            var i := |s.children|;
            var t := RunFrom(s, ([Alarm] + UNREAPED) + ([Begin(next)] + Serving(i, ans)));
            && t.Some? && t.value.pc.Idle? && t.value.cpid == Some(i)
            && t.value.replies ==
               s.replies + [Failed(s.call, TimedOut), Replied(next, ans, i, |s.log|, |s.log| + 1)]
  {
    hide Run, Serving, RunFrom, Together, Genuine;
    var s := Run(es).value;
    EveryRun(es);
    InvNext(s, Alarm);
    var c := Close(s, TimedOut);
    GivesUp(c);
    var u := RunFrom(c, UNREAPED).value;
    StepThen(s, Alarm, c, UNREAPED, u);
    UndisturbedCall(u, next, ans);
    RunFromAppend(s, [Alarm] + UNREAPED, [Begin(next)] + Serving(|s.children|, ans));
  }
}
