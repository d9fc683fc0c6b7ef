/**
 The request table of a device session: ids, timers, abort handlers and promises,
 under every interleaving of responses, timeouts, aborts, write failures, reader
 end and close.
 */
module Session {
  import opened Prelude
  import opened Decimal
  import opened Json
  import opened Protocol

  datatype Reason = TimedOut | Aborted | WriteFailed | StreamFailed | Disconnected

  /** A promise settles at most once; later resolve or reject calls have no effect. */
  datatype Promise = Unsettled | Resolved(response: Message) | Rejected(reason: Reason)

  datatype State = State(
    sessionId: string,
    open: bool,
    closed: bool,
    next: nat,
    pending: set<string>,
    timers: set<string>,
    abortHandlers: set<string>,
    promises: map<string, Promise>)

  function RequestId(sessionId: string, n: nat): string {
    sessionId + ":" + NatText(n)
  }

  lemma {:induction false} RequestIdInjective(sessionId: string, m: nat, n: nat)
    requires RequestId(sessionId, m) == RequestId(sessionId, n)
    ensures m == n
  {
    var k := |sessionId| + 1;
    assert RequestId(sessionId, m)[k..] == NatText(m);
    assert RequestId(sessionId, n)[k..] == NatText(n);
    NatTextInjective(m, n);
  }

  // ---- The steps on values ----

  function Settle(ps: map<string, Promise>, id: string, p: Promise): map<string, Promise> {
    if id in ps && ps[id].Unsettled? then ps[id := p] else ps
  }

  /** Drop the table entry, its timer and its abort handler; nothing if there is no entry. */
  function Forget(s: State, id: string): State {
    if id !in s.pending then s
    else s.(pending := s.pending - {id}, timers := s.timers - {id}, abortHandlers := s.abortHandlers - {id})
  }

  function Conclude(s: State, id: string, p: Promise): State {
    Forget(s, id).(promises := Settle(s.promises, id, p))
  }

  function RejectAll(s: State, reason: Reason): State {
    s.(pending := {}, timers := s.timers - s.pending, abortHandlers := s.abortHandlers - s.pending,
       promises := map id | id in s.promises ::
         if id in s.pending && s.promises[id].Unsettled? then Rejected(reason) else s.promises[id])
  }

  /** Rejecting one entry first changes nothing in the end. */
  lemma {:induction false} RejectOneOfAll(s: State, id: string, reason: Reason)
    requires id in s.pending
    ensures RejectAll(Conclude(s, id, Rejected(reason)), reason) == RejectAll(s, reason)
  {
    var c := Conclude(s, id, Rejected(reason));
    assert c.timers - c.pending == s.timers - s.pending;
    assert c.abortHandlers - c.pending == s.abortHandlers - s.pending;
    assert RejectAll(c, reason).promises == RejectAll(s, reason).promises;
  }

  lemma {:induction false} RejectNone(s: State, reason: Reason)
    requires s.pending == {}
    ensures RejectAll(s, reason) == s
  {
    assert RejectAll(s, reason).promises == s.promises;
  }

  datatype Event =
    | ConnectionOpens
    | Request(hasSignal: bool, signalAborted: bool)
    | TimerFires(id: string)
    | AbortFires(id: string)
    | WriteFails(id: string)
    | Response(m: Message)
    | ReaderEnds(reason: Reason)
    | Close

  function Issue(s: State, hasSignal: bool): State {
    var id := RequestId(s.sessionId, s.next);
    s.(next := s.next + 1, pending := s.pending + {id}, timers := s.timers + {id},
       abortHandlers := if hasSignal then s.abortHandlers + {id} else s.abortHandlers,
       promises := s.promises[id := Unsettled])
  }

  predicate Accepts(s: State, e: Event)
    requires e.Request?
  {
    s.open && !s.closed && !e.signalAborted
  }

  predicate IsResponse(m: Message) {
    m.Success? || m.Failure?
  }

  function Step(s: State, e: Event): State {
    match e
    case ConnectionOpens => s.(open := true)
    case Request(hasSignal, _) => if Accepts(s, e) then Issue(s, hasSignal) else s
    case TimerFires(id) => if id in s.timers then Conclude(s, id, Rejected(TimedOut)) else s
    case AbortFires(id) => if id in s.abortHandlers then Conclude(s, id, Rejected(Aborted)) else s
    case WriteFails(id) => Conclude(s, id, Rejected(WriteFailed))
    case Response(m) =>
      if IsResponse(m) && m.id in s.pending then Conclude(s, m.id, Resolved(m)) else s
    case ReaderEnds(reason) => RejectAll(s, reason)
    case Close => if s.closed then s else RejectAll(s.(closed := true, open := false), Disconnected)
  }

  function Run(s: State, es: seq<Event>): State {
    if es == [] then s else Step(Run(s, es[..|es| - 1]), es[|es| - 1])
  }

  function Start(sessionId: string): State {
    State(sessionId, false, false, 0, {}, {}, {}, map[])
  }

  // ---- The session object ----

  class SessionObject {
    const sessionId: string
    var open: bool
    var closed: bool
    var nextRequestId: nat
    var pending: set<string>
    var timers: set<string>
    var abortHandlers: set<string>
    var promises: map<string, Promise>

    function View(): State
      reads this
    {
      State(sessionId, open, closed, nextRequestId, pending, timers, abortHandlers, promises)
    }

    constructor (sessionId: string)
      ensures View() == Start(sessionId)
    {
      this.sessionId := sessionId;
      open, closed, nextRequestId := false, false, 0;
      pending, timers, abortHandlers, promises := {}, {}, {}, map[];
    }

    method FinishPending(id: string)
      modifies this
      ensures View() == Forget(old(View()), id)
    {
      if id !in pending {
        return;
      }
      timers := timers - {id};
      abortHandlers := abortHandlers - {id};
      pending := pending - {id};
    }

    method SettlePromise(id: string, p: Promise)
      modifies this`promises
      ensures promises == Settle(old(promises), id, p)
    {
      if id in promises && promises[id].Unsettled? {
        promises := promises[id := p];
      }
    }

    method SendRequest(hasSignal: bool, signalAborted: bool) returns (id: Option<string>)
      modifies this
      ensures View() == Step(old(View()), Event.Request(hasSignal, signalAborted))
      ensures id.Some? <==> old(open && !closed) && !signalAborted
      ensures id.Some? ==> id.value == RequestId(sessionId, old(nextRequestId)) && id.value in pending
    {
      if !open || closed || signalAborted {
        return None;
      }
      id := Some(RequestId(sessionId, nextRequestId));
      nextRequestId := nextRequestId + 1;
      promises := promises[id.value := Unsettled];
      timers := timers + {id.value};
      if hasSignal {
        abortHandlers := abortHandlers + {id.value};
      }
      pending := pending + {id.value};
    }

    method OnTimer(id: string)
      requires id in timers
      modifies this
      ensures View() == Step(old(View()), TimerFires(id))
    {
      FinishPending(id);
      SettlePromise(id, Rejected(TimedOut));
    }

    method OnAbort(id: string)
      requires id in abortHandlers
      modifies this
      ensures View() == Step(old(View()), AbortFires(id))
    {
      FinishPending(id);
      SettlePromise(id, Rejected(Aborted));
    }

    method OnWriteFailure(id: string)
      modifies this
      ensures View() == Step(old(View()), WriteFails(id))
    {
      FinishPending(id);
      SettlePromise(id, Rejected(WriteFailed));
    }

    method HandleResponse(m: Message)
      requires IsResponse(m)
      modifies this
      ensures View() == Step(old(View()), Response(m))
    {
      if m.id !in pending {
        return;
      }
      FinishPending(m.id);
      SettlePromise(m.id, Resolved(m));
    }

    /** The entries go one by one, in whatever order; the outcome does not depend on it. */
    method RejectEach(reason: Reason)
      modifies this
      ensures View() == RejectAll(old(View()), reason)
    {
      while pending != {}
        invariant RejectAll(View(), reason) == RejectAll(old(View()), reason)
        decreases |pending|
      {
        var id :| id in pending;
        RejectOneOfAll(View(), id, reason);
        FinishPending(id);
        SettlePromise(id, Rejected(reason));
      }
      RejectNone(View(), reason);
    }

    method CloseSession()
      modifies this
      ensures View() == Step(old(View()), Close)
    {
      if closed {
        return;
      }
      closed := true;
      open := false;
      RejectEach(Disconnected);
    }
  }

  // ---- What every run keeps ----

  ghost predicate Issued(s: State, id: string) {
    exists n: nat :: n < s.next && id == RequestId(s.sessionId, n)
  }

  /** All but what close adds. */
  ghost predicate Consistent(s: State) {
    && (forall n: nat :: n < s.next ==> RequestId(s.sessionId, n) in s.promises)
    && (forall id :: id in s.promises ==> Issued(s, id))
    && (forall id :: id in s.pending <==> id in s.promises && s.promises[id].Unsettled?)
    && s.timers == s.pending
    && s.abortHandlers <= s.pending
  }

  ghost predicate Inv(s: State) {
    Consistent(s) && (s.closed ==> s.pending == {})
  }

  lemma {:induction false} FreshId(s: State)
    requires Inv(s)
    ensures RequestId(s.sessionId, s.next) !in s.promises
  {
    var id := RequestId(s.sessionId, s.next);
    if id in s.promises {
      var n: nat :| n < s.next && id == RequestId(s.sessionId, n);
      RequestIdInjective(s.sessionId, n, s.next);
    }
  }

  lemma {:induction false} IssueKeepsInv(s: State, hasSignal: bool)
    requires Inv(s) && !s.closed
    ensures Inv(Issue(s, hasSignal))
  {
    FreshId(s);
    var s' := Issue(s, hasSignal);
    forall id | id in s'.promises ensures Issued(s', id) {
      if id in s.promises {
        var n: nat :| n < s.next && id == RequestId(s.sessionId, n);
        assert n < s'.next;
      } else {
        assert s.next < s'.next && id == RequestId(s'.sessionId, s.next);
      }
    }
  }

  lemma {:induction false} SameIssued(s: State, s': State)
    requires s.sessionId == s'.sessionId && s.next == s'.next
    ensures forall id :: Issued(s, id) ==> Issued(s', id)
  {
    forall id | Issued(s, id) ensures Issued(s', id) {
      var n: nat :| n < s.next && id == RequestId(s.sessionId, n);
      assert n < s'.next && id == RequestId(s'.sessionId, n);
    }
  }

  lemma {:induction false} ConcludeKeepsInv(s: State, id: string, p: Promise)
    requires Inv(s) && !p.Unsettled?
    ensures Inv(Conclude(s, id, p)) && Conclude(s, id, p).promises.Keys == s.promises.Keys
  {
    SameIssued(s, Conclude(s, id, p));
  }

  lemma {:induction false} RejectAllKeepsInv(s: State, reason: Reason)
    requires Consistent(s)
    ensures Inv(RejectAll(s, reason)) && RejectAll(s, reason).promises.Keys == s.promises.Keys
  {
    SameIssued(s, RejectAll(s, reason));
  }

  lemma {:induction false} StepKeepsInv(s: State, e: Event)
    requires Inv(s)
    ensures Inv(Step(s, e))
    ensures !(e.Request? && Accepts(s, e)) ==> Step(s, e).promises.Keys == s.promises.Keys
  {
    if e.ConnectionOpens? {
      SameIssued(s, Step(s, e));
    } else if e.Request? {
      if Accepts(s, e) { IssueKeepsInv(s, e.hasSignal); }
    } else if e.TimerFires? {
      ConcludeKeepsInv(s, e.id, Rejected(TimedOut));
    } else if e.AbortFires? {
      ConcludeKeepsInv(s, e.id, Rejected(Aborted));
    } else if e.WriteFails? {
      ConcludeKeepsInv(s, e.id, Rejected(WriteFailed));
    } else if e.Response? {
      if IsResponse(e.m) { ConcludeKeepsInv(s, e.m.id, Resolved(e.m)); }
    } else if e.ReaderEnds? {
      RejectAllKeepsInv(s, e.reason);
    } else {
      RejectAllKeepsInv(s.(closed := true, open := false), Disconnected);
    }
  }

  /** In every reachable state a request is in the table exactly while its promise is open. */
  lemma {:induction false} RunKeepsInv(sessionId: string, es: seq<Event>)
    ensures Inv(Run(Start(sessionId), es))
  {
    if es != [] {
      RunKeepsInv(sessionId, es[..|es| - 1]);
      StepKeepsInv(Run(Start(sessionId), es[..|es| - 1]), es[|es| - 1]);
    }
  }

  lemma {:induction false} RunAppend(s: State, es: seq<Event>, fs: seq<Event>)
    ensures Run(s, es + fs) == Run(Run(s, es), fs)
    decreases |fs|
  {
    if fs == [] {
      assert es + fs == es;
    } else {
      RunAppend(s, es, fs[..|fs| - 1]);
      assert (es + fs)[..|es + fs| - 1] == es + fs[..|fs| - 1];
    }
  }

  lemma {:induction false} StepSettlesOnce(s: State, e: Event, id: string)
    requires Inv(s) && id in s.promises
    ensures id in Step(s, e).promises
    ensures !s.promises[id].Unsettled? ==> Step(s, e).promises[id] == s.promises[id]
  {
    if e.Request? { FreshId(s); }
  }

  /** Once settled, a promise keeps its outcome through every later run. */
  lemma {:induction false} SettledForever(s: State, es: seq<Event>, id: string)
    requires Inv(s) && id in s.promises && !s.promises[id].Unsettled?
    ensures Inv(Run(s, es)) && id in Run(s, es).promises && Run(s, es).promises[id] == s.promises[id]
    ensures id !in Run(s, es).pending
    decreases |es|
  {
    if es != [] {
      SettledForever(s, es[..|es| - 1], id);
      StepKeepsInv(Run(s, es[..|es| - 1]), es[|es| - 1]);
      StepSettlesOnce(Run(s, es[..|es| - 1]), es[|es| - 1], id);
    }
  }

  /** The id of an accepted request was never used before. */
  lemma {:induction false} IdsNeverReused(sessionId: string, es: seq<Event>, e: Event)
    requires e.Request? && Accepts(Run(Start(sessionId), es), e)
    ensures var s := Run(Start(sessionId), es);
            var id := RequestId(sessionId, s.next);
            id !in s.promises && id in Step(s, e).pending && Step(s, e).promises == s.promises[id := Unsettled]
  {
    RunKeepsInv(sessionId, es);
    RunKeepsSessionId(sessionId, es);
    FreshId(Run(Start(sessionId), es));
  }

  lemma {:induction false} RunKeepsSessionId(sessionId: string, es: seq<Event>)
    ensures Run(Start(sessionId), es).sessionId == sessionId
  {
    if es != [] { RunKeepsSessionId(sessionId, es[..|es| - 1]); }
  }

  /** A response settles the waiting request with its id and touches no other. */
  lemma {:induction false} ResponseReachesItsRequest(s: State, m: Message)
    requires Inv(s) && IsResponse(m)
    ensures var s' := Step(s, Response(m));
            && (m.id in s.pending ==> s'.promises[m.id] == Resolved(m) && s'.pending == s.pending - {m.id})
            && (m.id !in s.pending ==> s' == s)
            && s'.promises.Keys == s.promises.Keys
            && forall id :: id in s.promises && id != m.id ==>
                 s'.promises[id] == s.promises[id] && (id in s'.pending <==> id in s.pending)
  {
  }

  // ---- What each event does ----

  /** An accepted request is entered under its id with a timer, and with an abort handler if it has a signal. */
  lemma {:induction false} RequestEnters(s: State, hasSignal: bool, signalAborted: bool)
    requires Inv(s)
    ensures var id := s.sessionId + ":" + NatText(s.next);
            Step(s, Event.Request(hasSignal, signalAborted)) ==
            if s.open && !s.closed && !signalAborted then
              State(s.sessionId, s.open, s.closed, s.next + 1, s.pending + {id}, s.timers + {id},
                    s.abortHandlers + (if hasSignal then {id} else {}), s.promises[id := Unsettled])
            else s
  {
    assert s.abortHandlers + {} == s.abortHandlers;
  }

  /** Some event is this one. */
  predicate Occurs(es: seq<Event>, e: Event) {
    es != [] && (es[|es| - 1] == e || Occurs(es[..|es| - 1], e))
  }

  /** A session takes requests once its connection has opened, until it is closed, unless their signal is aborted. */
  lemma {:induction false} TakesRequestsWhileOpen(sessionId: string, es: seq<Event>, hasSignal: bool,
                                                  signalAborted: bool)
    ensures var s := Run(Start(sessionId), es);
            && (s.closed <==> Occurs(es, Close))
            && (Step(s, Event.Request(hasSignal, signalAborted)).next > s.next <==>
                Occurs(es, ConnectionOpens) && !Occurs(es, Close) && !signalAborted)
  {
    OpenExactly(sessionId, es);
  }

  lemma {:induction false} OpenExactly(sessionId: string, es: seq<Event>)
    ensures var s := Run(Start(sessionId), es);
            && (s.closed <==> Occurs(es, Close))
            && (!s.closed ==> (s.open <==> Occurs(es, ConnectionOpens)))
    decreases |es|
  {
    if es != [] { OpenExactly(sessionId, es[..|es| - 1]); }
  }

  /** Only this request leaves the table, settled so. */
  ghost predicate SettlesOne(s: State, s': State, id: string, p: Promise) {
    s' == s.(pending := s.pending - {id}, timers := s.timers - {id}, abortHandlers := s.abortHandlers - {id},
             promises := s.promises[id := p])
  }

  /** A timer, an abort and a failed write each settle the one request they belong to, if it still waits. */
  lemma {:induction false} FailureSettlesItsRequest(s: State, id: string)
    requires Inv(s)
    ensures if id in s.pending then SettlesOne(s, Step(s, TimerFires(id)), id, Rejected(TimedOut))
            else Step(s, TimerFires(id)) == s
    ensures if id in s.abortHandlers then SettlesOne(s, Step(s, AbortFires(id)), id, Rejected(Aborted))
            else Step(s, AbortFires(id)) == s
    ensures if id in s.pending then SettlesOne(s, Step(s, WriteFails(id)), id, Rejected(WriteFailed))
            else Step(s, WriteFails(id)) == s
  {
  }

  /** Every waiting request is settled so, and no other. */
  ghost predicate SettlesAll(s: State, s': State, p: Promise) {
    && s'.pending == {} && s'.timers == {} && s'.abortHandlers == {}
    && s'.promises.Keys == s.promises.Keys
    && forall id :: id in s.promises ==> s'.promises[id] == if id in s.pending then p else s.promises[id]
  }

  /** The end of the stream and a close settle every request that still waits. */
  lemma {:induction false} EndSettlesAll(s: State, reason: Reason)
    requires Inv(s)
    ensures var s' := Step(s, ReaderEnds(reason));
            && SettlesAll(s, s', Rejected(reason))
            && s'.open == s.open && s'.closed == s.closed && s'.next == s.next
    ensures var s' := Step(s, Close);
            SettlesAll(s, s', Rejected(Disconnected)) && s'.closed && s'.next == s.next && (s.closed || !s'.open)
  {
  }

  /** What an event means for a waiting request, if anything. */
  function Verdict(e: Event, id: string, hasSignal: bool): Promise {
    match e
    case TimerFires(x) => if x == id then Rejected(TimedOut) else Unsettled
    case AbortFires(x) => if x == id && hasSignal then Rejected(Aborted) else Unsettled
    case WriteFails(x) => if x == id then Rejected(WriteFailed) else Unsettled
    case Response(m) => if (m.Success? || m.Failure?) && m.id == id then Resolved(m) else Unsettled
    case ReaderEnds(reason) => Rejected(reason)
    case Close => Rejected(Disconnected)
    case _ => Unsettled
  }

  /** The first event that means something decides. */
  function FirstVerdict(es: seq<Event>, id: string, hasSignal: bool): Promise
    decreases |es|
  {
    if es == [] then Unsettled
    else
      var before := FirstVerdict(es[..|es| - 1], id, hasSignal);
      if before.Unsettled? then Verdict(es[|es| - 1], id, hasSignal) else before
  }

  lemma {:induction false} StepDecides(s: State, e: Event, id: string)
    requires Inv(s) && id in s.pending
    ensures id in Step(s, e).promises
    ensures Step(s, e).promises[id] == Verdict(e, id, id in s.abortHandlers)
    ensures id in Step(s, e).pending <==> Step(s, e).promises[id].Unsettled?
    ensures id in Step(s, e).pending ==> (id in Step(s, e).abortHandlers <==> id in s.abortHandlers)
  {
    StepKeepsInv(s, e);
    if e.Request? { FreshId(s); }
  }

  /** Over every run a waiting request ends as the first event that concerns it says, and waits until then. */
  lemma {:induction false} FirstEventDecides(s: State, es: seq<Event>, id: string)
    requires Inv(s) && id in s.pending
    ensures Inv(Run(s, es)) && id in Run(s, es).promises
    ensures Run(s, es).promises[id] == FirstVerdict(es, id, id in s.abortHandlers)
    ensures id in Run(s, es).pending <==> Run(s, es).promises[id].Unsettled?
    ensures id in Run(s, es).pending ==> (id in Run(s, es).abortHandlers <==> id in s.abortHandlers)
    decreases |es|
  {
    if es != [] {
      var before, e := Run(s, es[..|es| - 1]), es[|es| - 1];
      FirstEventDecides(s, es[..|es| - 1], id);
      StepKeepsInv(before, e);
      if id in before.pending { StepDecides(before, e, id); } else { StepSettlesOnce(before, e, id); }
    }
  }

  // ---- Counting ----

  function SettledIds(s: State): set<string> {
    set id | id in s.promises && !s.promises[id].Unsettled?
  }

  lemma {:induction false} IssuedCount(sessionId: string, es: seq<Event>)
    ensures |Run(Start(sessionId), es).promises.Keys| == Run(Start(sessionId), es).next
  {
    if es != [] {
      var s, e := Run(Start(sessionId), es[..|es| - 1]), es[|es| - 1];
      IssuedCount(sessionId, es[..|es| - 1]);
      RunKeepsInv(sessionId, es[..|es| - 1]);
      StepIssues(s, e);
    }
  }

  lemma {:induction false} StepIssues(s: State, e: Event)
    requires Inv(s) && |s.promises.Keys| == s.next
    ensures |Step(s, e).promises.Keys| == Step(s, e).next
  {
    if e.Request? && Accepts(s, e) {
      IssueAddsOne(s, e.hasSignal);
    } else {
      StepKeepsInv(s, e);
      OtherStepsIssueNothing(s, e);
    }
  }

  lemma {:induction false} IssueAddsOne(s: State, hasSignal: bool)
    requires Inv(s)
    ensures |Issue(s, hasSignal).promises.Keys| == |s.promises.Keys| + 1
  {
    FreshId(s);
    assert Issue(s, hasSignal).promises.Keys == s.promises.Keys + {RequestId(s.sessionId, s.next)};
  }

  lemma {:induction false} OtherStepsIssueNothing(s: State, e: Event)
    requires !(e.Request? && Accepts(s, e))
    ensures Step(s, e).next == s.next
  {
  }

  /** Pending requests are the issued ones less the settled ones. */
  lemma {:induction false} PendingIsIssuedLessSettled(sessionId: string, es: seq<Event>)
    ensures var s := Run(Start(sessionId), es); |s.pending| == s.next - |SettledIds(s)|
  {
    var s := Run(Start(sessionId), es);
    RunKeepsInv(sessionId, es);
    IssuedCount(sessionId, es);
    assert s.promises.Keys == s.pending + SettledIds(s);
    assert s.pending !! SettledIds(s);
  }

  // ---- After close ----

  lemma {:induction false} ClosedStep(s: State, e: Event)
    requires Inv(s) && s.closed
    ensures Step(s, e).closed && Inv(Step(s, e)) && Step(s, e).promises == s.promises
  {
    StepKeepsInv(s, e);
  }

  lemma {:induction false} ClosedStaysClosed(s: State, es: seq<Event>)
    requires Inv(s) && s.closed
    ensures Run(s, es).closed && Inv(Run(s, es)) && Run(s, es).promises == s.promises
    decreases |es|
  {
    if es != [] {
      ClosedStaysClosed(s, es[..|es| - 1]);
      ClosedStep(Run(s, es[..|es| - 1]), es[|es| - 1]);
    }
  }

  /** After close nothing is pending, every issued request is settled, and no run changes that. */
  lemma {:induction false} AfterClose(sessionId: string, before: seq<Event>, after: seq<Event>)
    ensures var s := Run(Start(sessionId), before + [Close] + after);
            && s.pending == {} && s.timers == {} && s.abortHandlers == {}
            && (forall id :: id in s.promises ==> !s.promises[id].Unsettled?)
            && s.promises.Keys == Run(Start(sessionId), before).promises.Keys
  {
    var s0 := Run(Start(sessionId), before);
    RunKeepsInv(sessionId, before);
    StepKeepsInv(s0, Close);
    RunAppend(Start(sessionId), before + [Close], after);
    assert (before + [Close])[..|before|] == before;
    ClosedStaysClosed(Step(s0, Close), after);
  }

  // ---- The read loop ----

  /** The identity a ready event must carry. */
  function ValidInfo(payload: seq<Member>): bool {
    var firmware, version, capabilities := Get(payload, "firmware"), Get(payload, "version"), Get(payload,
                                                                                                  "capabilities");
    && IsString(firmware) && firmware.value.s != ""
    && IsString(version)
    && Get(payload, "protocol") == Some(Num(VERSION))
    && capabilities.Some? && capabilities.value.Arr?
    && forall i :: 0 <= i < |capabilities.value.elems| ==> capabilities.value.elems[i].Str?
  }

  /** A ready event without a valid identity throws inside the loop and ends it. */
  function StopsReader(m: Message): bool {
    m.Event? && m.event == "ready" && !ValidInfo(m.payload)
  }

  /** The identity a device announces, as the encoder writes it. */
  function Identity(firmware: string, version: string, protocol: int, capabilities: seq<string>): seq<Member> {
    [Member("firmware", Str(firmware)), Member("version", Str(version)), Member("protocol", Num(protocol)),
     Member("capabilities", Arr(seq(|capabilities|, i requires 0 <= i < |capabilities| => Str(capabilities[i]))))]
  }

  lemma {:induction false} GetIdentity(firmware: string, version: string, protocol: int, capabilities: seq<string>)
    ensures var ms := Identity(firmware, version, protocol, capabilities);
            && Get(ms, "firmware") == Some(Str(firmware)) && Get(ms, "version") == Some(Str(version))
            && Get(ms, "protocol") == Some(Num(protocol)) && Get(ms, "capabilities") == Some(ms[3].value)
  {
    var ms := Identity(firmware, version, protocol, capabilities);
    assert |"firmware"| == 8 && |"version"| == 7 && |"protocol"| == 8 && |"capabilities"| == 12;
    assert "firmware"[0] == 'f' && "protocol"[0] == 'p';
    assert DistinctKeys(ms);
    GetAt(ms, 0, "firmware", Str(firmware));
    GetAt(ms, 1, "version", Str(version));
    GetAt(ms, 2, "protocol", Num(protocol));
    GetAt(ms, 3, "capabilities", ms[3].value);
  }

  /** An identity lets the reading go on exactly when its firmware has a name and its protocol is the host's. */
  lemma {:induction false} ReadyAccepted(firmware: string, version: string, protocol: int, capabilities: seq<string>)
    ensures StopsReader(Message.Event("ready", Identity(firmware, version, protocol, capabilities))) <==>
            firmware == "" || protocol != 1
  {
    GetIdentity(firmware, version, protocol, capabilities);
  }

  /** Without one of its four fields, or with one of another kind, the identity ends the reading. */
  lemma {:induction false} ReadyIncomplete(payload: seq<Member>)
    requires || !IsString(Get(payload, "firmware")) || !IsString(Get(payload, "version"))
             || Get(payload, "protocol") != Some(Num(1))
             || Get(payload, "capabilities").None? || !Get(payload, "capabilities").value.Arr?
             || exists v :: v in Get(payload, "capabilities").value.elems && !v.Str?
    ensures StopsReader(Message.Event("ready", payload))
  {
  }

  /** No other message ends the reading. */
  lemma {:induction false} OnlyReadyStops(m: Message)
    requires !m.Event? || m.event != "ready"
    ensures !StopsReader(m)
  {
  }

  /** The read loop over the messages received so far. */
  function Deliver(s: State, ms: seq<Message>): State
    decreases |ms|
  {
    if ms == [] then s
    else if StopsReader(ms[0]) then RejectAll(s, StreamFailed)
    else Deliver(Step(s, Response(ms[0])), ms[1..])
  }

  /** What the messages received mean for a waiting request: its first answer, or a message that ends the reading. */
  function FirstMessage(ms: seq<Message>, id: string): Promise
    decreases |ms|
  {
    if ms == [] then Unsettled
    else if StopsReader(ms[0]) then Rejected(StreamFailed)
    else if (ms[0].Success? || ms[0].Failure?) && ms[0].id == id then Resolved(ms[0])
    else FirstMessage(ms[1..], id)
  }

  /** A waiting request ends as the first message that concerns it says, and otherwise still waits. */
  lemma {:induction false} FirstMessageDecides(s: State, ms: seq<Message>, id: string)
    requires Inv(s) && id in s.pending
    ensures id in Deliver(s, ms).promises && Deliver(s, ms).promises[id] == FirstMessage(ms, id)
    ensures id in Deliver(s, ms).pending <==> FirstMessage(ms, id).Unsettled?
    decreases |ms|
  {
    if ms != [] && !StopsReader(ms[0]) {
      var s' := Step(s, Response(ms[0]));
      StepKeepsInv(s, Response(ms[0]));
      StepDecides(s, Response(ms[0]), id);
      if id in s'.pending { FirstMessageDecides(s', ms[1..], id); } else { DeliverKeepsSettled(s', ms[1..], id); }
    }
  }

  /** A pending request ends with the first response that carries its id. */
  lemma {:induction false} FirstResponseWins(s: State, ms: seq<Message>, id: string, k: nat)
    requires Inv(s) && id in s.pending && k < |ms|
    requires IsResponse(ms[k]) && ms[k].id == id
    requires forall i :: 0 <= i < k ==> !StopsReader(ms[i]) && !(IsResponse(ms[i]) && ms[i].id == id)
    ensures id in Deliver(s, ms).promises && Deliver(s, ms).promises[id] == Resolved(ms[k])
    ensures id !in Deliver(s, ms).pending
    decreases |ms|
  {
    var s' := Step(s, Response(ms[0]));
    StepKeepsInv(s, Response(ms[0]));
    if k == 0 {
      DeliverKeepsSettled(s', ms[1..], id);
    } else {
      FirstResponseWins(s', ms[1..], id, k - 1);
    }
  }

  lemma {:induction false} DeliverKeepsSettled(s: State, ms: seq<Message>, id: string)
    requires Inv(s) && id in s.promises && !s.promises[id].Unsettled?
    ensures id in Deliver(s, ms).promises && Deliver(s, ms).promises[id] == s.promises[id]
    ensures id !in Deliver(s, ms).pending
    decreases |ms|
  {
    if ms != [] && !StopsReader(ms[0]) {
      StepKeepsInv(s, Response(ms[0]));
      StepSettlesOnce(s, Response(ms[0]), id);
      DeliverKeepsSettled(Step(s, Response(ms[0])), ms[1..], id);
    }
  }
}
