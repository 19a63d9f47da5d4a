/** The request protocol between the translation script and its child process
    (`PiRpcClient` in scripts/control-ui-i18n.ts).

    `RpcProtocol` describes every step of the client as a function on states and proves what holds
    of whole runs, for every order of calls, replies, timers, write callbacks and process events.
    `RpcClient` is the object with its fields and handlers, each proved to take exactly that step. */
module RpcProtocol {
  import opened Wrappers

  datatype Error =
    | Unavailable
    | TimedOut
    | ProcessClosed
    | ProcessFailed
    | ErrorReply(text: string)
    | BadResult
    | WriteFailed

  /** `resolve(text)` or `reject(error)`.  A resolved prompt remembers for which request the child
      produced the text; the client itself never sees that number. */
  datatype Outcome = Resolved(answerTo: nat, text: string) | Rejected(error: Error)

  /** One call of `prompt`: waiting in the `sequence` chain, sent to the child, or settled. */
  datatype Call = Waiting | Running(id: nat) | Settled(outcome: Outcome)

  datatype Pending = Pending(id: nat, responseReceived: bool)

  /** `Noise` is no JSON, or JSON of another type; `NullLine` is the JSON text `null`. */
  datatype Line =
    | Noise
    | NullLine
    | Response(id: nat, success: bool, error: string)
    | AgentEnd(answerTo: nat, result: Option<string>)

  datatype Event =
    | PromptCalled
    | RunNext
    | StdoutLine(line: Line)
    | TimerFired(id: nat)
    | WriteErrored(id: nat)
    | ProcessErrored
    | ProcessExited
    | CloseCalled

  /** `owners[id - 1]` is the call that was sent as request `id`. */
  datatype State = State(
    closed: bool,
    pending: Option<Pending>,
    calls: seq<Call>,
    owners: seq<nat>,
    timers: set<nat>,
    heartbeats: set<nat>)

  const INITIAL := State(false, None, [], [], {}, {})

  function RequestCount(s: State): nat {
    |s.owners|
  }

  /** A promise settles at most once: later `resolve` and `reject` calls do nothing. */
  function Settle(calls: seq<Call>, index: nat, outcome: Outcome): seq<Call> {
    if index < |calls| && calls[index].Running? then calls[index := Settled(outcome)] else calls
  }

  function Owner(s: State, id: nat): nat {
    if 1 <= id <= |s.owners| then s.owners[id - 1] else |s.calls|
  }

  /** Clear the timer and the heartbeat of a request and settle its promise. */
  function Finish(s: State, id: nat, outcome: Outcome): State {
    s.(timers := s.timers - {id}, heartbeats := s.heartbeats - {id}, calls := Settle(s.calls, Owner(s, id), outcome))
  }

  /** Take the pending prompt away and settle it. */
  function FinishPending(s: State, outcome: Outcome): State {
    if s.pending.None? then s else Finish(s.(pending := None), s.pending.value.id, outcome)
  }

  /** The first call that has not settled: the only one whose turn it can be. */
  function FirstUnsettled(calls: seq<Call>): (k: nat)
    ensures k <= |calls|
    ensures forall j :: 0 <= j < k ==> calls[j].Settled?
    ensures k < |calls| ==> !calls[k].Settled?
  {
    if calls == [] || !calls[0].Settled? then 0 else 1 + FirstUnsettled(calls[1..])
  }

  /** The body of the next call in the `sequence` chain runs: it inherits the rejection of its
      predecessor, fails on a closed client, or is sent. */
  function StepRun(s: State): State {
    var k := FirstUnsettled(s.calls);
    if k == |s.calls| || s.calls[k].Running? then s
    else if k > 0 && s.calls[k - 1].outcome.Rejected? then s.(calls := s.calls[k := s.calls[k - 1]])
    else if s.closed then s.(calls := s.calls[k := Settled(Rejected(Unavailable))])
    else
      var id := RequestCount(s) + 1;
      State(s.closed, Some(Pending(id, false)), s.calls[k := Running(id)], s.owners + [k],
            s.timers + {id}, s.heartbeats + {id})
  }

  function StepLine(s: State, line: Line): State {
    if s.pending.None? then s
    else
      match line
      case Noise => s
      case NullLine => s
      case Response(id, success, error) =>
        if id != s.pending.value.id then s
        else if !success then FinishPending(s, Rejected(ErrorReply(error)))
        else s.(pending := Some(s.pending.value.(responseReceived := true)))
      case AgentEnd(answerTo, result) =>
        FinishPending(s, if result.Some? then Resolved(answerTo, result.value) else Rejected(BadResult))
  }

  function StepTimer(s: State, id: nat): State {
    if id !in s.timers then s
    else
      var fired := s.(timers := s.timers - {id});
      if s.pending.Some? && s.pending.value.id == id then FinishPending(fired, Rejected(TimedOut)).(closed := true)
      else fired
  }

  function StepWriteError(s: State, id: nat): State {
    var s' := if s.pending.Some? && s.pending.value.id == id then s.(pending := None) else s;
    Finish(s', id, Rejected(WriteFailed))
  }

  function Step(s: State, e: Event): State {
    match e
    case PromptCalled => s.(calls := s.calls + [Waiting])
    case RunNext => StepRun(s)
    case StdoutLine(line) => StepLine(s, line)
    case TimerFired(id) => StepTimer(s, id)
    case WriteErrored(id) => StepWriteError(s, id)
    case ProcessErrored => FinishPending(s, Rejected(ProcessFailed))
    case ProcessExited => FinishPending(s.(closed := true), Rejected(ProcessClosed))
    case CloseCalled => s.(closed := true)
  }

  function Run(s: State, events: seq<Event>): State
    decreases |events|
  {
    if events == [] then s else Run(Step(s, events[0]), events[1..])
  }

  // ----- what every step keeps

  predicate Failed(call: Call) {
    call.Settled? && call.outcome.Rejected?
  }

  /** The request that is on its way, if any, is the one and only prompt being waited for, and it
      alone has a timer and a heartbeat. */
  ghost predicate OnePending(s: State) {
    var k := FirstUnsettled(s.calls);
    var live := if s.pending.Some? then {s.pending.value.id} else {};
    && (forall j :: k < j < |s.calls| ==> s.calls[j].Waiting?)
    && s.timers == s.heartbeats == live
    && (k < |s.calls| && s.calls[k].Running? <==> s.pending.Some?)
    && (s.pending.Some? ==>
          s.calls[k] == Running(s.pending.value.id) && s.pending.value.id == RequestCount(s) >= 1 &&
          s.owners[RequestCount(s) - 1] == k)
  }

  ghost predicate OwnersInOrder(s: State) {
    && (forall i :: 0 <= i < |s.owners| ==> s.owners[i] < |s.calls| && !s.calls[s.owners[i]].Waiting?)
    && (forall i, j :: 0 <= i < j < |s.owners| ==> s.owners[i] < s.owners[j])
  }

  /** Behind a failed call nothing succeeds and nothing is on its way. */
  ghost predicate FailureSticks(s: State) {
    forall i, j :: 0 <= i < j < |s.calls| && Failed(s.calls[i]) ==> s.calls[j].Waiting? || Failed(s.calls[j])
  }

  ghost predicate Inv(s: State) {
    OnePending(s) && OwnersInOrder(s) && FailureSticks(s)
  }

  lemma FirstUnsettledIs(calls: seq<Call>, k: nat)
    requires k <= |calls| && forall j :: 0 <= j < k ==> calls[j].Settled?
    requires k < |calls| ==> !calls[k].Settled?
    ensures FirstUnsettled(calls) == k
  {
  }

  lemma SettleMovesOn(calls: seq<Call>, outcome: Outcome)
    requires FirstUnsettled(calls) < |calls|
    requires forall j :: FirstUnsettled(calls) < j < |calls| ==> calls[j].Waiting?
    ensures FirstUnsettled(calls[FirstUnsettled(calls) := Settled(outcome)]) == FirstUnsettled(calls) + 1
  {
    var k := FirstUnsettled(calls);
    FirstUnsettledIs(calls[k := Settled(outcome)], k + 1);
  }

  lemma FinishPendingKeepsInv(s: State, outcome: Outcome)
    requires Inv(s)
    ensures Inv(FinishPending(s, outcome))
  {
    if s.pending.Some? {
      SettleMovesOn(s.calls, outcome);
    }
  }

  lemma StepRunKeepsInv(s: State)
    requires Inv(s)
    ensures Inv(StepRun(s))
  {
    var k := FirstUnsettled(s.calls);
    if k < |s.calls| && s.calls[k].Waiting? {
      if k > 0 && s.calls[k - 1].outcome.Rejected? {
        RejectNextKeepsInv(s, s.calls[k - 1].outcome.error);
      } else if s.closed {
        RejectNextKeepsInv(s, Unavailable);
      } else {
        SendKeepsInv(s);
      }
    }
  }

  lemma RejectNextKeepsInv(s: State, error: Error)
    requires Inv(s)
    requires FirstUnsettled(s.calls) < |s.calls| && s.calls[FirstUnsettled(s.calls)].Waiting?
    ensures Inv(s.(calls := s.calls[FirstUnsettled(s.calls) := Settled(Rejected(error))]))
  {
    SettleMovesOn(s.calls, Rejected(error));
  }

  lemma SendKeepsInv(s: State)
    requires Inv(s) && !s.closed
    requires var k := FirstUnsettled(s.calls);
             k < |s.calls| && s.calls[k].Waiting? && (k > 0 ==> !s.calls[k - 1].outcome.Rejected?)
    ensures Inv(StepRun(s))
  {
    var k := FirstUnsettled(s.calls);
    FirstUnsettledIs(StepRun(s).calls, k);
    assert forall i :: 0 <= i < k ==> !Failed(s.calls[i]);
  }

  /** An error reported for a write whose prompt has settled long ago changes nothing. */
  lemma LateWriteErrorIsIgnored(s: State, id: nat)
    requires Inv(s) && !(s.pending.Some? && s.pending.value.id == id)
    ensures StepWriteError(s, id) == s
  {
    var k := FirstUnsettled(s.calls);
    if 1 <= id <= |s.owners| {
      var owner := s.owners[id - 1];
      assert s.calls[owner].Running? ==> owner == k;
      assert s.pending.Some? ==> owner < s.owners[RequestCount(s) - 1];
    }
    assert s.timers - {id} == s.timers && s.heartbeats - {id} == s.heartbeats;
  }

  lemma StepTimerKeepsInv(s: State, id: nat)
    requires Inv(s)
    ensures Inv(StepTimer(s, id))
  {
    if id in s.timers {
      FinishPendingKeepsInv(s, Rejected(TimedOut));
      assert StepTimer(s, id) == FinishPending(s, Rejected(TimedOut)).(closed := true);
    }
  }

  lemma StepWriteErrorKeepsInv(s: State, id: nat)
    requires Inv(s)
    ensures Inv(StepWriteError(s, id))
  {
    if s.pending.Some? && s.pending.value.id == id {
      FinishPendingKeepsInv(s, Rejected(WriteFailed));
      assert StepWriteError(s, id) == FinishPending(s, Rejected(WriteFailed));
    } else {
      LateWriteErrorIsIgnored(s, id);
    }
  }

  lemma StepPromptKeepsInv(s: State)
    requires Inv(s)
    ensures Inv(Step(s, PromptCalled))
  {
    var calls := s.calls + [Waiting];
    FirstUnsettledIs(calls, FirstUnsettled(s.calls));
    PromptKeepsOrder(s, Step(s, PromptCalled));
  }

  lemma PromptKeepsOrder(s: State, s': State)
    requires OwnersInOrder(s) && FailureSticks(s) && s' == s.(calls := s.calls + [Waiting])
    ensures OwnersInOrder(s') && FailureSticks(s')
  {
  }

  lemma StepLineKeepsInv(s: State, line: Line)
    requires Inv(s)
    ensures Inv(StepLine(s, line))
  {
    if s.pending.Some? && line.AgentEnd? {
      FinishPendingKeepsInv(s, if line.result.Some? then Resolved(line.answerTo, line.result.value)
                            else Rejected(BadResult));
    } else if s.pending.Some? && line.Response? && line.id == s.pending.value.id && !line.success {
      FinishPendingKeepsInv(s, Rejected(ErrorReply(line.error)));
    }
  }

  lemma StepKeepsInv(s: State, e: Event)
    requires Inv(s)
    ensures Inv(Step(s, e))
  {
    match e
    case PromptCalled => StepPromptKeepsInv(s);
    case RunNext => StepRunKeepsInv(s);
    case StdoutLine(line) => StepLineKeepsInv(s, line);
    case TimerFired(id) => StepTimerKeepsInv(s, id);
    case WriteErrored(id) => StepWriteErrorKeepsInv(s, id);
    case ProcessErrored => FinishPendingKeepsInv(s, Rejected(ProcessFailed));
    case ProcessExited =>
      ClosedKeepsInv(s);
      FinishPendingKeepsInv(s.(closed := true), Rejected(ProcessClosed));
    case CloseCalled => ClosedKeepsInv(s);
  }

  lemma ClosedKeepsInv(s: State)
    requires Inv(s)
    ensures Inv(s.(closed := true))
  {
  }

  lemma {:induction false} RunKeepsInv(s: State, events: seq<Event>)
    requires Inv(s)
    ensures Inv(Run(s, events))
    decreases |events|
  {
    if events != [] {
      StepKeepsInv(s, events[0]);
      RunKeepsInv(Step(s, events[0]), events[1..]);
    }
  }

  /** In every run, at most one prompt is on its way, it is the pending one, and no settled or
      waiting prompt has a timer or a heartbeat left. */
  lemma AtMostOnePending(events: seq<Event>)
    ensures var s := Run(INITIAL, events);
            && (forall i, j :: 0 <= i < j < |s.calls| && s.calls[i].Running? ==> !s.calls[j].Running?)
            && (forall i :: 0 <= i < |s.calls| && s.calls[i].Running? ==>
                              s.pending.Some? && s.pending.value.id == s.calls[i].id)
            && s.timers == s.heartbeats == (set i | 0 <= i < |s.calls| && s.calls[i].Running? :: s.calls[i].id)
  {
    var s := Run(INITIAL, events);
    RunKeepsInv(INITIAL, events);
    var k := FirstUnsettled(s.calls);
    assert forall i :: 0 <= i < |s.calls| && s.calls[i].Running? ==> i == k;
  }

  lemma {:induction false} RunConcat(s: State, a: seq<Event>, b: seq<Event>)
    ensures Run(s, a + b) == Run(Run(s, a), b)
    decreases |a|
  {
    if a == [] {
      assert a + b == b;
    } else {
      assert (a + b)[0] == a[0] && (a + b)[1..] == a[1..] + b;
      RunConcat(Step(s, a[0]), a[1..], b);
    }
  }

  // ----- each prompt settles exactly once

  lemma StepKeepsSettled(s: State, e: Event, i: nat)
    requires i < |s.calls| && s.calls[i].Settled?
    ensures |s.calls| <= |Step(s, e).calls| && Step(s, e).calls[i] == s.calls[i]
  {
  }

  /** A settled prompt keeps its outcome whatever happens later. */
  lemma {:induction false} SettledForGood(s: State, events: seq<Event>, i: nat)
    requires i < |s.calls| && s.calls[i].Settled?
    ensures i < |Run(s, events).calls| && Run(s, events).calls[i] == s.calls[i]
    decreases |events|
  {
    if events != [] {
      StepKeepsSettled(s, events[0], i);
      SettledForGood(Step(s, events[0]), events[1..], i);
    }
  }

  function RunNexts(n: nat): seq<Event> {
    seq(n, _ => RunNext)
  }

  lemma ClosedStep(s: State) returns (s': State)
    requires Inv(s) && s.pending.None? && s.closed && FirstUnsettled(s.calls) < |s.calls|
    ensures s' == Step(s, RunNext) && Inv(s') && s'.pending.None? && s'.closed
    ensures |s'.calls| == |s.calls| && FirstUnsettled(s'.calls) == FirstUnsettled(s.calls) + 1
  {
    s' := Step(s, RunNext);
    StepRunKeepsInv(s);
    var k := FirstUnsettled(s.calls);
    assert s'.calls == s.calls[k := Settled(s'.calls[k].outcome)];
    SettleMovesOn(s.calls, s'.calls[k].outcome);
  }

  lemma {:induction false} DrainAfterFailure(s: State, n: nat)
    requires Inv(s) && s.pending.None? && s.closed
    requires n == |s.calls| - FirstUnsettled(s.calls)
    ensures var s' := Run(s, RunNexts(n));
            |s'.calls| == |s.calls| && (forall i :: 0 <= i < |s'.calls| ==> s'.calls[i].Settled?) &&
            s'.timers == s'.heartbeats == {}
    decreases n
  {
    if n > 0 {
      var s' := ClosedStep(s);
      assert RunNexts(n)[0] == RunNext && RunNexts(n)[1..] == RunNexts(n - 1);
      DrainAfterFailure(s', n - 1);
    }
  }

  /** What ends the wait in a state: the pending prompt's timer, or the child's exit. */
  function Ending(s: State): Event {
    if s.pending.Some? then TimerFired(s.pending.value.id) else ProcessExited
  }

  lemma DrainFrom(s: State) returns (rest: seq<Event>)
    requires Inv(s)
    ensures var s' := Run(s, rest);
            |s'.calls| == |s.calls| && (forall i :: 0 <= i < |s'.calls| ==> s'.calls[i].Settled?) &&
            s'.timers == s'.heartbeats == {}
    ensures rest != [] && rest[0] == Ending(s) && forall i :: 1 <= i < |rest| ==> rest[i] == RunNext
  {
    var s1 := Step(s, Ending(s));
    StepKeepsInv(s, Ending(s));
    assert s1.closed && s1.pending.None? && |s1.calls| == |s.calls|;
    var n := |s1.calls| - FirstUnsettled(s1.calls);
    DrainAfterFailure(s1, n);
    rest := [Ending(s)] + RunNexts(n);
    assert rest[1..] == RunNexts(n);
  }

  /** No reachable state is stuck: once the pending prompt's timer fires (or, with nothing pending,
      the child exits) and the queued bodies get their turn, every prompt ever made has settled. */
  lemma EveryPromptCanSettle(events: seq<Event>) returns (rest: seq<Event>)
    ensures var s, s' := Run(INITIAL, events), Run(INITIAL, events + rest);
            |s'.calls| == |s.calls| && (forall i :: 0 <= i < |s'.calls| ==> s'.calls[i].Settled?) &&
            s'.timers == s'.heartbeats == {}
    ensures rest != [] && rest[0] == Ending(Run(INITIAL, events)) && forall i :: 1 <= i < |rest| ==> rest[i] == RunNext
  {
    RunKeepsInv(INITIAL, events);
    rest := DrainFrom(Run(INITIAL, events));
    RunConcat(INITIAL, events, rest);
  }

  // ----- what settles a prompt, and how

  /** The outcome that an event has for the request on its way, if it ends that request. */
  function EndedBy(e: Event, id: nat): Option<Outcome> {
    match e
    case StdoutLine(AgentEnd(answerTo, Some(text))) => Some(Resolved(answerTo, text))
    case StdoutLine(AgentEnd(_, None)) => Some(Rejected(BadResult))
    case StdoutLine(Response(other, false, text)) => if other == id then Some(Rejected(ErrorReply(text))) else None
    case TimerFired(other) => if other == id then Some(Rejected(TimedOut)) else None
    case WriteErrored(other) => if other == id then Some(Rejected(WriteFailed)) else None
    case ProcessErrored => Some(Rejected(ProcessFailed))
    case ProcessExited => Some(Rejected(ProcessClosed))
    case _ => None
  }

  /** The outcome of the call whose turn comes when it cannot be sent. */
  function TurnedAway(s: State, k: nat): Option<Outcome>
    requires k <= |s.calls|
  {
    if k > 0 && Failed(s.calls[k - 1]) then Some(s.calls[k - 1].outcome)
    else if s.closed then Some(Rejected(Unavailable))
    else None
  }

  /** The event settles the call `i` with the outcome: as the answer to its request on its way, or
      instead of sending it when its turn comes. */
  ghost predicate Settles(s: State, e: Event, i: nat, outcome: Outcome) {
    i < |s.calls| &&
    if s.pending.Some? then Owner(s, s.pending.value.id) == i && EndedBy(e, s.pending.value.id) == Some(outcome)
    else e.RunNext? && i == FirstUnsettled(s.calls) && TurnedAway(s, i) == Some(outcome)
  }

  /** What an event does while a request is on its way: it gives the call of that request, and no
      other, just the outcome that it stands for, or it leaves the request on its way. */
  lemma PendingTakesOutcome(s: State, e: Event)
    requires Inv(s) && s.pending.Some?
    ensures var s', id := Step(s, e), s.pending.value.id;
            var k := Owner(s, id);
            && k < |s.calls| && s.calls[k] == Running(id) &&
               |s'.calls| == |s.calls| + (if e.PromptCalled? then 1 else 0)
            && (forall i :: 0 <= i < |s.calls| && i != k ==> s'.calls[i] == s.calls[i])
            && (forall i :: |s.calls| <= i < |s'.calls| ==> s'.calls[i].Waiting?)
            && match EndedBy(e, id)
               case Some(outcome) => s'.pending.None? && s'.calls[k] == Settled(outcome)
               case None =>
                 && s'.calls[k] == Running(id) && s'.pending.Some? && s'.pending.value.id == id
                 && (s'.pending.value.responseReceived <==>
                     s.pending.value.responseReceived || (e.StdoutLine? && e.line.Response? && e.line.id == id))
  {
    var k := FirstUnsettled(s.calls);
    assert Owner(s, s.pending.value.id) == k && s.calls[k] == Running(s.pending.value.id);
    if e.WriteErrored? && e.id != s.pending.value.id {
      LateWriteErrorIsIgnored(s, e.id);
    }
  }

  /** What an event does while no request is on its way: the next call is turned away, or sent as the
      next request if no call before it has failed and the client is open. */
  lemma IdleTakesTurn(s: State, e: Event)
    requires Inv(s) && s.pending.None?
    ensures var s', k := Step(s, e), FirstUnsettled(s.calls);
            && |s'.calls| == |s.calls| + (if e.PromptCalled? then 1 else 0)
            && (forall i :: 0 <= i < |s.calls| && (i != k || !e.RunNext?) ==> s'.calls[i] == s.calls[i])
            && (forall i :: |s.calls| <= i < |s'.calls| ==> s'.calls[i].Waiting?)
            && (e.RunNext? && k < |s.calls| ==>
                  match TurnedAway(s, k)
                  case Some(outcome) => s'.pending.None? && s'.calls[k] == Settled(outcome)
                  case None =>
                    s'.pending == Some(Pending(|s.owners| + 1, false)) && s'.owners == s.owners + [k] &&
                    s'.calls[k] == Running(|s.owners| + 1))
            && (!e.RunNext? || k == |s.calls| ==> s'.pending.None?)
  {
    if e.WriteErrored? {
      LateWriteErrorIsIgnored(s, e.id);
    }
  }

  /** A step settles a call with an outcome exactly if the event does. */
  lemma StepSettlesExactly(s: State, e: Event, i: nat, outcome: Outcome)
    requires Inv(s)
    ensures i < |Step(s, e).calls| && Step(s, e).calls[i] == Settled(outcome) <==>
            (i < |s.calls| && s.calls[i] == Settled(outcome)) || Settles(s, e, i, outcome)
  {
    if s.pending.Some? {
      PendingTakesOutcome(s, e);
    } else {
      IdleTakesTurn(s, e);
    }
  }

  /** The event at `j` of a run settles the call. */
  ghost predicate SettledAt(events: seq<Event>, j: nat, i: nat, outcome: Outcome) {
    j < |events| && Settles(Run(INITIAL, events[..j]), events[j], i, outcome)
  }

  ghost predicate SettledBy(events: seq<Event>, i: nat, outcome: Outcome) {
    exists j: nat :: SettledAt(events, j, i, outcome)
  }

  lemma SettledLater(init: seq<Event>, last: Event, i: nat, outcome: Outcome)
    ensures SettledBy(init + [last], i, outcome) <==>
            SettledBy(init, i, outcome) || Settles(Run(INITIAL, init), last, i, outcome)
  {
    var events := init + [last];
    assert events[..|init|] == init && events[|init|] == last;
    forall j: nat | j < |init|
      ensures SettledAt(events, j, i, outcome) <==> SettledAt(init, j, i, outcome)
    {
      assert events[..j] == init[..j];
    }
    assert SettledAt(events, |init|, i, outcome) <==> Settles(Run(INITIAL, init), last, i, outcome);
    if SettledBy(events, i, outcome) {
      var j: nat :| SettledAt(events, j, i, outcome);
    }
    if SettledBy(init, i, outcome) {
      var j: nat :| SettledAt(init, j, i, outcome);
      assert SettledAt(events, j, i, outcome);
    }
  }

  lemma RunLast(init: seq<Event>, last: Event)
    ensures Run(INITIAL, init + [last]) == Step(Run(INITIAL, init), last)
  {
    RunConcat(INITIAL, init, [last]);
    assert [last][1..] == [];
  }

  /** After any run a prompt has an outcome exactly when one of the run's events settled it with that
      outcome. */
  lemma {:induction false} OutcomeExactly(events: seq<Event>, i: nat, outcome: Outcome)
    ensures i < |Run(INITIAL, events).calls| && Run(INITIAL, events).calls[i] == Settled(outcome) <==>
            SettledBy(events, i, outcome)
    decreases |events|
  {
    if events != [] {
      var init, last := events[..|events| - 1], events[|events| - 1];
      assert events == init + [last];
      OutcomeExactly(init, i, outcome);
      RunLast(init, last);
      RunKeepsInv(INITIAL, init);
      StepSettlesExactly(Run(INITIAL, init), last, i, outcome);
      SettledLater(init, last, i, outcome);
    }
  }

  /** A prompt resolves only with a text that the child has sent while the prompt was on its way. */
  lemma ResolvedTextWasSent(events: seq<Event>, i: nat, answerTo: nat, text: string) returns (j: nat)
    requires var calls := Run(INITIAL, events).calls; i < |calls| && calls[i] == Settled(Resolved(answerTo, text))
    ensures j < |events| && events[j] == StdoutLine(AgentEnd(answerTo, Some(text)))
    ensures var s := Run(INITIAL, events[..j]);
            i < |s.calls| && s.pending.Some? && s.calls[i] == Running(s.pending.value.id)
  {
    OutcomeExactly(events, i, Resolved(answerTo, text));
    j :| SettledAt(events, j, i, Resolved(answerTo, text));
    var s := Run(INITIAL, events[..j]);
    RunKeepsInv(INITIAL, events[..j]);
    PendingTakesOutcome(s, events[j]);
  }

  /** A text that arrives while a prompt is on its way is what this prompt has resolved with at the
      end of the run. */
  lemma SentTextResolves(before: seq<Event>, answerTo: nat, text: string, after: seq<Event>) returns (i: nat)
    requires Run(INITIAL, before).pending.Some?
    ensures var s := Run(INITIAL, before); i < |s.calls| && s.calls[i] == Running(s.pending.value.id)
    ensures var calls := Run(INITIAL, before + [StdoutLine(AgentEnd(answerTo, Some(text)))] + after).calls;
            i < |calls| && calls[i] == Settled(Resolved(answerTo, text))
  {
    var s, e := Run(INITIAL, before), StdoutLine(AgentEnd(answerTo, Some(text)));
    RunKeepsInv(INITIAL, before);
    PendingTakesOutcome(s, e);
    i := Owner(s, s.pending.value.id);
    assert [e][1..] == [];
    RunConcat(INITIAL, before, [e]);
    RunConcat(INITIAL, before + [e], after);
    SettledForGood(Step(s, e), after, i);
  }

  /** What closes the client. */
  predicate Closes(s: State, e: Event) {
    e.ProcessExited? || e.CloseCalled? || (e.TimerFired? && s.pending.Some? && s.pending.value.id == e.id)
  }

  ghost predicate ClosedAt(events: seq<Event>, j: nat) {
    j < |events| && Closes(Run(INITIAL, events[..j]), events[j])
  }

  ghost predicate ClosedBy(events: seq<Event>) {
    exists j: nat :: ClosedAt(events, j)
  }

  lemma ClosedLater(init: seq<Event>, last: Event)
    ensures ClosedBy(init + [last]) <==> ClosedBy(init) || Closes(Run(INITIAL, init), last)
  {
    var events := init + [last];
    assert events[..|init|] == init && events[|init|] == last;
    forall j: nat | j < |init|
      ensures ClosedAt(events, j) <==> ClosedAt(init, j)
    {
      assert events[..j] == init[..j];
    }
    assert ClosedAt(events, |init|) <==> Closes(Run(INITIAL, init), last);
    if ClosedBy(init) {
      var j: nat :| ClosedAt(init, j);
      assert ClosedAt(events, j);
    }
  }

  lemma StepCloses(s: State, e: Event)
    requires Inv(s)
    ensures Step(s, e).closed <==> s.closed || Closes(s, e)
  {
  }

  /** After any run the client is closed exactly when the child has exited, it was told to close, or
      the pending prompt has timed out. */
  lemma {:induction false} ClosedExactly(events: seq<Event>)
    ensures Run(INITIAL, events).closed <==> ClosedBy(events)
    decreases |events|
  {
    if events != [] {
      var init, last := events[..|events| - 1], events[|events| - 1];
      assert events == init + [last];
      ClosedExactly(init);
      RunLast(init, last);
      RunKeepsInv(INITIAL, init);
      StepCloses(Run(INITIAL, init), last);
      ClosedLater(init, last);
    }
  }

  // ----- a failed prompt is the last one sent

  /** After any failed prompt nothing more is sent, and nothing behind it ever succeeds. */
  lemma {:induction false} FailureIsFinal(s: State, events: seq<Event>, i: nat)
    requires Inv(s) && i < |s.calls| && Failed(s.calls[i])
    ensures var s' := Run(s, events);
            && s'.owners == s.owners
            && (forall j :: i < j < |s'.calls| ==> s'.calls[j].Waiting? || Failed(s'.calls[j]))
    decreases |events|
  {
    if events != [] {
      StepKeepsInv(s, events[0]);
      NothingIsSent(s, events[0], i);
      StepKeepsSettled(s, events[0], i);
      FailureIsFinal(Step(s, events[0]), events[1..], i);
    }
  }

  lemma NothingIsSent(s: State, e: Event, i: nat)
    requires Inv(s) && i < |s.calls| && Failed(s.calls[i])
    ensures Step(s, e).owners == s.owners
  {
    if e.RunNext? {
      var k := FirstUnsettled(s.calls);
      assert k > i;
      assert k < |s.calls| ==> k - 1 == i || Failed(s.calls[k - 1]);
    }
  }

  // ----- a reply answers the request it was produced for

  /** The child ends at most one agent run per request, and only for requests it was sent. */
  ghost predicate FaithfulChild(s: State, events: seq<Event>, used: set<nat>)
    decreases |events|
  {
    events != [] ==>
      var e := events[0];
      if e.StdoutLine? && e.line.AgentEnd? then
        1 <= e.line.answerTo <= RequestCount(s) && e.line.answerTo !in used &&
        FaithfulChild(Step(s, e), events[1..], used + {e.line.answerTo})
      else FaithfulChild(Step(s, e), events[1..], used)
  }

  /** Every resolved prompt got the text produced for its own request. */
  ghost predicate RepliesMatch(s: State) {
    forall i :: 0 <= i < |s.calls| && s.calls[i].Settled? && s.calls[i].outcome.Resolved? ==>
                  i == Owner(s, s.calls[i].outcome.answerTo)
  }

  predicate HasFailed(s: State) {
    exists i :: 0 <= i < |s.calls| && Failed(s.calls[i])
  }

  function Completed(s: State): int {
    if s.pending.Some? then RequestCount(s) - 1 else RequestCount(s)
  }

  /** Unless a prompt has failed, all requests but a pending one have had their reply. */
  ghost predicate RepliesUsed(s: State, used: set<nat>) {
    HasFailed(s) || forall id :: id in used <==> 1 <= id <= Completed(s)
  }

  function UsedAfter(e: Event, used: set<nat>): set<nat> {
    if e.StdoutLine? && e.line.AgentEnd? then used + {e.line.answerTo} else used
  }

  /** Every agent run that ends with a text while a prompt is pending is that prompt's. */
  ghost predicate OwnReplies(s: State, events: seq<Event>)
    decreases |events|
  {
    events != [] ==> IsOwnReply(s, events[0]) && OwnReplies(Step(s, events[0]), events[1..])
  }

  predicate IsOwnReply(s: State, e: Event) {
    e.StdoutLine? && e.line.AgentEnd? && e.line.result.Some? && s.pending.Some? ==>
      e.line.answerTo == s.pending.value.id
  }

  /** An event that settles the pending prompt or the next waiting one. */
  lemma SettlingStepMatches(s: State, s': State, k: nat, outcome: Outcome)
    requires RepliesMatch(s) && k < |s.calls| && s'.owners == s.owners
    requires s'.calls == s.calls[k := Settled(outcome)]
    requires outcome.Resolved? ==> k == Owner(s, outcome.answerTo) && 1 <= outcome.answerTo <= |s.owners|
    ensures RepliesMatch(s')
  {
  }

  lemma PendingEndMatches(s: State, e: Event)
    requires Inv(s) && RepliesMatch(s) && IsOwnReply(s, e) && s.pending.Some? && Step(s, e).pending.None?
    ensures RepliesMatch(Step(s, e))
  {
    var outcome := PendingEnds(s, e);
    SettlingStepMatches(s, Step(s, e), FirstUnsettled(s.calls), outcome);
  }

  /** What an event that ends the pending prompt does to its call. */
  lemma PendingEnds(s: State, e: Event) returns (outcome: Outcome)
    requires Inv(s) && IsOwnReply(s, e) && s.pending.Some? && Step(s, e).pending.None?
    ensures var k, id := FirstUnsettled(s.calls), s.pending.value.id;
            && k < |s.calls| && Step(s, e).calls == s.calls[k := Settled(outcome)] && Step(s, e).owners == s.owners
            && 1 <= id <= |s.owners| && Owner(s, id) == k && (outcome.Resolved? ==> outcome.answerTo == id)
  {
    var k, id := FirstUnsettled(s.calls), s.pending.value.id;
    assert Owner(s, id) == k && s.calls[k] == Running(id);
    outcome := Step(s, e).calls[k].outcome;
  }

  /** An event that settles nothing. */
  lemma QuietStepMatches(s: State, s': State)
    requires RepliesMatch(s) && OwnersInOrder(s) && s.owners <= s'.owners && |s.calls| <= |s'.calls|
    requires forall i :: 0 <= i < |s'.calls| && s'.calls[i].Settled? ==> i < |s.calls| && s'.calls[i] == s.calls[i]
    requires forall i :: 0 <= i < |s.calls| && s.calls[i].Settled? && s.calls[i].outcome.Resolved? ==>
                           1 <= s.calls[i].outcome.answerTo <= |s.owners|
    ensures RepliesMatch(s')
  {
  }

  lemma MatchedIsSent(s: State, i: nat)
    requires RepliesMatch(s) && i < |s.calls| && s.calls[i].Settled? && s.calls[i].outcome.Resolved?
    ensures 1 <= s.calls[i].outcome.answerTo <= |s.owners|
  {
  }

  lemma NextTurnMatches(s: State)
    requires Inv(s) && RepliesMatch(s)
    ensures RepliesMatch(StepRun(s))
  {
    var k, s' := FirstUnsettled(s.calls), StepRun(s);
    forall i | 0 <= i < |s.calls| && s.calls[i].Settled? && s.calls[i].outcome.Resolved?
      ensures 1 <= s.calls[i].outcome.answerTo <= |s.owners|
    {
      MatchedIsSent(s, i);
    }
    if k < |s.calls| && s.calls[k].Waiting? && s'.calls[k].Settled? {
      SettlingStepMatches(s, s', k, s'.calls[k].outcome);
    } else {
      QuietStepMatches(s, s');
    }
  }

  lemma OtherStepMatches(s: State, e: Event)
    requires Inv(s) && RepliesMatch(s) && !e.RunNext? && (s.pending.Some? ==> Step(s, e).pending.Some?)
    ensures RepliesMatch(Step(s, e))
  {
    forall i | 0 <= i < |s.calls| && s.calls[i].Settled? && s.calls[i].outcome.Resolved?
      ensures 1 <= s.calls[i].outcome.answerTo <= |s.owners|
    {
      MatchedIsSent(s, i);
    }
    if e.WriteErrored? {
      LateWriteErrorIsIgnored(s, e.id);
    } else {
      QuietStepMatches(s, Step(s, e));
    }
  }

  lemma OwnReplyMatches(s: State, e: Event)
    requires Inv(s) && RepliesMatch(s) && IsOwnReply(s, e)
    ensures RepliesMatch(Step(s, e))
  {
    if e.RunNext? {
      NextTurnMatches(s);
    } else if s.pending.Some? && Step(s, e).pending.None? {
      PendingEndMatches(s, e);
    } else {
      OtherStepMatches(s, e);
    }
  }

  // ----- exactly when replies match

  lemma {:induction false} RunKeepsOwners(s: State, events: seq<Event>)
    requires Inv(s)
    ensures s.owners <= Run(s, events).owners
    decreases |events|
  {
    if events != [] {
      StepKeepsInv(s, events[0]);
      RunKeepsOwners(Step(s, events[0]), events[1..]);
    }
  }

  /** Whenever the child ends an agent run for another request than the pending one, the pending
      prompt gets a text that was not made for it, and nothing that happens later mends this. */
  lemma ForeignReplyIsMisdelivered(s: State, answerTo: nat, text: string, events: seq<Event>)
    requires Inv(s) && s.pending.Some? && answerTo != s.pending.value.id
    ensures !RepliesMatch(Run(Step(s, StdoutLine(AgentEnd(answerTo, Some(text)))), events))
  {
    var k, id := FirstUnsettled(s.calls), s.pending.value.id;
    var s1 := Step(s, StdoutLine(AgentEnd(answerTo, Some(text))));
    var s2 := Run(s1, events);
    StepKeepsInv(s, StdoutLine(AgentEnd(answerTo, Some(text))));
    assert s1.calls[k] == Settled(Resolved(answerTo, text)) && s1.owners[id - 1] == k;
    SettledForGood(s1, events, k);
    RunKeepsOwners(s1, events);
    RunKeepsInv(s1, events);
    assert s2.owners[id - 1] == k && s2.calls[k] == s1.calls[k];
    OwnersDiffer(s2, id, answerTo);
  }

  lemma OwnersDiffer(s: State, id: nat, other: nat)
    requires OwnersInOrder(s) && 1 <= id <= |s.owners| && other != id
    ensures Owner(s, id) != Owner(s, other)
  {
  }

  /** After any run every resolved prompt has its own text exactly when the child's agent runs ended
      while their own prompts were pending. */
  lemma {:induction false} RepliesMatchExactly(s: State, events: seq<Event>)
    requires Inv(s) && RepliesMatch(s)
    ensures RepliesMatch(Run(s, events)) <==> OwnReplies(s, events)
    decreases |events|
  {
    if events != [] {
      var e := events[0];
      if IsOwnReply(s, e) {
        OwnReplyMatches(s, e);
        StepKeepsInv(s, e);
        RepliesMatchExactly(Step(s, e), events[1..]);
      } else {
        ForeignReplyIsMisdelivered(s, e.line.answerTo, e.line.result.value, events[1..]);
        assert e == StdoutLine(AgentEnd(e.line.answerTo, Some(e.line.result.value)));
      }
    }
  }

  // ----- a faithful child

  /** Unless a prompt has failed, the child's next agent run is the pending prompt's. */
  lemma FaithfulIsOwn(s: State, e: Event, used: set<nat>)
    requires Inv(s) && RepliesUsed(s, used) && FaithfulChild(s, [e], used)
    ensures IsOwnReply(s, e)
  {
    if HasFailed(s) {
      var i :| 0 <= i < |s.calls| && Failed(s.calls[i]);
      assert s.pending.None? by {
        assert FirstUnsettled(s.calls) > i || s.pending.None?;
      }
    }
  }

  lemma FailureStays(s: State, e: Event)
    requires Inv(s) && HasFailed(s)
    ensures HasFailed(Step(s, e))
  {
    var i :| 0 <= i < |s.calls| && Failed(s.calls[i]);
    StepKeepsSettled(s, e, i);
    assert Failed(Step(s, e).calls[i]);
  }

  lemma UsedStep(s: State, e: Event, used: set<nat>)
    requires Inv(s) && RepliesUsed(s, used) && FaithfulChild(s, [e], used)
    ensures RepliesUsed(Step(s, e), UsedAfter(e, used))
  {
    var s', k := Step(s, e), FirstUnsettled(s.calls);
    if HasFailed(s) {
      FailureStays(s, e);
    } else if s.pending.Some? && s'.pending.None? {
      FaithfulIsOwn(s, e, used);
      if s'.calls[k].outcome.Rejected? {
        assert Failed(s'.calls[k]);
      }
    } else if e.WriteErrored? {
      LateWriteErrorIsIgnored(s, e.id);
    } else if e.RunNext? {
      TurnUses(s, used);
    } else {
      assert s'.owners == s.owners && Completed(s') == Completed(s);
    }
  }

  lemma TurnUses(s: State, used: set<nat>)
    requires Inv(s) && RepliesUsed(s, used) && !HasFailed(s)
    ensures RepliesUsed(StepRun(s), used)
  {
    var k, s' := FirstUnsettled(s.calls), StepRun(s);
    if k < |s.calls| && s.calls[k].Waiting? && s'.calls[k].Settled? {
      assert Failed(s'.calls[k]);
    }
  }

  lemma {:induction false} FaithfulRepliesAreOwn(s: State, events: seq<Event>, used: set<nat>)
    requires Inv(s) && RepliesUsed(s, used) && FaithfulChild(s, events, used)
    ensures OwnReplies(s, events)
    decreases |events|
  {
    if events != [] {
      assert [events[0]][1..] == [];
      FaithfulIsOwn(s, events[0], used);
      UsedStep(s, events[0], used);
      StepKeepsInv(s, events[0]);
      FaithfulRepliesAreOwn(Step(s, events[0]), events[1..], UsedAfter(events[0], used));
    }
  }

  /** Although an `agent_end` line names no request, a late reply never answers a later prompt as
      long as the child ends one agent run per request. */
  lemma RepliesAnswerTheirRequest(events: seq<Event>)
    requires FaithfulChild(INITIAL, events, {})
    ensures RepliesMatch(Run(INITIAL, events))
  {
    FaithfulRepliesAreOwn(INITIAL, events, {});
    RepliesMatchExactly(INITIAL, events);
  }
}

module RpcClient {
  import opened RpcProtocol
  import opened Wrappers

  class PiRpcClient {
    var closed: bool
    var pending: Option<Pending>
    var requestCount: nat
    var timers: set<nat>
    var heartbeats: set<nat>
    /** The `sequence` chain: the promise of every call of `prompt` so far. */
    var calls: seq<Call>
    /** For every request sent, the call it was sent for. */
    var owners: seq<nat>

    function Snapshot(): State
      reads this
    {
      State(closed, pending, calls, owners, timers, heartbeats)
    }

    ghost predicate Valid()
      reads this
    {
      requestCount == RequestCount(Snapshot()) && Inv(Snapshot())
    }

    constructor ()
      ensures Valid() && Snapshot() == INITIAL
    {
      closed, pending, requestCount := false, None, 0;
      timers, heartbeats, calls, owners := {}, {}, [], [];
    }

    /** `clearTimeout`, `clearInterval`, then `resolve` or `reject`. */
    method Finish(id: nat, outcome: Outcome)
      modifies this`timers, this`heartbeats, this`calls
      ensures Snapshot() == RpcProtocol.Finish(old(Snapshot()), id, outcome)
    {
      timers := timers - {id};
      heartbeats := heartbeats - {id};
      calls := Settle(calls, Owner(Snapshot(), id), outcome);
    }

    method RejectPending(error: Error)
      requires Valid()
      modifies this
      ensures Valid() && Snapshot() == FinishPending(old(Snapshot()), Rejected(error))
    {
      FinishPendingKeepsInv(Snapshot(), Rejected(error));
      var settled := pending;
      pending := None;
      if settled.Some? {
        Finish(settled.value.id, Rejected(error));
      }
    }

    /** Whether the handler throws: it reads `null.type` when a prompt is pending.  Nobody waits for
        the handler, so the error reaches no prompt. */
    method HandleStdoutLine(line: Line) returns (threw: bool)
      requires Valid()
      modifies this
      ensures Valid() && Snapshot() == Step(old(Snapshot()), StdoutLine(line))
      ensures threw <==> line.NullLine? && old(pending).Some?
      ensures threw ==> Snapshot() == old(Snapshot())
    {
      threw := false;
      StepKeepsInv(Snapshot(), StdoutLine(line));
      if pending.None? {
        return;
      }
      var prompt := pending.value;
      match line
      case Noise =>
      case NullLine =>
        threw := true;
      case Response(id, success, error) =>
        if id != prompt.id {
          return;
        }
        if !success {
          pending := None;
          Finish(prompt.id, Rejected(ErrorReply(error)));
          return;
        }
        pending := Some(prompt.(responseReceived := true));
      case AgentEnd(answerTo, result) =>
        pending := None;
        Finish(prompt.id, if result.Some? then Resolved(answerTo, result.value) else Rejected(BadResult));
    }

    /** Only the head of the chain is new; its body runs in a later `RunNext`. */
    method Prompt()
      requires Valid()
      modifies this
      ensures Valid() && Snapshot() == Step(old(Snapshot()), PromptCalled)
    {
      StepKeepsInv(Snapshot(), PromptCalled);
      calls := calls + [Waiting];
    }

    method RunNext()
      requires Valid()
      modifies this
      ensures Valid() && Snapshot() == Step(old(Snapshot()), Event.RunNext)
    {
      StepKeepsInv(Snapshot(), Event.RunNext);
      var next := FirstUnsettled(calls);
      if next == |calls| || calls[next].Running? {
        return;
      }
      if next > 0 && calls[next - 1].outcome.Rejected? {
        calls := calls[next := calls[next - 1]];
        return;
      }
      if closed {
        calls := calls[next := Settled(Rejected(Unavailable))];
        return;
      }
      requestCount := requestCount + 1;
      heartbeats := heartbeats + {requestCount};
      timers := timers + {requestCount};
      pending := Some(Pending(requestCount, false));
      calls := calls[next := Running(requestCount)];
      owners := owners + [next];
    }

    method OnTimer(id: nat)
      requires Valid()
      modifies this
      ensures Valid() && Snapshot() == Step(old(Snapshot()), TimerFired(id))
    {
      StepKeepsInv(Snapshot(), TimerFired(id));
      if id !in timers {
        return;
      }
      timers := timers - {id};
      if pending.Some? && pending.value.id == id {
        pending := None;
        Close();
        Finish(id, Rejected(TimedOut));
      }
    }

    method OnWriteError(id: nat)
      requires Valid()
      modifies this
      ensures Valid() && Snapshot() == Step(old(Snapshot()), WriteErrored(id))
    {
      StepKeepsInv(Snapshot(), WriteErrored(id));
      if pending.Some? && pending.value.id == id {
        pending := None;
      }
      Finish(id, Rejected(WriteFailed));
    }

    method OnProcessClose()
      requires Valid()
      modifies this
      ensures Valid() && Snapshot() == Step(old(Snapshot()), ProcessExited)
    {
      closed := true;
      RejectPending(ProcessClosed);
    }

    method Close()
      modifies this`closed
      ensures Snapshot() == Step(old(Snapshot()), CloseCalled)
    {
      closed := true;
    }

    /** Whatever happens, the object takes the step of the protocol. */
    method Handle(e: Event)
      requires Valid()
      modifies this
      ensures Valid() && Snapshot() == Step(old(Snapshot()), e)
    {
      StepKeepsInv(Snapshot(), e);
      match e
      case PromptCalled => Prompt();
      case RunNext => RunNext();
      case StdoutLine(line) =>
        var threw := HandleStdoutLine(line);
      case TimerFired(id) => OnTimer(id);
      case WriteErrored(id) => OnWriteError(id);
      case ProcessErrored => RejectPending(ProcessFailed);
      case ProcessExited => OnProcessClose();
      case CloseCalled => Close();
    }

    /** So any sequence of events ends in the state that the protocol's runs are about. */
    method HandleAll(events: seq<Event>)
      requires Valid()
      modifies this
      ensures Valid() && Snapshot() == Run(old(Snapshot()), events)
    {
      var i := 0;
      while i < |events|
        invariant 0 <= i <= |events| && Valid()
        invariant Run(Snapshot(), events[i..]) == Run(old(Snapshot()), events)
      {
        assert events[i..][0] == events[i] && events[i..][1..] == events[i + 1..];
        Handle(events[i]);
        i := i + 1;
      }
    }
  }
}
