/** The requests the bridge sends to its agent (docker/opencode-bridge/server.js): ids, the pending
    table, and the timer of each pending request. */
module Rpc {
  import opened Options

  /** A JSON value, as far as the bridge looks at it: whether `if (value)` holds. */
  datatype Value = Value(truthy: bool, tag: int)

  datatype Settled = Resolved(value: Value) | Rejected(error: Value) | TimedOut | ProcessGone

  datatype Settlement = Settlement(id: nat, outcome: Settled)

  datatype Table = Table(
    nextReqId: nat,             // shared by every session of the process
    pending: map<nat, nat>,     // request id -> its timer
    timers: map<nat, nat>,      // armed timers -> the request their callback rejects
    nextTimer: nat,
    sent: seq<nat>,             // history: the ids written to the agent
    settled: seq<Settlement>)   // history: the promises settled

  const INITIAL := Table(1, map[], map[], 1, [], [])

  function Send(t: Table): Table {
    t.(nextReqId := t.nextReqId + 1,
       nextTimer := t.nextTimer + 1,
       timers := t.timers[t.nextTimer := t.nextReqId],
       pending := t.pending[t.nextReqId := t.nextTimer],
       sent := t.sent + [t.nextReqId])
  }

  /** Another session of the same process draws an id. */
  function IdTakenElsewhere(t: Table): Table {
    t.(nextReqId := t.nextReqId + 1)
  }

  /** A response to pending request `id`: its timer is cleared and its promise settled. */
  function Settle(t: Table, id: nat, result: Option<Value>, error: Option<Value>): Table
    requires id in t.pending
  {
    var outcome :=
      if error.Some? && error.value.truthy then Rejected(error.value)
      else Resolved(if result.Some? then result.value else Value(false, 0));
    t.(timers := t.timers - {t.pending[id]},
       pending := t.pending - {id},
       settled := t.settled + [Settlement(id, outcome)])
  }

  /** A cleared timer does not fire. */
  function Timeout(t: Table, timer: nat): Table {
    if timer !in t.timers then t
    else
      var id := t.timers[timer];
      t.(timers := t.timers - {timer},
         pending := t.pending - {id},
         settled := t.settled + [Settlement(id, TimedOut)])
  }

  /** The pending ids below `bound`, in the order they were inserted. */
  function PendingBelow(pending: map<nat, nat>, bound: nat): seq<nat> {
    if bound == 0 then []
    else PendingBelow(pending, bound - 1) + (if bound - 1 in pending then [bound - 1] else [])
  }

  function Gone(ids: seq<nat>): seq<Settlement> {
    seq(|ids|, i requires 0 <= i < |ids| => Settlement(ids[i], ProcessGone))
  }

  /** The process exits: every pending request is rejected and its timer cleared. */
  function Exit(t: Table): Table {
    t.(timers := t.timers - t.pending.Values,
       pending := map[],
       settled := t.settled + Gone(PendingBelow(t.pending, t.nextReqId)))
  }

  datatype Event =
    | Sends
    | OtherSends
    | Answered(id: nat, result: Option<Value>, error: Option<Value>)
    | TimerFires(timer: nat)
    | Exits

  function Step(t: Table, event: Event): Table {
    match event
    case Sends => Send(t)
    case OtherSends => IdTakenElsewhere(t)
    case Answered(id, result, error) => if id in t.pending then Settle(t, id, result, error) else t
    case TimerFires(timer) => Timeout(t, timer)
    case Exits => Exit(t)
  }

  function Run(t: Table, events: seq<Event>): Table
    decreases |events|
  {
    if events == [] then t else Run(Step(t, events[0]), events[1..])
  }

  function Times(settled: seq<Settlement>, id: nat): nat {
    if settled == [] then 0
    else Times(settled[..|settled| - 1], id) + (if settled[|settled| - 1].id == id then 1 else 0)
  }

  function TimesSent(sent: seq<nat>, id: nat): nat {
    if sent == [] then 0
    else TimesSent(sent[..|sent| - 1], id) + (if sent[|sent| - 1] == id then 1 else 0)
  }

  /** Every id drawn so far was sent at most once, and is either pending or settled once. */
  ghost predicate Accounted(t: Table) {
    forall id: nat ::
      && TimesSent(t.sent, id) <= (if id < t.nextReqId then 1 else 0)
      && Times(t.settled, id) + (if id in t.pending then 1 else 0) == TimesSent(t.sent, id)
  }

  /** A timer is armed exactly while its request is pending. */
  ghost predicate TimersMatch(t: Table) {
    && (forall id :: id in t.pending ==> t.pending[id] in t.timers && t.timers[t.pending[id]] == id)
    && (forall h :: h in t.timers ==> h < t.nextTimer && t.timers[h] in t.pending && t.pending[t.timers[h]] == h)
  }

  ghost predicate Inv(t: Table) {
    Accounted(t) && TimersMatch(t)
  }

  lemma TimesSnoc(settled: seq<Settlement>, last: Settlement, id: nat)
    ensures Times(settled + [last], id) == Times(settled, id) + (if last.id == id then 1 else 0)
  {
    assert (settled + [last])[..|settled|] == settled;
  }

  lemma TimesSentSnoc(sent: seq<nat>, last: nat, id: nat)
    ensures TimesSent(sent + [last], id) == TimesSent(sent, id) + (if last == id then 1 else 0)
  {
    assert (sent + [last])[..|sent|] == sent;
  }

  lemma SendKeeps(t: Table)
    requires Inv(t)
    ensures Inv(Send(t)) && t.nextReqId !in t.sent
  {
    forall id: nat ensures TimesSent(Send(t).sent, id) == TimesSent(t.sent, id) + (if t.nextReqId == id then 1 else 0) {
      TimesSentSnoc(t.sent, t.nextReqId, id);
    }
    SentCounts(t.sent, t.nextReqId);
    assert Times(t.settled, t.nextReqId) + (if t.nextReqId in t.pending then 1 else 0) == TimesSent(t.sent, t.nextReqId);
  }

  lemma {:induction false} SentCounts(sent: seq<nat>, id: nat)
    ensures id in sent <==> TimesSent(sent, id) > 0
    decreases |sent|
  {
    if sent != [] {
      SentCounts(sent[..|sent| - 1], id);
      assert sent == sent[..|sent| - 1] + [sent[|sent| - 1]];
    }
  }

  lemma RemoveKeeps(t: Table, id: nat, outcome: Settled)
    requires Inv(t) && id in t.pending
    ensures Inv(t.(timers := t.timers - {t.pending[id]},
                   pending := t.pending - {id},
                   settled := t.settled + [Settlement(id, outcome)]))
  {
    forall other: nat ensures Times(t.settled + [Settlement(id, outcome)], other) == Times(t.settled, other) + (if other == id then 1 else 0) {
      TimesSnoc(t.settled, Settlement(id, outcome), other);
    }
  }

  lemma {:induction false} PendingBelowIsPending(pending: map<nat, nat>, bound: nat, settled: seq<Settlement>, id: nat)
    ensures Times(settled + Gone(PendingBelow(pending, bound)), id) == Times(settled, id) + (if id in pending && id < bound then 1 else 0)
    decreases bound
  {
    var ids := PendingBelow(pending, bound);
    if bound == 0 {
      assert settled + Gone(ids) == settled;
    } else {
      var before := PendingBelow(pending, bound - 1);
      PendingBelowIsPending(pending, bound - 1, settled, id);
      if bound - 1 in pending {
        assert settled + Gone(ids) == (settled + Gone(before)) + [Settlement(bound - 1, ProcessGone)];
        TimesSnoc(settled + Gone(before), Settlement(bound - 1, ProcessGone), id);
      } else {
        assert ids == before;
      }
    }
  }

  lemma ExitKeeps(t: Table)
    requires Inv(t)
    ensures Inv(Exit(t)) && Exit(t).timers == map[]
  {
    forall id: nat ensures Times(Exit(t).settled, id) == Times(t.settled, id) + (if id in t.pending then 1 else 0) {
      PendingBelowIsPending(t.pending, t.nextReqId, t.settled, id);
      assert TimesSent(t.sent, id) <= (if id < t.nextReqId then 1 else 0);
    }
    forall h | h in t.timers ensures h in t.pending.Values {
      assert t.pending[t.timers[h]] == h;
    }
  }

  lemma StepKeeps(t: Table, event: Event)
    requires Inv(t)
    ensures Inv(Step(t, event))
  {
    match event
    case Sends => SendKeeps(t);
    case OtherSends =>
    case Answered(id, result, error) =>
      if id in t.pending {
        RemoveKeeps(t, id, Settle(t, id, result, error).settled[|t.settled|].outcome);
      }
    case TimerFires(timer) =>
      if timer in t.timers {
        RemoveKeeps(t, t.timers[timer], TimedOut);
      }
    case Exits => ExitKeeps(t);
  }

  lemma {:induction false} RunKeeps(t: Table, events: seq<Event>)
    requires Inv(t)
    ensures Inv(Run(t, events))
    decreases |events|
  {
    if events != [] {
      StepKeeps(t, events[0]);
      RunKeeps(Step(t, events[0]), events[1..]);
    }
  }

  /** Settled ids stay settled, sent ids stay sent. */
  lemma StepForgetsNothing(t: Table, event: Event, id: nat)
    requires Inv(t)
    ensures Times(Step(t, event).settled, id) >= Times(t.settled, id)
    ensures TimesSent(Step(t, event).sent, id) >= TimesSent(t.sent, id)
    ensures id in t.pending && id in Step(t, event).pending ==> Step(t, event).pending[id] == t.pending[id]
  {
    StepKeeps(t, event);
    match event
    case Sends => TimesSentSnoc(t.sent, t.nextReqId, id);
    case OtherSends =>
    case Answered(other, result, error) =>
      if other in t.pending {
        TimesSnoc(t.settled, Settle(t, other, result, error).settled[|t.settled|], id);
      }
    case TimerFires(timer) =>
      if timer in t.timers {
        TimesSnoc(t.settled, Settlement(t.timers[timer], TimedOut), id);
      }
    case Exits =>
      PendingBelowIsPending(t.pending, t.nextReqId, t.settled, id);
  }

  lemma {:induction false} StaysSettled(t: Table, events: seq<Event>, id: nat)
    requires Inv(t) && TimesSent(t.sent, id) == 1 && Times(t.settled, id) == 1
    ensures Times(Run(t, events).settled, id) == 1 && id !in Run(t, events).pending
    decreases |events|
  {
    if events != [] {
      StepForgetsNothing(t, events[0], id);
      StepKeeps(t, events[0]);
      StaysSettled(Step(t, events[0]), events[1..], id);
    }
  }

  /** The deadline of a pending request: its own timer firing, or the process exiting. */
  predicate Deadline(t: Table, event: Event, id: nat)
    requires id in t.pending
  {
    event == TimerFires(t.pending[id]) || event.Exits?
  }

  /** In every run, each request is settled at most once; and once its timer fires or the process
      exits it has been settled exactly once, by that or by an earlier response, whatever else the
      agent, the timers and other sessions did in between. */
  lemma {:induction false} SettledByDeadline(t: Table, events: seq<Event>, id: nat)
    requires Inv(t) && id in t.pending
    ensures Times(Run(t, events).settled, id) <= 1
    ensures (exists e :: e in events && Deadline(t, e, id)) ==>
              Times(Run(t, events).settled, id) == 1 && id !in Run(t, events).pending
    decreases |events|
  {
    assert TimesSent(t.sent, id) == 1;
    RunKeeps(t, events);
    var end := Run(t, events);
    assert TimesSent(end.sent, id) <= 1;
    assert Times(end.settled, id) <= 1;
    if events != [] {
      var next := Step(t, events[0]);
      StepKeeps(t, events[0]);
      StepForgetsNothing(t, events[0], id);
      if id in next.pending {
        assert !Deadline(t, events[0], id);
        SettledByDeadline(next, events[1..], id);
        if e :| e in events && Deadline(t, e, id) {
          assert e in events[1..] && Deadline(next, e, id);
        }
      } else {
        assert TimesSent(next.sent, id) <= 1;
        StaysSettled(next, events[1..], id);
      }
    }
  }

  lemma {:induction false} RunInTwo(t: Table, a: seq<Event>, b: seq<Event>)
    ensures Run(t, a + b) == Run(Run(t, a), b)
    decreases |a|
  {
    if a == [] {
      assert a + b == b;
    } else {
      assert (a + b)[1..] == a[1..] + b;
      RunInTwo(Step(t, a[0]), a[1..], b);
    }
  }

  /** Every id sent in a run was never sent before, and a timer is armed exactly for each request
      that is still pending. */
  lemma FreshAndTimed(events: seq<Event>)
    ensures var t := Run(INITIAL, events);
            && t.nextReqId !in t.sent
            && (forall id: nat :: TimesSent(t.sent, id) <= 1)
            && (forall h :: h in t.timers <==> exists id :: id in t.pending && t.pending[id] == h)
  {
    assert Inv(INITIAL);
    RunKeeps(INITIAL, events);
    var t := Run(INITIAL, events);
    SendKeeps(t);
    forall h | h in t.timers ensures exists id :: id in t.pending && t.pending[id] == h {
      assert t.timers[h] in t.pending && t.pending[t.timers[h]] == h;
    }
  }

  // ----- what a request is settled with -----

  /** `undefined`, which a response without result resolves with. */
  const UNDEFINED := Value(false, 0)

  /** In this state the event settles the promise so: a response rejects it with its error when that is
      truthy and otherwise resolves it with its result; a time-out comes from the request's own timer. */
  predicate Causes(t: Table, event: Event, x: Settlement) {
    && x.id in t.pending
    && match x.outcome
       case TimedOut => event == TimerFires(t.pending[x.id])
       case ProcessGone => event.Exits?
       case Rejected(e) => event.Answered? && event.id == x.id && event.error == Some(e) && e.truthy
       case Resolved(v) =>
         && event.Answered? && event.id == x.id
         && (event.error.Some? ==> !event.error.value.truthy)
         && v == (if event.result.Some? then event.result.value else UNDEFINED)
  }

  lemma StepCauses(t: Table, event: Event, x: Settlement)
    requires Inv(t)
    ensures x in Step(t, event).settled <==> x in t.settled || Causes(t, event, x)
    ensures t.settled <= Step(t, event).settled
  {
    if event.Exits? {
      GoneAre(t.pending, t.nextReqId, x);
      assert x.id in t.pending ==> x.id < t.nextReqId by {
        assert TimesSent(t.sent, x.id) <= (if x.id < t.nextReqId then 1 else 0);
      }
    }
  }

  lemma GoneAre(pending: map<nat, nat>, bound: nat, x: Settlement)
    ensures x in Gone(PendingBelow(pending, bound)) <==> x.outcome == ProcessGone && x.id in pending && x.id < bound
  {
    BelowAre(pending, bound, x.id);
    var ids := PendingBelow(pending, bound);
    if x.outcome == ProcessGone && x.id in ids {
      var i :| 0 <= i < |ids| && ids[i] == x.id;
      assert Gone(ids)[i] == x;
    }
  }

  lemma {:induction false} BelowAre(pending: map<nat, nat>, bound: nat, id: nat)
    ensures id in PendingBelow(pending, bound) <==> id in pending && id < bound
    decreases bound
  {
    if bound > 0 {
      BelowAre(pending, bound - 1, id);
    }
  }

  /** Some event of the run settles the promise so, in the state in which it happens. */
  ghost predicate Caused(t: Table, events: seq<Event>, x: Settlement) {
    exists i :: 0 <= i < |events| && Causes(Run(t, events[..i]), events[i], x)
  }

  /** In every run the promises settled are exactly those that some event settles, and with that
      outcome: a time-out only by the request's own timer, a lost process only by the exit. */
  lemma {:induction false} SettledAsCaused(t: Table, events: seq<Event>, x: Settlement)
    requires Inv(t)
    ensures x in Run(t, events).settled <==> x in t.settled || Caused(t, events, x)
    decreases |events|
  {
    if events != [] {
      hide Inv, Causes, Step;
      var next, rest := Step(t, events[0]), events[1..];
      StepKeeps(t, events[0]);
      StepCauses(t, events[0], x);
      SettledAsCaused(next, rest, x);
      CausedStep(t, events, x);
    }
  }

  lemma CausedStep(t: Table, events: seq<Event>, x: Settlement)
    requires events != []
    ensures Caused(t, events, x) <==> Causes(t, events[0], x) || Caused(Step(t, events[0]), events[1..], x)
  {
    hide Causes, Step;
    var next, rest := Step(t, events[0]), events[1..];
    assert Run(t, events[..0]) == t;
    forall i | 0 < i < |events| ensures Run(t, events[..i]) == Run(next, rest[..i - 1]) {
      assert events[..i][1..] == rest[..i - 1];
    }
    if Causes(t, events[0], x) {
      assert Causes(Run(t, events[..0]), events[0], x);
    }
    if Caused(next, rest, x) {
      var i :| 0 <= i < |rest| && Causes(Run(next, rest[..i]), rest[i], x);
      assert Causes(Run(t, events[..i + 1]), events[i + 1], x);
    }
    if Caused(t, events, x) && !Causes(t, events[0], x) {
      var i :| 0 <= i < |events| && Causes(Run(t, events[..i]), events[i], x);
      assert Causes(Run(next, rest[..i - 1]), rest[i - 1], x);
    }
  }
}
