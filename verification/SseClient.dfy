/** `BrowserAcpClient` itself: the fields its methods update in place, and for every task the
    browser runs a method proved against the machine of module SseConnection. Tasks keep `Valid()`;
    `StopTimer`, `CloseSource`, `Connect`, `Schedule` and `EmitConnectionIssue` are parts of tasks. */
module SseClient {
  import opened Options
  import opened SseConnection

  class BrowserAcpClient {
    var sessionId: Option<string>
    var eventSource: Option<nat>
    var lastEventId: Option<string>
    var reconnectTimer: Option<nat>
    var sseAttempt: nat
    var ownershipConflictRetryState: map<string, nat>
    // the browser's side
    var sources: seq<Source>
    var timers: map<nat, int>
    var nextTimer: nat
    var probes: map<nat, Probe>
    var answers: map<nat, Answer>
    ghost var cursorOwner: string
    ghost var reports: seq<Report>

    ghost function View(): State
      reads this
    {
      State(sessionId, eventSource, lastEventId, reconnectTimer, sseAttempt, ownershipConflictRetryState,
            sources, timers, nextTimer, probes, answers, cursorOwner, reports)
    }

    ghost predicate Valid()
      reads this
    {
      Inv(View())
    }

    constructor ()
      ensures View() == INITIAL && Valid()
    {
      sessionId, eventSource, lastEventId, reconnectTimer, sseAttempt := None, None, None, None, 0;
      ownershipConflictRetryState := map[];
      sources, timers, nextTimer, probes, answers := [], map[], 1, map[], map[];
      cursorOwner, reports := "", [];
    }

    /** Called by the page, by a handler in the middle of a callback, and by `Adopted`. */
    method AttachTo(session: string)
      modifies this
      ensures View() == AttachSession(old(View()), session)
      ensures old(Safe(View())) ==> Valid()
    {
      if Safe(View()) {
        AttachKeeps(View(), session);
      }
      if sessionId != Some(session) {
        if sessionId.Some? && sessionId.value != "" {
          ownershipConflictRetryState := ownershipConflictRetryState - {sessionId.value};
        }
        lastEventId := None;
      }
      sessionId := Some(session);
      Connect(session);
    }

    /** What `newSession` and `loadSession` do with the session id the server returned. */
    method Adopted(session: string)
      requires Valid()
      modifies this
      ensures Valid() && View() == AdoptSession(old(View()), session)
    {
      AdoptKeeps(View(), session);
      sessionId := Some(session);
      AttachTo(session);
    }

    method StopTimer()
      modifies this`timers, this`reconnectTimer
      ensures timers == ClearTimer(old(timers), old(reconnectTimer)) && reconnectTimer == None
    {
      if reconnectTimer.Some? {
        timers := timers - {reconnectTimer.value};
        reconnectTimer := None;
      }
    }

    method CloseSource()
      modifies this`sources, this`eventSource
      ensures sources == CloseHeld(old(sources), old(eventSource)) && eventSource == None
    {
      if eventSource.Some? {
        if eventSource.value < |sources| {
          sources := sources[eventSource.value := sources[eventSource.value].(closed := true)];
        }
        eventSource := None;
      }
    }

    /** Called by the page and by a handler in the middle of a callback. */
    method Disconnected()
      modifies this
      ensures View() == DisconnectAll(old(View()))
      ensures old(Safe(View())) ==> Valid()
    {
      if Safe(View()) {
        DisconnectKeeps(View());
      }
      StopTimer();
      CloseSource();
      sessionId := None;
      lastEventId := None;
      ownershipConflictRetryState := map[];
    }

    method Connect(session: string)
      modifies this
      ensures View() == ConnectSse(old(View()), session)
    {
      sseAttempt := sseAttempt + 1;
      var attempt := sseAttempt;
      StopTimer();
      CloseSource();
      probes := probes[attempt := Probe(session, lastEventId)];
    }

    method Schedule(delayMs: int)
      modifies this
      ensures View() == ScheduleReconnect(old(View()), delayMs)
    {
      if reconnectTimer.Some? {
        return;
      }
      reconnectTimer := Some(nextTimer);
      timers := timers[nextTimer := delayMs];
      nextTimer := nextTimer + 1;
    }

    method GetOwnershipConflictRetryDelayMs(session: string) returns (delay: Option<int>)
      modifies this`ownershipConflictRetryState
      ensures (delay, ownershipConflictRetryState) == ConflictDelay(old(ownershipConflictRetryState), session)
    {
      var attempts := Count(ownershipConflictRetryState, session) + 1;
      if attempts > RETRY_LIMIT {
        ownershipConflictRetryState := ownershipConflictRetryState - {session};
        return None;
      }
      ownershipConflictRetryState := ownershipConflictRetryState[session := attempts];
      var backoff := BASE_DELAY_MS * Power(MULTIPLIER, attempts - 1);
      delay := Some(if backoff < MAX_DELAY_MS then backoff else MAX_DELAY_MS);
    }

    /** The rest of `probeSse` once its fetch has settled. */
    method ProbeSettled(attempt: nat, outcome: Outcome)
      requires Valid()
      modifies this
      ensures Valid() && View() == SettleProbe(old(View()), attempt, outcome)
    {
      SettleKeeps(View(), attempt, outcome);
      if attempt !in probes {
        return;
      }
      var probe := probes[attempt];
      var issue := None;
      if outcome.Refused? {
        var delay := None;
        if outcome.status == CONFLICT {
          delay := GetOwnershipConflictRetryDelayMs(probe.session);
        }
        issue := Some(Issue(probe.session, outcome.status, outcome.status != CONFLICT || delay.Some?, delay));
      } else {
        ownershipConflictRetryState := ownershipConflictRetryState - {probe.session};
      }
      probes := probes - {attempt};
      answers := answers[attempt := Answer(probe, issue)];
    }

    /** Tell the handlers, which may attach or disconnect before they return. */
    method EmitConnectionIssue(attempt: nat, issue: Issue, reactions: seq<Reaction>)
      modifies this
      ensures View() == React(old(View()).(reports := old(reports) + [Report(attempt, issue)]), reactions)
    {
      reports := reports + [Report(attempt, issue)];
      ghost var start := View();
      var i := 0;
      while i < |reactions|
        invariant 0 <= i <= |reactions|
        invariant React(start, reactions) == React(View(), reactions[i..])
      {
        match reactions[i] {
          case HandlerAttaches(s) => AttachTo(s);
          case HandlerDisconnects => Disconnected();
        }
        assert reactions[i..][1..] == reactions[i + 1..];
        i := i + 1;
      }
      assert reactions[i..] == [];
    }

    /** The callback chained on `probeSse`. */
    method ProbeContinued(attempt: nat, reactions: seq<Reaction>)
      requires Valid()
      modifies this
      ensures Valid() && View() == ContinueProbe(old(View()), attempt, reactions)
    {
      ContinueKeeps(View(), attempt, reactions);
      if attempt !in answers {
        return;
      }
      var answer := answers[attempt];
      answers := answers - {attempt};
      if attempt != sseAttempt || sessionId != Some(answer.probe.session) {
        return;
      }
      if answer.issue.Some? {
        var issue := answer.issue.value;
        EmitConnectionIssue(attempt, issue, reactions);
        if issue.retryable {
          Schedule(if issue.retryDelayMs.Some? then issue.retryDelayMs.value else RECONNECT_DELAY_MS);
        }
        return;
      }
      eventSource := Some(|sources|);
      sources := sources + [Source(answer.probe.session, answer.probe.cursor, false)];
    }

    method TimerFired(timer: nat)
      requires Valid()
      modifies this
      ensures Valid() && View() == FireTimer(old(View()), timer)
    {
      TimerKeeps(View(), timer);
      if timer !in timers {
        return;
      }
      timers := timers - {timer};
      reconnectTimer := None;
      if sessionId.Some? && sessionId.value != "" {
        Connect(sessionId.value);
      }
    }

    /** A source fails, for good when `fatal`, and its `onerror` runs. */
    method ConnectionFailed(source: nat, fatal: bool)
      requires Valid()
      modifies this
      ensures Valid() && View() == FailConnection(old(View()), source, fatal)
    {
      ErrorKeeps(View(), source, fatal);
      if source >= |sources| {
        return;
      }
      sources := sources[source := sources[source].(closed := sources[source].closed || fatal)];
      if eventSource.Some? && eventSource.value < |sources| && sources[eventSource.value].closed {
        Schedule(RECONNECT_DELAY_MS);
      }
    }

    method MessageReceived(source: nat, eventId: string)
      requires Valid()
      modifies this
      ensures Valid() && View() == TakeMessage(old(View()), source, eventId)
    {
      if source < |sources| && !sources[source].closed && eventId != "" {
        lastEventId := Some(eventId);
        cursorOwner := sources[source].session;
      }
    }

    /** One turn of the browser's event loop. */
    method Perform(event: Event)
      requires Valid()
      modifies this
      ensures Valid() && View() == Step(old(View()), event)
    {
      assert Safe(View());
      hide Inv, Safe;
      match event {
        case Attach(session) => AttachTo(session);
        case Adopt(session) => Adopted(session);
        case Disconnect => Disconnected();
        case ProbeSettles(attempt, outcome) => ProbeSettled(attempt, outcome);
        case ProbeContinues(attempt, reactions) => ProbeContinued(attempt, reactions);
        case TimerFires(timer) => TimerFired(timer);
        case ConnectionError(source, fatal) => ConnectionFailed(source, fatal);
        case MessageArrives(source, eventId) => MessageReceived(source, eventId);
      }
    }

    /** However the event loop orders its tasks, the object is valid and its fields are those of the run. */
    method PerformAll(events: seq<Event>)
      requires Valid()
      modifies this
      ensures Valid() && View() == Run(old(View()), events)
    {
      hide Inv, Step;
      ghost var start := View();
      assert events[0..] == events;
      for i := 0 to |events|
        invariant Valid() && Run(View(), events[i..]) == Run(start, events)
      {
        assert events[i..][0] == events[i] && events[i..][1..] == events[i + 1..];
        Perform(events[i]);
      }
      assert events[|events|..] == [];
    }

    /** What holds of the fields between any two tasks. */
    lemma OneConnection()
      requires Valid()
      ensures forall i :: 0 <= i < |sources| && !sources[i].closed ==>
                eventSource == Some(i) && sessionId == Some(sources[i].session)
      ensures |timers| <= 1 && forall t :: t in timers ==> reconnectTimer == Some(t)
      ensures NeverStuck(View())
    {
      InvMeans(View());
    }
  }
}
