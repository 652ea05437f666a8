/** The browser client's SSE connection (src/client/acp-client.ts) as a machine whose steps are
    the tasks the browser runs: calls from the page, a probe's response arriving, the callback
    chained on it, a timer firing, and events of an EventSource. Any order of steps is a run. */
module SseConnection {
  import opened Options

  const RETRY_LIMIT := 4
  const BASE_DELAY_MS := 1200
  const MULTIPLIER := 2
  const MAX_DELAY_MS := 10000
  const RECONNECT_DELAY_MS := 2000
  const CONFLICT := 409

  /** An EventSource ever created, by creation order, with the session and cursor of its URL. */
  datatype Source = Source(session: string, cursor: Option<string>, closed: bool)

  /** A `fetch` of the attach URL on its way. */
  datatype Probe = Probe(session: string, cursor: Option<string>)

  /** What the fetch came to: an ok response, a thrown error, or an error status. */
  datatype Outcome = Reachable | Unreachable | Refused(status: int)

  datatype Issue = Issue(session: string, status: int, retryable: bool, retryDelayMs: Option<int>)

  /** A probe that has settled while the callback chained on it has not run yet. */
  datatype Answer = Answer(probe: Probe, issue: Option<Issue>)

  datatype Report = Report(attempt: nat, issue: Issue)

  /** What a connection-issue handler may do to the client before it returns. */
  datatype Reaction = HandlerAttaches(session: string) | HandlerDisconnects

  datatype State = State(
    // fields of the client
    session: Option<string>,
    eventSource: Option<nat>,
    lastEventId: Option<string>,
    reconnectTimer: Option<nat>,
    sseAttempt: nat,
    retries: map<string, nat>,
    // tables of the browser
    sources: seq<Source>,
    timers: map<nat, int>,
    nextTimer: nat,
    probes: map<nat, Probe>,
    answers: map<nat, Answer>,
    // history: the session whose stream produced `lastEventId`, and the issues reported
    cursorOwner: string,
    reports: seq<Report>)

  const INITIAL := State(None, None, None, None, 0, map[], [], map[], 1, map[], map[], "", [])

  datatype Event =
    | Attach(session: string)
    | Adopt(session: string)
    | Disconnect
    | ProbeSettles(attempt: nat, outcome: Outcome)
    | ProbeContinues(attempt: nat, reactions: seq<Reaction>)
    | TimerFires(timer: nat)
    | ConnectionError(source: nat, fatal: bool)
    | MessageArrives(source: nat, eventId: string)

  // ----- what each task does -----

  /** `eventSource.close()` for the source the client holds. */
  function CloseHeld(sources: seq<Source>, held: Option<nat>): seq<Source> {
    if held.Some? && held.value < |sources|
    then sources[held.value := sources[held.value].(closed := true)]
    else sources
  }

  function ClearTimer(timers: map<nat, int>, timer: Option<nat>): map<nat, int> {
    if timer.Some? then timers - {timer.value} else timers
  }

  function ConnectSse(st: State, session: string): State {
    st.(sseAttempt := st.sseAttempt + 1,
        timers := ClearTimer(st.timers, st.reconnectTimer),
        reconnectTimer := None,
        sources := CloseHeld(st.sources, st.eventSource),
        eventSource := None,
        probes := st.probes[st.sseAttempt + 1 := Probe(session, st.lastEventId)])
  }

  /** Only a real switch forgets the old session's conflicts and the stream cursor. */
  function AttachSession(st: State, session: string): State {
    var switched :=
      if st.session == Some(session) then st
      else st.(retries := if st.session.Some? && st.session.value != "" then st.retries - {st.session.value} else st.retries,
               lastEventId := None);
    ConnectSse(switched.(session := Some(session)), session)
  }

  /** The end of `newSession` and `loadSession`: `_sessionId` is assigned before attaching. */
  function AdoptSession(st: State, session: string): State {
    AttachSession(st.(session := Some(session)), session)
  }

  function DisconnectAll(st: State): State {
    st.(timers := ClearTimer(st.timers, st.reconnectTimer),
        reconnectTimer := None,
        sources := CloseHeld(st.sources, st.eventSource),
        eventSource := None,
        session := None,
        lastEventId := None,
        retries := map[])
  }

  function ScheduleReconnect(st: State, delay: int): State {
    if st.reconnectTimer.Some? then st
    else st.(reconnectTimer := Some(st.nextTimer),
             timers := st.timers[st.nextTimer := delay],
             nextTimer := st.nextTimer + 1)
  }

  function Count(retries: map<string, nat>, session: string): nat {
    if session in retries then retries[session] else 0
  }

  function Power(base: int, exponent: nat): int {
    if exponent == 0 then 1 else base * Power(base, exponent - 1)
  }

  function BackoffMs(attempts: nat): int
    requires attempts >= 1
  {
    var backoff := BASE_DELAY_MS * Power(MULTIPLIER, attempts - 1);
    if backoff < MAX_DELAY_MS then backoff else MAX_DELAY_MS
  }

  /** The delay before the next try, none after the last one, and the new counts. */
  function ConflictDelay(retries: map<string, nat>, session: string): (Option<int>, map<string, nat>) {
    var attempts := Count(retries, session) + 1;
    if attempts > RETRY_LIMIT then (None, retries - {session})
    else (Some(BackoffMs(attempts)), retries[session := attempts])
  }

  /** What `probeSse` returns for an outcome, and what it does to the conflict counts. */
  function ProbeResult(retries: map<string, nat>, session: string, outcome: Outcome): (Option<Issue>, map<string, nat>) {
    match outcome
    case Refused(status) =>
      if status == CONFLICT then
        var (delay, counted) := ConflictDelay(retries, session);
        (Some(Issue(session, status, delay.Some?, delay)), counted)
      else
        (Some(Issue(session, status, true, None)), retries)
    case _ => (None, retries - {session})
  }

  /** The response arrives. The counter moves here, before anyone asks whether the probe is stale. */
  function SettleProbe(st: State, attempt: nat, outcome: Outcome): State {
    if attempt !in st.probes then st
    else
      var probe := st.probes[attempt];
      var (issue, counted) := ProbeResult(st.retries, probe.session, outcome);
      st.(retries := counted,
          probes := st.probes - {attempt},
          answers := st.answers[attempt := Answer(probe, issue)])
  }

  function React(st: State, reactions: seq<Reaction>): State
    decreases |reactions|
  {
    if reactions == [] then st
    else
      var next := match reactions[0]
                  case HandlerAttaches(s) => AttachSession(st, s)
                  case HandlerDisconnects => DisconnectAll(st);
      React(next, reactions[1..])
  }

  /** The callback chained on the probe. */
  function ContinueProbe(st: State, attempt: nat, reactions: seq<Reaction>): State {
    if attempt !in st.answers then st
    else
      var answer := st.answers[attempt];
      var done := st.(answers := st.answers - {attempt});
      if attempt != st.sseAttempt || st.session != Some(answer.probe.session) then done
      else
        match answer.issue
        case Some(issue) =>
          var reported := React(done.(reports := st.reports + [Report(attempt, issue)]), reactions);
          if !issue.retryable then reported
          else ScheduleReconnect(reported, if issue.retryDelayMs.Some? then issue.retryDelayMs.value else RECONNECT_DELAY_MS)
        case None =>
          done.(sources := st.sources + [Source(answer.probe.session, answer.probe.cursor, false)],
                eventSource := Some(|st.sources|))
  }

  function FireTimer(st: State, timer: nat): State {
    if timer !in st.timers then st
    else
      var fired := st.(timers := st.timers - {timer}, reconnectTimer := None);
      if st.session.Some? && st.session.value != "" then ConnectSse(fired, st.session.value) else fired
  }

  /** `onerror` looks at the source the client holds now, whichever source reported the error. */
  function FailConnection(st: State, source: nat, fatal: bool): State {
    if source >= |st.sources| then st
    else
      var failed := Failed(st, source, fatal);
      if failed.eventSource.Some? && failed.eventSource.value < |failed.sources| && failed.sources[failed.eventSource.value].closed
      then ScheduleReconnect(failed, RECONNECT_DELAY_MS)
      else failed
  }

  /** A closed EventSource delivers nothing; an empty event id is ignored. */
  function TakeMessage(st: State, source: nat, eventId: string): State {
    if source >= |st.sources| || st.sources[source].closed || eventId == "" then st
    else st.(lastEventId := Some(eventId), cursorOwner := st.sources[source].session)
  }

  function Step(st: State, event: Event): State {
    match event
    case Attach(session) => AttachSession(st, session)
    case Adopt(session) => AdoptSession(st, session)
    case Disconnect => DisconnectAll(st)
    case ProbeSettles(attempt, outcome) => SettleProbe(st, attempt, outcome)
    case ProbeContinues(attempt, reactions) => ContinueProbe(st, attempt, reactions)
    case TimerFires(timer) => FireTimer(st, timer)
    case ConnectionError(source, fatal) => FailConnection(st, source, fatal)
    case MessageArrives(source, eventId) => TakeMessage(st, source, eventId)
  }

  function Run(st: State, events: seq<Event>): State
    decreases |events|
  {
    if events == [] then st else Run(Step(st, events[0]), events[1..])
  }

  // ----- safety -----

  /** The current attempt's probe is still to be answered. */
  predicate Pending(st: State) {
    st.sseAttempt in st.probes || st.sseAttempt in st.answers
  }

  ghost predicate Connected(st: State) {
    st.eventSource.Some? && st.eventSource.value < |st.sources| && !st.sources[st.eventSource.value].closed
  }

  /** The current attempt ended in an issue that is not retried. */
  predicate GaveUp(st: State) {
    |st.reports| > 0 && st.reports[|st.reports| - 1].attempt == st.sseAttempt && !st.reports[|st.reports| - 1].issue.retryable
  }

  ghost predicate OnlyHeldSourceOpen(st: State) {
    && (forall i :: 0 <= i < |st.sources| && !st.sources[i].closed ==> st.eventSource == Some(i))
    && (st.eventSource.Some? ==>
          && st.eventSource.value < |st.sources|
          && st.session == Some(st.sources[st.eventSource.value].session))
  }

  ghost predicate OneTimer(st: State) {
    && st.timers.Keys == (if st.reconnectTimer.Some? then {st.reconnectTimer.value} else {})
    && (st.reconnectTimer.Some? ==> st.reconnectTimer.value < st.nextTimer)
  }

  ghost predicate AttemptsInOrder(st: State) {
    && (forall a :: a in st.probes ==> a <= st.sseAttempt)
    && (forall a :: a in st.answers ==> a <= st.sseAttempt && a !in st.probes)
    && (Pending(st) ==> st.eventSource == None)
    && (st.session.Some? && st.sseAttempt in st.probes ==> st.probes[st.sseAttempt].session == st.session.value)
    && (st.session.Some? && st.sseAttempt in st.answers ==> st.answers[st.sseAttempt].probe.session == st.session.value)
  }

  ghost predicate CountsBounded(st: State) {
    forall s :: s in st.retries ==> 1 <= st.retries[s] <= RETRY_LIMIT
  }

  /** A client attached to a session is never left with nothing on its way. */
  ghost predicate NeverStuck(st: State) {
    st.session.Some? && st.session.value != "" ==>
      Pending(st) || Connected(st) || st.reconnectTimer.Some? || GaveUp(st)
  }

  ghost predicate Safe(st: State) {
    OnlyHeldSourceOpen(st) && OneTimer(st) && AttemptsInOrder(st) && CountsBounded(st)
  }

  ghost predicate Inv(st: State) {
    Safe(st) && NeverStuck(st)
  }

  lemma ConnectKeeps(st: State, session: string)
    requires st.session == Some(session)
    requires forall i :: 0 <= i < |st.sources| && !st.sources[i].closed ==> st.eventSource == Some(i)
    requires OneTimer(st) && CountsBounded(st)
    requires forall a :: a in st.probes ==> a <= st.sseAttempt
    requires forall a :: a in st.answers ==> a <= st.sseAttempt && a !in st.probes
    ensures Inv(ConnectSse(st, session))
  {
  }

  lemma AttachKeeps(st: State, session: string)
    requires Safe(st)
    ensures Inv(AttachSession(st, session))
  {
    hide Inv, ConnectSse;
    if st.session == Some(session) {
      ConnectKeeps(st.(session := Some(session)), session);
    } else {
      var switched := st.(
        retries := if st.session.Some? && st.session.value != "" then st.retries - {st.session.value} else st.retries,
        lastEventId := None);
      ConnectKeeps(switched.(session := Some(session)), session);
    }
  }

  lemma AdoptKeeps(st: State, session: string)
    requires Safe(st)
    ensures Inv(AdoptSession(st, session))
  {
    hide Inv, ConnectSse;
    ConnectKeeps(st.(session := Some(session)), session);
  }

  lemma DisconnectKeeps(st: State)
    requires Safe(st)
    ensures Inv(DisconnectAll(st))
  {
  }

  lemma {:induction false} ReactKeeps(st: State, reactions: seq<Reaction>)
    requires Inv(st)
    ensures Inv(React(st, reactions))
    decreases |reactions|
  {
    if reactions != [] {
      match reactions[0] {
        case HandlerAttaches(s) =>
          AttachKeeps(st, s);
          ReactKeeps(AttachSession(st, s), reactions[1..]);
        case HandlerDisconnects =>
          DisconnectKeeps(st);
          ReactKeeps(DisconnectAll(st), reactions[1..]);
      }
    }
  }

  lemma ScheduleKeeps(st: State, delay: int)
    requires Safe(st)
    ensures Inv(ScheduleReconnect(st, delay))
  {
  }

  lemma ResultKeepsBounds(st: State, session: string, outcome: Outcome)
    requires CountsBounded(st)
    ensures var counts := ProbeResult(st.retries, session, outcome).1;
            forall s :: s in counts ==> 1 <= counts[s] <= RETRY_LIMIT
  {
  }

  lemma MoveKeeps(st: State, attempt: nat, issue: Option<Issue>, counts: map<string, nat>)
    requires Inv(st) && attempt in st.probes
    requires forall s :: s in counts ==> 1 <= counts[s] <= RETRY_LIMIT
    ensures Inv(st.(retries := counts,
                    probes := st.probes - {attempt},
                    answers := st.answers[attempt := Answer(st.probes[attempt], issue)]))
  {
  }

  lemma SettleKeeps(st: State, attempt: nat, outcome: Outcome)
    requires Inv(st)
    ensures Inv(SettleProbe(st, attempt, outcome))
  {
    if attempt in st.probes {
      var (issue, counts) := ProbeResult(st.retries, st.probes[attempt].session, outcome);
      ResultKeepsBounds(st, st.probes[attempt].session, outcome);
      MoveKeeps(st, attempt, issue, counts);
    }
  }

  lemma ReactMayLeave(st: State, reactions: seq<Reaction>)
    requires Safe(st)
    ensures Safe(React(st, reactions))
  {
    if reactions != [] {
      match reactions[0] {
        case HandlerAttaches(s) =>
          AttachKeeps(st, s);
          ReactKeeps(AttachSession(st, s), reactions[1..]);
        case HandlerDisconnects =>
          DisconnectKeeps(st);
          ReactKeeps(DisconnectAll(st), reactions[1..]);
      }
    }
  }

  lemma ContinueKeeps(st: State, attempt: nat, reactions: seq<Reaction>)
    requires Inv(st)
    ensures Inv(ContinueProbe(st, attempt, reactions))
  {
    if attempt in st.answers {
      var answer := st.answers[attempt];
      var done := st.(answers := st.answers - {attempt});
      if attempt == st.sseAttempt && st.session == Some(answer.probe.session) && answer.issue.Some? {
        var issue := answer.issue.value;
        var reported := done.(reports := st.reports + [Report(attempt, issue)]);
        if issue.retryable {
          ReactMayLeave(reported, reactions);
          ScheduleKeeps(React(reported, reactions),
                        if issue.retryDelayMs.Some? then issue.retryDelayMs.value else RECONNECT_DELAY_MS);
        } else {
          ReactKeeps(reported, reactions);
        }
      } else if attempt == st.sseAttempt && st.session == Some(answer.probe.session) {
        OpenKeeps(st, attempt);
      }
    }
  }

  lemma OpenKeeps(st: State, attempt: nat)
    requires Inv(st) && attempt in st.answers && attempt == st.sseAttempt
    requires st.session == Some(st.answers[attempt].probe.session)
    ensures var probe := st.answers[attempt].probe;
            Inv(st.(answers := st.answers - {attempt},
                    sources := st.sources + [Source(probe.session, probe.cursor, false)],
                    eventSource := Some(|st.sources|)))
  {
  }

  lemma TimerKeeps(st: State, timer: nat)
    requires Inv(st)
    ensures Inv(FireTimer(st, timer))
  {
    if timer in st.timers {
      var fired := st.(timers := st.timers - {timer}, reconnectTimer := None);
      if st.session.Some? { ConnectKeeps(fired, st.session.value); }
    }
  }

  lemma ErrorKeeps(st: State, source: nat, fatal: bool)
    requires Inv(st)
    ensures Inv(FailConnection(st, source, fatal))
  {
    if source < |st.sources| {
      var failed := Failed(st, source, fatal);
      FailedSafe(st, source, fatal);
      ScheduleKeeps(failed, RECONNECT_DELAY_MS);
    }
  }

  function Failed(st: State, source: nat, fatal: bool): State
    requires source < |st.sources|
  {
    st.(sources := st.sources[source := st.sources[source].(closed := st.sources[source].closed || fatal)])
  }

  lemma FailedSafe(st: State, source: nat, fatal: bool)
    requires Inv(st) && source < |st.sources|
    ensures var failed := Failed(st, source, fatal);
            && Safe(failed)
            && (!(failed.eventSource.Some? && failed.sources[failed.eventSource.value].closed) ==> NeverStuck(failed))
  {
  }

  lemma StepKeeps(st: State, event: Event)
    requires Inv(st)
    ensures Inv(Step(st, event))
  {
    match event
    case Attach(session) => AttachKeeps(st, session);
    case Adopt(session) => AdoptKeeps(st, session);
    case Disconnect => DisconnectKeeps(st);
    case ProbeSettles(attempt, outcome) => SettleKeeps(st, attempt, outcome);
    case ProbeContinues(attempt, reactions) => ContinueKeeps(st, attempt, reactions);
    case TimerFires(timer) => TimerKeeps(st, timer);
    case ConnectionError(source, fatal) => ErrorKeeps(st, source, fatal);
    case MessageArrives(source, eventId) =>
  }

  lemma {:induction false} RunKeeps(st: State, events: seq<Event>)
    requires Inv(st)
    ensures Inv(Run(st, events))
    decreases |events|
  {
    if events != [] {
      StepKeeps(st, events[0]);
      RunKeeps(Step(st, events[0]), events[1..]);
    }
  }

  /** What the invariant says of the browser's side. */
  lemma InvMeans(st: State)
    requires Inv(st)
    ensures forall i, j :: 0 <= i < |st.sources| && 0 <= j < |st.sources| && !st.sources[i].closed && !st.sources[j].closed ==> i == j
    ensures forall i :: 0 <= i < |st.sources| && !st.sources[i].closed ==>
              st.eventSource == Some(i) && st.session == Some(st.sources[i].session)
    ensures |st.timers| <= 1
    ensures forall t :: t in st.timers ==> st.reconnectTimer == Some(t)
    ensures NeverStuck(st)
  {
    assert |st.timers| == |st.timers.Keys|;
  }

  /** In every run of the client: two sources are never open at once, an open one is the held one
      and streams the current session, at most one timer is live and it is `reconnectTimer`, and a
      client on a session is connecting, connected, waiting for its timer, or has given up. */
  lemma SafeInEveryRun(events: seq<Event>)
    ensures var st := Run(INITIAL, events);
            && (forall i, j :: 0 <= i < |st.sources| && 0 <= j < |st.sources| && !st.sources[i].closed && !st.sources[j].closed ==> i == j)
            && (forall i :: 0 <= i < |st.sources| && !st.sources[i].closed ==>
                  st.eventSource == Some(i) && st.session == Some(st.sources[i].session))
            && |st.timers| <= 1
            && (forall t :: t in st.timers ==> st.reconnectTimer == Some(t))
            && NeverStuck(st)
  {
    RunKeeps(INITIAL, events);
    InvMeans(Run(INITIAL, events));
  }

  // ----- after disconnect -----

  predicate StartsSession(event: Event) {
    || event.Attach?
    || event.Adopt?
  }

  /** The client is off: no session, nothing open. A timer may be left over from a handler. */
  ghost predicate Off(st: State) {
    st.session == None && st.eventSource == None && (forall i :: 0 <= i < |st.sources| ==> st.sources[i].closed)
  }

  lemma OffStep(st: State, event: Event)
    requires Off(st) && !StartsSession(event)
    ensures Off(Step(st, event)) && |Step(st, event).sources| == |st.sources| && Step(st, event).probes.Keys <= st.probes.Keys
  {
  }

  lemma {:induction false} OffRun(st: State, events: seq<Event>)
    requires Off(st) && forall e :: e in events ==> !StartsSession(e)
    ensures Off(Run(st, events)) && |Run(st, events).sources| == |st.sources| && Run(st, events).probes.Keys <= st.probes.Keys
    decreases |events|
  {
    if events != [] {
      assert events[0] in events;
      OffStep(st, events[0]);
      OffRun(Step(st, events[0]), events[1..]);
    }
  }

  /** After `disconnect`, whatever probe, timer or stream was still around, no connection is opened
      and no probe is sent until the next attach. */
  lemma QuietAfterDisconnect(before: seq<Event>, after: seq<Event>)
    requires forall e :: e in after ==> !StartsSession(e)
    ensures var st := DisconnectAll(Run(INITIAL, before));
            var end := Run(st, after);
            && |end.sources| == |st.sources|
            && (forall i :: 0 <= i < |end.sources| ==> end.sources[i].closed)
            && end.probes.Keys <= st.probes.Keys
  {
    RunKeeps(INITIAL, before);
    OffRun(DisconnectAll(Run(INITIAL, before)), after);
  }

  lemma {:induction false} ReactInTwo(st: State, a: seq<Reaction>, b: seq<Reaction>)
    ensures React(st, a + b) == React(React(st, a), b)
    decreases |a|
  {
    if a == [] {
      assert a + b == b;
    } else {
      assert (a + b)[1..] == a[1..] + b;
      var next := match a[0]
                  case HandlerAttaches(s) => AttachSession(st, s)
                  case HandlerDisconnects => DisconnectAll(st);
      ReactInTwo(next, a[1..], b);
    }
  }

  /** A handler that disconnects while it is told of an issue: the client is off when the callback
      is done, yet a reconnect timer is left armed exactly when the issue was retryable. */
  lemma DisconnectInsideHandler(before: seq<Event>, attempt: nat, reactions: seq<Reaction>)
    requires var st := Run(INITIAL, before);
             && attempt in st.answers && attempt == st.sseAttempt
             && st.session == Some(st.answers[attempt].probe.session)
             && st.answers[attempt].issue.Some?
    ensures var st := Run(INITIAL, before);
            var end := ContinueProbe(st, attempt, reactions + [HandlerDisconnects]);
            Off(end) && (end.reconnectTimer.Some? <==> st.answers[attempt].issue.value.retryable)
  {
    RunKeeps(INITIAL, before);
    var st := Run(INITIAL, before);
    var reported := st.(answers := st.answers - {attempt},
                        reports := st.reports + [Report(attempt, st.answers[attempt].issue.value)]);
    ReactInTwo(reported, reactions, [HandlerDisconnects]);
    ReactMayLeave(reported, reactions);
    var last := React(reported, reactions);
    assert React(last, [HandlerDisconnects]) == DisconnectAll(last);
  }

  /** The timer left behind does nothing: until a session is started, nothing is opened and no probe
      is sent, whatever fires. */
  lemma QuietAfterHandlerDisconnects(before: seq<Event>, attempt: nat, reactions: seq<Reaction>, after: seq<Event>)
    requires var st := Run(INITIAL, before);
             && attempt in st.answers && attempt == st.sseAttempt
             && st.session == Some(st.answers[attempt].probe.session)
             && st.answers[attempt].issue.Some?
    requires forall e :: e in after ==> !StartsSession(e)
    ensures var st := ContinueProbe(Run(INITIAL, before), attempt, reactions + [HandlerDisconnects]);
            var end := Run(st, after);
            Off(end) && |end.sources| == |st.sources| && end.probes.Keys <= st.probes.Keys
  {
    DisconnectInsideHandler(before, attempt, reactions);
    OffRun(ContinueProbe(Run(INITIAL, before), attempt, reactions + [HandlerDisconnects]), after);
  }

  /** A refused probe of session "a" whose handler disconnects: the client is off and its timer armed. */
  lemma HandlerLeavesTimer()
    ensures var before := [Attach("a"), ProbeSettles(1, Refused(500))];
            var end := Run(INITIAL, before + [ProbeContinues(1, [HandlerDisconnects])]);
            Off(end) && end.reconnectTimer.Some? && |end.timers| == 1
  {
    var before := [Attach("a"), ProbeSettles(1, Refused(500))];
    var last := ProbeContinues(1, [HandlerDisconnects]);
    var s1 := Step(INITIAL, Attach("a"));
    var s2 := Step(s1, ProbeSettles(1, Refused(500)));
    assert Run(s2, []) == s2;
    assert Run(s1, [ProbeSettles(1, Refused(500))]) == s2 == Run(INITIAL, before);
    DisconnectInsideHandler(before, 1, []);
    assert [] + [HandlerDisconnects] == [HandlerDisconnects];
    var end := ContinueProbe(s2, 1, [HandlerDisconnects]);
    RunInTwo(INITIAL, before, [last]);
    assert Run(s2, [last]) == Run(end, []) == end;
    RunKeeps(INITIAL, before + [last]);
    assert |end.timers| == |end.timers.Keys|;
  }

  lemma {:induction false} RunInTwo(st: State, a: seq<Event>, b: seq<Event>)
    ensures Run(st, a + b) == Run(Run(st, a), b)
    decreases |a|
  {
    if a == [] {
      assert a + b == b;
    } else {
      assert (a + b)[1..] == a[1..] + b;
      RunInTwo(Step(st, a[0]), a[1..], b);
    }
  }

  // ----- ownership conflicts -----

  predicate IsConflictOf(st: State, event: Event, session: string) {
    && event.ProbeSettles?
    && event.attempt in st.probes
    && st.probes[event.attempt].session == session
    && event.outcome == Refused(CONFLICT)
  }

  /** The calls and answers that forget a session's conflicts. */
  predicate MayReset(st: State, event: Event, session: string) {
    match event
    case Attach(other) => session != "" && st.session == Some(session) && other != session
    case Disconnect => true
    case ProbeSettles(attempt, outcome) =>
      attempt in st.probes && st.probes[attempt].session == session && !outcome.Refused?
    case ProbeContinues(attempt, reactions) =>
      && attempt in st.answers && attempt == st.sseAttempt
      && st.session == Some(st.answers[attempt].probe.session) && st.answers[attempt].issue.Some?
      && ReactionsReset(st.session, reactions, session)
    case _ => false
  }

  /** A handler disconnects, or attaches away from the session. */
  predicate ReactionsReset(current: Option<string>, reactions: seq<Reaction>, session: string)
    decreases |reactions|
  {
    && reactions != []
    && match reactions[0]
       case HandlerDisconnects => true
       case HandlerAttaches(other) =>
         || (session != "" && current == Some(session) && other != session)
         || ReactionsReset(Some(other), reactions[1..], session)
  }

  lemma {:induction false} ReactKeepsCount(st: State, reactions: seq<Reaction>, session: string)
    requires !ReactionsReset(st.session, reactions, session)
    ensures Count(React(st, reactions).retries, session) == Count(st.retries, session)
    decreases |reactions|
  {
    if reactions != [] {
      assert reactions[0].HandlerAttaches?;
      ReactKeepsCount(AttachSession(st, reactions[0].session), reactions[1..], session);
    }
  }

  /** Where in the schedule the n-th conflict after `start` falls. */
  function Place(start: nat, n: nat): (k: nat)
    ensures k < 5
  {
    (start + n) % 5
  }

  /** A step that is neither a conflict of the session nor one of its resets leaves its count alone. */
  lemma CountMovesOnlyOn(st: State, event: Event, session: string)
    requires CountsBounded(st)
    ensures IsConflictOf(st, event, session) ==>
              Count(Step(st, event).retries, session) == Place(Count(st.retries, session), 1)
    ensures !IsConflictOf(st, event, session) && !MayReset(st, event, session) ==>
              Count(Step(st, event).retries, session) == Count(st.retries, session)
  {
    if event.ProbeContinues? && event.attempt in st.answers && !MayReset(st, event, session) {
      var issue := st.answers[event.attempt].issue;
      if issue.Some? && event.attempt == st.sseAttempt && st.session == Some(st.answers[event.attempt].probe.session) {
        ReactKeepsCount(st.(answers := st.answers - {event.attempt}, reports := st.reports + [Report(event.attempt, issue.value)]),
                        event.reactions, session);
      }
    }
  }

  /** The retry delays answered to one session's conflicts during a run. */
  function ConflictDelays(st: State, events: seq<Event>, session: string): seq<Option<int>>
    decreases |events|
  {
    if events == [] then []
    else
      var next := Step(st, events[0]);
      (if IsConflictOf(st, events[0], session) && events[0].attempt in next.answers && next.answers[events[0].attempt].issue.Some?
       then [next.answers[events[0].attempt].issue.value.retryDelayMs] else [])
      + ConflictDelays(next, events[1..], session)
  }

  predicate NoReset(st: State, events: seq<Event>, session: string)
    decreases |events|
  {
    events == [] || (!MayReset(st, events[0], session) && NoReset(Step(st, events[0]), events[1..], session))
  }

  /** The published schedule: 1200, 2400, 4800, 9600 ms, then no retry, then from the start again. */
  const SCHEDULE := [Some(1200), Some(2400), Some(4800), Some(9600), None]

  lemma DelayFollowsSchedule(retries: map<string, nat>, session: string)
    requires Count(retries, session) <= RETRY_LIMIT
    ensures ConflictDelay(retries, session).0 == SCHEDULE[Count(retries, session)]
  {
    var n := Count(retries, session);
    assert Power(2, 0) == 1;
    assert Power(2, 1) == 2;
    assert Power(2, 2) == 2 * Power(2, 1);
    assert Power(2, 3) == 2 * Power(2, 2);
  }

  ghost predicate OnSchedule(delays: seq<Option<int>>, start: nat) {
    forall k :: 0 <= k < |delays| ==> delays[k] == SCHEDULE[Place(start, k)]
  }

  lemma OnScheduleCons(start: nat, rest: seq<Option<int>>)
    requires start < 5 && OnSchedule(rest, Place(start, 1))
    ensures OnSchedule([SCHEDULE[start]] + rest, start)
    ensures Place(Place(start, 1), |rest|) == Place(start, |rest| + 1)
  {
    var delays := [SCHEDULE[start]] + rest;
    PlaceShift(start, |rest|);
    assert Place(start, 0) == start;
    hide Place;
    forall k | 0 <= k < |delays| ensures delays[k] == SCHEDULE[Place(start, k)] {
      if k > 0 {
        assert delays[k] == rest[k - 1];
        PlaceShift(start, k - 1);
      }
    }
  }

  lemma PlaceShift(start: nat, k: nat)
    ensures Place(start, k + 1) == Place(Place(start, 1), k)
  {
  }

  /** Between two resets the n-th conflict of a session is answered by the n-th entry of the
      schedule, whatever else happens in between: attaches, other sessions' probes, stale probes,
      handlers that act on the client without resetting the session. */
  lemma {:induction false} ConflictsFollowSchedule(st: State, events: seq<Event>, session: string)
    requires Inv(st) && NoReset(st, events, session)
    ensures var delays := ConflictDelays(st, events, session);
            var start := Count(st.retries, session);
            && OnSchedule(delays, start)
            && Count(Run(st, events).retries, session) == Place(start, |delays|)
    decreases |events|
  {
    var start := Count(st.retries, session);
    if events != [] {
      var event := events[0];
      var next := Step(st, event);
      var rest := ConflictDelays(next, events[1..], session);
      StepKeeps(st, event);
      CountMovesOnlyOn(st, event, session);
      ConflictsFollowSchedule(next, events[1..], session);
      if IsConflictOf(st, event, session) {
        ConflictIsAnswered(st, event, session);
        assert ConflictDelays(st, events, session) == [SCHEDULE[start]] + rest;
        OnScheduleCons(start, rest);
      } else {
        assert ConflictDelays(st, events, session) == rest;
      }
    }
  }

  lemma ConflictIsAnswered(st: State, event: Event, session: string)
    requires CountsBounded(st) && IsConflictOf(st, event, session)
    ensures var next := Step(st, event);
            event.attempt in next.answers && next.answers[event.attempt].issue.Some?
            && next.answers[event.attempt].issue.value.retryDelayMs == SCHEDULE[Count(st.retries, session)]
  {
    DelayFollowsSchedule(st.retries, session);
  }

  lemma ScheduleFromReset(delays: seq<Option<int>>)
    requires OnSchedule(delays, 0) && |delays| == RETRY_LIMIT + 1
    ensures delays == SCHEDULE
  {
    assert delays[0] == SCHEDULE[Place(0, 0)];
    assert delays[1] == SCHEDULE[Place(0, 1)];
    assert delays[2] == SCHEDULE[Place(0, 2)];
    assert delays[3] == SCHEDULE[Place(0, 3)];
    assert delays[4] == SCHEDULE[Place(0, 4)];
  }

  /** In every run in which a session's count starts at zero and five of its conflicts are answered
      before the next reset, the first four are retried, after 1200, 2400, 4800 and 9600 ms, 18
      seconds in all and none above the cap. The fifth is final and clears the count. */
  lemma FourRetriesThenFinal(st: State, events: seq<Event>, session: string)
    requires Inv(st) && NoReset(st, events, session)
    requires Count(st.retries, session) == 0 && |ConflictDelays(st, events, session)| == RETRY_LIMIT + 1
    ensures var delays := ConflictDelays(st, events, session);
            && delays == [Some(1200), Some(2400), Some(4800), Some(9600), None]
            && delays[0].value + delays[1].value + delays[2].value + delays[3].value == 18000
            && (forall k :: 0 <= k < RETRY_LIMIT ==> delays[k].value <= MAX_DELAY_MS)
    ensures Count(Run(st, events).retries, session) == 0
  {
    hide Inv, NoReset, ConflictDelays, Run, Count, OnSchedule;
    ConflictsFollowSchedule(st, events, session);
    ScheduleFromReset(ConflictDelays(st, events, session));
  }

  // ----- the timers armed -----

  /** The answer to an error status: the schedule's entry for a conflict, 2000 ms for any other. */
  function DelayFor(count: nat, status: int): Option<int>
    requires count <= RETRY_LIMIT
  {
    if status == CONFLICT then SCHEDULE[count] else Some(2000)
  }

  /** One timer, with this delay, or none. */
  predicate Armed(st: State, delay: Option<int>) {
    if delay.None? then st.reconnectTimer == None && st.timers == map[]
    else st.reconnectTimer.Some? && st.timers == map[st.reconnectTimer.value := delay.value]
  }

  lemma {:induction false} ReactClears(st: State, reactions: seq<Reaction>)
    requires Inv(st)
    ensures Inv(React(st, reactions)) && React(st, reactions).reports == st.reports
    ensures reactions != [] ==> React(st, reactions).reconnectTimer == None
    ensures reactions == [] ==> React(st, reactions) == st
    decreases |reactions|
  {
    ReactKeeps(st, reactions);
    if reactions != [] {
      match reactions[0] {
        case HandlerAttaches(s) =>
          AttachKeeps(st, s);
          ReactClears(AttachSession(st, s), reactions[1..]);
        case HandlerDisconnects =>
          DisconnectKeeps(st);
          ReactClears(DisconnectAll(st), reactions[1..]);
      }
    }
  }

  /** The issue is reported with what follows from the status. */
  function IssueFor(session: string, count: nat, status: int): Issue
    requires count <= RETRY_LIMIT
  {
    Issue(session, status, DelayFor(count, status).Some?, if status == CONFLICT then SCHEDULE[count] else None)
  }

  lemma SettledAnswer(st: State, attempt: nat, status: int)
    requires Inv(st) && attempt in st.probes
    ensures var session := st.probes[attempt].session;
            var next := Step(st, ProbeSettles(attempt, Refused(status)));
            && Count(st.retries, session) <= RETRY_LIMIT
            && attempt in next.answers
            && next.answers[attempt] == Answer(st.probes[attempt], Some(IssueFor(session, Count(st.retries, session), status)))
            && next.timers == st.timers && next.reconnectTimer == st.reconnectTimer && next.nextTimer == st.nextTimer
            && next.session == st.session && next.sseAttempt == st.sseAttempt && next.reports == st.reports
            && (status == CONFLICT ==> Count(next.retries, session) == Place(Count(st.retries, session), 1))
  {
    DelayFollowsSchedule(st.retries, st.probes[attempt].session);
  }

  lemma {:induction false} AnswerStays(st: State, events: seq<Event>, attempt: nat)
    requires Inv(st) && attempt in st.answers
    requires forall e :: e in events ==> !(e.ProbeContinues? && e.attempt == attempt)
    ensures attempt in Run(st, events).answers && Run(st, events).answers[attempt] == st.answers[attempt]
    decreases |events|
  {
    if events != [] {
      assert events[0] in events;
      StepKeeps(st, events[0]);
      StepKeepsAnswer(st, events[0], attempt);
      AnswerStays(Step(st, events[0]), events[1..], attempt);
    }
  }

  lemma StepKeepsAnswer(st: State, event: Event, attempt: nat)
    requires Inv(st) && attempt in st.answers && !(event.ProbeContinues? && event.attempt == attempt)
    ensures attempt in Step(st, event).answers && Step(st, event).answers[attempt] == st.answers[attempt]
  {
    if event.ProbeContinues? && event.attempt in st.answers {
      var issue := st.answers[event.attempt].issue;
      if issue.Some? {
        ReactKeepsAnswers(st.(answers := st.answers - {event.attempt}, reports := st.reports + [Report(event.attempt, issue.value)]), event.reactions);
      }
    }
  }

  lemma {:induction false} ReactKeepsAnswers(st: State, reactions: seq<Reaction>)
    ensures React(st, reactions).answers == st.answers
    decreases |reactions|
  {
    if reactions != [] {
      match reactions[0] {
        case HandlerAttaches(s) => ReactKeepsAnswers(AttachSession(st, s), reactions[1..]);
        case HandlerDisconnects => ReactKeepsAnswers(DisconnectAll(st), reactions[1..]);
      }
    }
  }

  lemma ReportedSafe(st: State, attempt: nat, report: Report)
    requires Inv(st)
    ensures Safe(st.(answers := st.answers - {attempt}, reports := st.reports + [report]))
  {
  }

  /** The callback of a current, refused probe. Its timer is armed unless one was armed already and no
      handler attached or disconnected meanwhile. */
  lemma CallbackArms(st: State, attempt: nat, reactions: seq<Reaction>, session: string, count: nat, status: int)
    requires Inv(st) && attempt in st.answers && attempt == st.sseAttempt && count <= RETRY_LIMIT
    requires st.session == Some(session) && st.answers[attempt].probe.session == session
    requires st.answers[attempt].issue == Some(IssueFor(session, count, status))
    ensures var end := Step(st, ProbeContinues(attempt, reactions));
            && (reactions != [] || st.reconnectTimer == None ==> Armed(end, DelayFor(count, status)))
            && (reactions == [] && st.reconnectTimer.Some? ==> end.reconnectTimer == st.reconnectTimer && end.timers == st.timers)
            && end.reports == st.reports + [Report(attempt, IssueFor(session, count, status))]
  {
    var issue := st.answers[attempt].issue.value;
    var reported := st.(answers := st.answers - {attempt}, reports := st.reports + [Report(attempt, issue)]);
    hide React, Inv, Safe, OneTimer;
    ReportedSafe(st, attempt, Report(attempt, issue));
    var told := React(reported, reactions);
    TimersAfterReact(reported, reactions);
    assert reactions == [] ==> told == reported;
    assert told.reconnectTimer == None ==> told.timers == map[];
  }

  lemma TimersAfterReact(st: State, reactions: seq<Reaction>)
    requires Safe(st)
    ensures var told := React(st, reactions);
            && told.reports == st.reports
            && (reactions != [] ==> told.reconnectTimer == None)
            && (reactions == [] ==> told == st)
            && (told.reconnectTimer == None ==> told.timers == map[])
  {
    if reactions != [] {
      match reactions[0] {
        case HandlerAttaches(s) =>
          AttachKeeps(st, s);
          ReactClears(AttachSession(st, s), reactions[1..]);
        case HandlerDisconnects =>
          DisconnectKeeps(st);
          ReactClears(DisconnectAll(st), reactions[1..]);
      }
    }
  }

  /** A probe is refused and, whatever happens before its callback runs, the callback is not stale.
      Then the timer has the schedule's delay for the count at which the response arrived (2000 ms for
      a status other than 409, none after the last try), and the handlers are told so. */
  lemma RetryTimerFollowsSchedule(st: State, attempt: nat, status: int, between: seq<Event>, reactions: seq<Reaction>)
    requires Inv(st) && attempt in st.probes
    requires forall e :: e in between ==> !(e.ProbeContinues? && e.attempt == attempt)
    requires var told := Run(st, [ProbeSettles(attempt, Refused(status))] + between);
             told.sseAttempt == attempt && told.session == Some(st.probes[attempt].session)
    ensures var session := st.probes[attempt].session;
            var count := Count(st.retries, session);
            var told := Run(st, [ProbeSettles(attempt, Refused(status))] + between);
            var end := Run(st, [ProbeSettles(attempt, Refused(status))] + between + [ProbeContinues(attempt, reactions)]);
            && count <= RETRY_LIMIT
            && (reactions != [] || told.reconnectTimer == None ==> Armed(end, DelayFor(count, status)))
            && (reactions == [] && told.reconnectTimer.Some? ==> end.reconnectTimer == told.reconnectTimer && end.timers == told.timers)
            && end.reports == told.reports + [Report(attempt, IssueFor(session, count, status))]
  {
    hide Inv, Armed, Count, IssueFor, Step;
    var settle, continue_ := ProbeSettles(attempt, Refused(status)), ProbeContinues(attempt, reactions);
    var s1 := Step(st, settle);
    var session := st.probes[attempt].session;
    SettledAnswer(st, attempt, status);
    StepKeeps(st, settle);
    AnswerStays(s1, between, attempt);
    RunKeeps(s1, between);
    var told := Run(s1, between);
    assert Run(st, [settle] + between) == told by {
      assert ([settle] + between)[1..] == between;
    }
    CallbackArms(told, attempt, reactions, session, Count(st.retries, session), status);
    RunInTwo(st, [settle] + between, [continue_]);
    assert Run(told, [continue_]) == Run(Step(told, continue_), []);
  }

  /** `n` conflicts, each retried: the probe is refused, its callback runs, its timer fires. */
  function Rounds(attempt: nat, timer: nat, n: nat): seq<Event>
    decreases n
  {
    if n == 0 then []
    else [ProbeSettles(attempt, Refused(CONFLICT)), ProbeContinues(attempt, []), TimerFires(timer)] + Rounds(attempt + 1, timer + 1, n - 1)
  }

  /** The client waits for the answer to its current probe, with no timer armed. */
  predicate Waiting(st: State, session: string) {
    session != "" && st.session == Some(session) && st.sseAttempt in st.probes && st.reconnectTimer == None
  }

  lemma ConflictArms(st: State, session: string)
    requires Inv(st) && Waiting(st, session)
    ensures var count := Count(st.retries, session);
            var end := Run(st, [ProbeSettles(st.sseAttempt, Refused(CONFLICT)), ProbeContinues(st.sseAttempt, [])]);
            && count <= RETRY_LIMIT && Inv(end)
            && Armed(end, SCHEDULE[count]) && Count(end.retries, session) == Place(count, 1)
            && end.session == st.session && end.sseAttempt == st.sseAttempt
            && (SCHEDULE[count].Some? ==> end.reconnectTimer == Some(st.nextTimer) && end.nextTimer == st.nextTimer + 1)
  {
    var attempt := st.sseAttempt;
    var settle, continue_ := ProbeSettles(attempt, Refused(CONFLICT)), ProbeContinues(attempt, []);
    var s1 := Step(st, settle);
    SettledAnswer(st, attempt, CONFLICT);
    StepKeeps(st, settle);
    var s2 := Step(s1, continue_);
    StepKeeps(s1, continue_);
    CallbackArms(s1, attempt, [], session, Count(st.retries, session), CONFLICT);
    assert Run(s1, [continue_]) == Run(s2, []) == s2;
    assert Run(st, [settle, continue_]) == s2;
  }

  lemma RoundRetries(st: State, session: string)
    requires Inv(st) && Waiting(st, session) && Count(st.retries, session) < RETRY_LIMIT
    ensures var end := Run(st, Rounds(st.sseAttempt, st.nextTimer, 1));
            && Inv(end) && Waiting(end, session) && Count(end.retries, session) == Count(st.retries, session) + 1
            && end.sseAttempt == st.sseAttempt + 1 && end.nextTimer == st.nextTimer + 1
  {
    hide Inv;
    var two := [ProbeSettles(st.sseAttempt, Refused(CONFLICT)), ProbeContinues(st.sseAttempt, [])];
    var fires := TimerFires(st.nextTimer);
    ConflictArms(st, session);
    var s2 := Run(st, two);
    StepKeeps(s2, fires);
    assert Rounds(st.sseAttempt, st.nextTimer, 1) == two + [fires];
    RunInTwo(st, two, [fires]);
    assert Run(s2, [fires]) == Run(Step(s2, fires), []);
  }

  lemma {:induction false} RoundsRetry(st: State, session: string, n: nat)
    requires Inv(st) && Waiting(st, session) && Count(st.retries, session) + n <= RETRY_LIMIT
    ensures var end := Run(st, Rounds(st.sseAttempt, st.nextTimer, n));
            && Inv(end) && Waiting(end, session) && Count(end.retries, session) == Count(st.retries, session) + n
            && end.sseAttempt == st.sseAttempt + n && end.nextTimer == st.nextTimer + n
    decreases n
  {
    hide Inv, Waiting, Step, Count, Rounds, Run;
    if n == 0 {
      NoRounds(st);
    } else {
      RoundRetries(st, session);
      var first, rest := Rounds(st.sseAttempt, st.nextTimer, 1), Rounds(st.sseAttempt + 1, st.nextTimer + 1, n - 1);
      RoundsStep(st.sseAttempt, st.nextTimer, n);
      RunInTwo(st, first, rest);
      RoundsRetry(Run(st, first), session, n - 1);
    }
  }

  lemma NoRounds(st: State)
    ensures Run(st, Rounds(st.sseAttempt, st.nextTimer, 0)) == st
  {
  }

  lemma RoundsStep(attempt: nat, timer: nat, n: nat)
    requires n > 0
    ensures Rounds(attempt, timer, n) == Rounds(attempt, timer, 1) + Rounds(attempt + 1, timer + 1, n - 1)
  {
    assert Rounds(attempt + 1, timer + 1, 0) == [];
  }

  /** From a reset on, the timers armed for the first four conflicts have 1200, 2400, 4800 and 9600 ms;
      each fires and probes again. The fifth conflict arms none and clears the count. */
  lemma FourTimersThenNone(st: State, session: string, n: nat)
    requires Inv(st) && Waiting(st, session) && Count(st.retries, session) == 0 && n <= RETRY_LIMIT
    ensures var attempt := st.sseAttempt + n;
            var end := Run(st, Rounds(st.sseAttempt, st.nextTimer, n)
                               + [ProbeSettles(attempt, Refused(CONFLICT)), ProbeContinues(attempt, [])]);
            if n < RETRY_LIMIT
            then end.timers == map[st.nextTimer + n := [1200, 2400, 4800, 9600][n]] && end.reconnectTimer == Some(st.nextTimer + n)
            else end.timers == map[] && end.reconnectTimer == None && Count(end.retries, session) == 0
  {
    hide Inv, Waiting, Step, Count;
    RoundsRetry(st, session, n);
    var mid := Run(st, Rounds(st.sseAttempt, st.nextTimer, n));
    ConflictArms(mid, session);
    RunInTwo(st, Rounds(st.sseAttempt, st.nextTimer, n),
             [ProbeSettles(mid.sseAttempt, Refused(CONFLICT)), ProbeContinues(mid.sseAttempt, [])]);
  }

  /** A stream that fails for good is retried after 2000 ms, unless a timer is armed already; one that
      the browser reconnects by itself is not. */
  lemma LostStreamRetries(st: State, source: nat, fatal: bool)
    requires Inv(st) && st.eventSource == Some(source) && !st.sources[source].closed
    ensures var end := Step(st, ConnectionError(source, fatal));
            && (fatal && st.reconnectTimer == None ==> Armed(end, Some(2000)))
            && (!fatal || st.reconnectTimer.Some? ==> end.timers == st.timers && end.reconnectTimer == st.reconnectTimer)
            && |end.sources| == |st.sources| && end.sources[source].closed == fatal
  {
  }

  // ----- the stream cursor -----

  /** `lastEventId` was produced by a stream of the current session. */
  predicate OwnCursor(st: State) {
    st.lastEventId.Some? ==> st.session == Some(st.cursorOwner)
  }

  lemma {:induction false} ReactOwn(st: State, reactions: seq<Reaction>)
    requires OwnCursor(st)
    ensures OwnCursor(React(st, reactions))
    decreases |reactions|
  {
    if reactions != [] {
      match reactions[0] {
        case HandlerAttaches(s) => ReactOwn(AttachSession(st, s), reactions[1..]);
        case HandlerDisconnects => ReactOwn(DisconnectAll(st), reactions[1..]);
      }
    }
  }

  /** The cursor stays the current session's own through every step, except exactly when
      `newSession` or `loadSession` moves to another session while a cursor is held: the
      assignment before `attachSession` makes that call skip the reset. */
  lemma CursorLostExactlyOnAdopt(st: State, event: Event)
    requires Inv(st) && OwnCursor(st)
    ensures OwnCursor(Step(st, event)) <==>
            !(event.Adopt? && st.lastEventId.Some? && st.session != Some(event.session))
  {
    if event.ProbeContinues? && event.attempt in st.answers {
      var answer := st.answers[event.attempt];
      if answer.issue.Some? {
        ReactOwn(st.(answers := st.answers - {event.attempt}, reports := st.reports + [Report(event.attempt, answer.issue.value)]), event.reactions);
      }
    }
  }

  predicate CarriesForeignCursor(st: State, event: Event) {
    event.Adopt? && st.lastEventId.Some? && st.session != Some(event.session)
  }

  predicate NeverCarries(st: State, events: seq<Event>)
    decreases |events|
  {
    events == [] || (!CarriesForeignCursor(st, events[0]) && NeverCarries(Step(st, events[0]), events[1..]))
  }

  lemma {:induction false} CursorRun(st: State, events: seq<Event>)
    requires Inv(st) && OwnCursor(st) && NeverCarries(st, events)
    ensures OwnCursor(Run(st, events))
    decreases |events|
  {
    if events != [] {
      StepKeeps(st, events[0]);
      CursorLostExactlyOnAdopt(st, events[0]);
      CursorRun(Step(st, events[0]), events[1..]);
    }
  }

  /** Loading session "b" after session "a" streamed event "7" asks the server for b's events
      after a's event. */
  lemma LoadSessionKeepsOldCursor()
    ensures var events := [Attach("a"), ProbeSettles(1, Reachable), ProbeContinues(1, []), MessageArrives(0, "7"), Adopt("b")];
            var st := Run(INITIAL, events);
            2 in st.probes && st.probes[2] == Probe("b", Some("7")) && st.cursorOwner == "a"
  {
    var s1 := Step(INITIAL, Attach("a"));
    var s2 := Step(s1, ProbeSettles(1, Reachable));
    var s3 := Step(s2, ProbeContinues(1, []));
    var s4 := Step(s3, MessageArrives(0, "7"));
    var s5 := Step(s4, Adopt("b"));
    assert Run(s4, [Adopt("b")]) == s5;
    assert Run(s3, [MessageArrives(0, "7"), Adopt("b")]) == s5;
    assert Run(s2, [ProbeContinues(1, []), MessageArrives(0, "7"), Adopt("b")]) == s5;
    assert Run(s1, [ProbeSettles(1, Reachable), ProbeContinues(1, []), MessageArrives(0, "7"), Adopt("b")]) == s5;
  }

  /** How each task moves the stream cursor; handlers that act move it as the calls they make. */
  lemma CursorAfter(st: State, event: Event)
    requires event.ProbeContinues? ==> event.reactions == []
    ensures Step(st, event).lastEventId ==
            match event
            case MessageArrives(source, id) => if id != "" && Open(st, source) then Some(id) else st.lastEventId
            case Attach(s) => if st.session == Some(s) then st.lastEventId else None
            case Disconnect => None
            case _ => st.lastEventId
  {
  }

  /** How each task moves a session's count. */
  lemma CountAfter(st: State, event: Event, session: string)
    requires CountsBounded(st) && (event.ProbeContinues? ==> event.reactions == [])
    ensures Count(Step(st, event).retries, session) ==
            match event
            case Attach(s) => if st.session == Some(session) && s != session && session != "" then 0 else Count(st.retries, session)
            case Disconnect => 0
            case ProbeSettles(attempt, outcome) =>
              if attempt !in st.probes || st.probes[attempt].session != session then Count(st.retries, session)
              else if !outcome.Refused? then 0
              else if outcome.status != 409 then Count(st.retries, session)
              else if Count(st.retries, session) < 4 then Count(st.retries, session) + 1
              else 0
            case _ => Count(st.retries, session)
  {
  }

  predicate Open(st: State, source: nat) {
    source < |st.sources| && !st.sources[source].closed
  }

  /** A stream that is lost is taken up where it stopped: after its last event, an error that closes it,
      the retry timer and a probe that succeeds, the new stream is that session's, from that event on. */
  lemma LostStreamResumes(st: State, eventId: string)
    requires Inv(st) && Connected(st) && st.session.value != "" && eventId != ""
    ensures var held, attempt := st.eventSource.value, st.sseAttempt + 1;
            var timer := if st.reconnectTimer.Some? then st.reconnectTimer.value else st.nextTimer;
            var end := Run(st, [ MessageArrives(held, eventId), ConnectionError(held, true), TimerFires(timer),
                                 ProbeSettles(attempt, Reachable), ProbeContinues(attempt, []) ]);
            && end.eventSource == Some(|st.sources|) && |end.sources| == |st.sources| + 1 && end.session == st.session
            && end.sources[|st.sources|] == Source(st.session.value, Some(eventId), false)
            && (forall i :: 0 <= i < |st.sources| ==> end.sources[i].closed)
  {
    var held, attempt := st.eventSource.value, st.sseAttempt + 1;
    var timer := if st.reconnectTimer.Some? then st.reconnectTimer.value else st.nextTimer;
    var e1, e2, e3 := MessageArrives(held, eventId), ConnectionError(held, true), TimerFires(timer);
    var e4, e5 := ProbeSettles(attempt, Reachable), ProbeContinues(attempt, []);
    var s2 := LostAfter(st, held, eventId);
    var s5 := TimerReopens(s2, timer);
    hide Step;
    assert [e1, e2, e3, e4, e5] == [e1, e2] + [e3, e4, e5];
    RunInTwo(st, [e1, e2], [e3, e4, e5]);
  }

  /** The last event arrives and the stream closes. */
  lemma LostAfter(st: State, held: nat, eventId: string) returns (lost: State)
    requires Inv(st) && Connected(st) && st.eventSource == Some(held) && eventId != ""
    ensures lost == Run(st, [MessageArrives(held, eventId), ConnectionError(held, true)]) && Inv(lost)
    ensures lost.lastEventId == Some(eventId) && lost.session == st.session && lost.sseAttempt == st.sseAttempt
    ensures lost.reconnectTimer == if st.reconnectTimer.Some? then st.reconnectTimer else Some(st.nextTimer)
    ensures |lost.sources| == |st.sources| && forall i :: 0 <= i < |st.sources| ==> lost.sources[i].closed
  {
    var e1, e2 := MessageArrives(held, eventId), ConnectionError(held, true);
    StepKeeps(st, e1);
    StepKeeps(Step(st, e1), e2);
    lost := Step(Step(st, e1), e2);
    assert Run(Step(st, e1), [e2]) == lost;
    assert [e1, e2][1..] == [e2];
  }

  /** The timer fires, the probe succeeds, and the new stream starts at the stored cursor. */
  lemma TimerReopens(st: State, timer: nat) returns (end: State)
    requires Inv(st) && st.reconnectTimer == Some(timer) && st.session.Some? && st.session.value != ""
    ensures var attempt := st.sseAttempt + 1;
            end == Run(st, [TimerFires(timer), ProbeSettles(attempt, Reachable), ProbeContinues(attempt, [])])
    ensures end.session == st.session && end.eventSource == Some(|st.sources|) && |end.sources| == |st.sources| + 1
    ensures end.sources[|st.sources|] == Source(st.session.value, st.lastEventId, false)
    ensures forall i :: 0 <= i < |st.sources| && st.sources[i].closed ==> end.sources[i].closed
  {
    var attempt := st.sseAttempt + 1;
    var e1, e2, e3 := TimerFires(timer), ProbeSettles(attempt, Reachable), ProbeContinues(attempt, []);
    var s1 := Step(st, e1);
    var s2 := Step(s1, e2);
    end := Step(s2, e3);
    assert s1.probes[attempt] == Probe(st.session.value, st.lastEventId) && s1.sseAttempt == attempt;
    assert s2.answers[attempt] == Answer(s1.probes[attempt], None);
    hide Step;
    assert Run(s2, [e3]) == end;
    assert Run(s1, [e2, e3]) == end;
  }
}
