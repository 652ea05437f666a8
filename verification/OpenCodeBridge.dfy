/** One session of the docker bridge (docker/opencode-bridge/server.js): it frames what the agent
    prints into lines, routes each message to the pending table, to the request handlers or to the
    SSE clients, and owns the terminals. */
module OpenCodeBridge {
  import opened Options
  import opened Framing
  import Text
  import opened BraceScan
  import Rpc
  import Terminals

  /** JSON-RPC ids are numbers or strings; the pending table is keyed by the numbers it drew. */
  datatype Id = NumberId(n: int) | StringId(s: string)

  /** A message as the bridge reads it: `None` is an absent (or, for `id`, null) member, and an
      absent or empty method is "". */
  datatype Message = Message(
    id: Option<Id>,
    rpcMethod: string,
    result: Option<Rpc.Value>,
    error: Option<Rpc.Value>,
    params: Terminals.Params)

  datatype Notice = Forwarded(message: Message) | OfTerminal(notice: Terminals.Notice)

  /** An SSE response: what was written to it, and (history) how many notices came before it. */
  datatype Client = Client(joined: nat, written: seq<Notice>)

  datatype Session = Session(
    buffer: string,
    alive: bool,
    rpc: Rpc.Table,
    host: Terminals.Host,
    clients: map<nat, Client>,
    notices: seq<Notice>)       // history: everything broadcast

  const NEW_LINE := "\n"
  const INITIAL := Session("", false, Rpc.INITIAL, Terminals.INITIAL, map[], [])

  /** Every client is written every notice. */
  function WrittenTo(clients: map<nat, Client>, ns: seq<Notice>): map<nat, Client> {
    map c | c in clients :: clients[c].(written := clients[c].written + ns)
  }

  function Broadcast(s: Session, ns: seq<Notice>): Session {
    s.(notices := s.notices + ns, clients := WrittenTo(s.clients, ns))
  }

  function Lifted(ns: seq<Terminals.Notice>): seq<Notice> {
    seq(|ns|, i requires 0 <= i < |ns| => OfTerminal(ns[i]))
  }

  predicate IsResponse(m: Message) {
    m.id.Some? && (m.result.Some? || m.error.Some?)
  }

  predicate AnswersPending(t: Rpc.Table, m: Message) {
    IsResponse(m) && m.id.value.NumberId? && m.id.value.n >= 0 && m.id.value.n in t.pending
  }

  predicate IsRequest(m: Message) {
    m.id.Some? && m.rpcMethod != ""
  }

  function HandleMsg(s: Session, m: Message, clock: nat -> nat): Session {
    if AnswersPending(s.rpc, m) then s.(rpc := Rpc.Settle(s.rpc, m.id.value.n, m.result, m.error))
    else if IsRequest(m) then
      var (host, ns) := Terminals.Request(s.host, m.rpcMethod, m.params, clock);
      Broadcast(s.(host := host), Lifted(ns))
    else if m.rpcMethod == "session/update" then Broadcast(s, [Forwarded(m)])
    else s
  }

  function HandleText(s: Session, text: string, parse: string -> Option<Message>, clock: nat -> nat): Session {
    match parse(text)
    case Some(m) => HandleMsg(s, m, clock)
    case None => s
  }

  predicate SpansFit(line: string, spans: seq<Span>) {
    forall k :: 0 <= k < |spans| ==> 0 <= spans[k].from < spans[k].to <= |line|
  }

  function HandleSpans(s: Session, line: string, spans: seq<Span>, parse: string -> Option<Message>, clock: nat -> nat): Session
    requires SpansFit(line, spans)
    decreases |spans|
  {
    if spans == [] then s
    else HandleSpans(HandleText(s, line[spans[0].from..spans[0].to], parse, clock), line, spans[1..], parse, clock)
  }

  lemma ExtractFits(line: string)
    ensures SpansFit(line, Extract(line))
  {
    ExtractsTopGroups(line);
    forall k | 0 <= k < |Extract(line)| ensures 0 <= Extract(line)[k].from < Extract(line)[k].to <= |line| {
      assert Extract(line)[k] in Extract(line);
    }
  }

  /** A blank line is skipped; a line that is not JSON is searched for objects. */
  function HandleLine(s: Session, line: string, parse: string -> Option<Message>, clock: nat -> nat): Session {
    if Text.Trim(line) == "" then s
    else if parse(line).Some? then HandleText(s, line, parse, clock)
    else
      ExtractFits(line);
      HandleSpans(s, line, Extract(line), parse, clock)
  }

  function HandleLines(s: Session, lines: seq<string>, parse: string -> Option<Message>, clock: nat -> nat): Session
    decreases |lines|
  {
    if lines == [] then s else HandleLines(HandleLine(s, lines[0], parse, clock), lines[1..], parse, clock)
  }

  /** A chunk on the agent's stdout. */
  function Stdout(s: Session, chunk: string, parse: string -> Option<Message>, clock: nat -> nat): Session {
    var pieces := SplitOn(s.buffer + chunk, NEW_LINE);
    HandleLines(s, Complete(pieces), parse, clock).(buffer := Kept(pieces))
  }

  function StdoutAll(s: Session, chunks: seq<string>, parse: string -> Option<Message>, clock: nat -> nat): Session
    decreases |chunks|
  {
    if chunks == [] then s else StdoutAll(Stdout(s, chunks[0], parse, clock), chunks[1..], parse, clock)
  }

  // ----- chunking -----

  lemma TextIdle(s: Session, text: string, b: string, parse: string -> Option<Message>, clock: nat -> nat)
    ensures HandleText(s.(buffer := b), text, parse, clock) == HandleText(s, text, parse, clock).(buffer := b)
  {
    hide Terminals.Request, Rpc.Settle, Lifted, WrittenTo;
  }

  lemma {:induction false} SpansIdle(s: Session, line: string, spans: seq<Span>, b: string, parse: string -> Option<Message>, clock: nat -> nat)
    requires SpansFit(line, spans)
    ensures HandleSpans(s.(buffer := b), line, spans, parse, clock) == HandleSpans(s, line, spans, parse, clock).(buffer := b)
    decreases |spans|
  {
    if spans != [] {
      hide HandleText;
      TextIdle(s, line[spans[0].from..spans[0].to], b, parse, clock);
      SpansIdle(HandleText(s, line[spans[0].from..spans[0].to], parse, clock), line, spans[1..], b, parse, clock);
    }
  }

  lemma LineIdle(s: Session, line: string, b: string, parse: string -> Option<Message>, clock: nat -> nat)
    ensures HandleLine(s.(buffer := b), line, parse, clock) == HandleLine(s, line, parse, clock).(buffer := b)
  {
    hide HandleText, HandleSpans;
    TextIdle(s, line, b, parse, clock);
    ExtractFits(line);
    SpansIdle(s, line, Extract(line), b, parse, clock);
  }

  /** Messages neither read nor write the buffer. */
  lemma {:induction false} LinesIdle(s: Session, lines: seq<string>, b: string, parse: string -> Option<Message>, clock: nat -> nat)
    ensures HandleLines(s.(buffer := b), lines, parse, clock) == HandleLines(s, lines, parse, clock).(buffer := b)
    decreases |lines|
  {
    if lines != [] {
      LineIdle(s, lines[0], b, parse, clock);
      LinesIdle(HandleLine(s, lines[0], parse, clock), lines[1..], b, parse, clock);
    }
  }

  lemma {:induction false} LinesInTwo(s: Session, a: seq<string>, b: seq<string>, parse: string -> Option<Message>, clock: nat -> nat)
    ensures HandleLines(s, a + b, parse, clock) == HandleLines(HandleLines(s, a, parse, clock), b, parse, clock)
    decreases |a|
  {
    if a == [] {
      assert a + b == b;
    } else {
      assert (a + b)[1..] == a[1..] + b;
      LinesInTwo(HandleLine(s, a[0], parse, clock), a[1..], b, parse, clock);
    }
  }

  lemma StdoutInTwo(s: Session, a: string, b: string, parse: string -> Option<Message>, clock: nat -> nat)
    ensures Stdout(Stdout(s, a, parse, clock), b, parse, clock) == Stdout(s, a + b, parse, clock)
  {
    var p := SplitOn(s.buffer + a, NEW_LINE);
    var q := SplitOn(Kept(p) + b, NEW_LINE);
    TwoChunks(s.buffer, a, b, NEW_LINE);
    LinesInTwo(s, Complete(p), Complete(q), parse, clock);
    LinesIdle(HandleLines(s, Complete(p), parse, clock), Complete(q), Kept(p), parse, clock);
  }

  /** However the pipe cuts the agent's output, the session ends up in the same state: the same
      requests settled, the same replies written, the same terminals, the same text kept back. */
  lemma {:induction false} ChunkingIsInvisible(s: Session, chunks: seq<string>, parse: string -> Option<Message>, clock: nat -> nat)
    requires IndexOf(s.buffer, NEW_LINE, 0) == -1
    ensures StdoutAll(s, chunks, parse, clock) == Stdout(s, Flatten(chunks), parse, clock)
    decreases |chunks|
  {
    if chunks == [] {
      assert s.buffer + "" == s.buffer;
      assert Complete([s.buffer]) == [];
    } else {
      KeptIsOpen(s.buffer + chunks[0], NEW_LINE);
      ChunkingIsInvisible(Stdout(s, chunks[0], parse, clock), chunks[1..], parse, clock);
      StdoutInTwo(s, chunks[0], Flatten(chunks[1..]), parse, clock);
    }
  }

  // ----- the session as a machine -----

  datatype Event =
    | OutputArrives(chunk: string)
    | RequestSent
    | OtherSessionSends
    | RequestTimesOut(timer: nat)
    | ProcessExits
    | FileCallback(ask: nat, ok: bool)
    | TerminalData(name: Terminals.Name, data: string)
    | TerminalExits(name: Terminals.Name, code: Option<int>, signalled: bool)
    | TerminalFails(name: Terminals.Name)
    | Killed
    | ClientJoins(client: nat)
    | ClientLeaves(client: nat)

  function Step(s: Session, event: Event, parse: string -> Option<Message>, clock: nat -> nat): Session {
    match event
    case OutputArrives(chunk) => Stdout(s, chunk, parse, clock)
    case RequestSent => s.(rpc := Rpc.Send(s.rpc))
    case OtherSessionSends => s.(rpc := Rpc.IdTakenElsewhere(s.rpc))
    case RequestTimesOut(timer) => s.(rpc := Rpc.Timeout(s.rpc, timer))
    case ProcessExits => s.(alive := false, rpc := Rpc.Exit(s.rpc), clients := map[])
    case FileCallback(ask, ok) => s.(host := Terminals.FileDone(s.host, ask, ok))
    case TerminalData(name, data) =>
      var (host, ns) := Terminals.Data(s.host, name, data);
      Broadcast(s.(host := host), Lifted(ns))
    case TerminalExits(name, code, signalled) =>
      var (host, ns) := Terminals.Exit(s.host, name, code, signalled);
      Broadcast(s.(host := host), Lifted(ns))
    case TerminalFails(name) => s.(host := Terminals.End(s.host, name, 1))
    case Killed => s.(alive := false, host := Terminals.Kill(s.host))
    case ClientJoins(client) => s.(clients := s.clients[client := Client(|s.notices|, [])])
    case ClientLeaves(client) => s.(clients := s.clients - {client})
  }

  function Run(s: Session, events: seq<Event>, parse: string -> Option<Message>, clock: nat -> nat): Session
    decreases |events|
  {
    if events == [] then s else Run(Step(s, events[0], parse, clock), events[1..], parse, clock)
  }

  /** Each client has been written exactly the notices broadcast since it joined. */
  ghost predicate ClientsServed(s: Session) {
    forall c :: c in s.clients ==>
      s.clients[c].joined <= |s.notices| && s.clients[c].written == s.notices[s.clients[c].joined..]
  }

  ghost predicate Inv(s: Session) {
    Rpc.Inv(s.rpc) && Terminals.Inv(s.host) && ClientsServed(s)
  }

  lemma BroadcastKeeps(s: Session, ns: seq<Notice>)
    requires ClientsServed(s)
    ensures ClientsServed(Broadcast(s, ns))
    ensures Broadcast(s, ns).rpc == s.rpc && Broadcast(s, ns).host == s.host && Broadcast(s, ns).buffer == s.buffer
  {
    var next := Broadcast(s, ns);
    forall c | c in next.clients ensures next.clients[c].written == next.notices[next.clients[c].joined..] {
      assert s.clients[c].written == s.notices[s.clients[c].joined..];
    }
  }

  lemma HandleMsgKeeps(s: Session, m: Message, clock: nat -> nat)
    requires Inv(s)
    ensures Inv(HandleMsg(s, m, clock))
  {
    if AnswersPending(s.rpc, m) {
      Rpc.StepKeeps(s.rpc, Rpc.Answered(m.id.value.n, m.result, m.error));
    } else if IsRequest(m) {
      var (host, ns) := Terminals.Request(s.host, m.rpcMethod, m.params, clock);
      Terminals.RequestKeeps(s.host, m.rpcMethod, m.params, clock);
      BroadcastKeeps(s.(host := host), Lifted(ns));
    } else {
      BroadcastKeeps(s, [Forwarded(m)]);
    }
  }

  lemma HandleTextKeeps(s: Session, text: string, parse: string -> Option<Message>, clock: nat -> nat)
    requires Inv(s)
    ensures Inv(HandleText(s, text, parse, clock))
  {
    if parse(text).Some? { HandleMsgKeeps(s, parse(text).value, clock); }
  }

  lemma {:induction false} HandleSpansKeeps(s: Session, line: string, spans: seq<Span>, parse: string -> Option<Message>, clock: nat -> nat)
    requires Inv(s) && SpansFit(line, spans)
    ensures Inv(HandleSpans(s, line, spans, parse, clock))
    decreases |spans|
  {
    if spans != [] {
      hide Inv;
      var text := line[spans[0].from..spans[0].to];
      HandleTextKeeps(s, text, parse, clock);
      HandleSpansKeeps(HandleText(s, text, parse, clock), line, spans[1..], parse, clock);
    }
  }

  lemma {:induction false} HandleLinesKeeps(s: Session, lines: seq<string>, parse: string -> Option<Message>, clock: nat -> nat)
    requires Inv(s)
    ensures Inv(HandleLines(s, lines, parse, clock))
    decreases |lines|
  {
    if lines != [] {
      hide Inv;
      HandleTextKeeps(s, lines[0], parse, clock);
      ExtractFits(lines[0]);
      HandleSpansKeeps(s, lines[0], Extract(lines[0]), parse, clock);
      HandleLinesKeeps(HandleLine(s, lines[0], parse, clock), lines[1..], parse, clock);
    }
  }

  lemma StepKeeps(s: Session, event: Event, parse: string -> Option<Message>, clock: nat -> nat)
    requires Inv(s)
    ensures Inv(Step(s, event, parse, clock))
  {
    hide Rpc.Inv, Terminals.Inv, HandleLines, WrittenTo;
    match event
    case OutputArrives(chunk) =>
      var pieces := SplitOn(s.buffer + chunk, NEW_LINE);
      HandleLinesKeeps(s, Complete(pieces), parse, clock);
    case RequestSent => Rpc.StepKeeps(s.rpc, Rpc.Sends);
    case OtherSessionSends => Rpc.StepKeeps(s.rpc, Rpc.OtherSends);
    case RequestTimesOut(timer) => Rpc.StepKeeps(s.rpc, Rpc.TimerFires(timer));
    case ProcessExits => Rpc.StepKeeps(s.rpc, Rpc.Exits);
    case FileCallback(ask, ok) => Terminals.FileDoneKeeps(s.host, ask, ok);
    case TerminalData(name, data) =>
      Terminals.DataKeeps(s.host, name, data);
      BroadcastKeeps(s.(host := Terminals.Data(s.host, name, data).0), Lifted(Terminals.Data(s.host, name, data).1));
    case TerminalExits(name, code, signalled) =>
      var (host, ns) := Terminals.Exit(s.host, name, code, signalled);
      Terminals.EndKeeps(s.host, name, Terminals.ExitStatus(code, signalled));
      BroadcastKeeps(s.(host := host), Lifted(ns));
    case TerminalFails(name) => Terminals.EndKeeps(s.host, name, 1);
    case Killed => Terminals.KillKeeps(s.host);
    case ClientJoins(client) =>
    case ClientLeaves(client) =>
  }

  lemma {:induction false} RunKeeps(s: Session, events: seq<Event>, parse: string -> Option<Message>, clock: nat -> nat)
    requires Inv(s)
    ensures Inv(Run(s, events, parse, clock))
    decreases |events|
  {
    if events != [] {
      StepKeeps(s, events[0], parse, clock);
      RunKeeps(Step(s, events[0], parse, clock), events[1..], parse, clock);
    }
  }

  /** In every run of a session, whatever the agent prints: requests are accounted for and timed,
      agent requests are owed one reply each, terminals are bounded, clients miss nothing. */
  lemma SessionSafe(events: seq<Event>, parse: string -> Option<Message>, clock: nat -> nat)
    ensures Inv(Run(INITIAL, events, parse, clock))
  {
    Terminals.InitialHolds();
    assert Rpc.Inv(Rpc.INITIAL);
    RunKeeps(INITIAL, events, parse, clock);
  }

  // ----- what a message may settle -----

  /** A pending request is settled by a response carrying its number and by no other message: an
      agent's request, a notification or a response to another id leaves it pending. */
  lemma OnlyItsResponseSettles(s: Session, m: Message, clock: nat -> nat, id: nat)
    requires Inv(s) && id in s.rpc.pending
    ensures id !in HandleMsg(s, m, clock).rpc.pending <==> IsResponse(m) && m.id == Some(NumberId(id))
    ensures !IsResponse(m) ==> HandleMsg(s, m, clock).rpc == s.rpc
  {
    hide Inv;
    if !AnswersPending(s.rpc, m) {
      if IsRequest(m) {
        RequestLeavesRpc(s, m, clock);
      }
    }
  }

  lemma RequestLeavesRpc(s: Session, m: Message, clock: nat -> nat)
    requires !AnswersPending(s.rpc, m) && IsRequest(m)
    ensures HandleMsg(s, m, clock).rpc == s.rpc
  {
  }

  // ----- from the session's run to the pending table's -----

  lemma {:induction false} SpansTrace(s: Session, line: string, spans: seq<Span>, parse: string -> Option<Message>, clock: nat -> nat)
    returns (es: seq<Rpc.Event>)
    requires SpansFit(line, spans)
    ensures HandleSpans(s, line, spans, parse, clock).rpc == Rpc.Run(s.rpc, es)
    ensures forall e :: e in es ==> e.Answered?
    decreases |spans|
  {
    es := [];
    if spans != [] {
      var text := line[spans[0].from..spans[0].to];
      var first := TextTrace(s, text, parse, clock);
      var rest := SpansTrace(HandleText(s, text, parse, clock), line, spans[1..], parse, clock);
      es := first + rest;
      Rpc.RunInTwo(s.rpc, first, rest);
    }
  }

  lemma TextTrace(s: Session, text: string, parse: string -> Option<Message>, clock: nat -> nat)
    returns (es: seq<Rpc.Event>)
    ensures HandleText(s, text, parse, clock).rpc == Rpc.Run(s.rpc, es)
    ensures forall e :: e in es ==> e.Answered?
  {
    es := [];
    match parse(text) {
      case Some(m) =>
        if AnswersPending(s.rpc, m) {
          es := [Rpc.Answered(m.id.value.n, m.result, m.error)];
          assert Rpc.Run(s.rpc, es) == Rpc.Run(Rpc.Step(s.rpc, es[0]), []);
        }
      case None =>
    }
  }

  lemma {:induction false} LinesTrace(s: Session, lines: seq<string>, parse: string -> Option<Message>, clock: nat -> nat)
    returns (es: seq<Rpc.Event>)
    ensures HandleLines(s, lines, parse, clock).rpc == Rpc.Run(s.rpc, es)
    ensures forall e :: e in es ==> e.Answered?
    decreases |lines|
  {
    es := [];
    if lines != [] {
      var first: seq<Rpc.Event> := [];
      if Text.Trim(lines[0]) != "" {
        if parse(lines[0]).Some? {
          first := TextTrace(s, lines[0], parse, clock);
        } else {
          ExtractFits(lines[0]);
          first := SpansTrace(s, lines[0], Extract(lines[0]), parse, clock);
        }
      }
      var rest := LinesTrace(HandleLine(s, lines[0], parse, clock), lines[1..], parse, clock);
      es := first + rest;
      Rpc.RunInTwo(s.rpc, first, rest);
    }
  }

  /** A deadline of a session's run is one of the pending table's. */
  predicate SameDeadline(event: Event, e: Rpc.Event) {
    || (event.ProcessExits? && e.Exits?)
    || (event.RequestTimesOut? && e == Rpc.TimerFires(event.timer))
  }

  lemma StepTrace(s: Session, event: Event, parse: string -> Option<Message>, clock: nat -> nat)
    returns (es: seq<Rpc.Event>)
    ensures Step(s, event, parse, clock).rpc == Rpc.Run(s.rpc, es)
    ensures event.ProcessExits? || event.RequestTimesOut? ==> |es| == 1 && SameDeadline(event, es[0])
    ensures forall e :: e in es ==> SameDeadline(event, e) || e.Sends? || e.OtherSends? || (event.OutputArrives? && e.Answered?)
  {
    match event {
      case OutputArrives(chunk) =>
        es := LinesTrace(s, Complete(SplitOn(s.buffer + chunk, NEW_LINE)), parse, clock);
        return;
      case RequestSent => es := [Rpc.Sends];
      case OtherSessionSends => es := [Rpc.OtherSends];
      case RequestTimesOut(timer) => es := [Rpc.TimerFires(timer)];
      case ProcessExits => es := [Rpc.Exits];
      case _ => es := [];
    }
    if es != [] {
      assert Rpc.Run(s.rpc, es) == Rpc.Run(Rpc.Step(s.rpc, es[0]), []);
    }
  }

  lemma {:induction false} RunTrace(s: Session, events: seq<Event>, parse: string -> Option<Message>, clock: nat -> nat)
    returns (es: seq<Rpc.Event>)
    ensures Run(s, events, parse, clock).rpc == Rpc.Run(s.rpc, es)
    ensures forall i :: 0 <= i < |events| && (events[i].ProcessExits? || events[i].RequestTimesOut?) ==>
              exists e :: e in es && SameDeadline(events[i], e)
    decreases |events|
  {
    es := [];
    if events != [] {
      var first := StepTrace(s, events[0], parse, clock);
      var rest := RunTrace(Step(s, events[0], parse, clock), events[1..], parse, clock);
      es := first + rest;
      Rpc.RunInTwo(s.rpc, first, rest);
      forall i | 0 <= i < |events| && (events[i].ProcessExits? || events[i].RequestTimesOut?)
        ensures exists e :: e in es && SameDeadline(events[i], e)
      {
        if i == 0 {
          assert first[0] in es;
        } else {
          var e :| e in rest && SameDeadline(events[1..][i - 1], e);
          assert e in es;
        }
      }
    }
  }

  /** A request the session has pending is settled exactly once by the time its timer has fired or
      the agent's process has exited, whatever the agent printed, in whatever chunks, meanwhile. */
  lemma RequestSettledByDeadline(s: Session, events: seq<Event>, id: nat, i: nat, parse: string -> Option<Message>, clock: nat -> nat)
    requires Rpc.Inv(s.rpc) && id in s.rpc.pending
    requires i < |events| && (events[i].ProcessExits? || events[i] == RequestTimesOut(s.rpc.pending[id]))
    ensures var end := Run(s, events, parse, clock).rpc;
            Rpc.Times(end.settled, id) == 1 && id !in end.pending
  {
    var es := RunTrace(s, events, parse, clock);
    var e :| e in es && SameDeadline(events[i], e);
    assert Rpc.Deadline(s.rpc, e, id);
    Rpc.SettledByDeadline(s.rpc, es, id);
  }

  // ----- what a message settles a request with -----

  /** What a response says. */
  function OutcomeOf(m: Message): Rpc.Settled {
    if m.error.Some? && m.error.value.truthy then Rpc.Rejected(m.error.value)
    else Rpc.Resolved(if m.result.Some? then m.result.value else Rpc.UNDEFINED)
  }

  /** A response to a pending request settles that request, once, and nothing else: it rejects with the
      error when there is a truthy one, and otherwise resolves with the result. */
  lemma ResponseSettlesWith(s: Session, m: Message, clock: nat -> nat)
    requires Inv(s) && AnswersPending(s.rpc, m)
    ensures var next := HandleMsg(s, m, clock);
            && |next.rpc.settled| == |s.rpc.settled| + 1 && s.rpc.settled <= next.rpc.settled
            && next.rpc.settled[|s.rpc.settled|].id == m.id.value.n
            && next.rpc.settled[|s.rpc.settled|].outcome == OutcomeOf(m)
            && next.rpc.sent == s.rpc.sent && next.host == s.host && next.notices == s.notices && next.clients == s.clients
  {
  }

  /** In one step of the session: a time-out settles only when the request's own timer fires, a lost
      process only when the process exits, and a value or an error only when the agent prints. */
  lemma StepSettles(s: Session, event: Event, x: Rpc.Settlement, parse: string -> Option<Message>, clock: nat -> nat)
    requires Inv(s) && x in Step(s, event, parse, clock).rpc.settled && x !in s.rpc.settled
    ensures match x.outcome
            case TimedOut => x.id in s.rpc.pending && event == RequestTimesOut(s.rpc.pending[x.id])
            case ProcessGone => x.id in s.rpc.pending && event == ProcessExits
            case _ => event.OutputArrives?
  {
    hide Inv, Rpc.Inv, Step;
    var es := StepTrace(s, event, parse, clock);
    RpcHolds(s);
    Rpc.SettledAsCaused(s.rpc, es, x);
    var i :| 0 <= i < |es| && Rpc.Causes(Rpc.Run(s.rpc, es[..i]), es[i], x);
    assert es[i] in es;
    if event.ProcessExits? || event.RequestTimesOut? {
      assert es[..0] == [];
    }
  }

  lemma RpcHolds(s: Session)
    requires Inv(s)
    ensures Rpc.Inv(s.rpc)
  {
  }

  /** The session before event number `i` of a run. */
  function Before(s: Session, events: seq<Event>, i: nat, parse: string -> Option<Message>, clock: nat -> nat): Session
    requires i <= |events|
  {
    Run(s, events[..i], parse, clock)
  }

  /** Over whole runs. */
  lemma {:induction false} TimeOutsAreOwn(s: Session, events: seq<Event>, x: Rpc.Settlement, parse: string -> Option<Message>, clock: nat -> nat)
    returns (i: nat)
    requires Inv(s) && x in Run(s, events, parse, clock).rpc.settled && x !in s.rpc.settled
    ensures i < |events|
    ensures var pending := Before(s, events, i, parse, clock).rpc.pending;
            match x.outcome
            case TimedOut => x.id in pending && events[i] == RequestTimesOut(pending[x.id])
            case ProcessGone => x.id in pending && events[i] == ProcessExits
            case _ => events[i].OutputArrives?
    decreases |events|
  {
    hide Inv, Step;
    var next := Step(s, events[0], parse, clock);
    StepKeeps(s, events[0], parse, clock);
    if x in next.rpc.settled {
      StepSettles(s, events[0], x, parse, clock);
      i := 0;
      assert events[..0] == [];
    } else {
      var k := TimeOutsAreOwn(next, events[1..], x, parse, clock);
      i := k + 1;
      assert events[..i][1..] == events[1..][..k];
    }
  }

  // ----- what a message broadcasts -----

  /** A `session/update` notification is broadcast as it is, to every client; any other message that is
      neither a request nor the answer to one changes nothing. */
  lemma UpdatesAreForwarded(s: Session, m: Message, clock: nat -> nat)
    requires !AnswersPending(s.rpc, m) && !IsRequest(m)
    ensures var next := HandleMsg(s, m, clock);
            && next.rpc == s.rpc && next.host == s.host && next.clients.Keys == s.clients.Keys
            && (m.rpcMethod != "session/update" ==> next == s)
            && (m.rpcMethod == "session/update" ==>
                  && next.notices == s.notices + [Forwarded(m)]
                  && forall c :: c in s.clients ==> next.clients[c] == s.clients[c].(written := s.clients[c].written + [Forwarded(m)]))
  {
  }

  /** Every client hears what a terminal's process writes, also beyond the kept megabyte, and the
      status it exits with; a process that could not be started is not announced. */
  lemma TerminalsAreAnnounced(
      s: Session, name: Terminals.Name, data: string, code: Option<int>, signalled: bool,
      parse: string -> Option<Message>, clock: nat -> nat)
    ensures var known := name in s.host.procs;
            var status := if code.Some? then code.value else if signalled then 128 else 0;
            && Announced(s, Step(s, TerminalData(name, data), parse, clock),
                         if known then [OfTerminal(Terminals.TerminalOutput(name, data))] else [])
            && Announced(s, Step(s, TerminalExits(name, code, signalled), parse, clock),
                         if known then [OfTerminal(Terminals.TerminalExited(name, status))] else [])
            && Announced(s, Step(s, TerminalFails(name), parse, clock), [])
  {
    assert Lifted([]) == [];
    assert Lifted([Terminals.TerminalOutput(name, data)]) == [OfTerminal(Terminals.TerminalOutput(name, data))];
    var status := Terminals.ExitStatus(code, signalled);
    assert Lifted([Terminals.TerminalExited(name, status)]) == [OfTerminal(Terminals.TerminalExited(name, status))];
  }

  ghost predicate Announced(s: Session, next: Session, ns: seq<Notice>) {
    && next.notices == s.notices + ns && next.clients.Keys == s.clients.Keys
    && forall c :: c in s.clients ==> next.clients[c].joined == s.clients[c].joined && next.clients[c].written == s.clients[c].written + ns
  }

  // ----- reading what the agent prints -----

  function HandleMsgs(s: Session, ms: seq<Message>, clock: nat -> nat): Session
    decreases |ms|
  {
    if ms == [] then s else HandleMsgs(HandleMsg(s, ms[0], clock), ms[1..], clock)
  }

  /** One line of the agent's output: a message as JSON, alone or between other text. */
  datatype Printed = Printed(before: string, json: string, after: string, message: Message)

  function Line(p: Printed): string {
    p.before + p.json + p.after
  }

  /** The line is the message's JSON, or is not JSON as a whole while its one brace group is. */
  predicate Prints(p: Printed, parse: string -> Option<Message>) {
    && '\n' !in Line(p) && Text.Trim(Line(p)) != ""
    && parse(p.json) == Some(p.message)
    && (|| (p.before == p.after == "")
        || (parse(Line(p)).None? && BraceFree(p.before) && IsGroup(p.json) && BraceFree(p.after)))
  }

  function PrintLines(ps: seq<Printed>): string {
    if ps == [] then "" else Line(ps[0]) + NEW_LINE + PrintLines(ps[1..])
  }

  function LinesOf(ps: seq<Printed>): seq<string> {
    seq(|ps|, i requires 0 <= i < |ps| => Line(ps[i]))
  }

  function MessagesOf(ps: seq<Printed>): seq<Message> {
    seq(|ps|, i requires 0 <= i < |ps| => ps[i].message)
  }

  lemma {:induction false} PrintedSplit(ps: seq<Printed>)
    requires forall p :: p in ps ==> '\n' !in Line(p)
    ensures SplitOn(PrintLines(ps), NEW_LINE) == LinesOf(ps) + [""]
    decreases |ps|
  {
    if ps != [] {
      assert ps[0] in ps;
      SplitOffFirst(Line(ps[0]), PrintLines(ps[1..]), NEW_LINE);
      PrintedSplit(ps[1..]);
      assert [Line(ps[0])] + (LinesOf(ps[1..]) + [""]) == LinesOf(ps) + [""];
    }
  }

  lemma PrintedLine(s: Session, p: Printed, parse: string -> Option<Message>, clock: nat -> nat)
    requires Prints(p, parse)
    ensures HandleLine(s, Line(p), parse, clock) == HandleMsg(s, p.message, clock)
  {
    hide HandleMsg, Text.Trim, BraceFree;
    var line := Line(p);
    if p.before == p.after == "" {
      assert line == p.json;
    } else {
      ExtractsTheObject(p.before, p.json, p.after);
      var span := Span(|p.before|, |p.before| + |p.json|);
      assert Extract(line) == [span] && line[span.from..span.to] == p.json;
      assert SpansFit(line, [span]) && [span][1..] == [];
      assert HandleSpans(s, line, [span], parse, clock) == HandleSpans(HandleText(s, p.json, parse, clock), line, [], parse, clock);
    }
  }

  lemma {:induction false} PrintedLines(s: Session, ps: seq<Printed>, parse: string -> Option<Message>, clock: nat -> nat)
    requires forall p :: p in ps ==> Prints(p, parse)
    ensures HandleLines(s, LinesOf(ps), parse, clock) == HandleMsgs(s, MessagesOf(ps), clock)
    decreases |ps|
  {
    if ps != [] {
      hide Prints, HandleLine, HandleMsg;
      assert ps[0] in ps;
      PrintedLine(s, ps[0], parse, clock);
      PrintedLines(HandleMsg(s, ps[0].message, clock), ps[1..], parse, clock);
      assert LinesOf(ps)[1..] == LinesOf(ps[1..]) && MessagesOf(ps)[1..] == MessagesOf(ps[1..]);
    }
  }

  /** Whatever messages the agent prints, a line each, alone or inside other text without braces, and
      however the pipe cuts them: the session handles these messages, in order, and keeps nothing back. */
  lemma PrintedMessagesAreHandled(s: Session, ps: seq<Printed>, chunks: seq<string>, parse: string -> Option<Message>, clock: nat -> nat)
    requires s.buffer == "" && (forall p :: p in ps ==> Prints(p, parse)) && Flatten(chunks) == PrintLines(ps)
    ensures StdoutAll(s, chunks, parse, clock) == HandleMsgs(s, MessagesOf(ps), clock)
  {
    hide HandleLines, HandleMsgs, Prints;
    NoNewLine();
    ChunkingIsInvisible(s, chunks, parse, clock);
    assert forall p :: p in ps ==> '\n' !in Line(p) by { AllPrint(ps, parse); }
    PrintedSplit(ps);
    assert s.buffer + Flatten(chunks) == PrintLines(ps);
    assert Complete(LinesOf(ps) + [""]) == LinesOf(ps);
    PrintedLines(s, ps, parse, clock);
    assert s.(buffer := "") == s;
    LinesIdle(s, LinesOf(ps), "", parse, clock);
  }

  lemma AllPrint(ps: seq<Printed>, parse: string -> Option<Message>)
    requires forall p :: p in ps ==> Prints(p, parse)
    ensures forall p :: p in ps ==> '\n' !in Line(p)
  {
  }

  lemma NoNewLine()
    ensures IndexOf("", NEW_LINE, 0) == -1
  {
  }
}
