/** `OpenCodeSession` (docker/opencode-bridge/server.js): the fields its event handlers update in
    place, each handler proved against the machine of module OpenCodeBridge. Every handler keeps
    `Valid()`; `OnAgentRequest`, `Write`, `CreateTerminal`, `WaitForExit`, `BroadcastSse`,
    `EndTerminal` and `RejectPending` are parts of handlers and state their effect. */
module BridgeSession {
  import opened Options
  import opened Framing
  import Text
  import opened BraceScan
  import Rpc
  import Terminals
  import opened OpenCodeBridge

  class OpenCodeSession {
    const parse: string -> Option<Message>
    const clock: nat -> nat
    var buffer: string
    var alive: bool
    // requests to the agent
    var nextReqId: nat
    var pendingRequests: map<nat, nat>
    var timers: map<nat, nat>
    var nextTimer: nat
    ghost var sent: seq<nat>
    ghost var settled: seq<Rpc.Settlement>
    // requests from the agent
    var procs: map<Terminals.Name, Terminals.Managed>
    var terminals: set<Terminals.Name>
    var terminalCounter: nat
    var asked: nat
    var callbacks: set<nat>
    var waiting: map<nat, Terminals.Name>
    var replies: seq<Terminals.Reply>
    // SSE clients
    var sseClients: map<nat, Client>
    var notices: seq<Notice>

    ghost function RpcView(): Rpc.Table
      reads this
    {
      Rpc.Table(nextReqId, pendingRequests, timers, nextTimer, sent, settled)
    }

    ghost function HostView(): Terminals.Host
      reads this
    {
      Terminals.Host(procs, terminals, terminalCounter, asked, callbacks, waiting, replies)
    }

    ghost function View(): Session
      reads this
    {
      Session(buffer, alive, RpcView(), HostView(), sseClients, notices)
    }

    ghost predicate Valid()
      reads this
    {
      Inv(View())
    }

    constructor (parse: string -> Option<Message>, clock: nat -> nat)
      ensures View() == INITIAL && Valid() && this.parse == parse && this.clock == clock
    {
      this.parse, this.clock := parse, clock;
      buffer, alive := "", false;
      nextReqId, pendingRequests, timers, nextTimer, sent, settled := 1, map[], map[], 1, [], [];
      procs, terminals, terminalCounter, asked, callbacks, waiting, replies := map[], {}, 0, 0, {}, map[], [];
      sseClients, notices := map[], [];
      new;
      SessionSafe([], parse, clock);
    }

    // ----- reading the agent -----

    method OnStdout(chunk: string)
      requires Valid()
      modifies this
      ensures View() == Stdout(old(View()), chunk, parse, clock)
      ensures Valid()
    {
      hide HandleLines, Inv;
      StepKeeps(View(), OutputArrives(chunk), parse, clock);
      BufferIsFree(View(), buffer + chunk);
      buffer := buffer + chunk;
      DrainBuffer();
      ghost var pieces := SplitOn(old(buffer) + chunk, NEW_LINE);
      LinesIdle(old(View()), Complete(pieces), Kept(pieces), parse, clock);
    }

    method DrainBuffer()
      requires Valid()
      modifies this
      ensures var pieces := SplitOn(old(buffer), NEW_LINE);
              View() == HandleLines(old(View()).(buffer := Kept(pieces)), Complete(pieces), parse, clock)
      ensures Valid()
    {
      hide HandleLine, Inv;
      BufferIsFree(View(), Kept(SplitOn(buffer, NEW_LINE)));
      var lines := SplitOn(buffer, NEW_LINE);
      buffer := lines[|lines| - 1];
      lines := lines[..|lines| - 1];
      ghost var start := View();
      for i := 0 to |lines|
        invariant Valid() && HandleLines(start, lines, parse, clock) == HandleLines(View(), lines[i..], parse, clock)
      {
        assert lines[i..][1..] == lines[i + 1..];
        OnLine(lines[i]);
      }
    }

    method OnLine(line: string)
      requires Valid()
      modifies this
      ensures View() == HandleLine(old(View()), line, parse, clock)
      ensures Valid()
    {
      hide HandleMsg, HandleSpans, Inv;
      if Text.Trim(line) != "" {
        var msg := parse(line);
        match msg {
          case Some(m) => OnMessage(m);
          case None => OnMixedLine(line);
        }
      }
    }

    method OnMixedLine(line: string)
      requires Valid()
      modifies this
      ensures SpansFit(line, Extract(line))
      ensures View() == HandleSpans(old(View()), line, Extract(line), parse, clock)
      ensures Valid()
    {
      hide Inv;
      var spans := TryExtract(line);
      ExtractFits(line);
      for i := 0 to |spans|
        invariant Valid()
        invariant HandleSpans(old(View()), line, spans, parse, clock) == HandleSpans(View(), line, spans[i..], parse, clock)
      {
        var msg := parse(line[spans[i].from..spans[i].to]);
        if msg.Some? {
          OnMessage(msg.value);
        }
        assert spans[i..][1..] == spans[i + 1..];
      }
    }

    method OnMessage(msg: Message)
      requires Valid()
      modifies this
      ensures View() == HandleMsg(old(View()), msg, clock)
      ensures Valid()
    {
      hide Terminals.Request, Rpc.Settle, WrittenTo, Lifted, AnswersPending, Inv;
      HandleMsgKeeps(View(), msg, clock);
      if msg.id.Some? && (msg.result.Some? || msg.error.Some?) {
        if msg.id.value.NumberId? && msg.id.value.n >= 0 && msg.id.value.n in pendingRequests {
          ResponseFor(RpcView(), msg);
          SettlePending(msg.id.value.n, msg.result, msg.error);
          return;
        }
      }
      ResponseFor(RpcView(), msg);
      if msg.id.Some? && msg.rpcMethod != "" {
        OnAgentRequest(msg.rpcMethod, msg.params);
        return;
      }
      if msg.rpcMethod == "session/update" {
        BroadcastSse(Forwarded(msg));
      }
    }

    method SettlePending(id: nat, result: Option<Rpc.Value>, error: Option<Rpc.Value>)
      requires Valid()
      requires id in pendingRequests
      modifies this`timers, this`pendingRequests, this`settled
      ensures RpcView() == Rpc.Settle(old(RpcView()), id, result, error)
      ensures Valid()
    {
      hide Inv, Rpc.Inv;
      RpcKeeps(View(), Rpc.Answered(id, result, error));
      timers := timers - {pendingRequests[id]};
      pendingRequests := pendingRequests - {id};
      if error.Some? && error.value.truthy {
        settled := settled + [Rpc.Settlement(id, Rpc.Rejected(error.value))];
      } else {
        settled := settled + [Rpc.Settlement(id, Rpc.Resolved(if result.Some? then result.value else Rpc.Value(false, 0)))];
      }
    }

    // ----- answering the agent -----

    method Write(ask: nat, body: Terminals.Body)
      modifies this`replies
      ensures replies == old(replies) + [Terminals.Reply(ask, body, None)]
    {
      replies := replies + [Terminals.Reply(ask, body, None)];
    }

    method OnAgentRequest(rpcMethod: string, params: Terminals.Params)
      modifies this`procs, this`terminals, this`terminalCounter, this`asked, this`callbacks, this`waiting, this`replies,
               this`sseClients, this`notices
      ensures var (host, ns) := Terminals.Request(old(HostView()), rpcMethod, params, clock);
              && HostView() == host
              && notices == old(notices) + Lifted(ns)
              && sseClients == WrittenTo(old(sseClients), Lifted(ns))
    {
      hide Terminals.Create, Terminals.WaitForExit;
      var ask := asked;
      asked := asked + 1;
      NothingWritten(sseClients);
      match rpcMethod {
        case "session/request_permission" => Write(ask, Terminals.Approved);
        case "fs/read_text_file" =>
          if params.path == "" { Write(ask, Terminals.Failed(-32602)); } else { callbacks := callbacks + {ask}; }
        case "fs/write_text_file" =>
          if params.path == "" { Write(ask, Terminals.Failed(-32602)); } else { callbacks := callbacks + {ask}; }
        case "fs/list_directory" => callbacks := callbacks + {ask};
        case "terminal/create" => CreateTerminal(ask, params);
        case "terminal/output" =>
          var known := params.terminal.Some? && params.terminal.value in terminals && params.terminal.value in procs;
          Write(ask, Terminals.Output(if known then procs[params.terminal.value].output else ""));
        case "terminal/wait_for_exit" => WaitForExit(ask, params);
        case "terminal/release" =>
          if params.terminal.Some? { terminals := terminals - {params.terminal.value}; }
          Write(ask, Terminals.Done);
        case _ => Write(ask, Terminals.Done);
      }
    }

    method CreateTerminal(ask: nat, params: Terminals.Params)
      modifies this`procs, this`terminals, this`terminalCounter, this`replies, this`sseClients, this`notices
      ensures var (host, ns) := Terminals.Create(old(HostView()), ask, params, clock);
              && HostView() == host
              && notices == old(notices) + Lifted(ns)
              && sseClients == WrittenTo(old(sseClients), Lifted(ns))
    {
      hide WrittenTo, Lifted;
      NothingWritten(sseClients);
      if |terminals| >= Terminals.MAX_TERMINALS {
        Write(ask, Terminals.Failed(-32000));
        return;
      }
      terminalCounter := terminalCounter + 1;
      var name := Terminals.Name(terminalCounter, clock(terminalCounter));
      if params.command == "" {
        Write(ask, Terminals.TerminalIs(name));
        return;
      }
      BroadcastSse(OfTerminal(Terminals.TerminalCreated(name, params.command)));
      procs := procs[name := Terminals.FRESH_PROCESS];
      terminals := terminals + {name};
      Write(ask, Terminals.TerminalIs(name));
      LiftedOne(Terminals.TerminalCreated(name, params.command));
    }

    method WaitForExit(ask: nat, params: Terminals.Params)
      modifies this`replies, this`waiting
      ensures HostView() == Terminals.WaitForExit(old(HostView()), ask, params)
    {
      if !(params.terminal.Some? && params.terminal.value in terminals && params.terminal.value in procs) {
        Write(ask, Terminals.ExitCode(-1));
        return;
      }
      var name := params.terminal.value;
      var terminal := procs[name];
      if terminal.exited {
        var code := if terminal.exitCode.Some? then terminal.exitCode.value else 0;
        replies := replies + [Terminals.Reply(ask, Terminals.ExitCode(code), Some(name))];
        return;
      }
      waiting := waiting[ask := name];
    }

    method OnFileCallback(ask: nat, ok: bool)
      requires Valid()
      modifies this`callbacks, this`replies
      ensures HostView() == Terminals.FileDone(old(HostView()), ask, ok)
      ensures Valid()
    {
      hide Inv;
      StepKeeps(View(), FileCallback(ask, ok), parse, clock);
      if ask in callbacks {
        callbacks := callbacks - {ask};
        Write(ask, if ok then Terminals.Content else Terminals.Failed(-32000));
      }
    }

    // ----- the terminals' processes -----

    method OnTerminalData(name: Terminals.Name, data: string)
      requires Valid()
      modifies this`procs, this`sseClients, this`notices
      ensures var (host, ns) := Terminals.Data(old(HostView()), name, data);
              && HostView() == host
              && notices == old(notices) + Lifted(ns)
              && sseClients == WrittenTo(old(sseClients), Lifted(ns))
      ensures Valid()
    {
      hide Inv, WrittenTo, Lifted, Terminals.Prefix;
      StepKeeps(View(), TerminalData(name, data), parse, clock);
      if name !in procs {
        NothingWritten(sseClients);
        return;
      }
      var managed := procs[name];
      var output := managed.output;
      if |output| < Terminals.MAX_OUTPUT {
        output := output + Terminals.Prefix(data, Terminals.MAX_OUTPUT - |output|);
      }
      procs := procs[name := managed.(output := output, received := managed.received + data)];
      BroadcastSse(OfTerminal(Terminals.TerminalOutput(name, data)));
      LiftedOne(Terminals.TerminalOutput(name, data));
    }

    /** The exit fields, and the promise with everyone chained on it. */
    method EndTerminal(name: Terminals.Name, code: int)
      modifies this`procs, this`waiting, this`replies
      ensures HostView() == Terminals.End(old(HostView()), name, code)
    {
      if name !in procs {
        return;
      }
      var managed := procs[name];
      var first := managed.resolved.None?;
      procs := procs[name := managed.(exitCode := Some(code), exited := true, ends := managed.ends + [code],
                                      resolved := if first then Some(code) else managed.resolved)];
      if first {
        var asks := Terminals.WaitersBelow(waiting, name, asked);
        waiting := map a | a in waiting && waiting[a] != name :: waiting[a];
        ghost var others, ended := waiting, procs;
        for i := 0 to |asks|
          invariant waiting == others && procs == ended
          invariant replies == old(replies) + Terminals.WaitReplies(asks, code, name)[..i]
        {
          replies := replies + [Terminals.Reply(asks[i], Terminals.ExitCode(code), Some(name))];
        }
        assert Terminals.WaitReplies(asks, code, name)[..|asks|] == Terminals.WaitReplies(asks, code, name);
      }
    }

    method OnTerminalExit(name: Terminals.Name, code: Option<int>, signalled: bool)
      requires Valid()
      modifies this`procs, this`waiting, this`replies, this`sseClients, this`notices
      ensures var (host, ns) := Terminals.Exit(old(HostView()), name, code, signalled);
              && HostView() == host
              && notices == old(notices) + Lifted(ns)
              && sseClients == WrittenTo(old(sseClients), Lifted(ns))
      ensures Valid()
    {
      hide Terminals.End, Inv, WrittenTo, Lifted;
      StepKeeps(View(), TerminalExits(name, code, signalled), parse, clock);
      var status := if code.Some? then code.value else if signalled then 128 else 0;
      var known := name in procs;
      EndTerminal(name, status);
      NothingWritten(sseClients);
      if known {
        BroadcastSse(OfTerminal(Terminals.TerminalExited(name, status)));
        LiftedOne(Terminals.TerminalExited(name, status));
      }
    }

    method OnTerminalError(name: Terminals.Name)
      requires Valid()
      modifies this`procs, this`waiting, this`replies
      ensures HostView() == Terminals.End(old(HostView()), name, 1)
      ensures Valid()
    {
      hide Inv;
      StepKeeps(View(), TerminalFails(name), parse, clock);
      EndTerminal(name, 1);
    }

    // ----- SSE clients -----

    method BroadcastSse(notice: Notice)
      modifies this`sseClients, this`notices
      ensures notices == old(notices) + [notice] && sseClients == WrittenTo(old(sseClients), [notice])
    {
      notices := notices + [notice];
      var todo := sseClients.Keys;
      while todo != {}
        invariant todo <= sseClients.Keys == old(sseClients).Keys
        invariant notices == old(notices) + [notice]
        invariant forall c :: c in sseClients ==>
          sseClients[c] == if c in todo then old(sseClients)[c]
                           else old(sseClients)[c].(written := old(sseClients)[c].written + [notice])
        decreases todo
      {
        var c :| c in todo;
        sseClients := sseClients[c := sseClients[c].(written := sseClients[c].written + [notice])];
        todo := todo - {c};
      }
    }

    method AddSseClient(client: nat)
      requires Valid()
      modifies this`sseClients
      ensures sseClients == old(sseClients)[client := Client(|notices|, [])]
      ensures Valid()
    {
      hide Inv;
      StepKeeps(View(), ClientJoins(client), parse, clock);
      sseClients := sseClients[client := Client(|notices|, [])];
    }

    method RemoveSseClient(client: nat)
      requires Valid()
      modifies this`sseClients
      ensures sseClients == old(sseClients) - {client}
      ensures Valid()
    {
      hide Inv;
      StepKeeps(View(), ClientLeaves(client), parse, clock);
      sseClients := sseClients - {client};
    }

    // ----- requests to the agent -----

    method Request() returns (id: nat)
      requires Valid()
      modifies this`nextReqId, this`nextTimer, this`timers, this`pendingRequests, this`sent
      ensures RpcView() == Rpc.Send(old(RpcView())) && id == old(nextReqId)
      ensures Valid()
    {
      hide Inv, Rpc.Inv;
      RpcKeeps(View(), Rpc.Sends);
      id := nextReqId;
      nextReqId := nextReqId + 1;
      var timer := nextTimer;
      nextTimer := nextTimer + 1;
      timers := timers[timer := id];
      pendingRequests := pendingRequests[id := timer];
      sent := sent + [id];
    }

    /** Another session of the same process draws an id: the counter is shared. */
    method OtherSessionRequests()
      requires Valid()
      modifies this`nextReqId
      ensures RpcView() == Rpc.IdTakenElsewhere(old(RpcView()))
      ensures Valid()
    {
      hide Inv, Rpc.Inv;
      RpcKeeps(View(), Rpc.OtherSends);
      nextReqId := nextReqId + 1;
    }

    method OnTimeout(timer: nat)
      requires Valid()
      modifies this`timers, this`pendingRequests, this`settled
      ensures RpcView() == Rpc.Timeout(old(RpcView()), timer)
      ensures Valid()
    {
      hide Inv, Rpc.Inv;
      RpcKeeps(View(), Rpc.TimerFires(timer));
      if timer in timers {
        var id := timers[timer];
        timers := timers - {timer};
        pendingRequests := pendingRequests - {id};
        settled := settled + [Rpc.Settlement(id, Rpc.TimedOut)];
      }
    }

    method OnExit()
      requires Valid()
      modifies this`alive, this`sseClients, this`timers, this`settled, this`pendingRequests
      ensures RpcView() == Rpc.Exit(old(RpcView())) && !alive && sseClients == map[]
      ensures Valid()
    {
      hide Inv, Rpc.Inv;
      PendingIdsBelow(View());
      StepKeeps(View(), ProcessExits, parse, clock);
      alive := false;
      RejectPending();
      sseClients := map[];
    }

    /** Clear the timer and reject the promise of every pending request. */
    method RejectPending()
      requires forall id :: id in pendingRequests ==> id < nextReqId
      modifies this`timers, this`settled, this`pendingRequests
      ensures RpcView() == Rpc.Exit(old(RpcView()))
    {
      var ids := Rpc.PendingBelow(pendingRequests, nextReqId);
      hide TimersOf;
      ghost var gone := Rpc.Gone(ids);
      ghost var pending := pendingRequests;
      PendingListed(pendingRequests, nextReqId);
      TimersNone(pending);
      for i := 0 to |ids|
        invariant pendingRequests == pending
        invariant timers == old(timers) - TimersOf(pending, ids[..i])
        invariant settled == old(settled) + gone[..i]
      {
        assert ids[i] in ids;
        TimersSnoc(pending, ids, i);
        timers := timers - {pendingRequests[ids[i]]};
        settled := settled + [Rpc.Settlement(ids[i], Rpc.ProcessGone)];
      }
      assert gone[..|ids|] == gone && ids[..|ids|] == ids;
      AllTimers(pending, ids);
      pendingRequests := map[];
    }

    method Kill()
      requires Valid()
      modifies this`alive, this`terminals
      ensures HostView() == Terminals.Kill(old(HostView())) && !alive
      ensures Valid()
    {
      hide Inv;
      StepKeeps(View(), Killed, parse, clock);
      alive := false;
      terminals := {};
    }

    // ----- the event loop -----

    method Perform(event: Event)
      requires Valid()
      modifies this
      ensures Valid() && View() == Step(old(View()), event, parse, clock)
    {
      hide Inv, Stdout, Terminals.Kill, Rpc.Send, Rpc.Timeout, Rpc.Exit, Rpc.IdTakenElsewhere;
      match event {
        case OutputArrives(chunk) => OnStdout(chunk);
        case RequestSent => var _ := Request();
        case OtherSessionSends => OtherSessionRequests();
        case RequestTimesOut(timer) => OnTimeout(timer);
        case ProcessExits => OnExit();
        case Killed => Kill();
        case _ => PerformOther(event);
      }
    }

    /** The tasks of terminals, files and SSE clients. */
    method PerformOther(event: Event)
      requires Valid()
      requires !event.OutputArrives? && !event.RequestSent? && !event.OtherSessionSends?
      requires !event.RequestTimesOut? && !event.ProcessExits? && !event.Killed?
      modifies this
      ensures Valid() && View() == Step(old(View()), event, parse, clock)
    {
      hide Inv, WrittenTo, Lifted, Terminals.Data, Terminals.Exit, Terminals.End, Terminals.FileDone;
      match event {
        case FileCallback(ask, ok) => OnFileCallback(ask, ok);
        case TerminalData(name, data) => OnTerminalData(name, data);
        case TerminalExits(name, code, signalled) => OnTerminalExit(name, code, signalled);
        case TerminalFails(name) => OnTerminalError(name);
        case ClientJoins(client) => AddSseClient(client);
        case ClientLeaves(client) => RemoveSseClient(client);
      }
    }

    /** However the event loop orders its tasks, the object is valid and its fields are those of the run. */
    method PerformAll(events: seq<Event>)
      requires Valid()
      modifies this
      ensures Valid() && View() == Run(old(View()), events, parse, clock)
    {
      hide Inv, Step;
      ghost var start := View();
      assert events[0..] == events;
      for i := 0 to |events|
        invariant Valid() && Run(View(), events[i..], parse, clock) == Run(start, events, parse, clock)
      {
        assert events[i..][0] == events[i] && events[i..][1..] == events[i + 1..];
        Perform(events[i]);
      }
      assert events[|events|..] == [];
    }
  }

  lemma LiftedOne(n: Terminals.Notice)
    ensures Lifted([n]) == [OfTerminal(n)]
  {
  }

  /** The buffer is no part of the invariant. */
  lemma BufferIsFree(s: Session, b: string)
    ensures Inv(s.(buffer := b)) <==> Inv(s)
  {
  }

  lemma RpcKeeps(s: Session, event: Rpc.Event)
    requires Inv(s)
    ensures Inv(s.(rpc := Rpc.Step(s.rpc, event)))
  {
    Rpc.StepKeeps(s.rpc, event);
  }

  lemma ResponseFor(t: Rpc.Table, m: Message)
    ensures AnswersPending(t, m) <==>
              m.id.Some? && (m.result.Some? || m.error.Some?) && m.id.value.NumberId? && m.id.value.n >= 0 && m.id.value.n in t.pending
  {
  }

  lemma NothingWritten(clients: map<nat, Client>)
    ensures Lifted([]) == [] && WrittenTo(clients, Lifted([])) == clients
  {
    var next := WrittenTo(clients, []);
    assert forall c :: c in clients ==> clients[c].written + [] == clients[c].written;
    assert forall c :: c in clients ==> next[c] == clients[c];
  }

  lemma {:induction false} PendingListed(pending: map<nat, nat>, bound: nat)
    ensures forall id :: id in Rpc.PendingBelow(pending, bound) <==> id in pending && id < bound
    decreases bound
  {
    if bound > 0 {
      PendingListed(pending, bound - 1);
    }
  }

  ghost function TimersOf(pending: map<nat, nat>, ids: seq<nat>): set<nat> {
    set id | id in ids && id in pending :: pending[id]
  }

  lemma TimersNone(pending: map<nat, nat>)
    ensures TimersOf(pending, []) == {}
  {
  }

  lemma TimersSnoc(pending: map<nat, nat>, ids: seq<nat>, i: nat)
    requires i < |ids| && ids[i] in pending
    ensures TimersOf(pending, ids[..i + 1]) == TimersOf(pending, ids[..i]) + {pending[ids[i]]}
  {
    assert ids[..i + 1] == ids[..i] + [ids[i]];
  }

  lemma AllTimers(pending: map<nat, nat>, ids: seq<nat>)
    requires forall id :: id in pending ==> id in ids
    ensures TimersOf(pending, ids) == pending.Values
  {
  }

  lemma PendingIdsBelow(s: Session)
    requires Inv(s)
    ensures forall id :: id in s.rpc.pending ==> id < s.rpc.nextReqId
  {
    AllPendingBelow(s.rpc);
  }

  lemma AllPendingBelow(t: Rpc.Table)
    requires Rpc.Inv(t)
    ensures forall id :: id in t.pending ==> id < t.nextReqId
  {
    forall id | id in t.pending ensures id < t.nextReqId {
      assert Rpc.TimesSent(t.sent, id) <= (if id < t.nextReqId then 1 else 0);
    }
  }
}
