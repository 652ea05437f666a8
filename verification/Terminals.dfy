/** The requests the agent sends to the bridge (docker/opencode-bridge/server.js): every request is
    answered once, at once or from a callback, and the terminal requests keep a bounded table. */
module Terminals {
  import opened Options

  const MAX_TERMINALS := 10
  const MAX_OUTPUT := 1024 * 1024

  /** `term-${counter}-${Date.now()}` */
  datatype Name = Name(counter: nat, stamp: nat)

  /** The parameters the handlers read; a missing or unknown terminal id is None. */
  datatype Params = Params(terminal: Option<Name>, command: string, path: string)

  datatype Body =
    | Approved
    | Failed(code: int)
    | Content
    | Done
    | TerminalIs(name: Name)
    | Output(text: string)
    | ExitCode(code: int)

  /** A reply written for request number `ask`. `about` is history: the terminal it waited on. */
  datatype Reply = Reply(ask: nat, body: Body, about: Option<Name>)

  /** What the bridge tells its SSE clients about terminals. */
  datatype Notice =
    | TerminalCreated(name: Name, command: string)
    | TerminalOutput(name: Name, data: string)
    | TerminalExited(name: Name, code: int)

  /** One spawned process. `received` and `ends` are history: all data, and every end event's code. */
  datatype Managed = Managed(
    output: string,
    exitCode: Option<int>,
    exited: bool,
    resolved: Option<int>,
    received: string,
    ends: seq<int>)

  datatype Host = Host(
    procs: map<Name, Managed>,     // every process spawned; its event handlers keep it alive
    table: set<Name>,              // the terminals the agent can name
    counter: nat,
    asked: nat,                    // requests received so far
    callbacks: set<nat>,           // requests answered by a file-system callback still to come
    waiting: map<nat, Name>,       // requests chained on an exit promise
    replies: seq<Reply>)

  const INITIAL := Host(map[], {}, 0, 0, {}, map[], [])

  const FRESH_PROCESS := Managed("", None, false, None, "", [])

  function Answer(h: Host, ask: nat, body: Body): Host {
    h.(replies := h.replies + [Reply(ask, body, None)])
  }

  function AnswerWait(h: Host, ask: nat, code: int, name: Name): Host {
    h.(replies := h.replies + [Reply(ask, ExitCode(code), Some(name))])
  }

  predicate InTable(h: Host, terminal: Option<Name>) {
    terminal.Some? && terminal.value in h.table && terminal.value in h.procs
  }

  function Create(h: Host, ask: nat, params: Params, clock: nat -> nat): (Host, seq<Notice>) {
    if |h.table| >= MAX_TERMINALS then (Answer(h, ask, Failed(-32000)), [])
    else
      var counted := h.(counter := h.counter + 1);
      var name := Name(counted.counter, clock(counted.counter));
      if params.command == "" then (Answer(counted, ask, TerminalIs(name)), [])
      else
        (Answer(counted.(procs := counted.procs[name := FRESH_PROCESS], table := counted.table + {name}), ask, TerminalIs(name)),
         [TerminalCreated(name, params.command)])
  }

  function WaitForExit(h: Host, ask: nat, params: Params): Host {
    if !InTable(h, params.terminal) then Answer(h, ask, ExitCode(-1))
    else
      var name := params.terminal.value;
      var p := h.procs[name];
      if p.exited then AnswerWait(h, ask, if p.exitCode.Some? then p.exitCode.value else 0, name)
      else h.(waiting := h.waiting[ask := name])
  }

  /** `_handleAgentRequest` for the next request. */
  function Request(h0: Host, rpcMethod: string, params: Params, clock: nat -> nat): (Host, seq<Notice>) {
    var ask := h0.asked;
    var h := h0.(asked := h0.asked + 1);
    if rpcMethod == "session/request_permission" then (Answer(h, ask, Approved), [])
    else if rpcMethod == "fs/read_text_file" || rpcMethod == "fs/write_text_file" then
      (if params.path == "" then Answer(h, ask, Failed(-32602)) else h.(callbacks := h.callbacks + {ask}), [])
    else if rpcMethod == "fs/list_directory" then (h.(callbacks := h.callbacks + {ask}), [])
    else if rpcMethod == "terminal/create" then Create(h, ask, params, clock)
    else if rpcMethod == "terminal/output" then
      (Answer(h, ask, Output(if InTable(h, params.terminal) then h.procs[params.terminal.value].output else "")), [])
    else if rpcMethod == "terminal/wait_for_exit" then (WaitForExit(h, ask, params), [])
    else if rpcMethod == "terminal/release" then
      (Answer(if params.terminal.Some? then h.(table := h.table - {params.terminal.value}) else h, ask, Done), [])
    else (Answer(h, ask, Done), [])
  }

  /** A file-system callback runs. */
  function FileDone(h: Host, ask: nat, ok: bool): Host {
    if ask !in h.callbacks then h
    else Answer(h.(callbacks := h.callbacks - {ask}), ask, if ok then Content else Failed(-32000))
  }

  function Prefix(s: string, n: nat): string {
    if |s| <= n then s else s[..n]
  }

  /** Data on a process's stdout or stderr. */
  function Data(h: Host, name: Name, data: string): (Host, seq<Notice>) {
    if name !in h.procs then (h, [])
    else
      var p := h.procs[name];
      var output := if |p.output| < MAX_OUTPUT then p.output + Prefix(data, MAX_OUTPUT - |p.output|) else p.output;
      (h.(procs := h.procs[name := p.(output := output, received := p.received + data)]), [TerminalOutput(name, data)])
  }

  /** The requests below `bound` chained on a terminal's promise, in the order they were chained. */
  function WaitersBelow(waiting: map<nat, Name>, name: Name, bound: nat): seq<nat> {
    if bound == 0 then []
    else WaitersBelow(waiting, name, bound - 1)
         + (if bound - 1 in waiting && waiting[bound - 1] == name then [bound - 1] else [])
  }

  function WaitReplies(asks: seq<nat>, code: int, name: Name): seq<Reply> {
    seq(|asks|, i requires 0 <= i < |asks| => Reply(asks[i], ExitCode(code), Some(name)))
  }

  /** An `exit` or `error` event of a process: the promise takes the first code only. */
  function End(h: Host, name: Name, code: int): Host {
    if name !in h.procs then h
    else
      var p := h.procs[name];
      var ended := h.(procs := h.procs[name := p.(exitCode := Some(code), exited := true, ends := p.ends + [code],
                                                  resolved := if p.resolved.Some? then p.resolved else Some(code))]);
      if p.resolved.Some? then ended
      else
        ended.(waiting := map a | a in h.waiting && h.waiting[a] != name :: h.waiting[a],
               replies := h.replies + WaitReplies(WaitersBelow(h.waiting, name, h.asked), code, name))
  }

  /** `code ?? (signal ? 128 : 0)` */
  function ExitStatus(code: Option<int>, signalled: bool): int {
    if code.Some? then code.value else if signalled then 128 else 0
  }

  function Exit(h: Host, name: Name, code: Option<int>, signalled: bool): (Host, seq<Notice>) {
    (End(h, name, ExitStatus(code, signalled)),
     if name in h.procs then [TerminalExited(name, ExitStatus(code, signalled))] else [])
  }

  /** `kill()` forgets the table; the processes end when they end. */
  function Kill(h: Host): Host {
    h.(table := {})
  }

  datatype Event =
    | Asks(rpcMethod: string, params: Params)
    | FileCallback(ask: nat, ok: bool)
    | DataArrives(name: Name, data: string)
    | Exits(name: Name, code: Option<int>, signalled: bool)
    | SpawnFails(name: Name)
    | Killed

  function Step(h: Host, event: Event, clock: nat -> nat): Host {
    match event
    case Asks(rpcMethod, params) => Request(h, rpcMethod, params, clock).0
    case FileCallback(ask, ok) => FileDone(h, ask, ok)
    case DataArrives(name, data) => Data(h, name, data).0
    case Exits(name, code, signalled) => Exit(h, name, code, signalled).0
    case SpawnFails(name) => End(h, name, 1)
    case Killed => Kill(h)
  }

  function Run(h: Host, events: seq<Event>, clock: nat -> nat): Host
    decreases |events|
  {
    if events == [] then h else Run(Step(h, events[0], clock), events[1..], clock)
  }

  // ----- the table -----

  ghost predicate TableBounded(h: Host) {
    && h.table <= h.procs.Keys
    && |h.table| <= MAX_TERMINALS
    && (forall n :: n in h.procs ==> 1 <= n.counter <= h.counter)
    && (forall m, n :: m in h.procs && n in h.procs && m.counter == n.counter ==> m == n)
  }

  /** Output is cut at the limit, and the exit fields come from the end events seen. */
  ghost predicate WellKept(p: Managed) {
    && p.output == Prefix(p.received, MAX_OUTPUT)
    && p.exited == (p.ends != [])
    && p.exitCode == (if p.ends == [] then None else Some(p.ends[|p.ends| - 1]))
    && p.resolved == (if p.ends == [] then None else Some(p.ends[0]))
  }

  ghost predicate ProcessesKept(h: Host) {
    forall n :: n in h.procs ==> WellKept(h.procs[n])
  }

  function Times(replies: seq<Reply>, ask: nat): nat {
    if replies == [] then 0
    else Times(replies[..|replies| - 1], ask) + (if replies[|replies| - 1].ask == ask then 1 else 0)
  }

  /** How often a request has been answered or is still to be answered. */
  function Owed(h: Host, ask: nat): nat {
    Times(h.replies, ask) + (if ask in h.callbacks then 1 else 0) + (if ask in h.waiting then 1 else 0)
  }

  /** Every request is owed one reply in all, and waits only on a process that has not ended. */
  ghost predicate OneReplyEach(h: Host) {
    && (forall a: nat :: Owed(h, a) == if a < h.asked then 1 else 0)
    && (forall a :: a in h.waiting ==> h.waiting[a] in h.procs && h.procs[h.waiting[a]].ends == [])
  }

  /** A waiter is told a code some end event of its terminal carried. */
  ghost predicate CodesGenuine(h: Host) {
    forall i :: 0 <= i < |h.replies| && h.replies[i].about.Some? ==>
      && h.replies[i].about.value in h.procs
      && h.replies[i].body.ExitCode?
      && h.replies[i].body.code in h.procs[h.replies[i].about.value].ends
  }

  ghost predicate Inv(h: Host) {
    TableBounded(h) && ProcessesKept(h) && OneReplyEach(h) && CodesGenuine(h)
  }

  lemma TimesSnoc(replies: seq<Reply>, last: Reply, ask: nat)
    ensures Times(replies + [last], ask) == Times(replies, ask) + (if last.ask == ask then 1 else 0)
  {
    assert (replies + [last])[..|replies|] == replies;
  }

  /** The invariant while request number `ask`, already counted, is still owed its reply. */
  ghost predicate Owing(h: Host, ask: nat) {
    && TableBounded(h) && ProcessesKept(h) && CodesGenuine(h)
    && ask < h.asked
    && (forall a: nat :: Owed(h, a) == if a < h.asked && a != ask then 1 else 0)
    && (forall a :: a in h.waiting ==> h.waiting[a] in h.procs && h.procs[h.waiting[a]].ends == [])
  }

  lemma CountedOwes(h: Host)
    requires Inv(h)
    ensures Owing(h.(asked := h.asked + 1), h.asked)
  {
    var next := h.(asked := h.asked + 1);
    forall a: nat ensures Owed(next, a) == if a < next.asked && a != h.asked then 1 else 0 {
      assert Owed(next, a) == Owed(h, a);
    }
  }

  lemma ReplyKeeps(h: Host, reply: Reply)
    requires Owing(h, reply.ask)
    requires reply.about.Some? ==>
               reply.about.value in h.procs && reply.body.ExitCode? && reply.body.code in h.procs[reply.about.value].ends
    ensures Inv(h.(replies := h.replies + [reply]))
  {
    var next := h.(replies := h.replies + [reply]);
    forall a: nat ensures Owed(next, a) == if a < next.asked then 1 else 0 {
      TimesSnoc(h.replies, reply, a);
      assert Owed(h, a) == if a < h.asked && a != reply.ask then 1 else 0;
    }
  }

  lemma DeferKeeps(h: Host, ask: nat)
    requires Owing(h, ask)
    ensures Inv(h.(callbacks := h.callbacks + {ask}))
  {
    var next := h.(callbacks := h.callbacks + {ask});
    forall a: nat ensures Owed(next, a) == if a < next.asked then 1 else 0 {
      assert Owed(h, a) == if a < h.asked && a != ask then 1 else 0;
    }
  }

  lemma WaitKeeps(h: Host, ask: nat, name: Name)
    requires Owing(h, ask) && name in h.procs && h.procs[name].ends == []
    ensures Inv(h.(waiting := h.waiting[ask := name]))
  {
    var next := h.(waiting := h.waiting[ask := name]);
    forall a: nat ensures Owed(next, a) == if a < next.asked then 1 else 0 {
      assert Owed(h, a) == if a < h.asked && a != ask then 1 else 0;
    }
  }

  function Spawned(h: Host, name: Name): Host {
    h.(counter := h.counter + 1, procs := h.procs[name := FRESH_PROCESS], table := h.table + {name})
  }

  lemma SpawnTable(h: Host, name: Name)
    requires TableBounded(h) && |h.table| < MAX_TERMINALS && name.counter == h.counter + 1
    ensures name !in h.procs && TableBounded(Spawned(h, name))
  {
    assert name !in h.procs;
    var next := Spawned(h, name);
    assert next.procs.Keys == h.procs.Keys + {name};
    assert next.table <= next.procs.Keys;
    forall m, n | m in next.procs && n in next.procs && m.counter == n.counter ensures m == n {
      if m != name && n != name { assert m in h.procs && n in h.procs; }
    }
  }

  lemma SpawnProcesses(h: Host, name: Name)
    requires ProcessesKept(h) && CodesGenuine(h) && name !in h.procs
    ensures ProcessesKept(Spawned(h, name)) && CodesGenuine(Spawned(h, name))
  {
    var next := Spawned(h, name);
    forall n | n in next.procs ensures WellKept(next.procs[n]) {
      if n != name { assert next.procs[n] == h.procs[n] && WellKept(h.procs[n]); }
    }
  }

  lemma SpawnKeeps(h: Host, ask: nat, name: Name)
    requires Owing(h, ask) && |h.table| < MAX_TERMINALS && name.counter == h.counter + 1
    ensures Owing(Spawned(h, name), ask)
  {
    var next := Spawned(h, name);
    SpawnTable(h, name);
    SpawnProcesses(h, name);
    forall a: nat ensures Owed(next, a) == if a < next.asked && a != ask then 1 else 0 {
      assert Owed(next, a) == Owed(h, a);
    }
  }

  lemma CountUpOwes(h: Host, ask: nat)
    requires Owing(h, ask)
    ensures Owing(h.(counter := h.counter + 1), ask)
  {
    var counted := h.(counter := h.counter + 1);
    assert forall a: nat :: Owed(counted, a) == Owed(h, a);
  }

  lemma CreateKeeps(h: Host, ask: nat, params: Params, clock: nat -> nat)
    requires Owing(h, ask)
    ensures Inv(Create(h, ask, params, clock).0)
  {
    hide Owing, Inv;
    var name := Name(h.counter + 1, clock(h.counter + 1));
    if |h.table| >= MAX_TERMINALS {
      ReplyKeeps(h, Reply(ask, Failed(-32000), None));
    } else if params.command == "" {
      CountUpOwes(h, ask);
      ReplyKeeps(h.(counter := h.counter + 1), Reply(ask, TerminalIs(name), None));
    } else {
      SpawnKeeps(h, ask, name);
      ReplyKeeps(Spawned(h, name), Reply(ask, TerminalIs(name), None));
    }
  }

  lemma WaitForExitKeeps(h: Host, ask: nat, params: Params)
    requires Owing(h, ask)
    ensures Inv(WaitForExit(h, ask, params))
  {
    if !InTable(h, params.terminal) {
      ReplyKeeps(h, Reply(ask, ExitCode(-1), None));
    } else {
      var name := params.terminal.value;
      assert WellKept(h.procs[name]);
      if h.procs[name].exited {
        ReplyKeeps(h, Reply(ask, ExitCode(h.procs[name].exitCode.value), Some(name)));
      } else {
        WaitKeeps(h, ask, name);
      }
    }
  }

  lemma ReleaseKeeps(h: Host, ask: nat, name: Name)
    requires Owing(h, ask)
    ensures Owing(h.(table := h.table - {name}), ask)
  {
    var next := h.(table := h.table - {name});
    assert next.table <= h.table;
    SubsetSize(next.table, h.table);
    forall a: nat ensures Owed(next, a) == Owed(h, a) { }
  }

  lemma SubsetSize<T>(a: set<T>, b: set<T>)
    requires a <= b
    ensures |a| <= |b|
  {
    assert b == a + (b - a);
  }

  lemma RequestKeeps(h0: Host, rpcMethod: string, params: Params, clock: nat -> nat)
    requires Inv(h0)
    ensures Inv(Request(h0, rpcMethod, params, clock).0)
  {
    hide Inv, Owing, Create, WaitForExit;
    var ask := h0.asked;
    var h := h0.(asked := h0.asked + 1);
    CountedOwes(h0);
    if rpcMethod == "session/request_permission" {
      ReplyKeeps(h, Reply(ask, Approved, None));
    } else if rpcMethod == "fs/read_text_file" || rpcMethod == "fs/write_text_file" {
      if params.path == "" { ReplyKeeps(h, Reply(ask, Failed(-32602), None)); } else { DeferKeeps(h, ask); }
    } else if rpcMethod == "fs/list_directory" {
      DeferKeeps(h, ask);
    } else if rpcMethod == "terminal/create" {
      CreateKeeps(h, ask, params, clock);
    } else if rpcMethod == "terminal/output" {
      ReplyKeeps(h, Reply(ask, Output(if InTable(h, params.terminal) then h.procs[params.terminal.value].output else ""), None));
    } else if rpcMethod == "terminal/wait_for_exit" {
      WaitForExitKeeps(h, ask, params);
    } else if rpcMethod == "terminal/release" && params.terminal.Some? {
      ReleaseKeeps(h, ask, params.terminal.value);
      ReplyKeeps(h.(table := h.table - {params.terminal.value}), Reply(ask, Done, None));
    } else {
      ReplyKeeps(h, Reply(ask, Done, None));
    }
  }

  lemma FileDoneKeeps(h: Host, ask: nat, ok: bool)
    requires Inv(h)
    ensures Inv(FileDone(h, ask, ok))
  {
    if ask in h.callbacks {
      var taken := h.(callbacks := h.callbacks - {ask});
      assert Owed(h, ask) == if ask < h.asked then 1 else 0;
      forall a: nat ensures Owed(taken, a) == if a < taken.asked && a != ask then 1 else 0 {
        assert Owed(h, a) == if a < h.asked then 1 else 0;
      }
      ReplyKeeps(taken, Reply(ask, if ok then Content else Failed(-32000), None));
    }
  }

  lemma DataKeeps(h: Host, name: Name, data: string)
    requires Inv(h)
    ensures Inv(Data(h, name, data).0)
  {
    if name in h.procs {
      var next := Data(h, name, data).0;
      assert WellKept(h.procs[name]);
      assert next.procs[name].output == Prefix(next.procs[name].received, MAX_OUTPUT);
      assert next.table <= next.procs.Keys;
      forall a: nat ensures Owed(next, a) == Owed(h, a) { }
    }
  }

  lemma RepliesSnoc(replies: seq<Reply>, asks: seq<nat>, ask: nat, code: int, name: Name)
    ensures replies + WaitReplies(asks + [ask], code, name)
         == replies + WaitReplies(asks, code, name) + [Reply(ask, ExitCode(code), Some(name))]
  {
  }

  lemma {:induction false} WaitersAnswered(h: Host, name: Name, code: int, bound: nat, ask: nat)
    ensures Times(h.replies + WaitReplies(WaitersBelow(h.waiting, name, bound), code, name), ask)
         == Times(h.replies, ask) + (if ask < bound && ask in h.waiting && h.waiting[ask] == name then 1 else 0)
    decreases bound
  {
    var asks := WaitersBelow(h.waiting, name, bound);
    if bound == 0 {
      assert h.replies + WaitReplies(asks, code, name) == h.replies;
    } else {
      var before := WaitersBelow(h.waiting, name, bound - 1);
      WaitersAnswered(h, name, code, bound - 1, ask);
      if bound - 1 in h.waiting && h.waiting[bound - 1] == name {
        var last := Reply(bound - 1, ExitCode(code), Some(name));
        RepliesSnoc(h.replies, before, bound - 1, code, name);
        hide WaitersBelow, WaitReplies, Times;
        assert asks == before + [bound - 1];
        TimesSnoc(h.replies + WaitReplies(before, code, name), last, ask);
      } else {
        assert asks == before;
      }
    }
  }

  lemma EndKeeps(h: Host, name: Name, code: int)
    requires Inv(h)
    ensures Inv(End(h, name, code))
  {
    if name in h.procs {
      EndProcesses(h, name, code);
      EndReplies(h, name, code);
      EndCodesGenuine(h, name, code);
    }
  }

  lemma EndProcesses(h: Host, name: Name, code: int)
    requires TableBounded(h) && ProcessesKept(h) && name in h.procs
    ensures TableBounded(End(h, name, code)) && ProcessesKept(End(h, name, code))
  {
    var next := End(h, name, code);
    assert WellKept(h.procs[name]);
    assert next.procs[name].ends == h.procs[name].ends + [code];
    assert next.procs.Keys == h.procs.Keys;
  }

  lemma EndReplies(h: Host, name: Name, code: int)
    requires Inv(h) && name in h.procs
    ensures OneReplyEach(End(h, name, code))
  {
    var next := End(h, name, code);
    assert WellKept(h.procs[name]);
    forall a: nat ensures Owed(next, a) == if a < next.asked then 1 else 0 {
      assert Owed(h, a) == if a < h.asked then 1 else 0;
      WaitersAnswered(h, name, code, h.asked, a);
    }
  }

  lemma EndCodesGenuine(h: Host, name: Name, code: int)
    requires Inv(h) && name in h.procs
    ensures CodesGenuine(End(h, name, code))
  {
    var next := End(h, name, code);
    forall i | 0 <= i < |next.replies| && next.replies[i].about.Some?
      ensures next.replies[i].about.value in next.procs
      ensures next.replies[i].body.ExitCode?
      ensures next.replies[i].body.code in next.procs[next.replies[i].about.value].ends
    {
      if i < |h.replies| {
        assert next.replies[i] == h.replies[i];
      } else {
        assert next.replies[i].about == Some(name) && next.replies[i].body == ExitCode(code);
        assert next.procs[name].ends[|h.procs[name].ends|] == code;
      }
    }
  }

  lemma KillKeeps(h: Host)
    requires Inv(h)
    ensures Inv(Kill(h))
  {
    forall a: nat ensures Owed(Kill(h), a) == Owed(h, a) { }
  }

  lemma StepKeeps(h: Host, event: Event, clock: nat -> nat)
    requires Inv(h)
    ensures Inv(Step(h, event, clock))
  {
    match event
    case Asks(rpcMethod, params) => RequestKeeps(h, rpcMethod, params, clock);
    case FileCallback(ask, ok) => FileDoneKeeps(h, ask, ok);
    case DataArrives(name, data) => DataKeeps(h, name, data);
    case Exits(name, code, signalled) => EndKeeps(h, name, ExitStatus(code, signalled));
    case SpawnFails(name) => EndKeeps(h, name, 1);
    case Killed => KillKeeps(h);
  }

  lemma {:induction false} RunKeeps(h: Host, events: seq<Event>, clock: nat -> nat)
    requires Inv(h)
    ensures Inv(Run(h, events, clock))
    decreases |events|
  {
    if events != [] {
      StepKeeps(h, events[0], clock);
      RunKeeps(Step(h, events[0], clock), events[1..], clock);
    }
  }

  /** In every reachable state the table holds at most ten terminals with different counters, and
      each process's output is the first megabyte of all it wrote. */
  lemma TerminalsBounded(events: seq<Event>, clock: nat -> nat)
    ensures var h := Run(INITIAL, events, clock);
            && |h.table| <= 10
            && (forall m, n :: m in h.table && n in h.table && m.counter == n.counter ==> m == n)
            && (forall n :: n in h.table ==> n in h.procs)
            && (forall n :: n in h.procs ==>
                  |h.procs[n].output| == (if |h.procs[n].received| < 1048576 then |h.procs[n].received| else 1048576)
                  && h.procs[n].output == h.procs[n].received[..|h.procs[n].output|])
  {
    InitialHolds();
    RunKeeps(INITIAL, events, clock);
    var h := Run(INITIAL, events, clock);
    forall n | n in h.procs
      ensures |h.procs[n].output| == (if |h.procs[n].received| < 1048576 then |h.procs[n].received| else 1048576)
      ensures h.procs[n].output == h.procs[n].received[..|h.procs[n].output|]
    {
      assert WellKept(h.procs[n]);
    }
  }

  lemma InitialHolds()
    ensures Inv(INITIAL)
  {
    assert forall a: nat :: Owed(INITIAL, a) == 0;
  }

  /** Each request of a run has been answered once, or is owed exactly one more event: its file
      callback, or the end of a process that is still running. It is never answered twice. */
  lemma OneReplyPerRequest(events: seq<Event>, clock: nat -> nat, ask: nat)
    ensures var h := Run(INITIAL, events, clock);
            && Times(h.replies, ask) <= 1
            && (ask < h.asked ==> (Times(h.replies, ask) == 1 <==> ask !in h.callbacks && ask !in h.waiting))
            && (ask >= h.asked ==> Times(h.replies, ask) == 0)
            && (ask in h.waiting ==> h.waiting[ask] in h.procs && !h.procs[h.waiting[ask]].exited)
  {
    InitialHolds();
    RunKeeps(INITIAL, events, clock);
    var h := Run(INITIAL, events, clock);
    assert Owed(h, ask) == if ask < h.asked then 1 else 0;
    if ask in h.waiting { assert WellKept(h.procs[h.waiting[ask]]); }
  }

  /** When its process ends, every waiter of a terminal is answered with that code, once. */
  lemma EndAnswersWaiters(h: Host, name: Name, code: int, ask: nat)
    requires Inv(h) && ask in h.waiting && h.waiting[ask] == name
    ensures var next := End(h, name, code);
            Times(next.replies, ask) == 1 && ask !in next.waiting && Reply(ask, ExitCode(code), Some(name)) in next.replies
  {
    var next := End(h, name, code);
    assert WellKept(h.procs[name]);
    assert Owed(h, ask) == if ask < h.asked then 1 else 0;
    WaiterListed(h.waiting, name, h.asked, ask);
    var asks := WaitersBelow(h.waiting, name, h.asked);
    var i :| 0 <= i < |asks| && asks[i] == ask;
    assert next.replies[|h.replies| + i] == Reply(ask, ExitCode(code), Some(name));
    EndOwesOne(h, name, code, ask);
  }

  lemma EndOwesOne(h: Host, name: Name, code: int, ask: nat)
    requires Inv(h) && ask < h.asked
    ensures Owed(End(h, name, code), ask) == 1
  {
    EndKeeps(h, name, code);
  }

  lemma {:induction false} WaiterListed(waiting: map<nat, Name>, name: Name, bound: nat, ask: nat)
    requires ask < bound && ask in waiting && waiting[ask] == name
    ensures ask in WaitersBelow(waiting, name, bound)
    decreases bound
  {
    if ask < bound - 1 {
      WaiterListed(waiting, name, bound - 1, ask);
    }
  }

  /** With one end event per process, all who waited on a terminal were told the same exit code. */
  lemma WaitersAgree(events: seq<Event>, clock: nat -> nat, name: Name, i: nat, j: nat)
    requires var h := Run(INITIAL, events, clock);
             && name in h.procs && |h.procs[name].ends| == 1
             && i < |h.replies| && j < |h.replies|
             && h.replies[i].about == Some(name) && h.replies[j].about == Some(name)
    ensures var h := Run(INITIAL, events, clock);
            h.replies[i].body == h.replies[j].body == ExitCode(h.procs[name].ends[0])
  {
    InitialHolds();
    RunKeeps(INITIAL, events, clock);
  }

  /** After several end events a new waiter hears the last code while those chained on the promise
      heard the first: they agree exactly when the two codes are equal. */
  lemma LateWaiterAgreesIff(h: Host, ask: nat, name: Name)
    requires Inv(h) && name in h.table && h.procs[name].exited
    ensures var p := h.procs[name];
            var late := WaitForExit(h, ask, Params(Some(name), "", ""));
            && p.resolved.Some?
            && late.replies == h.replies + [Reply(ask, ExitCode(p.ends[|p.ends| - 1]), Some(name))]
            && (late.replies[|h.replies|].body == ExitCode(p.resolved.value) <==> p.ends[|p.ends| - 1] == p.ends[0])
  {
    assert WellKept(h.procs[name]);
  }

  /** A terminal whose process fails and then exits as well: the waiter chained before is told 1, the
      one that asks afterwards 0. */
  lemma TwoEndsTwoCodes(clock: nat -> nat)
    ensures var name := Name(1, clock(1));
            var wait := Asks("terminal/wait_for_exit", Params(Some(name), "", ""));
            var events := [Asks("terminal/create", Params(None, "sh", "")), wait, SpawnFails(name), Exits(name, Some(0), false), wait];
            Run(INITIAL, events, clock).replies ==
            [Reply(0, TerminalIs(name), None), Reply(1, ExitCode(1), Some(name)), Reply(2, ExitCode(0), Some(name))]
  {
    var name := Name(1, clock(1));
    var params := Params(Some(name), "", "");
    var create, wait := Asks("terminal/create", Params(None, "sh", "")), Asks("terminal/wait_for_exit", params);
    var h1 := Step(INITIAL, create, clock);
    CreatesFirst(clock);
    var h2 := Step(h1, wait, clock);
    WaitIsAsked(h1, params, clock);
    var h3 := Step(h2, SpawnFails(name), clock);
    FirstEnd(h2, name, clock);
    var h4 := Step(h3, Exits(name, Some(0), false), clock);
    SecondEnd(h3, name, clock);
    var h5 := Step(h4, wait, clock);
    WaitIsAsked(h4, params, clock);
    hide Step;
    assert Run(h4, [wait], clock) == h5;
    assert Run(h3, [Exits(name, Some(0), false), wait], clock) == h5;
    assert Run(h2, [SpawnFails(name), Exits(name, Some(0), false), wait], clock) == h5;
    assert Run(h1, [wait, SpawnFails(name), Exits(name, Some(0), false), wait], clock) == h5;
  }

  lemma FirstEnd(h: Host, name: Name, clock: nat -> nat)
    requires h.asked == 2 && h.waiting == map[1 := name] && name in h.procs && h.procs[name] == FRESH_PROCESS
    ensures var next := Step(h, SpawnFails(name), clock);
            && next.replies == h.replies + [Reply(1, ExitCode(1), Some(name))]
            && next.table == h.table && next.asked == 2 && next.waiting == map[]
            && name in next.procs && next.procs[name].exited && next.procs[name].resolved == Some(1)
  {
    assert WaitersBelow(h.waiting, name, 0) == [] && WaitersBelow(h.waiting, name, 1) == [];
    assert WaitersBelow(h.waiting, name, 2) == [1];
  }

  lemma SecondEnd(h: Host, name: Name, clock: nat -> nat)
    requires name in h.procs && h.procs[name].resolved.Some?
    ensures var next := Step(h, Exits(name, Some(0), false), clock);
            && next.replies == h.replies && next.table == h.table && next.asked == h.asked
            && name in next.procs && next.procs[name].exited && next.procs[name].exitCode == Some(0)
  {
  }

  lemma CreatesFirst(clock: nat -> nat)
    ensures var name := Name(1, clock(1));
            Step(INITIAL, Asks("terminal/create", Params(None, "sh", "")), clock) ==
            Host(map[name := FRESH_PROCESS], {name}, 1, 1, {}, map[], [Reply(0, TerminalIs(name), None)])
  {
    RequestNames();
  }

  lemma WaitIsAsked(h: Host, params: Params, clock: nat -> nat)
    ensures Step(h, Asks("terminal/wait_for_exit", params), clock) == WaitForExit(h.(asked := h.asked + 1), h.asked, params)
  {
    RequestNames();
  }

  /** The methods compared are different. */
  lemma RequestNames()
    ensures |"terminal/create"| == 15 && |"terminal/wait_for_exit"| == 22
    ensures |"session/request_permission"| == 26 && |"fs/read_text_file"| == 17 && |"fs/write_text_file"| == 18
    ensures |"fs/list_directory"| == 17 && |"terminal/output"| == 15 && "terminal/output"[9] == 'o' && "terminal/create"[9] == 'c'
  {
  }

  // ----- what the agent is told -----

  /** All a process wrote during the events. */
  function Wrote(events: seq<Event>, name: Name): string {
    if events == [] then ""
    else (if events[0].DataArrives? && events[0].name == name then events[0].data else "") + Wrote(events[1..], name)
  }

  /** The codes of a process's end events: its exit code, 128 after a signal, 1 if it never ran. */
  function Codes(events: seq<Event>, name: Name): seq<int> {
    if events == [] then []
    else
      (match events[0]
       case Exits(n, code, signalled) => if n != name then [] else if code.Some? then [code.value] else if signalled then [128] else [0]
       case SpawnFails(n) => if n == name then [1] else []
       case _ => [])
      + Codes(events[1..], name)
  }

  /** No event takes the terminal from the agent. */
  ghost predicate LeavesOpen(events: seq<Event>, name: Name) {
    forall i :: 0 <= i < |events| ==> !TakesAway(events[i], name)
  }

  ghost predicate TakesAway(event: Event, name: Name) {
    event.Killed? || (event.Asks? && event.rpcMethod == "terminal/release" && event.params.terminal == Some(name))
  }

  lemma StepRecords(h: Host, event: Event, name: Name, clock: nat -> nat)
    requires Inv(h) && name in h.procs
    ensures Recorded(h, [event], name, Step(h, event, clock))
  {
    InTables(h);
    OneEvent(event, name);
    hide Inv, TableBounded, Request, Data, End, Wrote, Codes, LeavesOpen;
    if event.Asks? {
      AskRecords(h, event.rpcMethod, event.params, name, clock);
    } else {
      EventRecords(h, event, name, clock);
    }
  }

  lemma EventRecords(h: Host, event: Event, name: Name, clock: nat -> nat)
    requires name in h.procs && !event.Asks?
    ensures var next := Step(h, event, clock);
            && name in next.procs
            && next.procs[name].received ==
               h.procs[name].received + (if event.DataArrives? && event.name == name then event.data else "")
            && next.procs[name].ends ==
               h.procs[name].ends + (match event
                                     case Exits(n, code, signalled) =>
                                       if n != name then [] else if code.Some? then [code.value] else if signalled then [128] else [0]
                                     case SpawnFails(n) => if n == name then [1] else []
                                     case _ => [])
            && (name in next.table <==> name in h.table && !event.Killed?)
  {
    hide Data, End;
    match event
    case DataArrives(n, data) => DataRecords(h, n, data, name);
    case Exits(n, code, signalled) => EndRecords(h, n, ExitStatus(code, signalled), name);
    case SpawnFails(n) => EndRecords(h, n, 1, name);
    case _ =>
  }

  lemma DataRecords(h: Host, n: Name, data: string, name: Name)
    requires name in h.procs
    ensures var next := Data(h, n, data).0;
            && name in next.procs && next.table == h.table
            && next.procs[name].received == h.procs[name].received + (if n == name then data else "")
            && next.procs[name].ends == h.procs[name].ends
  {
  }

  lemma EndRecords(h: Host, n: Name, code: int, name: Name)
    requires name in h.procs
    ensures var next := End(h, n, code);
            && name in next.procs && next.table == h.table
            && next.procs[name].received == h.procs[name].received
            && next.procs[name].ends == h.procs[name].ends + (if n == name then [code] else [])
  {
  }

  /** A process's history grows by what the events carry for it, and only a release or the kill of
      the agent closes its terminal. */
  ghost predicate Recorded(h: Host, events: seq<Event>, name: Name, next: Host)
    requires name in h.procs
  {
    && name in next.procs
    && next.procs[name].received == h.procs[name].received + Wrote(events, name)
    && next.procs[name].ends == h.procs[name].ends + Codes(events, name)
    && (name in next.table <==> name in h.table && LeavesOpen(events, name))
  }

  lemma InTables(h: Host)
    requires Inv(h)
    ensures TableBounded(h)
  {
  }

  lemma AskRecords(h: Host, rpcMethod: string, params: Params, name: Name, clock: nat -> nat)
    requires TableBounded(h) && name in h.procs
    ensures var next := Request(h, rpcMethod, params, clock).0;
            && name in next.procs && next.procs[name] == h.procs[name]
            && (name in next.table <==> name in h.table && !(rpcMethod == "terminal/release" && params.terminal == Some(name)))
  {
    hide WaitReplies;
    RequestNames();
  }

  lemma {:induction false} RunRecords(h: Host, events: seq<Event>, name: Name, clock: nat -> nat)
    requires Inv(h) && name in h.procs
    ensures Recorded(h, events, name, Run(h, events, clock))
    decreases |events|
  {
    if events == [] {
      assert Run(h, events, clock) == h;
    } else {
      var next, rest := Step(h, events[0], clock), events[1..];
      StepRecords(h, events[0], name, clock);
      StepKeeps(h, events[0], clock);
      assert Run(h, events, clock) == Run(next, rest, clock);
      hide Inv, Step, Run;
      assert name in next.procs;
      RunRecords(next, rest, name, clock);
      RecordedOn(h, events, name, next, Run(next, rest, clock));
    }
  }

  lemma RecordedOn(h: Host, events: seq<Event>, name: Name, next: Host, last: Host)
    requires events != [] && name in h.procs && name in next.procs
    requires Recorded(h, [events[0]], name, next) && Recorded(next, events[1..], name, last)
    ensures Recorded(h, events, name, last)
  {
    RecordsOn(events, name);
    hide Wrote, Codes, LeavesOpen;
  }

  lemma RecordsOn(events: seq<Event>, name: Name)
    requires events != []
    ensures Wrote(events, name) == Wrote([events[0]], name) + Wrote(events[1..], name)
    ensures Codes(events, name) == Codes([events[0]], name) + Codes(events[1..], name)
    ensures LeavesOpen(events, name) <==> LeavesOpen([events[0]], name) && LeavesOpen(events[1..], name)
  {
    OneEvent(events[0], name);
    hide TakesAway;
    assert forall i :: 1 <= i < |events| ==> events[i] == events[1..][i - 1];
  }

  /** What a single event carries for a process. */
  lemma OneEvent(event: Event, name: Name)
    ensures Wrote([event], name) == if event.DataArrives? && event.name == name then event.data else ""
    ensures Codes([event], name) == match event
                                    case Exits(n, code, signalled) =>
                                      if n != name then [] else if code.Some? then [code.value] else if signalled then [128] else [0]
                                    case SpawnFails(n) => if n == name then [1] else []
                                    case _ => []
    ensures LeavesOpen([event], name) <==> !TakesAway(event, name)
  {
    var events := [event];
    assert events[0] == event && events[1..] == [];
    assert Wrote([], name) == "" && Codes([], name) == [];
    hide TakesAway;
  }

  /** A command's terminal: the agent is given its name, and what it reads from that name later is
      the first megabyte the process wrote since, if the terminal is still open, and nothing
      otherwise. */
  lemma AgentReadsOutput(h: Host, command: string, events: seq<Event>, clock: nat -> nat)
    requires Inv(h) && |h.table| < 10 && command != ""
    ensures var name := Name(h.counter + 1, clock(h.counter + 1));
            var created := Step(h, Asks("terminal/create", Params(None, command, "")), clock);
            var before := Run(created, events, clock);
            var wrote := Wrote(events, name);
            && created.replies == h.replies + [Reply(h.asked, TerminalIs(name), None)]
            && Step(before, Asks("terminal/output", Params(Some(name), "", "")), clock).replies ==
               before.replies + [Reply(before.asked, Output(
                 if !LeavesOpen(events, name) then "" else if |wrote| <= 1048576 then wrote else wrote[..1048576]), None)]
  {
    var name := Name(h.counter + 1, clock(h.counter + 1));
    var created := CreatedNext(h, command, clock);
    OpenedThen(created, events, name, clock);
    hide Step, Inv, Wrote, Codes, LeavesOpen, WellKept;
    OutputIsAsked(Run(created, events, clock), name, clock);
  }

  lemma OpenedThen(created: Host, events: seq<Event>, name: Name, clock: nat -> nat)
    requires Inv(created) && name in created.table && name in created.procs && created.procs[name] == FRESH_PROCESS
    ensures var before := Run(created, events, clock);
            && name in before.procs && WellKept(before.procs[name])
            && before.procs[name].received == Wrote(events, name) && before.procs[name].ends == Codes(events, name)
            && (name in before.table <==> LeavesOpen(events, name))
  {
    RunRecords(created, events, name, clock);
    RunKeeps(created, events, clock);
    hide TableBounded, OneReplyEach, CodesGenuine, WellKept, Run;
  }

  lemma OutputIsAsked(h: Host, name: Name, clock: nat -> nat)
    requires name in h.procs && WellKept(h.procs[name])
    ensures var p := h.procs[name];
            Step(h, Asks("terminal/output", Params(Some(name), "", "")), clock).replies ==
            h.replies + [Reply(h.asked, Output(
              if name !in h.table then "" else if |p.received| <= 1048576 then p.received else p.received[..1048576]), None)]
  {
    var params := Params(Some(name), "", "");
    var text := if InTable(h, params.terminal) then h.procs[name].output else "";
    OutputAnswer(h, params, clock);
    assert Step(h, Asks("terminal/output", params), clock).replies == h.replies + [Reply(h.asked, Output(text), None)] by {
      hide InTable, Request;
    }
  }

  lemma OutputAnswer(h: Host, params: Params, clock: nat -> nat)
    ensures Told(h, "terminal/output", params, clock,
                 Output(if InTable(h, params.terminal) then h.procs[params.terminal.value].output else ""))
  {
    RequestNames();
    hide WaitForExit, Create;
  }

  lemma CreatedNext(h: Host, command: string, clock: nat -> nat) returns (created: Host)
    requires Inv(h) && |h.table| < 10 && command != ""
    ensures var name := Name(h.counter + 1, clock(h.counter + 1));
            && created == Step(h, Asks("terminal/create", Params(None, command, "")), clock) && Inv(created)
            && created.replies == h.replies + [Reply(h.asked, TerminalIs(name), None)]
            && name in created.procs && name in created.table && created.procs[name] == FRESH_PROCESS
  {
    RequestNames();
    StepKeeps(h, Asks("terminal/create", Params(None, command, "")), clock);
    created := Step(h, Asks("terminal/create", Params(None, command, "")), clock);
  }

  /** Waiting for that command: -1 once its terminal is closed, the code of its last end event if it
      has ended, and otherwise the answer stays owed until it ends. */
  lemma AgentHearsExit(h: Host, command: string, events: seq<Event>, clock: nat -> nat)
    requires Inv(h) && |h.table| < 10 && command != ""
    ensures var name := Name(h.counter + 1, clock(h.counter + 1));
            var created := Step(h, Asks("terminal/create", Params(None, command, "")), clock);
            var before := Run(created, events, clock);
            var codes := Codes(events, name);
            var asked := Step(before, Asks("terminal/wait_for_exit", Params(Some(name), "", "")), clock);
            if !LeavesOpen(events, name) then asked.replies == before.replies + [Reply(before.asked, ExitCode(-1), None)]
            else if codes != [] then
              asked.replies == before.replies + [Reply(before.asked, ExitCode(codes[|codes| - 1]), Some(name))]
            else asked.replies == before.replies && before.asked in asked.waiting && asked.waiting[before.asked] == name
  {
    var name := Name(h.counter + 1, clock(h.counter + 1));
    var created := CreatedNext(h, command, clock);
    OpenedThen(created, events, name, clock);
    hide Step, Inv, Wrote, Codes, LeavesOpen;
    WaitIsAsked(Run(created, events, clock), Params(Some(name), "", ""), clock);
  }

  /** The requests whose answer does not depend on a process: permission is always granted, a
      missing path and an eleventh terminal are refused, and closing a terminal is acknowledged. */
  lemma PlainAnswers(h: Host, params: Params, clock: nat -> nat)
    ensures Told(h, "session/request_permission", params, clock, Approved)
    ensures params.path == "" ==>
              Told(h, "fs/read_text_file", params, clock, Failed(-32602)) && Told(h, "fs/write_text_file", params, clock, Failed(-32602))
    ensures |h.table| >= 10 ==> Told(h, "terminal/create", params, clock, Failed(-32000))
    ensures Told(h, "terminal/release", params, clock, Done) && Told(h, "terminal/kill", params, clock, Done)
  {
    RequestNames();
    hide WaitForExit;
  }

  ghost predicate Told(h: Host, rpcMethod: string, params: Params, clock: nat -> nat, body: Body) {
    Request(h, rpcMethod, params, clock).0.replies == h.replies + [Reply(h.asked, body, None)]
  }

  /** A terminal the agent cannot name reads as empty and ended with -1. */
  lemma ClosedAnswers(h: Host, params: Params, clock: nat -> nat)
    requires params.terminal.None? || params.terminal.value !in h.table
    ensures Told(h, "terminal/output", params, clock, Output("")) && Told(h, "terminal/wait_for_exit", params, clock, ExitCode(-1))
  {
    RequestNames();
  }

  /** A file callback answers its request once, with what the file system said. */
  lemma FileAnswers(h: Host, ask: nat, ok: bool)
    requires ask in h.callbacks
    ensures var next := FileDone(h, ask, ok);
            && next.replies == h.replies + [Reply(ask, if ok then Content else Failed(-32000), None)]
            && next.callbacks == h.callbacks - {ask}
  {
  }
}
