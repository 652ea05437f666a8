/** The streaming prompt reader of the browser client (src/client/acp-client.ts): an incremental
    parser for `data: ...` frames, and the frames the bridge prints for it. */
module PromptStream {
  import opened Options
  import opened Framing

  const FRAME_END := "\n\n"
  const DATA_PREFIX := "data: "
  const DEFAULT_STOP := "end_turn"

  datatype Usage = Usage(inputTokens: int, outputTokens: int)
  datatype RawUsage = RawUsage(inputTokens: Option<int>, outputTokens: Option<int>)

  datatype Update =
    | TurnComplete(stopReason: Option<string>, usage: Option<RawUsage>)
    | OtherUpdate(kind: string)

  datatype Notification = Notification(sessionId: string, update: Option<Update>)

  /** A decoded JSON-RPC message: its method, and its params when it has any. */
  datatype Message = Message(rpcMethod: string, params: Option<Notification>)

  datatype ReaderState = ReaderState(
    buffer: string,
    stopReason: string,
    usage: Option<Usage>,
    dispatched: seq<Notification>)

  const INITIAL := ReaderState("", DEFAULT_STOP, None, [])

  predicate StartsWith(s: string, prefix: string) {
    |prefix| <= |s| && s[..|prefix|] == prefix
  }

  /** `(update.stopReason as string) || "end_turn"` */
  function StopOf(reason: Option<string>): string {
    if reason.Some? && reason.value != "" then reason.value else DEFAULT_STOP
  }

  /** Token counts default to zero. */
  function UsageOf(raw: RawUsage): Usage {
    Usage(if raw.inputTokens.Some? then raw.inputTokens.value else 0,
          if raw.outputTokens.Some? then raw.outputTokens.value else 0)
  }

  predicate IsDispatched(m: Message) {
    m.rpcMethod == "session/update" && m.params.Some?
  }

  predicate EndsTurn(m: Message) {
    IsDispatched(m) && m.params.value.update.Some? && m.params.value.update.value.TurnComplete?
  }

  predicate ReportsUsage(m: Message) {
    EndsTurn(m) && m.params.value.update.value.usage.Some?
  }

  function HandleMessage(st: ReaderState, m: Message): ReaderState {
    if !IsDispatched(m) then st
    else
      var seen := st.(dispatched := st.dispatched + [m.params.value]);
      if !EndsTurn(m) then seen
      else
        var turn := m.params.value.update.value;
        seen.(stopReason := StopOf(turn.stopReason),
              usage := if turn.usage.Some? then Some(UsageOf(turn.usage.value)) else seen.usage)
  }

  function HandleLine(st: ReaderState, line: string, decode: string -> Option<Message>): ReaderState {
    if !StartsWith(line, DATA_PREFIX) then st
    else
      match decode(line[|DATA_PREFIX|..])
      case None => st
      case Some(m) => HandleMessage(st, m)
  }

  function HandleLines(st: ReaderState, lines: seq<string>, decode: string -> Option<Message>): ReaderState
    decreases |lines|
  {
    if lines == [] then st else HandleLines(HandleLine(st, lines[0], decode), lines[1..], decode)
  }

  function ReadChunk(st: ReaderState, chunk: string, decode: string -> Option<Message>): ReaderState {
    var pieces := SplitOn(st.buffer + chunk, FRAME_END);
    HandleLines(st, Complete(pieces), decode).(buffer := Kept(pieces))
  }

  function ReadChunks(st: ReaderState, chunks: seq<string>, decode: string -> Option<Message>): ReaderState
    decreases |chunks|
  {
    if chunks == [] then st else ReadChunks(ReadChunk(st, chunks[0], decode), chunks[1..], decode)
  }

  /** The reader's local variables; `dispatched` is what every registered handler is called with. */
  class PromptReader {
    const decode: string -> Option<Message>
    var buffer: string
    var lastStopReason: string
    var lastUsage: Option<Usage>
    var dispatched: seq<Notification>

    ghost function View(): ReaderState
      reads this
    {
      ReaderState(buffer, lastStopReason, lastUsage, dispatched)
    }

    constructor (decode: string -> Option<Message>)
      ensures View() == INITIAL && this.decode == decode
    {
      this.decode := decode;
      buffer, lastStopReason, lastUsage, dispatched := "", DEFAULT_STOP, None, [];
    }

    method Receive(chunk: string)
      modifies this
      ensures View() == ReadChunk(old(View()), chunk, decode)
    {
      buffer := buffer + chunk;
      var lines := SplitOn(buffer, FRAME_END);
      buffer := lines[|lines| - 1];
      lines := lines[..|lines| - 1];
      ghost var start := View();
      for i := 0 to |lines|
        invariant buffer == start.buffer
        invariant HandleLines(start, lines, decode) == HandleLines(View(), lines[i..], decode)
      {
        if StartsWith(lines[i], DATA_PREFIX) {
          var data := decode(lines[i][|DATA_PREFIX|..]);
          if data.Some? && data.value.rpcMethod == "session/update" && data.value.params.Some? {
            var notification := data.value.params.value;
            if notification.update.Some? && notification.update.value.TurnComplete? {
              lastStopReason := StopOf(notification.update.value.stopReason);
              if notification.update.value.usage.Some? {
                lastUsage := Some(UsageOf(notification.update.value.usage.value));
              }
            }
            dispatched := dispatched + [notification];
          }
        }
      }
      BufferIsIdle(old(View()), lines, buffer, decode);
    }
  }

  /** Handling lines neither reads nor writes the buffer. */
  lemma {:induction false} BufferIsIdle(st: ReaderState, lines: seq<string>, b: string, decode: string -> Option<Message>)
    ensures HandleLines(st.(buffer := b), lines, decode) == HandleLines(st, lines, decode).(buffer := b)
    decreases |lines|
  {
    if lines != [] {
      BufferIsIdle(HandleLine(st, lines[0], decode), lines[1..], b, decode);
    }
  }

  lemma {:induction false} LinesInTwo(st: ReaderState, a: seq<string>, b: seq<string>, decode: string -> Option<Message>)
    ensures HandleLines(st, a + b, decode) == HandleLines(HandleLines(st, a, decode), b, decode)
    decreases |a|
  {
    if a == [] {
      assert a + b == b;
    } else {
      assert (a + b)[1..] == a[1..] + b;
      LinesInTwo(HandleLine(st, a[0], decode), a[1..], b, decode);
    }
  }

  /** Reading two chunks is reading their concatenation. */
  lemma ReadInTwo(st: ReaderState, a: string, b: string, decode: string -> Option<Message>)
    ensures ReadChunk(ReadChunk(st, a, decode), b, decode) == ReadChunk(st, a + b, decode)
  {
    var p := SplitOn(st.buffer + a, FRAME_END);
    var q := SplitOn(Kept(p) + b, FRAME_END);
    TwoChunks(st.buffer, a, b, FRAME_END);
    LinesInTwo(st, Complete(p), Complete(q), decode);
    BufferIsIdle(HandleLines(st, Complete(p), decode), Complete(q), Kept(p), decode);
  }

  /** However the response body is cut into chunks, reading it is reading it at once. */
  lemma {:induction false} ChunkingIsInvisible(st: ReaderState, chunks: seq<string>, decode: string -> Option<Message>)
    requires IndexOf(st.buffer, FRAME_END, 0) == -1
    ensures ReadChunks(st, chunks, decode) == ReadChunk(st, Flatten(chunks), decode)
    decreases |chunks|
  {
    if chunks == [] {
      assert st.buffer + "" == st.buffer;
      assert Complete([st.buffer]) == [];
    } else {
      var mid := ReadChunk(st, chunks[0], decode);
      KeptIsOpen(st.buffer + chunks[0], FRAME_END);
      ChunkingIsInvisible(mid, chunks[1..], decode);
      ReadInTwo(st, chunks[0], Flatten(chunks[1..]), decode);
    }
  }

  /** `data: ${JSON.stringify(msg)}\n\n` for every message (docker/opencode-bridge/server.js). */
  function PrintFrames(bodies: seq<string>): string {
    if bodies == [] then "" else DATA_PREFIX + bodies[0] + FRAME_END + PrintFrames(bodies[1..])
  }

  function Lines(bodies: seq<string>): seq<string> {
    if bodies == [] then [] else [DATA_PREFIX + bodies[0]] + Lines(bodies[1..])
  }

  lemma {:induction false} FramesSplit(bodies: seq<string>)
    requires forall b :: b in bodies ==> '\n' !in b
    ensures SplitOn(PrintFrames(bodies), FRAME_END) == Lines(bodies) + [""]
    decreases |bodies|
  {
    if bodies != [] {
      var line := DATA_PREFIX + bodies[0];
      assert '\n' !in line by { assert bodies[0] in bodies; }
      assert PrintFrames(bodies) == line + FRAME_END + PrintFrames(bodies[1..]);
      SplitOffFirst(line, PrintFrames(bodies[1..]), FRAME_END);
      FramesSplit(bodies[1..]);
      assert [line] + (Lines(bodies[1..]) + [""]) == [line] + Lines(bodies[1..]) + [""];
    }
  }

  function Encoded(ms: seq<Message>, encode: Message -> string): seq<string> {
    seq(|ms|, i requires 0 <= i < |ms| => encode(ms[i]))
  }

  function HandleMessages(st: ReaderState, ms: seq<Message>): ReaderState
    decreases |ms|
  {
    if ms == [] then st else HandleMessages(HandleMessage(st, ms[0]), ms[1..])
  }

  lemma {:induction false} LinesAreMessages(st: ReaderState, ms: seq<Message>, encode: Message -> string, decode: string -> Option<Message>)
    requires forall m :: m in ms ==> decode(encode(m)) == Some(m)
    ensures HandleLines(st, Lines(Encoded(ms, encode)), decode) == HandleMessages(st, ms)
    decreases |ms|
  {
    var bodies := Encoded(ms, encode);
    if ms != [] {
      assert ms[0] in ms;
      var line := DATA_PREFIX + bodies[0];
      assert line[..|DATA_PREFIX|] == DATA_PREFIX && line[|DATA_PREFIX|..] == encode(ms[0]);
      assert bodies[1..] == Encoded(ms[1..], encode);
      assert Lines(bodies)[1..] == Lines(bodies[1..]);
      LinesAreMessages(HandleMessage(st, ms[0]), ms[1..], encode, decode);
    }
  }

  /** The notifications a list of messages carries. */
  function Carried(ms: seq<Message>): seq<Notification> {
    if ms == [] then []
    else (if IsDispatched(ms[0]) then [ms[0].params.value] else []) + Carried(ms[1..])
  }

  /** `reason` is that of the last message ending a turn, or the default when none does. */
  ghost predicate IsLastStop(ms: seq<Message>, reason: string, default: string) {
    || ((forall k :: 0 <= k < |ms| ==> !EndsTurn(ms[k])) && reason == default)
    || exists k :: 0 <= k < |ms| && EndsTurn(ms[k])
                && (forall j :: k < j < |ms| ==> !EndsTurn(ms[j]))
                && reason == StopOf(ms[k].params.value.update.value.stopReason)
  }

  ghost predicate IsLastUsage(ms: seq<Message>, usage: Option<Usage>, default: Option<Usage>) {
    || ((forall k :: 0 <= k < |ms| ==> !ReportsUsage(ms[k])) && usage == default)
    || exists k :: 0 <= k < |ms| && ReportsUsage(ms[k])
                && (forall j :: k < j < |ms| ==> !ReportsUsage(ms[j]))
                && usage == Some(UsageOf(ms[k].params.value.update.value.usage.value))
  }

  lemma {:induction false} MessagesDispatched(st: ReaderState, ms: seq<Message>)
    ensures HandleMessages(st, ms).buffer == st.buffer
    ensures HandleMessages(st, ms).dispatched == st.dispatched + Carried(ms)
    decreases |ms|
  {
    if ms != [] {
      MessagesDispatched(HandleMessage(st, ms[0]), ms[1..]);
    }
  }

  lemma {:induction false} LastStopKept(st: ReaderState, ms: seq<Message>)
    ensures IsLastStop(ms, HandleMessages(st, ms).stopReason, st.stopReason)
    decreases |ms|
  {
    if ms != [] {
      var rest := ms[1..];
      var r := HandleMessages(st, ms);
      LastStopKept(HandleMessage(st, ms[0]), rest);
      assert forall k :: 1 <= k < |ms| ==> ms[k] == rest[k - 1];
      if k :| 0 <= k < |rest| && EndsTurn(rest[k])
              && (forall j :: k < j < |rest| ==> !EndsTurn(rest[j]))
              && r.stopReason == StopOf(rest[k].params.value.update.value.stopReason) {
        assert ms[k + 1] == rest[k];
      } else {
        assert EndsTurn(ms[0]) ==> r.stopReason == StopOf(ms[0].params.value.update.value.stopReason);
      }
    }
  }

  lemma {:induction false} LastUsageKept(st: ReaderState, ms: seq<Message>)
    ensures IsLastUsage(ms, HandleMessages(st, ms).usage, st.usage)
    decreases |ms|
  {
    if ms != [] {
      var rest := ms[1..];
      var r := HandleMessages(st, ms);
      LastUsageKept(HandleMessage(st, ms[0]), rest);
      assert forall k :: 1 <= k < |ms| ==> ms[k] == rest[k - 1];
      if k :| 0 <= k < |rest| && ReportsUsage(rest[k])
              && (forall j :: k < j < |rest| ==> !ReportsUsage(rest[j]))
              && r.usage == Some(UsageOf(rest[k].params.value.update.value.usage.value)) {
        assert ms[k + 1] == rest[k];
      } else {
        assert ReportsUsage(ms[0]) ==> r.usage == Some(UsageOf(ms[0].params.value.update.value.usage.value));
      }
    }
  }

  /** Round trip: frames printed by the bridge and cut anywhere come back as the same
      notifications in order, with nothing left over, and the result is the last turn's. */
  lemma RoundTrip(ms: seq<Message>, chunks: seq<string>, encode: Message -> string, decode: string -> Option<Message>)
    requires forall m :: m in ms ==> decode(encode(m)) == Some(m) && '\n' !in encode(m)
    requires Flatten(chunks) == PrintFrames(Encoded(ms, encode))
    ensures var r := ReadChunks(INITIAL, chunks, decode);
            && r.buffer == ""
            && r.dispatched == Carried(ms)
            && IsLastStop(ms, r.stopReason, DEFAULT_STOP)
            && IsLastUsage(ms, r.usage, None)
  {
    var bodies := Encoded(ms, encode);
    var text := PrintFrames(bodies);
    ChunkingIsInvisible(INITIAL, chunks, decode);
    forall b | b in bodies ensures '\n' !in b {
      var i :| 0 <= i < |bodies| && bodies[i] == b;
      assert ms[i] in ms;
    }
    FramesSplit(bodies);
    assert "" + text == text;
    assert Complete(Lines(bodies) + [""]) == Lines(bodies);
    LinesAreMessages(INITIAL, ms, encode, decode);
    MessagesDispatched(INITIAL, ms);
    LastStopKept(INITIAL, ms);
    LastUsageKept(INITIAL, ms);
  }
}
