# A verified model of Routa's stateful scripts and clients

This project models, in Dafny, the parts of the Routa repository whose behaviour depends on state,
on interleaving or on scanning text, and proves what those parts promise.

- **The browser's SSE connection** (`SseConnection`, `SseClient`). Attach, adopt, disconnect, probe
  answers, the callbacks chained on them, handlers that act on the client from inside a callback,
  timers, stream errors and messages interleave freely. `SseConnection` is the transition system and
  proves safety over all runs; `SseClient` is the class with its fields, each task proved to perform
  exactly one transition and to keep the invariant, so the safety theorems hold of the object.
- **The streaming prompt reader** (`PromptStream`, `Framing`), an incremental reader of
  `data: …` frames (a subset of section 9.2 of the WHATWG HTML Living Standard).
- **The ACP bridge session** (`Rpc`, `Terminals`, `BraceScan`, `OpenCodeBridge`, `BridgeSession`): a
  JSON-RPC 2.0 peer (sections 4 and 5 of the JSON-RPC 2.0 specification) with a newline framer, a
  brace-matching fallback, a pending table and a bounded terminal table.
- **Worker pool and text wrapping** (`WorkerPool`, `TextWrap`).
- **Structural diff and summary equality** (`Json`, `ProtocolDiff`, `SummaryEquality`, `SummaryGate`).
- **Stored-data rewriters** (`HistoryGroups`, `HistoryCompaction`, `SessionMaintenance`,
  `DeltaPaging`, `BoardSteps`, `BoardStore`, `BoardRollback`).
- **Scanners** (`ShellScan`, `RouteCalls`).

`Options` and `Text` hold the option and result types and JavaScript's white space. Run
`dafny verify dfyconfig.toml`.

Code that updates fields or loops in the repository is a class or a method here, proved equal to a
function on values; the theorems are about that function. Each step that the browser, Node or SQLite
delivers is an event or a parameter.

## Where the code and its intention differ

Each of these is a theorem, with the exact condition where there is one.

- `newSession` and `loadSession` set `_sessionId` before `attachSession`, which then takes the call
  for a re-attach: a new session is asked for events after the old session's last event id
  (`CursorLostExactlyOnAdopt`, `LoadSessionKeepsOldCursor`).
- A connection-issue handler that calls `disconnect` leaves a reconnect timer armed exactly when the
  issue was retryable; the timer then does nothing (`DisconnectInsideHandler`, `HandlerLeavesTimer`,
  `QuietAfterHandlerDisconnects`).
- One stray `}` on a line hides the complete object after it from the brace matcher
  (`StrayBraceHidesObject`).
- After several end events a terminal answers early and late waiters differently unless the first and
  the last code are equal (`LateWaiterAgreesIff`, `TwoEndsTwoCodes`).
- Trimming a shell segment changes its tokens exactly when it ends in white space that the tokenizer
  protects (`TrimKeepsTokensIff`, `SegmentsTokenizeIff`, `EscapedSpaceIsLost`).
- One pass of the history compaction is enough exactly when no run of the rows it leaves over merges
  (`SecondPassPlansNothingIff`); that holds when message indexes increase strictly
  (`SecondPassPlansNothing`) and can fail when they repeat (`DuplicatesNeedTwoPasses`).
- Paging starts behind row id 0 and so skips rows with smaller ids (`EveryMatchVisitedIff`,
  `RowZeroIsSkipped`).
- Mounting the flight checklist drops a designer step unless the contract setter is there already
  (`DesignerSurvivesIff`, `DesignerIsDropped`).
- Rolling back with the board list of the apply works exactly when the apply changed every board of
  the list (`SameRequestRollsBackIff`, `UnchangedBoardBlocksRollback`).
- A `.route(` that lies inside the reading of an earlier one is not extracted, well formed or not; all
  others that white space and a quote follow are (`ReturnedIff`, `NestedCallIsMissed`).

## Model

| member | source | states |
|---|---|---|
| SseConnection.SafeInEveryRun | src/client/acp-client.ts:656-752 | in every interleaving at most one EventSource is open, it is the held one and streams the current session; at most one timer is live and it is `reconnectTimer`; a client on a session is connecting, connected, waiting or has given up |
| SseConnection.RunKeeps | src/client/acp-client.ts:390-399 | every run of the client keeps the full invariant, including that probes belong to attempts already made and that conflict counts lie in 1..4 |
| SseConnection.QuietAfterDisconnect | src/client/acp-client.ts:656-670 | after `disconnect`, whatever was in flight, nothing opens until a session is attached or adopted |
| SseConnection.DisconnectInsideHandler | src/client/acp-client.ts:692-703 | a handler that ends by disconnecting leaves the client off, with a timer armed exactly when the issue was retryable |
| SseConnection.HandlerLeavesTimer | src/client/acp-client.ts:692-703 | a concrete run that leaves the timer armed and the client off |
| SseConnection.QuietAfterHandlerDisconnects | src/client/acp-client.ts:742-752 | the timer left behind opens nothing and sends no probe until a session is started, whatever fires |
| SseConnection.CountMovesOnlyOn | src/client/acp-client.ts:764-806 | a session's conflict count moves only on its own conflicts, on a disconnect, on an attach away from it and on an ok or failed probe of it; a handler's reactions count only in a callback that is not stale |
| SseConnection.ConflictsFollowSchedule | src/client/acp-client.ts:764-773 | between resets the n-th conflict of a session is answered by the n-th entry of the schedule, stale probes and acting handlers included, whatever else interleaves |
| SseConnection.FourRetriesThenFinal | src/client/acp-client.ts:764-773 | in every run in which a session's count starts at zero and five of its conflicts are answered before a reset, the first four answers ask for a retry after 1200, 2400, 4800 and 9600 ms, 18000 in all and none above 10000, and the fifth is final and clears the count; the timers armed are those of FourTimersThenNone |
| SseConnection.RetryTimerFollowsSchedule | src/client/acp-client.ts:692-703 | whatever happens between a refusal and its callback, when the callback is not stale and a handler acts or no timer is armed, a timer is armed with the schedule's entry for the session's count at the refusal (none after the last), or with 2000 ms when the status is no conflict; otherwise the timer armed is kept; the handlers are told that delay |
| SseConnection.FourTimersThenNone | src/client/acp-client.ts:692-773 | five conflicts in a row, each round run until its timer fires, arm timers of 1200, 2400, 4800 and 9600 ms, and the fifth arms none and clears the count |
| SseConnection.LostStreamRetries | src/client/acp-client.ts:730-747 | a stream that fails for good arms a timer of 2000 ms unless one is armed already; one that the browser reconnects by itself arms none |
| SseConnection.CursorAfter | src/client/acp-client.ts:390-399 | a delivered event's id becomes the cursor, a real switch and a disconnect forget it, and nothing else moves it |
| SseConnection.CountAfter | src/client/acp-client.ts:764-822 | a conflict counts one up and the fifth clears, an ok or failed probe, a disconnect and an attach elsewhere clear, and nothing else moves the count |
| SseConnection.LostStreamResumes | src/client/acp-client.ts:674-752 | a stream lost after an event is reopened, once the timer has fired and the probe succeeded, for the same session and from that event on |
| SseConnection.CursorLostExactlyOnAdopt | src/client/acp-client.ts:296-320 | a step lets the session's cursor become another session's exactly when `newSession` or `loadSession` changes the session while a cursor is held |
| SseConnection.CursorRun | src/client/acp-client.ts:390-399 | a run without such a call keeps the cursor the current session's own |
| SseConnection.LoadSessionKeepsOldCursor | src/client/acp-client.ts:319-320 | a concrete run in which the loaded session is asked for events after the old session's |
| SseClient.BrowserAcpClient.AttachTo | src/client/acp-client.ts:390-399 | the method's new fields are those of the attach transition |
| SseClient.BrowserAcpClient.Adopted | src/client/acp-client.ts:300-320 | the assignment before attaching, as its transition |
| SseClient.BrowserAcpClient.Disconnected | src/client/acp-client.ts:656-670 | the disconnect transition on the fields |
| SseClient.BrowserAcpClient.Connect | src/client/acp-client.ts:674-691 | a new attempt clears the timer, closes the source and sends a probe with the stored cursor |
| SseClient.BrowserAcpClient.Schedule | src/client/acp-client.ts:742-747 | a timer already set is kept; otherwise one timer is armed |
| SseClient.BrowserAcpClient.GetOwnershipConflictRetryDelayMs | src/client/acp-client.ts:764-773 | the delay and the new counts are those of the schedule, and nothing else changes |
| SseClient.BrowserAcpClient.ProbeSettled | src/client/acp-client.ts:779-822 | the counter moves as soon as the answer arrives, before anyone asks whether the probe is stale |
| SseClient.BrowserAcpClient.ProbeContinued | src/client/acp-client.ts:692-739 | a stale callback does nothing; otherwise it reports, schedules or opens a source, with handlers acting in between; which timer it arms is RetryTimerFollowsSchedule |
| SseClient.BrowserAcpClient.TimerFired | src/client/acp-client.ts:746-751 | the timer reconnects the session held at that time |
| SseClient.BrowserAcpClient.ConnectionFailed | src/client/acp-client.ts:730-738 | a failure schedules a reconnect only when the source held now is closed |
| SseClient.BrowserAcpClient.PerformAll | src/client/acp-client.ts:390-822 | however the event loop orders its tasks, the object stays valid and its fields are those of the run of the machine |
| SseClient.BrowserAcpClient.OneConnection | src/client/acp-client.ts:656-752 | a valid object has at most one open source, the held one, of the current session, and at most one timer, its own |
| PromptStream.PromptReader.Receive | src/client/acp-client.ts:528-572 | one chunk moves the reader's variables as `ReadChunk` says |
| PromptStream.ChunkingIsInvisible | src/client/acp-client.ts:532-536 | reading any chunks leaves the reader as reading their concatenation at once |
| PromptStream.RoundTrip | docker/opencode-bridge/server.js:558-563 | newline-free messages printed as frames and cut anywhere come back in order, nothing is left over, and the stop reason and the usage are those of the last turn that has them |
| PromptStream.LastStopKept | src/client/acp-client.ts:550-563 | the stop reason after any messages is that of the last `turn_complete`, or the one before |
| Framing.FeedIsSplit | docker/opencode-bridge/server.js:270-282 | for every chunking, the delivered lines and the kept buffer are the pieces of the one-shot split |
| Framing.FeedLosesNothing | docker/opencode-bridge/server.js:270-282 | delivered lines and kept buffer re-join to exactly what was received |
| Framing.SplitIsFine | docker/opencode-bridge/server.js:271-272 | no delivered line holds a separator |
| BraceScan.TryExtract | docker/opencode-bridge/server.js:284-296 | the loop hands over the spans of the scan |
| BraceScan.StartSetInsideGroup | docker/opencode-bridge/server.js:284-296 | on every line and at every index `start` is set exactly while the depth is at least 1, and then marks the brace that opened the group |
| BraceScan.ExtractsTopGroups | docker/opencode-bridge/server.js:284-296 | on every line the slices are exactly the top-level brace groups, in order and disjoint, each balanced |
| BraceScan.ExtractsTheObject | docker/opencode-bridge/server.js:284-296 | an object printed between texts without braces is the one slice of its line |
| BraceScan.BalancedLineIsCovered | docker/opencode-bridge/server.js:284-296 | on a balanced line whose depth never goes negative every brace lies in an extracted slice |
| BraceScan.StrayBraceHidesObject | docker/opencode-bridge/server.js:288-292 | a stray closing brace drives the depth negative and the object behind it is not extracted |
| Rpc.FreshAndTimed | docker/opencode-bridge/server.js:565-575 | over any run every request id is drawn once, and the armed timers are exactly those of pending requests |
| Rpc.SettledByDeadline | docker/opencode-bridge/server.js:171-183 | each request settles at most once, and exactly once by its own timeout or the exit at the latest |
| Rpc.StaysSettled | docker/opencode-bridge/server.js:298-308 | a settled request is never settled again |
| Rpc.SettledAsCaused | docker/opencode-bridge/server.js:298-309 | over every run a request is settled with an outcome exactly when an event of the run caused it: its own timer for a time-out, the exit for a lost process, its response for a result or a rejection |
| Terminals.TerminalsBounded | docker/opencode-bridge/server.js:388-480 | in every reachable state at most ten distinctly numbered terminals, each output the first 1048576 characters of all data received |
| Terminals.OneReplyPerRequest | docker/opencode-bridge/server.js:326-555 | each agent request has one reply or is owed one by a file callback or a process still running, and never gets two |
| Terminals.EndAnswersWaiters | docker/opencode-bridge/server.js:454-467 | when a process ends, each of its waiters is answered once with that code |
| Terminals.WaitersAgree | docker/opencode-bridge/server.js:488-506 | with one end event per process all waiters on a terminal get the same exit code |
| Terminals.LateWaiterAgreesIff | docker/opencode-bridge/server.js:488-506 | after several end events early and late waiters agree exactly when the first and the last code do |
| Terminals.TwoEndsTwoCodes | docker/opencode-bridge/server.js:454-506 | a concrete run in which an early waiter is told 1 and a late one 0 |
| Terminals.AgentReadsOutput | docker/opencode-bridge/server.js:388-487 | a terminal is created for a command, anything happens, and its output is read: the reply is the first 1048576 characters the process wrote in between, and empty once the terminal is closed |
| Terminals.AgentHearsExit | docker/opencode-bridge/server.js:388-506 | the same for waiting: -1 once the terminal is closed, the code of the last end event (the exit code, 128 after a signal, 1 if it never ran) when it has ended, and otherwise the reply stays owed |
| Terminals.RunRecords | docker/opencode-bridge/server.js:430-478 | over any run a process's output history and end codes grow by what the events carry for it, and only a release of its terminal or the kill of the agent takes the terminal away |
| Terminals.PlainAnswers | docker/opencode-bridge/server.js:326-396 | permission is always granted, a missing path and an eleventh terminal are refused with -32602 and -32000, release and kill are acknowledged |
| OpenCodeBridge.ChunkingIsInvisible | docker/opencode-bridge/server.js:161-164 | however the pipe cuts the agent's output, the whole session ends in the same state |
| OpenCodeBridge.SessionSafe | docker/opencode-bridge/server.js:298-324 | in every run, whatever the agent prints, the pending table, the terminal table and every SSE client's stream keep their invariants |
| OpenCodeBridge.OnlyItsResponseSettles | docker/opencode-bridge/server.js:298-318 | a message settles a pending request exactly when it is a response with that number; an agent request never does |
| OpenCodeBridge.RequestSettledByDeadline | docker/opencode-bridge/server.js:565-575 | a request the session has pending is settled exactly once by its timeout or the exit, across chunks, mixed lines and agent requests |
| OpenCodeBridge.ResponseSettlesWith | docker/opencode-bridge/server.js:298-309 | the response to a pending request settles exactly that request, once: rejected with its error if that is truthy, otherwise resolved with its result |
| OpenCodeBridge.TimeOutsAreOwn | docker/opencode-bridge/server.js:565-575 | over every session run a request times out only by its own timer, is lost only by the exit, and is resolved or rejected only by output of the agent |
| OpenCodeBridge.PrintedMessagesAreHandled | docker/opencode-bridge/server.js:270-296 | messages printed one a line, bare or between texts without braces, cut into any chunks, are handled in order, each once, and nothing else is |
| OpenCodeBridge.UpdatesAreForwarded | docker/opencode-bridge/server.js:319-323 | a `session/update` is written unchanged to every client; any other notification changes nothing |
| OpenCodeBridge.TerminalsAreAnnounced | docker/opencode-bridge/server.js:430-478 | every client is told all a process writes, also beyond the kept part, and its exit status; a process that could not start is not announced |
| OpenCodeBridge.BroadcastKeeps | docker/opencode-bridge/server.js:558-563 | one broadcast keeps every client's stream complete; over whole runs this is part of SessionSafe |
| BridgeSession.OpenCodeSession.OnStdout | docker/opencode-bridge/server.js:161-164 | the buffer and everything the delivered lines cause, as one transition |
| BridgeSession.OpenCodeSession.OnMixedLine | docker/opencode-bridge/server.js:284-296 | the brace matcher's objects are handled as they are found |
| BridgeSession.OpenCodeSession.OnMessage | docker/opencode-bridge/server.js:298-324 | response, agent request or notification: the new state is that of the message's transition; with what a request is settled is ResponseSettlesWith |
| BridgeSession.OpenCodeSession.OnAgentRequest | docker/opencode-bridge/server.js:326-555 | every agent request's reply and effect on the terminal table |
| BridgeSession.OpenCodeSession.CreateTerminal | docker/opencode-bridge/server.js:388-480 | refused at ten terminals, otherwise a fresh name enters the table and one reply is written |
| BridgeSession.OpenCodeSession.OnTerminalData | docker/opencode-bridge/server.js:430-452 | output is appended up to the limit and broadcast |
| BridgeSession.OpenCodeSession.EndTerminal | docker/opencode-bridge/server.js:454-478 | the exit fields are set and everyone chained on the promise is answered |
| BridgeSession.OpenCodeSession.OnExit | docker/opencode-bridge/server.js:171-183 | every pending request is rejected, its timer cleared, and the SSE clients are dropped; every handler keeps the invariant it needs |
| BridgeSession.OpenCodeSession.Request | docker/opencode-bridge/server.js:565-575 | a fresh id is pending with its own timer |
| BridgeSession.OpenCodeSession.PerformAll | docker/opencode-bridge/server.js:136-183 | however the event loop orders its tasks, the object stays valid and its fields are those of the run of the machine |
| WorkerPool.ClaimedOnceAndBounded | scripts/office-wasm-reader/export-pptx-direct-cursor-canvas.ts:550-558 | under every completion order the mapper is called once for each index, in order, with at most min(concurrency, n) calls in flight |
| WorkerPool.SettlingProgresses | scripts/office-wasm-reader/export-pptx-direct-cursor-canvas.ts:551-557 | each settlement brings the end nearer, so every run ends |
| WorkerPool.PoolIsSequentialMap | scripts/office-wasm-reader/export-pptx-direct-cursor-canvas.ts:544-560 | at the end the pool resolves exactly when all calls give values, with the sequential map's array, and otherwise rejects with one call's error |
| WorkerPool.FirstErrorRejects | scripts/office-wasm-reader/export-pptx-direct-cursor-canvas.ts:558 | under every completion order the rejection is the error of the first call that failed |
| WorkerPool.OthersGoOn | scripts/office-wasm-reader/export-pptx-direct-cursor-canvas.ts:551-557 | at the end every value computed stands at its index, every error left a hole, and an index was not computed only if every worker threw |
| WorkerPool.WholeIffConcurrent | scripts/office-wasm-reader/export-pptx-direct-cursor-canvas.ts:558 | the result is the sequential map exactly when the concurrency is positive or there is nothing to map; both callers clamp it to at least 1 (lines 169 and 228) |
| WorkerPool.MapWithConcurrency.Run | scripts/office-wasm-reader/export-pptx-direct-cursor-canvas.ts:544-560 | the shared counter and the array filled in place, under an arbitrary scheduler, end with the sequential map |
| TextWrap.WrapTextForSvg | scripts/office-wasm-reader/export-pptx-direct-cursor-canvas.ts:427-448 | the loops return the trimmed join of the emitted lines |
| TextWrap.TextWrapTokens | scripts/office-wasm-reader/export-pptx-direct-cursor-canvas.ts:450-466 | the loop returns the tokens of the line |
| TextWrap.TokensRebuild | scripts/office-wasm-reader/export-pptx-direct-cursor-canvas.ts:450-466 | tokens concatenate to the source line, each a run or a single character, and no run stands next to another |
| TextWrap.LinesFit | scripts/office-wasm-reader/export-pptx-direct-cursor-canvas.ts:430-446 | every emitted line is within the maximum width or is one trimmed token |
| TextWrap.WrapIsGreedy | scripts/office-wasm-reader/export-pptx-direct-cursor-canvas.ts:434-445 | a line ends only where the next token no longer fitted |
| TextWrap.WrappingKeepsText | scripts/office-wasm-reader/export-pptx-direct-cursor-canvas.ts:427-448 | wrapping keeps the sequence of characters that are not white space |
| Json.CanonDecides | scripts/office-wasm-reader/compare-walnut-pptx-protocol.ts:1026-1044 | key-sorted forms are equal exactly when the trees are the same value |
| Json.SortSorts | scripts/office-wasm-reader/compare-walnut-pptx-protocol.ts:1034-1040 | keys come out strictly increasing in UTF-16 order |
| ProtocolDiff.NoDiffsIffCanonEqual | scripts/office-wasm-reader/compare-walnut-pptx-protocol.ts:464-542 | on all trees no difference is found exactly when the key-sorted forms are equal |
| ProtocolDiff.TotalIsSymmetric | scripts/office-wasm-reader/compare-walnut-pptx-protocol.ts:464-542 | swapping the two trees keeps the total |
| ProtocolDiff.UnionKeysSpec | scripts/office-wasm-reader/compare-walnut-pptx-protocol.ts:505-520 | the keys compared are those of either side, once each, sorted |
| ProtocolDiff.DiffLog.Push | scripts/office-wasm-reader/compare-walnut-pptx-protocol.ts:544-554 | the total counts every difference and the list stays its first `limit` |
| ProtocolDiff.DiffLog.Compare | scripts/office-wasm-reader/compare-walnut-pptx-protocol.ts:464-542 | the recursion appends exactly the differences of the two trees, in traversal order; what these are is DiffsTell |
| ProtocolDiff.SummarizeDiff | scripts/office-wasm-reader/compare-walnut-pptx-protocol.ts:442-462 | the shown list is the first min(limit, total) differences, one for each path, and each tells the truth about the two trees; when all are shown, every place that differs below no other difference is among them; the total is 0 exactly for equal trees and does not depend on the limit or the order of the arguments |
| ProtocolDiff.DiffsTell | scripts/office-wasm-reader/compare-walnut-pptx-protocol.ts:464-542 | on all trees an entry is listed exactly when it tells a difference: missing in routa means walnut alone has a value at the path, missing in walnut the reverse, the other kinds that both have one and differ in kind, length or value; the shown sides summarize what stands there |
| ProtocolDiff.DiffsDistinct | scripts/office-wasm-reader/compare-walnut-pptx-protocol.ts:464-542 | no path is reported twice |
| ProtocolDiff.ReportUnderTwoLimits | scripts/office-wasm-reader/compare-walnut-pptx-protocol.ts:442-462 | two reports of one pair under different limits agree on the total, and the smaller limit shows a prefix of what the larger one shows |
| SummaryEquality.Reflexive | scripts/office-wasm-reader/compare-walnut-pptx-protocol.ts:1046-1084 | every tree equals itself under the tolerance, on every path |
| SummaryEquality.Symmetric | scripts/office-wasm-reader/compare-walnut-pptx-protocol.ts:1046-1084 | the tolerant equality does not depend on the order of its arguments |
| SummaryEquality.SameIsSummaryEqual | scripts/office-wasm-reader/compare-walnut-pptx-protocol.ts:1046-1084 | trees that are the same value are equal under the tolerance |
| SummaryEquality.RoundingFitsTolerance | scripts/office-wasm-reader/compare-walnut-pptx-protocol.ts:1090-1095 | a rounded number is the nearest multiple of 1000, halves upwards; equal rounding implies a difference within 1000, and that implies rounded values at most 1000 apart |
| SummaryEquality.CloseNeedNotRoundEqual | scripts/office-wasm-reader/compare-walnut-pptx-protocol.ts:1090-1095 | 499 and 501 are within the tolerance and round differently |
| SummaryEquality.DiffElements | scripts/office-wasm-reader/compare-walnut-pptx-protocol.ts:352-375 | one slide's list is the differing elements up to the limit |
| SummaryEquality.SummarizeSlideElementDiffs | scripts/office-wasm-reader/compare-walnut-pptx-protocol.ts:343-381 | the loop over slides returns their lists |
| SummaryEquality.ElementDiffsTell | scripts/office-wasm-reader/compare-walnut-pptx-protocol.ts:353-379 | a position is listed exactly when the two summaries there differ, with what stands there on either side, null where nothing does, in order |
| SummaryEquality.SlideDiffsTell | scripts/office-wasm-reader/compare-walnut-pptx-protocol.ts:343-381 | a slide is listed exactly when some position differs, under its number from 1; its list holds all differences up to the last one shown, and all of them if it is not full |
| SummaryEquality.SlideElementSummariesMatch | scripts/office-wasm-reader/compare-walnut-pptx-protocol.ts:383-398 | the loop returns whether the summaries of every slide are equal under the tolerance; what that means is GateIff |
| SummaryEquality.EmptyBboxDiffPassesGate | scripts/office-wasm-reader/compare-walnut-pptx-protocol.ts:602-625 | an empty list of rounded bounding-box differences, under any limit, means that the bounding-box gate passes |
| SummaryGate.SummaryEqualIff | scripts/office-wasm-reader/compare-walnut-pptx-protocol.ts:1046-1084 | the tolerant equality accepts exactly the trees that are the same value once the bounding-box lengths are blanked and whose lengths differ by at most 1000 where they stand |
| SummaryGate.WithoutBboxIsSame | scripts/office-wasm-reader/compare-walnut-pptx-protocol.ts:1046-1084 | away from bounding boxes it is equality of values |
| SummaryGate.ElementsMatchIff | scripts/office-wasm-reader/compare-walnut-pptx-protocol.ts:602-625 | two elements pass exactly when id and name are equal, both or neither has a type and the types are equal, the four lengths are within 1000 and the rotations equal |
| SummaryGate.GateIff | scripts/office-wasm-reader/compare-walnut-pptx-protocol.ts:383-398 | the bounding-box gate passes exactly when every slide has as many elements on both sides and they match one by one |
| SummaryGate.TypesAreSame | scripts/office-wasm-reader/compare-walnut-pptx-protocol.ts:602-625 | types that pass are the same value unless they hold a bounding box themselves |
| HistoryGroups.GroupConsecutiveChunks | scripts/maintenance/compact-session-history.ts:173-185 | the loop returns the runs of at least two rows |
| HistoryGroups.RunsAreMaximal | scripts/maintenance/compact-session-history.ts:173-185 | the rows are cut, in order, into maximal consecutive runs of one session |
| HistoryGroups.MaximalRunsUnique | scripts/maintenance/compact-session-history.ts:173-185 | there is only one such cut |
| HistoryCompaction.BuildMergedPayload | scripts/maintenance/compact-session-history.ts:187-205 | a payload that does not parse or a group that does not compact to one notification gives none |
| HistoryCompaction.MergedIsCompacted | scripts/maintenance/compact-session-history.ts:187-205 | when every row of a group parses, tagged with its own session, the payload is the first notification of the compacted list, and there is one exactly when that list is not empty and counts one |
| HistoryCompaction.UnparsedIsNotMerged | scripts/maintenance/compact-session-history.ts:187-198 | one payload that is not JSON leaves the whole group alone |
| HistoryCompaction.ChosenExactly | scripts/maintenance/compact-session-history.ts:249-257 | wherever it stands, a row is chosen exactly when it is a chunk from before the cutoff of an unprotected session, and the chosen rows keep their order |
| HistoryCompaction.OnlyCandidatesChange | scripts/maintenance/compact-session-history.ts:249-282 | a row of another kind, too recent or of a protected session stays as it was |
| HistoryCompaction.AcceptedRunsMerge | scripts/maintenance/compact-session-history.ts:272-282 | the first row of an accepted run carries that run's merged payload, its other rows are gone, and rows of rejected runs stay |
| HistoryCompaction.ApplyIsFates | scripts/maintenance/compact-session-history.ts:272-282 | the updates and deletes by id, one after the other, treat every row on its own |
| HistoryCompaction.ProtectedSessionUntouched | scripts/maintenance/compact-session-history.ts:257-282 | a protected session's rows are the same before and after |
| HistoryCompaction.RemovesExactly | scripts/maintenance/compact-session-history.ts:267-270 | apply removes exactly mergedChunks − mergedGroups rows |
| HistoryCompaction.SecondPassPlansNothingIff | scripts/maintenance/compact-session-history.ts:249-282 | a second pass with the same cutoff and protected sessions plans nothing exactly when no run of the rows left over by the first merges |
| HistoryCompaction.SecondPassPlansNothing | scripts/maintenance/compact-session-history.ts:249-282 | with strictly increasing indexes a second pass plans nothing |
| HistoryCompaction.DuplicatesNeedTwoPasses | scripts/maintenance/compact-session-history.ts:173-185 | two chunks at one index and two at the next, under any codec that reads such a chunk and merges two of them: the second pass plans a merge |
| HistoryCompaction.TwoChunksMerge | src/core/storage/history-compactor.ts:77-125 | there is such a codec; two stored chunks compact to one notification |
| SessionMaintenance.EachSessionGetsItsOwn | scripts/maintenance/compact-session-history.ts:284-318 | each session ends with its own compacted history or keeps the one it had; protected ones always keep theirs |
| SessionMaintenance.GuardedIsUntouched | scripts/maintenance/compact-session-history.ts:162-171 | a session protected by name, by a lease still running or by an update within the window keeps its history and all its messages |
| SessionMaintenance.StaleIsCompacted | scripts/maintenance/compact-session-history.ts:292-318 | any other session not updated since the cutoff ends with its history compacted, unless the count would not change |
| SessionMaintenance.JsonCountsAreSums | scripts/maintenance/compact-session-history.ts:305-317 | each counter is a sum over the histories compacted, and a session counts as compacted exactly when it gets an update |
| SessionMaintenance.ActiveIdsKept | scripts/maintenance/compact-session-history.ts:162-171 | the run does not change which sessions are protected |
| SessionMaintenance.SessionDb.ApplyMessageGroups | scripts/maintenance/compact-session-history.ts:272-282 | the table becomes the plan applied to it |
| SessionMaintenance.SessionDb.PlanMessages | scripts/maintenance/compact-session-history.ts:249-266 | the planned groups are those of the selected rows that merge |
| SessionMaintenance.SessionDb.PlanJson | scripts/maintenance/compact-session-history.ts:292-318 | counters and updates of the stored histories, or none when one is not JSON |
| SessionMaintenance.SessionDb.Run | scripts/maintenance/compact-session-history.ts:207-332 | the counters in both modes, both tables after apply, and nothing written in a dry run or when the run throws |
| SessionMaintenance.RunTwice | scripts/maintenance/compact-session-history.ts:207-332 | a second run at the same moment reports no message group, and does not throw when the histories written are read back |
| DeltaPaging.Table.Compact | scripts/maintenance/compact-tool-call-param-deltas.ts:113-207 | for every page size at least 1 the run ends, visits each due row once in order, and ends with the table and counters of a pass without pages, even when an update makes rows stop matching |
| DeltaPaging.ReadPage | scripts/maintenance/compact-tool-call-param-deltas.ts:242-258 | the inner loop's counters and pending writes |
| DeltaPaging.PageIsDue | scripts/maintenance/compact-tool-call-param-deltas.ts:136-143 | a page holds exactly the next due rows of the original table and moves the boundary to its last row |
| DeltaPaging.PageIsWritten | scripts/maintenance/compact-tool-call-param-deltas.ts:130-158 | flushing a page rewrites exactly the rows of that page |
| DeltaPaging.DryRunTellsTheTruth | scripts/maintenance/compact-tool-call-param-deltas.ts:148-153 | a dry run and an applying run report the same counters |
| DeltaPaging.DryRunKeeps | scripts/maintenance/compact-tool-call-param-deltas.ts:148-158 | a dry run leaves the table as it was |
| DeltaPaging.CountIsSums | scripts/maintenance/compact-tool-call-param-deltas.ts:242-258 | scanned, changed and skipped count the rows visited, those a rewrite changes and those it cannot read; the bytes before and after are the sums of the old and the new byte lengths of the rows it reads |
| DeltaPaging.RowsAreRewritten | scripts/maintenance/compact-tool-call-param-deltas.ts:144-158 | an applying run gives every row visited and read its new text and leaves all other rows and fields alone |
| DeltaPaging.BytesAddUp | scripts/maintenance/compact-tool-call-param-deltas.ts:242-258 | the visited rows hold the reported bytes before and, after an applying run, the reported bytes after, next to those of the rows that could not be read |
| DeltaPaging.EveryMatchVisitedIff | scripts/maintenance/compact-tool-call-param-deltas.ts:134-143 | every matching row is visited exactly when all matching row ids are positive |
| DeltaPaging.RowZeroIsSkipped | scripts/maintenance/compact-tool-call-param-deltas.ts:132-136 | a matching row with row id 0 is never visited |
| DeltaPaging.SecondRunKeeps | scripts/maintenance/compact-tool-call-param-deltas.ts:144-158 | when rewriting a rewritten text changes nothing, a second run leaves the table as it is |
| DeltaPaging.SecondRunCountsNone | scripts/maintenance/compact-tool-call-param-deltas.ts:144-158 | when rewriting a rewritten text changes nothing, a second applying run counts no changed row |
| BoardSteps.MountIsIdempotent | scripts/kanban/configure-flight-checklist.ts:262-348 | whenever the mount succeeds it keeps columns, order, stages and other fields, every rewritten column mirrors its first step, and mounting again changes nothing |
| BoardSteps.MountSucceedsIff | scripts/kanban/configure-flight-checklist.ts:254-348 | it succeeds exactly when the three stages exist and each column is mounted or has the steps to replace |
| BoardSteps.CheckDoneStepsSpec | scripts/kanban/configure-flight-checklist.ts:286-296 | the check passes exactly for lists of distinct registered ids |
| BoardSteps.DoneColumnIsExact | scripts/kanban/configure-flight-checklist.ts:299-311 | the done column gets exactly the steps asked for in that order, and steps that were there stay as they were |
| BoardSteps.NewTodo | scripts/kanban/configure-flight-checklist.ts:323-327 | orchestrator kept, contract setter behind it as its template says, named in the orchestrator's language, with its runtime settings and nothing else |
| BoardSteps.NewDev | scripts/kanban/configure-flight-checklist.ts:328-335 | every step keeps its place; dev executors become flight executors, named in their language and with their settings |
| BoardSteps.NewReview | scripts/kanban/configure-flight-checklist.ts:336-341 | QA step, flight guard and high-risk reviewer in this order, the latter two with the old guard's settings |
| BoardSteps.NewDoneStep | scripts/kanban/configure-flight-checklist.ts:299-311 | a done step that was not there is the main pusher as spelled out, or the TopBI porter with the settings of the reporter or else of the first step |
| BoardSteps.MountAt | scripts/kanban/configure-flight-checklist.ts:317-348 | every column is mounted after its own stage, and columns of other stages stay |
| BoardSteps.ErrorTells | scripts/kanban/configure-flight-checklist.ts:254-320 | the error of a failing mount names a stage without column, a step a column of that stage needs and lacks, or exactly the done steps that are unregistered or repeated |
| BoardSteps.NewDesigner | scripts/kanban/configure-designer.ts:110-138 | which columns change, and that the designer stands before the next contract setter or right behind the first orchestrator, with its settings |
| BoardSteps.DesignerOnlyAdds | scripts/kanban/configure-designer.ts:128-146 | the designer mount keeps all steps in order, the first step and the mirrored fields |
| BoardSteps.CommonFixedPoint | scripts/kanban/configure-designer.ts:128-146 | the designer after the flight checklist gives a board that neither changes again |
| BoardSteps.DesignerSurvivesIff | scripts/kanban/configure-flight-checklist.ts:323-327 | the flight checklist keeps an earlier designer exactly when the contract setter is there |
| BoardSteps.DesignerIsDropped | scripts/kanban/configure-flight-checklist.ts:323-327 | a concrete board whose designer the flight checklist drops |
| BoardStore.ResolveSpec | scripts/kanban/configure-flight-checklist.ts:417-431 | the boards found are different, are those some prefix matches, and hold the board refused by default only when it is allowed |
| BoardStore.ResolvesIff | scripts/kanban/configure-flight-checklist.ts:417-431 | resolving succeeds exactly when every prefix is well formed and matches one id, and the board refused by default is not asked for or allowed |
| BoardStore.ResolveErrorTells | scripts/kanban/configure-flight-checklist.ts:417-431 | a refusal names a prefix that is malformed, matches nothing, or matches exactly the ids listed; or the board refused by default was asked for |
| BoardStore.Store.Apply | scripts/kanban/configure-flight-checklist.ts:588-628 | the table is written only when a backup is returned, and then with that backup's new columns |
| BoardStore.Store.Rollback | scripts/kanban/configure-flight-checklist.ts:652-702 | the table is written only when all checks pass, and then with the backup's columns and times |
| BoardRollback.PlanSpec | scripts/kanban/configure-flight-checklist.ts:472-495 | a plan holds each resolved board once, with its stored row, its parsed columns and their mount |
| BoardRollback.ApplySucceedsIff | scripts/kanban/configure-flight-checklist.ts:578-620 | apply writes exactly when the specialists are loaded and, if some board is to change, each id to change matches one board, no planned board changed since planning and the backup can be written |
| BoardRollback.RollbackSucceedsIff | scripts/kanban/configure-flight-checklist.ts:659-684 | a rollback writes exactly when every prefix asked for matches one board, each of these has an entry, the texts are columns, and each board still deep-equals what apply wrote or it is forced |
| BoardRollback.AppliedAt | scripts/kanban/configure-flight-checklist.ts:621-624 | apply gives backed-up boards the new columns and time and leaves all others alone |
| BoardRollback.RollbackUndoesApply | scripts/kanban/configure-flight-checklist.ts:684-687 | apply followed by rollback restores columns and `updated_at` of every requested board, leaves the others, and gives back the whole table when the request covers the backup |
| BoardRollback.SameRequestRollsBackIff | scripts/kanban/configure-flight-checklist.ts:660-664 | rolling back with apply's board list works exactly when apply changed every board of it |
| BoardRollback.UnchangedBoardBlocksRollback | scripts/kanban/configure-flight-checklist.ts:660-664 | a concrete request of two boards, one mounted already: the apply succeeds and the same request cannot be rolled back |
| BoardRollback.SecondApplyPlansNothing | scripts/kanban/configure-flight-checklist.ts:472-495 | planning the same boards after an apply finds nothing to change |
| BoardRollback.PlanErrorTells | scripts/kanban/configure-flight-checklist.ts:472-495 | planning fails for a reason that holds of the request or of a board it names |
| BoardRollback.ApplyErrorTells | scripts/kanban/configure-flight-checklist.ts:578-620 | applying fails for a reason that holds; a board said to have changed is planned to change and is no longer stored as planned |
| BoardRollback.RollbackErrorTells | scripts/kanban/configure-flight-checklist.ts:652-684 | rolling back fails for a reason that holds; the boards said to differ are exactly those whose columns are not what the apply wrote |
| ShellScan.SplitShellCommandSegments | scripts/harness/analyze-search-tool-usage.ts:263-324 | the loop returns the trimmed, non-empty segments; which these are is SegmentsRoundTrip |
| ShellScan.TokenizeShellLike | scripts/harness/analyze-search-tool-usage.ts:326-376 | the loop returns the tokens of the scan; which these are is TokensRoundTrip |
| ShellScan.TokensRoundTrip | scripts/harness/analyze-search-tool-usage.ts:326-376 | any words, each written in any mixture of bare characters, quotes and backslashes, with any white space before, between and after them, are read back in order |
| ShellScan.SegmentsRoundTrip | scripts/harness/analyze-search-tool-usage.ts:263-324 | any command segments, with separators inside quotes or behind backslashes left alone, joined by any of the separators, are split apart again |
| ShellScan.BlankedIsRaw | scripts/harness/analyze-search-tool-usage.ts:263-376 | tokenizing the untrimmed segments one by one is tokenizing the command with every separator that cuts blanked |
| ShellScan.TrimKeepsTokensIff | scripts/harness/analyze-search-tool-usage.ts:272-276 | trimming a segment keeps its tokens exactly when no protected white space is cut, and otherwise loses characters |
| ShellScan.SegmentsTokenizeIff | scripts/harness/analyze-search-tool-usage.ts:263-376 | for every command, segments tokenize to the blanked command's tokens exactly when trimming loses nothing in any segment |
| ShellScan.ClosedCommandsAgree | scripts/harness/analyze-search-tool-usage.ts:263-376 | they always do for closed quotes and no backslash before white space |
| ShellScan.EscapedSpaceIsLost | scripts/harness/analyze-search-tool-usage.ts:263-376 | a command with an escaped space before a pipe for which they do not |
| RouteCalls.ExtractRouteCalls | scripts/fitness/check-api-parity.ts:256-307 | the cursor loop ends on every text and returns the calls of the scan |
| RouteCalls.RoundTrip | scripts/fitness/check-api-parity.ts:256-307 | any list of quote-free paths and balanced chains, printed with any spacing and any text without `.route(` in between, is read back in order |
| RouteCalls.ExtractIsSound | scripts/fitness/check-api-parity.ts:256-307 | on every text each call returned stands in the text, in order, with its path, its spacing and a chain closed by the parenthesis that balances it or by the end of the text |
| RouteCalls.ReturnedIff | scripts/fitness/check-api-parity.ts:256-307 | on every text a call is returned for exactly those `.route(` that white space and a quote follow and that no reading of an earlier one covers |
| RouteCalls.NestedCallIsMissed | scripts/fitness/check-api-parity.ts:270-280 | a concrete text whose only well-formed call lies right behind another `.route(` and is not returned |

## Left out

- Process spawning, signals, HTTP servers, `fetch`, file access, SQLite and the browser's EventSource: only the events they deliver and the tables they hold are modelled.
- JSON text, UTF-8 decoding across chunks, regular expressions and hashing: parsers and printers are parameters, and messages are decoded values; a message that parses but is not an object, on which the bridge's handlers would throw, is not modelled.
- A handler that throws inside the bridge: the catch at docker/opencode-bridge/server.js:277 would feed the line to the brace matcher a second time.
- `compactSessionHistoryNotifications` and the tool-delta compactors: an arbitrary deterministic function.
- Strings are sequences of Unicode characters, not of UTF-16 units; only the sort order of object keys is modelled on units, and output is cut at 1048576 characters.
- Integer-like object keys, which JavaScript enumerates first, are ordered like any other key.
- Numbers are integers, and widths in the text wrapper are reals: NaN, signed zero and rounding error do not occur.
- A field set to `undefined` in a board column is the same as an absent one, although `isDeepStrictEqual` tells them apart until the columns are stored as JSON.
- The case of `.toLowerCase()` in the locale test is modelled for the two ASCII letters it looks at.
- Durations in the history maintenance are whole days and minutes.
- Terminal names are pairs of a counter and a time stamp; the clock is a function of the counter. Kill signals are not modelled, only the end events that follow.
- `session/update` fan-out details of the HTTP layer, `initialize` and `session/new`: easy members.
- The probe of the specialist API is one flag, and the done-steps resolver one function of the workspace.
- `checkpoint` and `vacuum`, report texts, argument parsing and the two-table driver of the delta compaction: plumbing.
- Terminals.OneReplyPerRequest: replies are tied to requests by order of arrival; the JSON-RPC id that each handler copies from its request into its reply is not modelled.
- SQLite's LIKE over message histories is an arbitrary predicate on rows; for board ids it is modelled, ignoring the case of ASCII letters.
- Between planning and applying, other writers may do anything; the stale check and the write are one step, as are the rollback's check and write.
- BoardStore.Store.Rollback: a backup whose JSON is an object without a boards array, and new columns that are JSON but no array, both end as the error for unreadable columns.
- React pages, canvas templates, screenshots, documentation generators, git and release scripts: user interface, external tools or easy members.
