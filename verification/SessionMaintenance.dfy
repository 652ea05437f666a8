/** One run of the session history maintenance (scripts/maintenance/compact-session-history.ts):
    protected sessions, the histories stored as JSON, and both tables together. */
module SessionMaintenance {
  import opened Options
  import opened HistoryGroups
  import opened HistoryCompaction

  /** A row of `acp_sessions`. */
  datatype SessionRow = SessionRow(id: string, history: Option<string>, updatedAt: Option<int>, leaseExpiresAt: Option<int>)

  // ----- the histories kept as JSON -----

  datatype Settings = Settings(apply: bool, cutoffDays: nat, activeWindowMinutes: nat, activeIds: set<string>)

  predicate IsActive(session: SessionRow, settings: Settings, now: int) {
    || session.id in settings.activeIds
    || (session.leaseExpiresAt.Some? && session.leaseExpiresAt.value > now)
    || (session.updatedAt.Some? && session.updatedAt.value >= now - settings.activeWindowMinutes * 60 * 1000)
  }

  function Cutoff(settings: Settings, now: int): int {
    now - settings.cutoffDays * 24 * 60 * 60 * 1000
  }

  function ActiveIds(sessions: seq<SessionRow>, settings: Settings, now: int): set<string> {
    set k | 0 <= k < |sessions| && IsActive(sessions[k], settings, now) :: sessions[k].id
  }

  /** The session is neither protected nor updated since the cutoff. */
  predicate InScope(session: SessionRow, cutoff: int, active: set<string>) {
    session.id !in active && !(session.updatedAt.Some? && session.updatedAt.value >= cutoff)
  }

  function History(codec: Codec, session: SessionRow): Option<seq<Notification>> {
    if session.history.None? || session.history.value == "" then Some([]) else codec.parseArray(session.history.value)
  }

  /** The compacted history that replaces the stored one, if it is to be replaced. */
  function Replacement(codec: Codec, session: SessionRow, cutoff: int, active: set<string>): Option<seq<Notification>> {
    var history := History(codec, session);
    if !InScope(session, cutoff, active) || history.None? || history.value == [] then None
    else
      var compacted := codec.compact(history.value);
      if compacted.compactedCount != compacted.originalCount then Some(compacted.history) else None
  }

  datatype JsonUpdate = JsonUpdate(id: string, history: seq<Notification>)

  function JsonUpdates(codec: Codec, sessions: seq<SessionRow>, cutoff: int, active: set<string>): seq<JsonUpdate> {
    if sessions == [] then []
    else
      var text := Replacement(codec, sessions[0], cutoff, active);
      (if text.Some? then [JsonUpdate(sessions[0].id, text.value)] else [])
      + JsonUpdates(codec, sessions[1..], cutoff, active)
  }

  /** Every history the run looks at is JSON; otherwise the run throws before it writes. */
  predicate Readable(codec: Codec, sessions: seq<SessionRow>, cutoff: int, active: set<string>) {
    forall k :: 0 <= k < |sessions| && InScope(sessions[k], cutoff, active) ==> History(codec, sessions[k]).Some?
  }

  /** `UPDATE acp_sessions SET message_history = ? WHERE id = ?`. */
  function UpdateHistory(sessions: seq<SessionRow>, id: string, text: string): seq<SessionRow> {
    if sessions == [] then []
    else [if sessions[0].id == id then sessions[0].(history := Some(text)) else sessions[0]]
         + UpdateHistory(sessions[1..], id, text)
  }

  function ApplyJson(codec: Codec, sessions: seq<SessionRow>, updates: seq<JsonUpdate>): seq<SessionRow>
    decreases |updates|
  {
    if updates == [] then sessions
    else ApplyJson(codec, UpdateHistory(sessions, updates[0].id, codec.printArray(updates[0].history)), updates[1..])
  }

  /** The text an id ends with. */
  function FinalText(codec: Codec, updates: seq<JsonUpdate>, id: string, text: Option<string>): Option<string>
    decreases |updates|
  {
    if updates == [] then text
    else FinalText(codec, updates[1..], id, if updates[0].id == id then Some(codec.printArray(updates[0].history)) else text)
  }

  predicate DistinctSessions(sessions: seq<SessionRow>) {
    forall i, j :: 0 <= i < j < |sessions| ==> sessions[i].id != sessions[j].id
  }

  lemma {:induction false} UpdateHistoryAt(sessions: seq<SessionRow>, id: string, text: string, k: nat)
    requires k < |sessions|
    ensures |UpdateHistory(sessions, id, text)| == |sessions|
    ensures UpdateHistory(sessions, id, text)[k] == if sessions[k].id == id then sessions[k].(history := Some(text)) else sessions[k]
    decreases |sessions|
  {
    if k > 0 {
      UpdateHistoryAt(sessions[1..], id, text, k - 1);
    } else if |sessions| > 1 {
      UpdateHistoryAt(sessions[1..], id, text, 0);
    }
  }

  lemma {:induction false} ApplyJsonAt(codec: Codec, sessions: seq<SessionRow>, updates: seq<JsonUpdate>, k: nat)
    requires k < |sessions|
    ensures |ApplyJson(codec, sessions, updates)| == |sessions|
    ensures ApplyJson(codec, sessions, updates)[k]
         == sessions[k].(history := FinalText(codec, updates, sessions[k].id, sessions[k].history))
    decreases |updates|
  {
    if updates != [] {
      var text := codec.printArray(updates[0].history);
      UpdateHistoryAt(sessions, updates[0].id, text, k);
      ApplyJsonAt(codec, UpdateHistory(sessions, updates[0].id, text), updates[1..], k);
    }
  }

  lemma {:induction false} NoTextFor(codec: Codec, sessions: seq<SessionRow>, cutoff: int, active: set<string>, id: string, text: Option<string>)
    requires forall k :: 0 <= k < |sessions| ==> sessions[k].id != id
    ensures FinalText(codec, JsonUpdates(codec, sessions, cutoff, active), id, text) == text
  {
    if sessions != [] {
      NoTextFor(codec, sessions[1..], cutoff, active, id, text);
      NextUpdate(codec, sessions, cutoff, active, id, text);
    }
  }

  lemma NextUpdate(codec: Codec, sessions: seq<SessionRow>, cutoff: int, active: set<string>, id: string, text: Option<string>)
    requires sessions != []
    ensures var replacement := Replacement(codec, sessions[0], cutoff, active);
            FinalText(codec, JsonUpdates(codec, sessions, cutoff, active), id, text) ==
            FinalText(codec, JsonUpdates(codec, sessions[1..], cutoff, active), id,
                      if replacement.Some? && sessions[0].id == id then Some(codec.printArray(replacement.value)) else text)
  {
    var replacement, rest := Replacement(codec, sessions[0], cutoff, active), JsonUpdates(codec, sessions[1..], cutoff, active);
    if replacement.Some? {
      assert ([JsonUpdate(sessions[0].id, replacement.value)] + rest)[1..] == rest;
    } else {
      assert [] + rest == rest;
    }
  }

  lemma {:induction false} TextFor(codec: Codec, sessions: seq<SessionRow>, cutoff: int, active: set<string>, k: nat)
    requires k < |sessions| && DistinctSessions(sessions)
    ensures var replacement := Replacement(codec, sessions[k], cutoff, active);
            FinalText(codec, JsonUpdates(codec, sessions, cutoff, active), sessions[k].id, sessions[k].history) ==
            if replacement.Some? then Some(codec.printArray(replacement.value)) else sessions[k].history
    decreases |sessions|
  {
    hide Replacement;
    NextUpdate(codec, sessions, cutoff, active, sessions[k].id, sessions[k].history);
    if k > 0 {
      TextFor(codec, sessions[1..], cutoff, active, k - 1);
    } else {
      var replacement := Replacement(codec, sessions[0], cutoff, active);
      NoTextFor(codec, sessions[1..], cutoff, active, sessions[0].id,
                if replacement.Some? then Some(codec.printArray(replacement.value)) else sessions[0].history);
    }
  }

  /** Each session ends with its own compacted history, or keeps the one it had: protected, recent
      and already compact sessions are left alone. */
  lemma EachSessionGetsItsOwn(codec: Codec, sessions: seq<SessionRow>, cutoff: int, active: set<string>, k: nat)
    requires k < |sessions| && DistinctSessions(sessions)
    ensures var after := ApplyJson(codec, sessions, JsonUpdates(codec, sessions, cutoff, active));
            var replacement := Replacement(codec, sessions[k], cutoff, active);
            && |after| == |sessions|
            && after[k] == (if replacement.Some? then sessions[k].(history := Some(codec.printArray(replacement.value)))
                            else sessions[k])
            && (sessions[k].id in active ==> after[k] == sessions[k])
  {
    ApplyJsonAt(codec, sessions, JsonUpdates(codec, sessions, cutoff, active), k);
    TextFor(codec, sessions, cutoff, active, k);
  }

  /** The sessions protected after the run are those protected before it. */
  lemma ActiveIdsKept(codec: Codec, sessions: seq<SessionRow>, updates: seq<JsonUpdate>, settings: Settings, now: int)
    ensures ActiveIds(ApplyJson(codec, sessions, updates), settings, now) == ActiveIds(sessions, settings, now)
  {
    var after := ApplyJson(codec, sessions, updates);
    if sessions == [] {
      StillNone(codec, updates);
    } else {
      forall k | 0 <= k < |sessions|
        ensures |after| == |sessions| && after[k].id == sessions[k].id
        ensures IsActive(after[k], settings, now) <==> IsActive(sessions[k], settings, now)
      {
        ApplyJsonAt(codec, sessions, updates, k);
      }
      assert |after| == |sessions| by { ApplyJsonAt(codec, sessions, updates, 0); }
    }
  }

  lemma {:induction false} StillNone(codec: Codec, updates: seq<JsonUpdate>)
    ensures ApplyJson(codec, [], updates) == []
    decreases |updates|
  {
    if updates != [] {
      StillNone(codec, updates[1..]);
    }
  }

  // ----- which sessions a run reaches -----

  /** Protected by name, by a lease that has not run out, or by an update within the window. */
  predicate Guarded(s: SessionRow, settings: Settings, now: int) {
    || s.id in settings.activeIds
    || (s.leaseExpiresAt.Some? && now < s.leaseExpiresAt.value)
    || (s.updatedAt.Some? && now - s.updatedAt.value <= settings.activeWindowMinutes * 60000)
  }

  lemma GuardedIffActive(sessions: seq<SessionRow>, settings: Settings, now: int, k: nat)
    requires k < |sessions| && DistinctSessions(sessions)
    ensures sessions[k].id in ActiveIds(sessions, settings, now) <==> Guarded(sessions[k], settings, now)
  {
  }

  /** A guarded session keeps its history and all its messages. */
  lemma GuardedIsUntouched(
      codec: Codec, messages: seq<Row>, sessions: seq<SessionRow>, settings: Settings, now: int, k: nat)
    requires k < |sessions| && DistinctSessions(sessions) && Distinct(messages) && Guarded(sessions[k], settings, now)
    ensures var cutoff, active := Cutoff(settings, now), ActiveIds(sessions, settings, now);
            var plan := PlanFor(codec, messages, cutoff, active);
            && |ApplyJson(codec, sessions, JsonUpdates(codec, sessions, cutoff, active))| == |sessions|
            && ApplyJson(codec, sessions, JsonUpdates(codec, sessions, cutoff, active))[k] == sessions[k]
            && Plannable(plan) && OfSession(Apply(messages, plan), sessions[k].id) == OfSession(messages, sessions[k].id)
  {
    var cutoff, active := Cutoff(settings, now), ActiveIds(sessions, settings, now);
    GuardedIffActive(sessions, settings, now, k);
    EachSessionGetsItsOwn(codec, sessions, cutoff, active, k);
    ProtectedSessionUntouched(codec, messages, cutoff, active, sessions[k].id);
  }

  /** A session that is not guarded and was not updated since the cutoff ends with its history
      compacted, unless compacting it would not change how many notifications it has. */
  lemma StaleIsCompacted(
      codec: Codec, sessions: seq<SessionRow>, settings: Settings, now: int, k: nat, text: string, history: seq<Notification>)
    requires k < |sessions| && DistinctSessions(sessions) && !Guarded(sessions[k], settings, now)
    requires sessions[k].updatedAt.Some? ==> now - sessions[k].updatedAt.value > settings.cutoffDays * 86400000
    requires sessions[k].history == Some(text) && text != "" && codec.parseArray(text) == Some(history) && history != []
    ensures var cutoff, active := Cutoff(settings, now), ActiveIds(sessions, settings, now);
            var after := ApplyJson(codec, sessions, JsonUpdates(codec, sessions, cutoff, active));
            var compacted := codec.compact(history);
            && |after| == |sessions|
            && after[k] == if compacted.compactedCount == compacted.originalCount then sessions[k]
                           else sessions[k].(history := Some(codec.printArray(compacted.history)))
  {
    GuardedIffActive(sessions, settings, now, k);
    EachSessionGetsItsOwn(codec, sessions, Cutoff(settings, now), ActiveIds(sessions, settings, now), k);
  }

  // ----- the run -----

  datatype MessageCounts = MessageCounts(candidateSessions: nat, mergedGroups: nat, mergedChunks: nat, deletedRows: int)

  datatype JsonCounts = JsonCounts(candidateSessions: nat, compactedSessions: nat, originalMessages: nat, compactedMessages: nat, mergedChunks: nat)

  datatype Summary = Summary(messages: MessageCounts, json: JsonCounts)

  function PlannedSessions(plan: seq<Planned>): set<string>
    requires Plannable(plan)
  {
    set k | 0 <= k < |plan| :: plan[k].group[0].session
  }

  function CountMessages(plan: seq<Planned>): MessageCounts
    requires Plannable(plan)
  {
    MessageCounts(|PlannedSessions(plan)|, |plan|, MergedChunks(plan), DeletedRows(plan))
  }

  function CountJson(codec: Codec, sessions: seq<SessionRow>, cutoff: int, active: set<string>): JsonCounts {
    if sessions == [] then JsonCounts(0, 0, 0, 0, 0)
    else
      var before, session := CountJson(codec, Front(sessions), cutoff, active), Last(sessions);
      var history := History(codec, session);
      if !InScope(session, cutoff, active) || history.None? || history.value == [] then before
      else
        var compacted := codec.compact(history.value);
        JsonCounts(before.candidateSessions + 1,
                   before.compactedSessions + (if compacted.compactedCount != compacted.originalCount then 1 else 0),
                   before.originalMessages + |history.value|,
                   before.compactedMessages + compacted.compactedCount,
                   before.mergedChunks + compacted.mergedChunks)
  }

  function Sum(sessions: seq<SessionRow>, weigh: SessionRow -> nat): nat {
    if sessions == [] then 0 else Sum(Front(sessions), weigh) + weigh(Last(sessions))
  }

  /** The history of a session that a run compacts; empty for every other session. */
  function Taken(codec: Codec, session: SessionRow, cutoff: int, active: set<string>): seq<Notification> {
    var history := History(codec, session);
    if InScope(session, cutoff, active) && history.Some? then history.value else []
  }

  function CountIf(history: seq<Notification>, n: nat): nat {
    if history != [] then n else 0
  }

  function Candidates(codec: Codec, cutoff: int, active: set<string>): SessionRow -> nat {
    s => CountIf(Taken(codec, s, cutoff, active), 1)
  }

  function Originals(codec: Codec, cutoff: int, active: set<string>): SessionRow -> nat {
    (s: SessionRow) => |Taken(codec, s, cutoff, active)|
  }

  function Remaining(codec: Codec, cutoff: int, active: set<string>): SessionRow -> nat {
    s => var taken := Taken(codec, s, cutoff, active); CountIf(taken, codec.compact(taken).compactedCount)
  }

  function Merged(codec: Codec, cutoff: int, active: set<string>): SessionRow -> nat {
    s => var taken := Taken(codec, s, cutoff, active); CountIf(taken, codec.compact(taken).mergedChunks)
  }

  lemma LastIsWeighed(codec: Codec, sessions: seq<SessionRow>, cutoff: int, active: set<string>)
    requires sessions != []
    ensures var s := Last(sessions);
            var before, counts := CountJson(codec, Front(sessions), cutoff, active), CountJson(codec, sessions, cutoff, active);
            && counts.candidateSessions == before.candidateSessions + Candidates(codec, cutoff, active)(s)
            && counts.compactedSessions == before.compactedSessions + (if Replacement(codec, s, cutoff, active).Some? then 1 else 0)
            && counts.originalMessages == before.originalMessages + Originals(codec, cutoff, active)(s)
            && counts.compactedMessages == before.compactedMessages + Remaining(codec, cutoff, active)(s)
            && counts.mergedChunks == before.mergedChunks + Merged(codec, cutoff, active)(s)
  {
    var s := Last(sessions);
    var taken := Taken(codec, s, cutoff, active);
    hide InScope, History;
    assert Candidates(codec, cutoff, active)(s) == if taken == [] then 0 else 1;
    assert Originals(codec, cutoff, active)(s) == |taken|;
    assert Remaining(codec, cutoff, active)(s) == if taken == [] then 0 else codec.compact(taken).compactedCount;
    assert Merged(codec, cutoff, active)(s) == if taken == [] then 0 else codec.compact(taken).mergedChunks;
  }

  /** The number of notifications before and after is summed over the histories compacted, and a
      session counts as compacted exactly when it gets an update. */
  lemma {:induction false} JsonCountsAreSums(codec: Codec, sessions: seq<SessionRow>, cutoff: int, active: set<string>)
    ensures var counts := CountJson(codec, sessions, cutoff, active);
            && counts.compactedSessions == |JsonUpdates(codec, sessions, cutoff, active)|
            && counts.candidateSessions == Sum(sessions, Candidates(codec, cutoff, active))
            && counts.originalMessages == Sum(sessions, Originals(codec, cutoff, active))
            && counts.compactedMessages == Sum(sessions, Remaining(codec, cutoff, active))
            && counts.mergedChunks == Sum(sessions, Merged(codec, cutoff, active))
  {
    if sessions != [] {
      JsonCountsAreSums(codec, Front(sessions), cutoff, active);
      UpdatesOfOneMore(codec, sessions, cutoff, active);
      LastIsWeighed(codec, sessions, cutoff, active);
      hide CountJson, JsonUpdates, Replacement, Candidates, Originals, Remaining, Merged;
    }
  }

  lemma {:induction false} UpdatesOfOneMore(codec: Codec, sessions: seq<SessionRow>, cutoff: int, active: set<string>)
    requires sessions != []
    ensures var replacement := Replacement(codec, Last(sessions), cutoff, active);
            JsonUpdates(codec, sessions, cutoff, active) ==
            JsonUpdates(codec, Front(sessions), cutoff, active)
            + (if replacement.Some? then [JsonUpdate(Last(sessions).id, replacement.value)] else [])
    decreases |sessions|
  {
    hide Replacement;
    if |sessions| > 1 {
      UpdatesOfOneMore(codec, sessions[1..], cutoff, active);
      assert Front(sessions)[1..] == Front(sessions[1..]);
    }
  }

  lemma OneMoreSession(codec: Codec, sessions: seq<SessionRow>, i: nat, cutoff: int, active: set<string>)
    requires i < |sessions|
    ensures var session := sessions[i];
            var counts, updates := CountJson(codec, sessions[..i], cutoff, active), JsonUpdates(codec, sessions[..i], cutoff, active);
            var next, more := CountJson(codec, sessions[..i + 1], cutoff, active), JsonUpdates(codec, sessions[..i + 1], cutoff, active);
            var history := History(codec, session);
            if InScope(session, cutoff, active) && history.Some? && history.value != [] then
              var compacted := codec.compact(history.value);
              var smaller := compacted.compactedCount != compacted.originalCount;
              && next == JsonCounts(counts.candidateSessions + 1, counts.compactedSessions + (if smaller then 1 else 0),
                                    counts.originalMessages + |history.value|,
                                    counts.compactedMessages + compacted.compactedCount,
                                    counts.mergedChunks + compacted.mergedChunks)
              && more == (if smaller then updates + [JsonUpdate(session.id, compacted.history)] else updates)
            else next == counts && more == updates
    ensures var fails := InScope(sessions[i], cutoff, active) && History(codec, sessions[i]).None?;
            && (fails ==> !Readable(codec, sessions, cutoff, active))
            && (Readable(codec, sessions[..i], cutoff, active) && !fails ==> Readable(codec, sessions[..i + 1], cutoff, active))
  {
    assert Front(sessions[..i + 1]) == sessions[..i] && Last(sessions[..i + 1]) == sessions[i];
    UpdatesOfOneMore(codec, sessions[..i + 1], cutoff, active);
  }

  lemma PlanStep(codec: Codec, groups: seq<seq<Row>>, i: nat, plan: seq<Planned>)
    requires i < |groups|
    ensures var payload := MergedPayload(codec, groups[i]);
            plan + Plan(codec, groups[i..]) ==
            (if payload.Some? then plan + [Planned(groups[i], payload.value)] else plan) + Plan(codec, groups[i + 1..])
  {
    assert groups[i..][1..] == groups[i + 1..];
  }

  class SessionDb {
    var messages: seq<Row>
    var sessions: seq<SessionRow>

    constructor (messages: seq<Row>, sessions: seq<SessionRow>)
      ensures this.messages == messages && this.sessions == sessions
    {
      this.messages, this.sessions := messages, sessions;
    }

    method ApplyMessageGroups(plan: seq<Planned>)
      requires Plannable(plan)
      modifies this`messages
      ensures messages == Apply(old(messages), plan)
    {
      for i := 0 to |plan|
        invariant Apply(messages, plan[i..]) == Apply(old(messages), plan)
      {
        var group := plan[i].group;
        assert plan[i..][1..] == plan[i + 1..];
        ghost var goal := ApplyOne(messages, plan[i]);
        messages := UpdateRows(messages, group[0].id, plan[i].payload);
        for j := 1 to |group|
          invariant DeleteEach(messages, group[j..]) == goal
        {
          assert group[j..][1..] == group[j + 1..];
          messages := DeleteRows(messages, group[j].id);
        }
      }
    }

    method ApplySessionJson(codec: Codec, updates: seq<JsonUpdate>)
      modifies this`sessions
      ensures sessions == ApplyJson(codec, old(sessions), updates)
    {
      for i := 0 to |updates|
        invariant ApplyJson(codec, sessions, updates[i..]) == ApplyJson(codec, old(sessions), updates)
      {
        assert updates[i..][1..] == updates[i + 1..];
        sessions := UpdateHistory(sessions, updates[i].id, codec.printArray(updates[i].history));
      }
    }

    method PlanMessages(codec: Codec, cutoff: int, active: set<string>) returns (plan: seq<Planned>)
      ensures plan == PlanFor(codec, messages, cutoff, active) && Plannable(plan)
    {
      var groups := GroupConsecutiveChunks(Select(messages, cutoff, active));
      GroupsNotEmpty(Runs(Select(messages, cutoff, active)));
      plan := [];
      for i := 0 to |groups|
        invariant plan + Plan(codec, groups[i..]) == Plan(codec, groups) && Plannable(plan)
      {
        hide Plan, MergedPayload;
        var payload := BuildMergedPayload(codec, groups[i]);
        PlanStep(codec, groups, i, plan);
        if payload.Some? {
          plan := plan + [Planned(groups[i], payload.value)];
        }
      }
    }

    /** The updates for the stored histories and their counts; `None` when a history is not JSON. */
    method PlanJson(codec: Codec, cutoff: int, active: set<string>) returns (result: Option<(JsonCounts, seq<JsonUpdate>)>)
      ensures result == if Readable(codec, sessions, cutoff, active)
                        then Some((CountJson(codec, sessions, cutoff, active), JsonUpdates(codec, sessions, cutoff, active)))
                        else None
    {
      var counts, updates := JsonCounts(0, 0, 0, 0, 0), [];
      for i := 0 to |sessions|
        invariant counts == CountJson(codec, sessions[..i], cutoff, active)
        invariant updates == JsonUpdates(codec, sessions[..i], cutoff, active)
        invariant Readable(codec, sessions[..i], cutoff, active)
      {
        hide CountJson, JsonUpdates, Readable, IsActive;
        var session := sessions[i];
        OneMoreSession(codec, sessions, i, cutoff, active);
        if session.id in active {
          continue;
        }
        if session.updatedAt.Some? && session.updatedAt.value >= cutoff {
          continue;
        }
        var history := History(codec, session);
        if history.None? {
          return None;
        }
        if history.value == [] {
          continue;
        }
        var compacted := codec.compact(history.value);
        counts := JsonCounts(counts.candidateSessions + 1, counts.compactedSessions,
                             counts.originalMessages + |history.value|,
                             counts.compactedMessages + compacted.compactedCount,
                             counts.mergedChunks + compacted.mergedChunks);
        if compacted.compactedCount != compacted.originalCount {
          counts := counts.(compactedSessions := counts.compactedSessions + 1);
          updates := updates + [JsonUpdate(session.id, compacted.history)];
        }
      }
      assert sessions[..|sessions|] == sessions;
      result := Some((counts, updates));
    }

    /** One run. It writes only in apply mode, and nothing at all when it throws. */
    method Run(codec: Codec, settings: Settings, now: int) returns (summary: Option<Summary>)
      modifies this
      ensures var cutoff := Cutoff(settings, now);
              var active := ActiveIds(old(sessions), settings, now);
              var plan := PlanFor(codec, old(messages), cutoff, active);
              var readable := Readable(codec, old(sessions), cutoff, active);
              && Plannable(plan)
              && summary == (if readable then Some(Summary(CountMessages(plan), CountJson(codec, old(sessions), cutoff, active)))
                             else None)
              && messages == (if readable && settings.apply then Apply(old(messages), plan) else old(messages))
              && sessions == (if readable && settings.apply
                              then ApplyJson(codec, old(sessions), JsonUpdates(codec, old(sessions), cutoff, active))
                              else old(sessions))
    {
      var cutoff := Cutoff(settings, now);
      var active := ActiveIds(sessions, settings, now);
      var plan := PlanMessages(codec, cutoff, active);
      var json := PlanJson(codec, cutoff, active);
      if json.None? {
        return None;
      }
      if settings.apply {
        ApplyMessageGroups(plan);
        ApplySessionJson(codec, json.value.1);
      }
      summary := Some(Summary(CountMessages(plan), json.value.0));
    }
  }

  lemma {:induction false} GroupsNotEmpty(runs: seq<seq<Row>>)
    requires NonEmpty(runs)
    ensures NonEmpty(Groups(runs))
  {
    if runs != [] {
      GroupsNotEmpty(runs[1..]);
    }
  }

  /** The histories a run writes are read back. */
  predicate HistoriesReread(codec: Codec, sessions: seq<SessionRow>, cutoff: int, active: set<string>) {
    forall k :: 0 <= k < |sessions| && Replacement(codec, sessions[k], cutoff, active).Some? ==>
      codec.parseArray(codec.printArray(Replacement(codec, sessions[k], cutoff, active).value)).Some?
  }

  lemma StillReadable(codec: Codec, sessions: seq<SessionRow>, cutoff: int, active: set<string>)
    requires DistinctSessions(sessions) && Readable(codec, sessions, cutoff, active)
    requires HistoriesReread(codec, sessions, cutoff, active)
    ensures Readable(codec, ApplyJson(codec, sessions, JsonUpdates(codec, sessions, cutoff, active)), cutoff, active)
  {
    hide ApplyJson, JsonUpdates, Replacement, DistinctSessions;
    var updates := JsonUpdates(codec, sessions, cutoff, active);
    var after := ApplyJson(codec, sessions, updates);
    if sessions == [] {
      StillNone(codec, updates);
    } else {
      ApplyJsonAt(codec, sessions, updates, 0);
    }
    forall k | 0 <= k < |after| && InScope(after[k], cutoff, active) ensures History(codec, after[k]).Some? {
      EachSessionGetsItsOwn(codec, sessions, cutoff, active, k);
    }
  }

  /** Running again at the same moment, after a run in apply mode, plans no message group, and does
      not throw when the histories written are read back. */
  method RunTwice(db: SessionDb, codec: Codec, settings: Settings, now: int) returns (second: Option<Summary>)
    requires Distinct(db.messages) && settings.apply
    requires StrictOrder(Select(db.messages, Cutoff(settings, now), ActiveIds(db.sessions, settings, now)))
    requires Readable(codec, db.sessions, Cutoff(settings, now), ActiveIds(db.sessions, settings, now))
    modifies db
    ensures second.Some? ==> second.value.messages == MessageCounts(0, 0, 0, 0)
    ensures old(DistinctSessions(db.sessions)
                && HistoriesReread(codec, db.sessions, Cutoff(settings, now), ActiveIds(db.sessions, settings, now)))
            ==> second.Some?
  {
    hide Distinct, StrictOrder, Readable, DistinctSessions, HistoriesReread, ActiveIds, Apply, ApplyJson, JsonUpdates, Select;
    ghost var messages, sessions := db.messages, db.sessions;
    ghost var cutoff, active := Cutoff(settings, now), ActiveIds(sessions, settings, now);
    var first := db.Run(codec, settings, now);
    SecondPassPlansNothing(codec, messages, cutoff, active);
    ActiveIdsKept(codec, sessions, JsonUpdates(codec, sessions, cutoff, active), settings, now);
    if DistinctSessions(sessions) && HistoriesReread(codec, sessions, cutoff, active) {
      StillReadable(codec, sessions, cutoff, active);
    }
    second := db.Run(codec, settings, now);
  }
}
