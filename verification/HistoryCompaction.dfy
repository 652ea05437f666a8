/** Merging old message chunks (scripts/maintenance/compact-session-history.ts): which groups are
    planned, and what is left of `session_messages` once they are merged. */
module HistoryCompaction {
  import opened Options
  import opened HistoryGroups

  /** A notification, known by its JSON text. */
  type Notification = string

  datatype Compacted = Compacted(history: seq<Notification>, originalCount: nat, compactedCount: nat, mergedChunks: nat)

  /** The code this model does not look into: parsing, compacting and printing. */
  datatype Codec = Codec(
    /** The notification in a payload, tagged with a session; `None` when the payload is not JSON. */
    parse: (string, string) -> Option<Notification>,
    compact: seq<Notification> -> Compacted,
    /** The notifications of a stored history; `None` when it is not JSON. */
    parseArray: string -> Option<seq<Notification>>,
    printArray: seq<Notification> -> string)

  const CHUNK := "agent_message_chunk"
  const MERGED := "agent_message"

  // ----- planning -----

  datatype Planned = Planned(group: seq<Row>, payload: string)

  /** Every payload of the group parsed; `None` as soon as one is not JSON. */
  function ParseAll(codec: Codec, group: seq<Row>): Option<seq<Notification>> {
    if group == [] then Some([])
    else
      var before := ParseAll(codec, Front(group));
      var one := codec.parse(Last(group).payload, Last(group).session);
      if before.Some? && one.Some? then Some(before.value + [one.value]) else None
  }

  /** The single notification the group compacts to. */
  function MergedPayload(codec: Codec, group: seq<Row>): Option<string> {
    var parsed := ParseAll(codec, group);
    if parsed.None? then None
    else
      var compacted := codec.compact(parsed.value);
      if compacted.history == [] || compacted.compactedCount != 1 then None else Some(compacted.history[0])
  }

  lemma {:induction false} ParseAllNeedsEach(codec: Codec, group: seq<Row>, k: nat)
    requires k <= |group| && ParseAll(codec, group[..k]).None?
    ensures ParseAll(codec, group).None?
    decreases |group| - k
  {
    if k == |group| {
      assert group[..k] == group;
    } else {
      assert Front(group[..k + 1]) == group[..k];
      ParseAllNeedsEach(codec, group, k + 1);
    }
  }

  lemma {:induction false} ParsedInOrder(codec: Codec, group: seq<Row>, parsed: seq<Notification>)
    requires |parsed| == |group|
    requires forall k :: 0 <= k < |group| ==> codec.parse(group[k].payload, group[k].session) == Some(parsed[k])
    ensures ParseAll(codec, group) == Some(parsed)
    decreases |group|
  {
    if group != [] {
      ParsedInOrder(codec, Front(group), parsed[..|group| - 1]);
      assert parsed == parsed[..|group| - 1] + [parsed[|group| - 1]];
    }
  }

  /** Where each row parses, tagged with its own session, the payload is the first notification of
      the compacted list, provided that it counts one notification. */
  lemma MergedIsCompacted(codec: Codec, group: seq<Row>, parsed: seq<Notification>)
    requires |parsed| == |group|
    requires forall k :: 0 <= k < |group| ==> codec.parse(group[k].payload, group[k].session) == Some(parsed[k])
    ensures var compacted := codec.compact(parsed);
            MergedPayload(codec, group) ==
            if |compacted.history| > 0 && compacted.compactedCount == 1 then Some(compacted.history[0]) else None
  {
    ParsedInOrder(codec, group, parsed);
  }

  /** One payload that is not JSON is enough for the group to be left alone. */
  lemma UnparsedIsNotMerged(codec: Codec, group: seq<Row>, k: nat)
    requires k < |group| && codec.parse(group[k].payload, group[k].session).None?
    ensures MergedPayload(codec, group).None?
  {
    assert Last(group[..k + 1]) == group[k];
    ParseAllNeedsEach(codec, group, k + 1);
  }

  method BuildMergedPayload(codec: Codec, group: seq<Row>) returns (payload: Option<string>)
    ensures payload == MergedPayload(codec, group)
  {
    var notifications: seq<Notification> := [];
    for i := 0 to |group|
      invariant ParseAll(codec, group[..i]) == Some(notifications)
    {
      assert Front(group[..i + 1]) == group[..i] && Last(group[..i + 1]) == group[i];
      var one := codec.parse(group[i].payload, group[i].session);
      if one.None? {
        ParseAllNeedsEach(codec, group, i + 1);
        return None;
      }
      notifications := notifications + [one.value];
    }
    assert group[..|group|] == group;
    var compacted := codec.compact(notifications);
    if compacted.history == [] || compacted.compactedCount != 1 {
      return None;
    }
    payload := Some(compacted.history[0]);
  }

  /** A run that will be merged. */
  predicate Accepted(codec: Codec, run: seq<Row>) {
    |run| > 1 && MergedPayload(codec, run).Some?
  }

  function Plan(codec: Codec, groups: seq<seq<Row>>): seq<Planned> {
    if groups == [] then []
    else
      var payload := MergedPayload(codec, groups[0]);
      (if payload.Some? then [Planned(groups[0], payload.value)] else []) + Plan(codec, groups[1..])
  }

  predicate Candidate(row: Row, cutoff: int, active: set<string>) {
    row.eventType == CHUNK && row.createdAt < cutoff && row.session !in active
  }

  function Select(rows: seq<Row>, cutoff: int, active: set<string>): seq<Row> {
    if rows == [] then []
    else (if Candidate(rows[0], cutoff, active) then [rows[0]] else []) + Select(rows[1..], cutoff, active)
  }

  function PlanFor(codec: Codec, rows: seq<Row>, cutoff: int, active: set<string>): seq<Planned> {
    Plan(codec, Groups(Runs(Select(rows, cutoff, active))))
  }

  // ----- applying -----

  /** `UPDATE session_messages SET event_type = 'agent_message', payload = ? WHERE id = ?`. */
  function UpdateRows(rows: seq<Row>, id: string, payload: string): seq<Row> {
    if rows == [] then []
    else [if rows[0].id == id then rows[0].(eventType := MERGED, payload := payload) else rows[0]]
         + UpdateRows(rows[1..], id, payload)
  }

  /** `DELETE FROM session_messages WHERE id = ?`. */
  function DeleteRows(rows: seq<Row>, id: string): seq<Row> {
    if rows == [] then []
    else (if rows[0].id == id then [] else [rows[0]]) + DeleteRows(rows[1..], id)
  }

  function DeleteEach(rows: seq<Row>, gone: seq<Row>): seq<Row>
    decreases |gone|
  {
    if gone == [] then rows else DeleteEach(DeleteRows(rows, gone[0].id), gone[1..])
  }

  predicate Plannable(plan: seq<Planned>) {
    forall k :: 0 <= k < |plan| ==> plan[k].group != []
  }

  function ApplyOne(rows: seq<Row>, item: Planned): seq<Row>
    requires item.group != []
  {
    DeleteEach(UpdateRows(rows, item.group[0].id, item.payload), item.group[1..])
  }

  function Apply(rows: seq<Row>, plan: seq<Planned>): seq<Row>
    requires Plannable(plan)
    decreases |plan|
  {
    if plan == [] then rows else Apply(ApplyOne(rows, plan[0]), plan[1..])
  }

  // ----- what applying does to each row -----

  predicate Distinct(rows: seq<Row>) {
    forall i, j :: 0 <= i < j < |rows| ==> rows[i].id != rows[j].id
  }

  predicate HasId(rows: seq<Row>, id: string) {
    exists k :: 0 <= k < |rows| && rows[k].id == id
  }

  function PlannedRows(plan: seq<Planned>): seq<Row> {
    if plan == [] then [] else plan[0].group + PlannedRows(plan[1..])
  }

  /** What stays of one row: the first of a group carries the merged payload, the others go. */
  function Fate(row: Row, plan: seq<Planned>): seq<Row>
    requires Plannable(plan)
  {
    if plan == [] then [row]
    else if row.id == plan[0].group[0].id then [row.(eventType := MERGED, payload := plan[0].payload)]
    else if HasId(plan[0].group, row.id) then []
    else Fate(row, plan[1..])
  }

  function Fates(rows: seq<Row>, plan: seq<Planned>): seq<Row>
    requires Plannable(plan)
  {
    if rows == [] then [] else Fate(rows[0], plan) + Fates(rows[1..], plan)
  }

  lemma {:induction false} UpdateInTwo(a: seq<Row>, b: seq<Row>, id: string, payload: string)
    ensures UpdateRows(a + b, id, payload) == UpdateRows(a, id, payload) + UpdateRows(b, id, payload)
    decreases |a|
  {
    if a == [] {
      assert a + b == b;
    } else {
      assert (a + b)[1..] == a[1..] + b;
      UpdateInTwo(a[1..], b, id, payload);
    }
  }

  lemma {:induction false} DeleteInTwo(a: seq<Row>, b: seq<Row>, id: string)
    ensures DeleteRows(a + b, id) == DeleteRows(a, id) + DeleteRows(b, id)
    decreases |a|
  {
    if a == [] {
      assert a + b == b;
    } else {
      assert (a + b)[1..] == a[1..] + b;
      DeleteInTwo(a[1..], b, id);
    }
  }

  lemma {:induction false} DeleteEachInTwo(a: seq<Row>, b: seq<Row>, gone: seq<Row>)
    ensures DeleteEach(a + b, gone) == DeleteEach(a, gone) + DeleteEach(b, gone)
    decreases |gone|
  {
    if gone != [] {
      DeleteInTwo(a, b, gone[0].id);
      DeleteEachInTwo(DeleteRows(a, gone[0].id), DeleteRows(b, gone[0].id), gone[1..]);
    }
  }

  lemma {:induction false} ApplyInTwo(a: seq<Row>, b: seq<Row>, plan: seq<Planned>)
    requires Plannable(plan)
    ensures Apply(a + b, plan) == Apply(a, plan) + Apply(b, plan)
    decreases |plan|
  {
    if plan != [] {
      var item := plan[0];
      UpdateInTwo(a, b, item.group[0].id, item.payload);
      DeleteEachInTwo(UpdateRows(a, item.group[0].id, item.payload), UpdateRows(b, item.group[0].id, item.payload),
                      item.group[1..]);
      ApplyInTwo(ApplyOne(a, item), ApplyOne(b, item), plan[1..]);
    }
  }

  lemma {:induction false} DeleteEachOne(row: Row, gone: seq<Row>)
    ensures DeleteEach([row], gone) == if HasId(gone, row.id) then [] else [row]
    ensures DeleteEach([], gone) == []
    decreases |gone|
  {
    if gone != [] {
      DeleteEachOne(row, gone[1..]);
      assert DeleteRows([row], gone[0].id) == if row.id == gone[0].id then [] else [row];
      assert HasId(gone, row.id) <==> gone[0].id == row.id || HasId(gone[1..], row.id) by {
        HasIdStep(gone, row.id);
      }
    }
  }

  lemma HasIdStep(rows: seq<Row>, id: string)
    requires rows != []
    ensures HasId(rows, id) <==> rows[0].id == id || HasId(rows[1..], id)
  {
    if HasId(rows[1..], id) {
      var k :| 0 <= k < |rows[1..]| && rows[1..][k].id == id;
      assert rows[k + 1].id == id;
    }
    if HasId(rows, id) && rows[0].id != id {
      var k :| 0 <= k < |rows| && rows[k].id == id;
      assert rows[1..][k - 1].id == id;
    }
  }

  lemma {:induction false} ApplyToOne(row: Row, plan: seq<Planned>)
    requires Plannable(plan) && Distinct(PlannedRows(plan))
    ensures Apply([row], plan) == Fate(row, plan)
    decreases |plan|
  {
    if plan != [] {
      var group, payload := plan[0].group, plan[0].payload;
      var rest := plan[1..];
      DistinctParts(group, PlannedRows(rest));
      HasIdStep(group, row.id);
      var updated := if row.id == group[0].id then row.(eventType := MERGED, payload := payload) else row;
      assert UpdateRows([row], group[0].id, payload) == [updated];
      DeleteEachOne(updated, group[1..]);
      ApplyToNone(rest);
      if row.id == group[0].id {
        assert !HasId(group[1..], row.id);
        ApplyToOne(updated, rest);
        assert HasId(group, updated.id);
        UntouchedFate(updated, rest);
      } else {
        ApplyToOne(row, rest);
      }
    }
  }

  lemma {:induction false} ApplyToNone(plan: seq<Planned>)
    requires Plannable(plan)
    ensures Apply([], plan) == []
    decreases |plan|
  {
    if plan != [] {
      DeleteEachOne(plan[0].group[0], plan[0].group[1..]);
      ApplyToNone(plan[1..]);
    }
  }

  lemma DistinctParts(a: seq<Row>, b: seq<Row>)
    requires Distinct(a + b)
    ensures Distinct(a) && Distinct(b)
    ensures forall id :: HasId(a, id) ==> !HasId(b, id)
    ensures a != [] ==> !HasId(a[1..], a[0].id)
  {
    var all := a + b;
    forall i, j | 0 <= i < j < |b| ensures b[i].id != b[j].id {
      assert all[|a| + i] == b[i] && all[|a| + j] == b[j];
    }
    forall i, j | 0 <= i < |a| && 0 <= j < |b| ensures a[i].id != b[j].id {
      assert all[i] == a[i] && all[|a| + j] == b[j];
    }
    forall i, j | 0 <= i < j < |a| ensures a[i].id != a[j].id {
      assert all[i] == a[i] && all[j] == a[j];
    }
  }

  lemma {:induction false} UntouchedFate(row: Row, plan: seq<Planned>)
    requires Plannable(plan) && !HasId(PlannedRows(plan), row.id)
    ensures Fate(row, plan) == [row]
    decreases |plan|
  {
    if plan != [] {
      var all := PlannedRows(plan);
      assert forall k :: 0 <= k < |plan[0].group| ==> all[k] == plan[0].group[k];
      assert forall k :: 0 <= k < |PlannedRows(plan[1..])| ==> all[|plan[0].group| + k] == PlannedRows(plan[1..])[k];
      UntouchedFate(row, plan[1..]);
    }
  }

  /** Applying a plan whose rows have distinct ids treats every row on its own. */
  lemma {:induction false} ApplyIsFates(rows: seq<Row>, plan: seq<Planned>)
    requires Plannable(plan) && Distinct(PlannedRows(plan))
    ensures Apply(rows, plan) == Fates(rows, plan)
    decreases |rows|
  {
    if rows == [] {
      ApplyToNone(plan);
    } else {
      assert rows == [rows[0]] + rows[1..];
      ApplyInTwo([rows[0]], rows[1..], plan);
      ApplyToOne(rows[0], plan);
      ApplyIsFates(rows[1..], plan);
    }
  }

  // ----- ids along the way -----

  lemma HasIdInTwo(a: seq<Row>, b: seq<Row>, id: string)
    ensures HasId(a + b, id) <==> HasId(a, id) || HasId(b, id)
  {
    var all := a + b;
    if HasId(a, id) {
      var k :| 0 <= k < |a| && a[k].id == id;
      assert all[k].id == id;
    }
    if HasId(b, id) {
      var k :| 0 <= k < |b| && b[k].id == id;
      assert all[|a| + k].id == id;
    }
    if HasId(all, id) {
      var k :| 0 <= k < |all| && all[k].id == id;
      assert if k < |a| then a[k].id == id else b[k - |a|].id == id;
    }
  }

  lemma DistinctJoin(a: seq<Row>, b: seq<Row>)
    requires Distinct(a) && Distinct(b) && forall id :: HasId(a, id) ==> !HasId(b, id)
    ensures Distinct(a + b)
  {
    forall i, j | 0 <= i < |a| && 0 <= j < |b| ensures a[i].id != b[j].id {
      assert HasId(a, a[i].id) && HasId(b, b[j].id);
    }
  }

  lemma {:induction false} SelectIds(rows: seq<Row>, cutoff: int, active: set<string>)
    requires Distinct(rows)
    ensures Distinct(Select(rows, cutoff, active))
    ensures forall id :: HasId(Select(rows, cutoff, active), id) ==> HasId(rows, id)
  {
    if rows != [] {
      var head, rest := [rows[0]], rows[1..];
      assert rows == head + rest;
      DistinctParts(head, rest);
      SelectIds(rest, cutoff, active);
      var chosen := Select(rest, cutoff, active);
      forall id ensures HasId(rows, id) <==> HasId(head, id) || HasId(rest, id)
                ensures HasId(head + chosen, id) <==> HasId(head, id) || HasId(chosen, id) {
        HasIdInTwo(head, rest, id);
        HasIdInTwo(head, chosen, id);
      }
      DistinctJoin(head, chosen);
      assert [] + chosen == chosen;
    }
  }

  /** The plan for a list of runs, run by run. */
  function PlanRuns(codec: Codec, runs: seq<seq<Row>>): (plan: seq<Planned>)
    ensures Plannable(plan)
  {
    if runs == [] then []
    else
      (if Accepted(codec, runs[0]) then [Planned(runs[0], MergedPayload(codec, runs[0]).value)] else [])
      + PlanRuns(codec, runs[1..])
  }

  lemma {:induction false} PlanIsPlanRuns(codec: Codec, runs: seq<seq<Row>>)
    ensures Plan(codec, Groups(runs)) == PlanRuns(codec, runs)
  {
    if runs != [] {
      PlanIsPlanRuns(codec, runs[1..]);
      var rest := Groups(runs[1..]);
      if |runs[0]| > 1 {
        assert ([runs[0]] + rest)[1..] == rest;
      } else {
        assert [] + rest == rest;
      }
    }
  }

  lemma {:induction false} PlanIds(codec: Codec, runs: seq<seq<Row>>)
    requires Distinct(Concat(runs))
    ensures Distinct(PlannedRows(PlanRuns(codec, runs)))
    ensures forall id :: HasId(PlannedRows(PlanRuns(codec, runs)), id) ==> HasId(Concat(runs), id)
  {
    if runs != [] {
      var head, rest := runs[0], Concat(runs[1..]);
      DistinctParts(head, rest);
      PlanIds(codec, runs[1..]);
      var planned := PlannedRows(PlanRuns(codec, runs[1..]));
      forall id ensures HasId(head + rest, id) <==> HasId(head, id) || HasId(rest, id)
                ensures HasId(head + planned, id) <==> HasId(head, id) || HasId(planned, id) {
        HasIdInTwo(head, rest, id);
        HasIdInTwo(head, planned, id);
      }
      DistinctJoin(head, planned);
      PlannedRowsStep(codec, runs);
    }
  }

  lemma PlannedRowsStep(codec: Codec, runs: seq<seq<Row>>)
    requires runs != []
    ensures var planned := PlannedRows(PlanRuns(codec, runs[1..]));
            PlannedRows(PlanRuns(codec, runs)) == if Accepted(codec, runs[0]) then runs[0] + planned else planned
  {
    var rest := PlanRuns(codec, runs[1..]);
    if Accepted(codec, runs[0]) {
      assert ([Planned(runs[0], MergedPayload(codec, runs[0]).value)] + rest)[1..] == rest;
    } else {
      assert [] + rest == rest;
    }
  }

  // ----- what a run of the maintenance keeps -----

  function OfSession(rows: seq<Row>, session: string): seq<Row> {
    if rows == [] then []
    else (if rows[0].session == session then [rows[0]] else []) + OfSession(rows[1..], session)
  }

  lemma {:induction false} SelectHas(rows: seq<Row>, cutoff: int, active: set<string>, id: string)
    requires Distinct(rows) && HasId(Select(rows, cutoff, active), id)
    ensures forall k :: 0 <= k < |rows| && rows[k].id == id ==> Candidate(rows[k], cutoff, active)
  {
    if rows != [] {
      var head, rest := [rows[0]], rows[1..];
      assert rows == head + rest;
      DistinctParts(head, rest);
      SelectIds(rest, cutoff, active);
      HasIdInTwo(if Candidate(rows[0], cutoff, active) then head else [], Select(rest, cutoff, active), id);
      if HasId(Select(rest, cutoff, active), id) {
        SelectHas(rest, cutoff, active, id);
        assert rows[0].id == id ==> HasId(head, id);
        forall k | 0 < k < |rows| && rows[k].id == id ensures Candidate(rows[k], cutoff, active) {
          assert rows[k] == rest[k - 1];
        }
      } else {
        assert HasId(head, id);
        forall k | 0 < k < |rows| ensures rows[k].id != id {
          assert rest[k - 1] == rows[k] && HasId(rest, rest[k - 1].id);
        }
      }
    }
  }

  /** Everything about the plan that the theorems need. */
  lemma PlanFacts(codec: Codec, rows: seq<Row>, cutoff: int, active: set<string>)
    requires Distinct(rows)
    ensures var runs := Runs(Select(rows, cutoff, active));
            var plan := PlanFor(codec, rows, cutoff, active);
            && plan == PlanRuns(codec, runs) && Plannable(plan)
            && MaximalRuns(runs, Select(rows, cutoff, active))
            && Distinct(Concat(runs)) && Distinct(PlannedRows(plan))
            && (forall id :: HasId(PlannedRows(plan), id) ==> HasId(Select(rows, cutoff, active), id))
            && (forall id :: HasId(PlannedRows(plan), id) ==> HasId(rows, id))
  {
    var selected := Select(rows, cutoff, active);
    SelectIds(rows, cutoff, active);
    RunsAreMaximal(selected);
    PlanIsPlanRuns(codec, Runs(selected));
    PlanIds(codec, Runs(selected));
  }

  /** A row that is no candidate (another kind of event, too recent, or of a protected session) stays. */
  lemma OnlyCandidatesChange(codec: Codec, rows: seq<Row>, cutoff: int, active: set<string>, k: nat)
    requires Distinct(rows) && k < |rows| && !Candidate(rows[k], cutoff, active)
    ensures var plan := PlanFor(codec, rows, cutoff, active);
            Plannable(plan) && Fate(rows[k], plan) == [rows[k]]
  {
    PlanFacts(codec, rows, cutoff, active);
    var plan := PlanFor(codec, rows, cutoff, active);
    if HasId(PlannedRows(plan), rows[k].id) {
      SelectHas(rows, cutoff, active, rows[k].id);
    }
    UntouchedFate(rows[k], plan);
  }

  lemma {:induction false} SessionFates(rows: seq<Row>, plan: seq<Planned>, session: string)
    requires Plannable(plan)
    requires forall k :: 0 <= k < |rows| && rows[k].session == session ==> Fate(rows[k], plan) == [rows[k]]
    ensures OfSession(Fates(rows, plan), session) == OfSession(rows, session)
    decreases |rows|
  {
    if rows != [] {
      forall k | 0 <= k < |rows[1..]| && rows[1..][k].session == session
        ensures Fate(rows[1..][k], plan) == [rows[1..][k]] {
        assert rows[1..][k] == rows[k + 1];
      }
      SessionFates(rows[1..], plan, session);
      FateKeepsSession(rows[0], plan);
      var fate, rest := Fate(rows[0], plan), Fates(rows[1..], plan);
      if fate == [] {
        assert fate + rest == rest;
      } else {
        assert (fate + rest)[1..] == rest;
      }
    }
  }

  lemma {:induction false} FateKeepsSession(row: Row, plan: seq<Planned>)
    requires Plannable(plan)
    ensures Fate(row, plan) == [] || (|Fate(row, plan)| == 1 && Fate(row, plan)[0].session == row.session)
    decreases |plan|
  {
    if plan != [] {
      FateKeepsSession(row, plan[1..]);
    }
  }

  /** A protected session keeps all its rows as they were. */
  lemma ProtectedSessionUntouched(codec: Codec, rows: seq<Row>, cutoff: int, active: set<string>, session: string)
    requires Distinct(rows) && session in active
    ensures var plan := PlanFor(codec, rows, cutoff, active);
            Plannable(plan) && OfSession(Apply(rows, plan), session) == OfSession(rows, session)
  {
    PlanFacts(codec, rows, cutoff, active);
    var plan := PlanFor(codec, rows, cutoff, active);
    ApplyIsFates(rows, plan);
    forall k | 0 <= k < |rows| && rows[k].session == session ensures Fate(rows[k], plan) == [rows[k]] {
      OnlyCandidatesChange(codec, rows, cutoff, active, k);
    }
    SessionFates(rows, plan, session);
  }

  lemma {:induction false} RunFate(codec: Codec, runs: seq<seq<Row>>, c: nat, k: nat)
    requires Distinct(Concat(runs)) && c < |runs| && k < |runs[c]|
    ensures var row := runs[c][k];
            Fate(row, PlanRuns(codec, runs)) ==
            if !Accepted(codec, runs[c]) then [row]
            else if k == 0 then [row.(eventType := MERGED, payload := MergedPayload(codec, runs[c]).value)]
            else []
    decreases |runs|
  {
    hide Distinct, HasId, MergedPayload;
    var row, head, rest := runs[c][k], runs[0], Concat(runs[1..]);
    var planned := PlanRuns(codec, runs[1..]);
    DistinctParts(head, rest);
    PlanIds(codec, runs[1..]);
    var mine := if Accepted(codec, head) then [Planned(head, MergedPayload(codec, head).value)] else [];
    assert (mine + planned)[|mine|..] == planned;
    InHasId(head);
    if c > 0 {
      RunFate(codec, runs[1..], c - 1, k);
      IdInConcat(runs[1..], c - 1, k);
    } else if Accepted(codec, head) {
      HasIdStep(head, row.id);
      if k > 0 {
        InHasId(head[1..]);
        assert head[1..][k - 1] == row;
      }
    } else {
      UntouchedFate(row, planned);
    }
  }

  lemma {:induction false} IdInConcat(runs: seq<seq<Row>>, c: nat, k: nat)
    requires c < |runs| && k < |runs[c]|
    ensures HasId(Concat(runs), runs[c][k].id)
    decreases |runs|
  {
    HasIdInTwo(runs[0], Concat(runs[1..]), runs[c][k].id);
    if c == 0 {
      InHasId(runs[0]);
    } else {
      IdInConcat(runs[1..], c - 1, k);
    }
  }

  /** Every selected row stands in one run. The first row of an accepted run carries its merged
      payload, the others of that run are gone, and the rows of a rejected run stay as they were. */
  lemma AcceptedRunsMerge(codec: Codec, rows: seq<Row>, cutoff: int, active: set<string>, c: nat, k: nat)
    requires Distinct(rows)
    requires var runs := Runs(Select(rows, cutoff, active)); c < |runs| && k < |runs[c]|
    ensures var plan := PlanFor(codec, rows, cutoff, active);
            var run := Runs(Select(rows, cutoff, active))[c];
            && Plannable(plan) && Apply(rows, plan) == Fates(rows, plan)
            && Fate(run[k], plan) ==
               if !Accepted(codec, run) then [run[k]]
               else if k == 0 then [run[k].(eventType := MERGED, payload := MergedPayload(codec, run).value)]
               else []
  {
    PlanFacts(codec, rows, cutoff, active);
    ApplyIsFates(rows, PlanFor(codec, rows, cutoff, active));
    RunFate(codec, Runs(Select(rows, cutoff, active)), c, k);
  }

  // ----- how many rows go -----

  function MergedChunks(plan: seq<Planned>): nat {
    if plan == [] then 0 else |plan[0].group| + MergedChunks(plan[1..])
  }

  function DeletedRows(plan: seq<Planned>): int {
    if plan == [] then 0 else |plan[0].group| - 1 + DeletedRows(plan[1..])
  }

  lemma {:induction false} CountersAgree(plan: seq<Planned>)
    ensures DeletedRows(plan) == MergedChunks(plan) - |plan|
  {
    if plan != [] {
      CountersAgree(plan[1..]);
    }
  }

  lemma {:induction false} UpdateLength(rows: seq<Row>, id: string, payload: string)
    ensures |UpdateRows(rows, id, payload)| == |rows|
    ensures forall k :: 0 <= k < |rows| ==> UpdateRows(rows, id, payload)[k].id == rows[k].id
  {
    if rows != [] {
      UpdateLength(rows[1..], id, payload);
    }
  }

  lemma {:induction false} DeleteLength(rows: seq<Row>, id: string)
    requires Distinct(rows)
    ensures |DeleteRows(rows, id)| == |rows| - (if HasId(rows, id) then 1 else 0)
    ensures Distinct(DeleteRows(rows, id))
    ensures forall other :: HasId(DeleteRows(rows, id), other) <==> HasId(rows, other) && other != id
  {
    if rows != [] {
      var head, rest := [rows[0]], rows[1..];
      assert rows == head + rest;
      DistinctParts(head, rest);
      DeleteLength(rest, id);
      var kept := DeleteRows(rest, id);
      forall other ensures HasId(rows, other) <==> HasId(head, other) || HasId(rest, other)
                   ensures HasId(head + kept, other) <==> HasId(head, other) || HasId(kept, other)
                   ensures HasId(head, other) <==> other == rows[0].id {
        HasIdInTwo(head, rest, other);
        HasIdInTwo(head, kept, other);
        assert head[0].id == rows[0].id;
      }
      DistinctJoin(head, kept);
      assert [] + kept == kept;
    }
  }

  lemma {:induction false} DeleteEachLength(rows: seq<Row>, gone: seq<Row>)
    requires Distinct(rows) && Distinct(gone) && forall id :: HasId(gone, id) ==> HasId(rows, id)
    ensures |DeleteEach(rows, gone)| == |rows| - |gone| && Distinct(DeleteEach(rows, gone))
    ensures forall id :: HasId(DeleteEach(rows, gone), id) <==> HasId(rows, id) && !HasId(gone, id)
    decreases |gone|
  {
    if gone != [] {
      assert gone == [gone[0]] + gone[1..];
      DistinctParts([gone[0]], gone[1..]);
      assert HasId([gone[0]], gone[0].id) by { assert [gone[0]][0].id == gone[0].id; }
      forall id ensures HasId(gone, id) <==> gone[0].id == id || HasId(gone[1..], id) {
        HasIdStep(gone, id);
      }
      DeleteLength(rows, gone[0].id);
      DeleteEachLength(DeleteRows(rows, gone[0].id), gone[1..]);
    }
  }

  lemma {:induction false} ApplyLength(rows: seq<Row>, plan: seq<Planned>)
    requires Plannable(plan) && Distinct(rows) && Distinct(PlannedRows(plan))
    requires forall id :: HasId(PlannedRows(plan), id) ==> HasId(rows, id)
    ensures |Apply(rows, plan)| == |rows| - DeletedRows(plan)
    decreases |plan|
  {
    if plan != [] {
      var group, rest := plan[0].group, PlannedRows(plan[1..]);
      var updated := UpdateRows(rows, group[0].id, plan[0].payload);
      UpdateLength(rows, group[0].id, plan[0].payload);
      DistinctParts(group, rest);
      DistinctParts([group[0]], group[1..]) by { assert group == [group[0]] + group[1..]; }
      forall id ensures HasId(updated, id) <==> HasId(rows, id) {
        SameIds(updated, rows, id);
      }
      forall id ensures HasId(group + rest, id) <==> HasId(group, id) || HasId(rest, id)
                ensures HasId(group, id) <==> group[0].id == id || HasId(group[1..], id) {
        HasIdInTwo(group, rest, id);
        HasIdStep(group, id);
      }
      DeleteEachLength(updated, group[1..]);
      ApplyLength(ApplyOne(rows, plan[0]), plan[1..]);
    }
  }

  lemma SameIds(a: seq<Row>, b: seq<Row>, id: string)
    requires |a| == |b| && forall k :: 0 <= k < |a| ==> a[k].id == b[k].id
    ensures HasId(a, id) <==> HasId(b, id)
  {
  }

  /** The rows removed are the merged chunks less one row for each merged group. */
  lemma RemovesExactly(codec: Codec, rows: seq<Row>, cutoff: int, active: set<string>)
    requires Distinct(rows)
    ensures var plan := PlanFor(codec, rows, cutoff, active);
            Plannable(plan) && |Apply(rows, plan)| == |rows| - (MergedChunks(plan) - |plan|)
  {
    PlanFacts(codec, rows, cutoff, active);
    CountersAgree(PlanFor(codec, rows, cutoff, active));
    ApplyLength(rows, PlanFor(codec, rows, cutoff, active));
  }

  // ----- a second pass -----

  /** `message_index` increases strictly within each session, and sessions are not mixed. */
  predicate StrictOrder(rows: seq<Row>) {
    && (forall i, j :: 0 <= i < j < |rows| && rows[i].session == rows[j].session ==> rows[i].index < rows[j].index)
    && (forall i, j, k :: 0 <= i < j < k < |rows| && rows[i].session == rows[k].session ==> rows[j].session == rows[i].session)
  }

  /** Rows of `rows` whose id is not among those of `gone`. */
  function Without(rows: seq<Row>, gone: seq<Row>): seq<Row> {
    if rows == [] then []
    else (if HasId(gone, rows[0].id) then [] else [rows[0]]) + Without(rows[1..], gone)
  }

  function Rejected(codec: Codec, runs: seq<seq<Row>>): seq<seq<Row>> {
    if runs == [] then []
    else (if Accepted(codec, runs[0]) then [] else [runs[0]]) + Rejected(codec, runs[1..])
  }

  lemma {:induction false} WithoutInTwo(a: seq<Row>, b: seq<Row>, gone: seq<Row>)
    ensures Without(a + b, gone) == Without(a, gone) + Without(b, gone)
    decreases |a|
  {
    if a == [] {
      assert a + b == b;
    } else {
      assert (a + b)[1..] == a[1..] + b;
      WithoutInTwo(a[1..], b, gone);
    }
  }

  lemma {:induction false} WithoutAll(rows: seq<Row>, gone: seq<Row>)
    requires forall k :: 0 <= k < |rows| ==> HasId(gone, rows[k].id)
    ensures Without(rows, gone) == []
  {
    if rows != [] {
      WithoutAll(rows[1..], gone);
    }
  }

  lemma {:induction false} WithoutSame(rows: seq<Row>, gone: seq<Row>, fewer: seq<Row>)
    requires forall k :: 0 <= k < |rows| ==> (HasId(gone, rows[k].id) <==> HasId(fewer, rows[k].id))
    ensures Without(rows, gone) == Without(rows, fewer)
  {
    if rows != [] {
      WithoutSame(rows[1..], gone, fewer);
    }
  }

  lemma {:induction false} WithoutNone(rows: seq<Row>, gone: seq<Row>)
    requires forall k :: 0 <= k < |rows| ==> !HasId(gone, rows[k].id)
    ensures Without(rows, gone) == rows
  {
    if rows != [] {
      WithoutNone(rows[1..], gone);
    }
  }

  lemma InHasId(rows: seq<Row>)
    ensures forall k :: 0 <= k < |rows| ==> HasId(rows, rows[k].id)
  {
  }

  /** Taking the planned rows out of the selected ones leaves the rejected runs. */
  lemma {:induction false} RejectedRemain(codec: Codec, runs: seq<seq<Row>>)
    requires Distinct(Concat(runs))
    ensures Without(Concat(runs), PlannedRows(PlanRuns(codec, runs))) == Concat(Rejected(codec, runs))
  {
    if runs != [] {
      hide Accepted, Distinct, HasId;
      var head, rest := runs[0], Concat(runs[1..]);
      var planned, gone := PlannedRows(PlanRuns(codec, runs[1..])), PlannedRows(PlanRuns(codec, runs));
      DistinctParts(head, rest);
      PlanIds(codec, runs[1..]);
      PlannedRowsStep(codec, runs);
      RejectedRemain(codec, runs[1..]);
      WithoutInTwo(head, rest, gone);
      InHasId(head);
      InHasId(rest);
      forall id ensures HasId(head + planned, id) <==> HasId(head, id) || HasId(planned, id) {
        HasIdInTwo(head, planned, id);
      }
      var left := Rejected(codec, runs[1..]);
      if Accepted(codec, head) {
        WithoutAll(head, gone);
        WithoutSame(rest, gone, planned);
        assert [] + left == left;
        assert [] + Concat(left) == Concat(left);
      } else {
        WithoutNone(head, gone);
        assert ([head] + left)[1..] == left;
      }
    }
  }

  lemma {:induction false} TouchedFate(row: Row, plan: seq<Planned>)
    requires Plannable(plan) && HasId(PlannedRows(plan), row.id)
    ensures Fate(row, plan) == [] || (|Fate(row, plan)| == 1 && Fate(row, plan)[0].eventType == MERGED)
    decreases |plan|
  {
    if plan != [] {
      HasIdInTwo(plan[0].group, PlannedRows(plan[1..]), row.id);
      if !HasId(plan[0].group, row.id) {
        TouchedFate(row, plan[1..]);
      }
    }
  }

  lemma {:induction false} SelectInTwo(a: seq<Row>, b: seq<Row>, cutoff: int, active: set<string>)
    ensures Select(a + b, cutoff, active) == Select(a, cutoff, active) + Select(b, cutoff, active)
    decreases |a|
  {
    if a == [] {
      assert a + b == b;
    } else {
      hide Candidate;
      assert (a + b)[1..] == a[1..] + b;
      SelectInTwo(a[1..], b, cutoff, active);
      var one := if Candidate(a[0], cutoff, active) then [a[0]] else [];
      var x, y := Select(a[1..], cutoff, active), Select(b, cutoff, active);
      assert Select(a + b, cutoff, active) == one + (x + y) == (one + x) + y;
    }
  }

  /** What a second pass selects: the rows the first pass selected and did not plan. */
  /** Wherever it stands, a row is chosen exactly when it is a chunk from before the cutoff, of a
      session that is not protected; the rows chosen keep their order. */
  lemma ChosenExactly(a: seq<Row>, row: Row, b: seq<Row>, cutoff: int, active: set<string>)
    ensures Select(a + [row] + b, cutoff, active) ==
            Select(a, cutoff, active)
            + (if row.eventType == "agent_message_chunk" && row.createdAt < cutoff && row.session !in active then [row] else [])
            + Select(b, cutoff, active)
  {
    SelectInTwo(a + [row], b, cutoff, active);
    SelectInTwo(a, [row], cutoff, active);
    assert [row][1..] == [];
    assert Select([row], cutoff, active) == (if Candidate(row, cutoff, active) then [row] else []) + Select([], cutoff, active);
  }

  lemma {:induction false} SelectAfter(rows: seq<Row>, plan: seq<Planned>, cutoff: int, active: set<string>)
    requires Plannable(plan)
    ensures Select(Fates(rows, plan), cutoff, active) == Without(Select(rows, cutoff, active), PlannedRows(plan))
  {
    if rows != [] {
      hide HasId;
      var row, rest := rows[0], rows[1..];
      var fate := Fate(row, plan);
      SelectInTwo(fate, Fates(rest, plan), cutoff, active);
      SelectAfter(rest, plan, cutoff, active);
      var one := if Candidate(row, cutoff, active) then [row] else [];
      WithoutInTwo(one, Select(rest, cutoff, active), PlannedRows(plan));
      if HasId(PlannedRows(plan), row.id) {
        TouchedFate(row, plan);
        assert MERGED != CHUNK by { assert |MERGED| != |CHUNK|; }
        assert Select(fate, cutoff, active) == [];
      } else {
        UntouchedFate(row, plan);
        assert Select([row], cutoff, active) == one + Select([], cutoff, active);
      }
      assert Without(one, PlannedRows(plan)) == Select(fate, cutoff, active);
    }
  }

  /** No run is continued by the start of any later one. */
  predicate Separated(runs: seq<seq<Row>>)
    requires NonEmpty(runs)
  {
    forall a, c :: 0 <= a < c < |runs| ==> !Follows(Last(runs[a]), runs[c][0])
  }

  lemma {:induction false} EndsInConcat(runs: seq<seq<Row>>, k: nat)
    requires NonEmpty(runs) && k < |runs|
    ensures Last(runs[k]) in Concat(runs)
  {
    if k > 0 {
      EndsInConcat(runs[1..], k - 1);
    }
  }

  lemma {:induction false} RunsSeparated(rows: seq<Row>)
    requires StrictOrder(rows)
    ensures Separated(Runs(rows))
  {
    if rows != [] {
      hide StrictOrder, Follows, Runs, Separated, MaximalRuns;
      var front, row := Front(rows), Last(rows);
      assert rows == front + [row];
      FrontStrict(rows);
      RunsSeparated(front);
      RunsAreMaximal(front);
      NoneFollowed(rows, Runs(front));
      RunsOfSnoc(front, row);
      PlaceSeparated(Runs(front), row);
    } else {
      assert Runs(rows) == [];
    }
  }

  lemma NoneFollowed(rows: seq<Row>, runs: seq<seq<Row>>)
    requires rows != [] && StrictOrder(rows) && NonEmpty(runs) && MaximalRuns(runs, Front(rows))
    ensures forall a :: 0 <= a < |runs| - 1 ==> !Follows(Last(runs[a]), Last(rows))
  {
    hide StrictOrder, Follows;
    forall a | 0 <= a < |runs| - 1 ensures !Follows(Last(runs[a]), Last(rows)) {
      EarlierRun(Front(rows), runs, a);
      var x :| 0 <= x < |Front(rows)| - 1 && Front(rows)[x] == Last(runs[a]);
      NoGap(rows, x);
    }
  }

  lemma PlaceSeparated(runs: seq<seq<Row>>, row: Row)
    requires NonEmpty(runs) && Separated(runs)
    requires forall a :: 0 <= a < |runs| - 1 ==> !Follows(Last(runs[a]), row)
    ensures Separated(Place(runs, row))
  {
    hide Follows;
    var next := Place(runs, row);
    forall a, c | 0 <= a < c < |next| ensures !Follows(Last(next[a]), next[c][0]) {
      assert Last(next[a]) == Last(runs[a]);
      assert next[c][0] == if c < |runs| then runs[c][0] else row;
    }
  }

  lemma FrontStrict(rows: seq<Row>)
    requires StrictOrder(rows) && rows != []
    ensures StrictOrder(Front(rows))
  {
  }

  /** A row is not continued by one that is further away than the next. */
  lemma NoGap(rows: seq<Row>, x: nat)
    requires StrictOrder(rows) && x < |rows| - 2
    ensures !Follows(Front(rows)[x], Last(rows))
  {
    assert rows[x] == Front(rows)[x];
    var y := rows[|rows| - 2];
    if rows[x].session == Last(rows).session {
      assert y.session == rows[x].session && rows[x].index < y.index < Last(rows).index;
    }
  }

  lemma EarlierRun(rows: seq<Row>, runs: seq<seq<Row>>, a: nat)
    requires NonEmpty(runs) && Concat(runs) == rows && a < |runs| - 1
    ensures exists x :: 0 <= x < |rows| - 1 && rows[x] == Last(runs[a])
  {
    hide Concat;
    var front, last := Front(runs), Last(runs);
    assert Concat(runs) == Concat(front) + last by {
      assert runs == front + [last];
      ConcatInTwo(front, [last]);
      ConcatOne(last);
    }
    EndsInConcat(front, a);
    var x :| 0 <= x < |Concat(front)| && Concat(front)[x] == Last(front[a]);
    assert rows[x] == Last(runs[a]);
  }

  lemma {:induction false} RejectedSeparated(codec: Codec, runs: seq<seq<Row>>)
    requires NonEmpty(runs) && Separated(runs) && forall k :: 0 <= k < |runs| ==> IsRun(runs[k])
    ensures var left := Rejected(codec, runs);
            && NonEmpty(left) && Separated(left)
            && (forall k :: 0 <= k < |left| ==> left[k] in runs && IsRun(left[k]) && !Accepted(codec, left[k]))
  {
    if runs != [] {
      hide Accepted;
      RejectedSeparated(codec, runs[1..]);
      var rest := Rejected(codec, runs[1..]);
      assert forall k :: 0 <= k < |rest| ==> exists c :: 0 <= c < |runs[1..]| && runs[1..][c] == rest[k];
      forall k | 0 <= k < |rest| ensures !Follows(Last(runs[0]), rest[k][0]) {
        var c :| 0 <= c < |runs[1..]| && runs[1..][c] == rest[k];
        assert runs[c + 1] == rest[k];
      }
    }
  }

  lemma {:induction false} PlansNothingIff(codec: Codec, runs: seq<seq<Row>>)
    ensures PlanRuns(codec, runs) == [] <==> forall run :: run in runs ==> !Accepted(codec, run)
  {
    if runs != [] {
      hide Accepted;
      PlansNothingIff(codec, runs[1..]);
      assert runs == [runs[0]] + runs[1..];
      assert runs[0] in runs;
    }
  }

  /** The rows the first pass selects and does not merge, in order. */
  function LeftOver(codec: Codec, rows: seq<Row>, cutoff: int, active: set<string>): seq<Row> {
    Concat(Rejected(codec, Runs(Select(rows, cutoff, active))))
  }

  /** A second pass with the same cutoff and the same protected sessions plans nothing exactly when
      no run of the rows left over by the first pass merges. */
  lemma SecondPassPlansNothingIff(codec: Codec, rows: seq<Row>, cutoff: int, active: set<string>)
    requires Distinct(rows)
    ensures var plan := PlanFor(codec, rows, cutoff, active);
            && Plannable(plan)
            && (PlanFor(codec, Apply(rows, plan), cutoff, active) == [] <==>
                forall run :: run in Runs(LeftOver(codec, rows, cutoff, active)) ==> !Accepted(codec, run))
  {
    hide Distinct, Accepted;
    var runs, plan := Runs(Select(rows, cutoff, active)), PlanFor(codec, rows, cutoff, active);
    PlanFacts(codec, rows, cutoff, active);
    ApplyIsFates(rows, plan);
    SelectAfter(rows, plan, cutoff, active);
    RejectedRemain(codec, runs);
    var left := Runs(LeftOver(codec, rows, cutoff, active));
    PlanIsPlanRuns(codec, left);
    PlansNothingIff(codec, left);
  }

  /** With strictly increasing message indexes the runs left over are the rejected ones, so a second
      pass plans nothing. */
  lemma SecondPassPlansNothing(codec: Codec, rows: seq<Row>, cutoff: int, active: set<string>)
    requires Distinct(rows) && StrictOrder(Select(rows, cutoff, active))
    ensures var plan := PlanFor(codec, rows, cutoff, active);
            Plannable(plan) && PlanFor(codec, Apply(rows, plan), cutoff, active) == []
  {
    hide Distinct, StrictOrder, Separated, Accepted;
    var selected := Select(rows, cutoff, active);
    RunsAreMaximal(selected);
    RunsSeparated(selected);
    RejectedSeparated(codec, Runs(selected));
    var left := Rejected(codec, Runs(selected));
    SeparatedIsMaximal(left);
    MaximalRunsUnique(left, Concat(left));
    SecondPassPlansNothingIff(codec, rows, cutoff, active);
  }

  lemma SeparatedIsMaximal(runs: seq<seq<Row>>)
    requires NonEmpty(runs) && Separated(runs) && forall k :: 0 <= k < |runs| ==> IsRun(runs[k])
    ensures MaximalRuns(runs, Concat(runs))
  {
  }

  // ----- without strictly increasing indexes -----

  /** A stored chunk (src/core/storage/__tests__/history-compactor.test.ts:47-57). */
  function ChunkText(): string {
    "{\"type\":\"agent_message_chunk\",\"text\":\"a\"}"
  }

  /** The codec reads the chunk and compacts two of them to one notification. */
  predicate MergesTwoChunks(codec: Codec) {
    && codec.parse(ChunkText(), "s").Some?
    && var n := codec.parse(ChunkText(), "s").value;
       codec.compact([n, n]).history != [] && codec.compact([n, n]).compactedCount == 1
  }

  function ReadChunk(payload: string, session: string): Option<Notification> {
    if payload == ChunkText() then Some(payload) else None
  }

  function MergeChunks(notifications: seq<Notification>): Compacted {
    if |notifications| == 2 && notifications[0] == notifications[1] == ChunkText()
    then Compacted(["{\"type\":\"agent_message\",\"text\":\"aa\"}"], 2, 1, 2)
    else Compacted(notifications, |notifications|, |notifications|, 0)
  }

  /** There is such a codec: one that reads no other text and merges no other list. */
  lemma TwoChunksMerge()
    ensures MergesTwoChunks(Codec(ReadChunk, MergeChunks, (text: string) => None, (notifications: seq<Notification>) => "[]"))
  {
    hide ChunkText;
  }

  function Chunk(id: string, index: int): Row {
    Row(id, "s", index, CHUNK, ChunkText(), 0)
  }

  /** Two chunks at index 5 and two at index 6. */
  const DUPLICATES: seq<Row> := [Chunk("a", 5), Chunk("b", 5), Chunk("c", 6), Chunk("d", 6)]

  lemma FirstPassLeavesTwo(codec: Codec)
    requires MergesTwoChunks(codec)
    ensures Distinct(DUPLICATES)
    ensures var plan := PlanFor(codec, DUPLICATES, 1, {});
            Plannable(plan) && Select(Apply(DUPLICATES, plan), 1, {}) == [Chunk("a", 5), Chunk("d", 6)]
  {
    var a, b, c, d := Chunk("a", 5), Chunk("b", 5), Chunk("c", 6), Chunk("d", 6);
    assert Distinct(DUPLICATES) by {
      assert a.id[0] == 'a' && b.id[0] == 'b' && c.id[0] == 'c' && d.id[0] == 'd';
    }
    assert forall k :: 0 <= k < 4 ==> Candidate(DUPLICATES[k], 1, {});
    hide Distinct, MergesTwoChunks, ChunkText, Accepted, Runs, Apply, PlanFor, Fates, HasId;
    var plan := PlanFor(codec, DUPLICATES, 1, {});
    SelectsAll(DUPLICATES);
    PlanFacts(codec, DUPLICATES, 1, {});
    ApplyIsFates(DUPLICATES, plan);
    SelectAfter(DUPLICATES, plan, 1, {});
    DuplicateRuns(a, b, c, d);
    MergesPair(codec, b, c);
    RejectedRemain(codec, [[a], [b, c], [d]]);
    RejectsOuter(codec, a, b, c, d);
  }

  lemma DuplicateRuns(a: Row, b: Row, c: Row, d: Row)
    requires Follows(b, c) && !Follows(a, b) && !Follows(c, d)
    ensures Runs([a, b, c, d]) == [[a], [b, c], [d]]
  {
    var runs := [[a], [b, c], [d]];
    assert Concat(runs) == [a, b, c, d] by {
      assert runs[1..] == [[b, c], [d]] && [[b, c], [d]][1..] == [[d]];
      ConcatOne([d]);
    }
    MaximalRunsUnique(runs, [a, b, c, d]);
  }

  lemma RejectsOuter(codec: Codec, a: Row, b: Row, c: Row, d: Row)
    requires Accepted(codec, [b, c])
    ensures Concat(Rejected(codec, [[a], [b, c], [d]])) == [a, d]
  {
    hide MergedPayload;
    var runs := [[a], [b, c], [d]];
    assert runs[1..] == [[b, c], [d]] && [[b, c], [d]][1..] == [[d]];
    assert Rejected(codec, [[d]]) == [[d]];
    assert Rejected(codec, [[b, c], [d]]) == [[d]];
    assert Rejected(codec, runs) == [[a], [d]];
    ConcatOne([d]);
    assert [[a], [d]][1..] == [[d]];
  }

  /** The first pass merges "b" and "c"; that leaves "a" next to "d", which a second pass merges. */
  lemma DuplicatesNeedTwoPasses(codec: Codec)
    requires MergesTwoChunks(codec)
    ensures Distinct(DUPLICATES)
    ensures var plan := PlanFor(codec, DUPLICATES, 1, {});
            Plannable(plan) && PlanFor(codec, Apply(DUPLICATES, plan), 1, {}) != []
  {
    hide Distinct, MergesTwoChunks, ChunkText, DUPLICATES, Apply, Select;
    var a, d := Chunk("a", 5), Chunk("d", 6);
    FirstPassLeavesTwo(codec);
    ConcatOne([a, d]);
    MaximalRunsUnique([[a, d]], [a, d]);
    MergesPair(codec, a, d);
    PlanIsPlanRuns(codec, [[a, d]]);
  }

  lemma {:induction false} SelectsAll(rows: seq<Row>)
    requires forall k :: 0 <= k < |rows| ==> Candidate(rows[k], 1, {})
    ensures Select(rows, 1, {}) == rows
  {
    if rows != [] {
      SelectsAll(rows[1..]);
    }
  }

  lemma MergesPair(codec: Codec, x: Row, y: Row)
    requires MergesTwoChunks(codec)
    requires x.session == y.session == "s" && x.payload == y.payload == ChunkText()
    ensures Accepted(codec, [x, y])
  {
    hide ChunkText;
    var n := codec.parse(ChunkText(), "s").value;
    assert Front([x, y]) == [x] && Front([x]) == [];
    assert [] + [n] == [n] && [n] + [n] == [n, n];
    assert ParseAll(codec, [x]) == Some([n]);
    assert ParseAll(codec, [x, y]) == Some([n, n]);
  }
}
