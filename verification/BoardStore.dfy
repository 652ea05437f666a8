/** The stored boards (scripts/kanban/configure-flight-checklist.ts): applying a planned change with
    a backup, and rolling back from that backup. */
module BoardStore {
  import opened Options
  import opened BoardSteps

  /** A row of `kanban_boards`; `columns` is JSON text. */
  datatype Board = Board(id: string, workspace: string, name: string, columns: string, updatedAt: int)

  /** One board of a backup file. */
  datatype Entry = Entry(id: string, name: string, columns: string, updatedAt: int, newColumns: string)

  /** JSON text and the columns it stands for; `None` when it is not a JSON array. */
  datatype Codec = Codec(parse: string -> Option<seq<Column>>, stringify: seq<Column> -> string)

  datatype Failure =
    | InvalidId(prefix: string)
    | NoMatch(prefix: string)
    | Ambiguous(prefix: string, matches: seq<string>)
    | RoutaRefused
    | ResolverFailed(board: string)
    | CannotMount(board: string, error: Error)
    | NotColumns(board: string)
    | NotLoaded
    | ChangedWhilePlanning(board: string)
    | BackupNotWritten
    | NoEntry(board: string)
    | ColumnsDiffer(boards: seq<string>)
    | UnreadableReport

  // ----- which boards are meant -----

  function RoutaBoard(): string {
    "361d06fd-6478-4995-9b6e-ab0b0b271471"
  }

  function Lower(c: char): char {
    if 'A' <= c <= 'Z' then c - 'A' + 'a' else c
  }

  /** `id LIKE prefix || '%'`, which ignores the case of ASCII letters. */
  predicate Like(id: string, prefix: string) {
    |prefix| <= |id| && forall k :: 0 <= k < |prefix| ==> Lower(id[k]) == Lower(prefix[k])
  }

  predicate IsIdChar(c: char) {
    '0' <= c <= '9' || 'a' <= c <= 'z' || 'A' <= c <= 'Z' || c == '-'
  }

  predicate ValidPrefix(prefix: string) {
    prefix != "" && forall k :: 0 <= k < |prefix| ==> IsIdChar(prefix[k])
  }

  function Matching(ids: seq<string>, prefix: string): seq<string> {
    if ids == [] then [] else (if Like(ids[0], prefix) then [ids[0]] else []) + Matching(ids[1..], prefix)
  }

  /** Each prefix must name exactly one board; a board named twice is taken once. */
  function ResolveFrom(ids: seq<string>, requested: seq<string>, found: seq<string>): Result<seq<string>, Failure>
    decreases |requested|
  {
    if requested == [] then Ok(found)
    else
      var prefix := requested[0];
      var matches := Matching(ids, prefix);
      if !ValidPrefix(prefix) then Err(InvalidId(prefix))
      else if matches == [] then Err(NoMatch(prefix))
      else if |matches| > 1 then Err(Ambiguous(prefix, matches))
      else ResolveFrom(ids, requested[1..], if matches[0] in found then found else found + matches)
  }

  function Resolve(ids: seq<string>, requested: seq<string>, allowRouta: bool): Result<seq<string>, Failure> {
    var found := ResolveFrom(ids, requested, []);
    if found.Ok? && RoutaBoard() in found.value && !allowRouta then Err(RoutaRefused) else found
  }

  method ResolveBoards(ids: seq<string>, requested: seq<string>, allowRouta: bool) returns (r: Result<seq<string>, Failure>)
    ensures r == Resolve(ids, requested, allowRouta)
  {
    var found: seq<string> := [];
    for i := 0 to |requested|
      invariant ResolveFrom(ids, requested[i..], found) == ResolveFrom(ids, requested, [])
    {
      assert requested[i..][1..] == requested[i + 1..];
      var prefix := requested[i];
      if !ValidPrefix(prefix) {
        return Err(InvalidId(prefix));
      }
      var matches := Matching(ids, prefix);
      if matches == [] {
        return Err(NoMatch(prefix));
      }
      if |matches| > 1 {
        return Err(Ambiguous(prefix, matches));
      }
      if matches[0] !in found {
        assert matches == [matches[0]];
        found := found + [matches[0]];
      }
    }
    if RoutaBoard() in found && !allowRouta {
      return Err(RoutaRefused);
    }
    r := Ok(found);
  }

  predicate AllDifferent(ids: seq<string>) {
    forall i, j :: 0 <= i < j < |ids| ==> ids[i] != ids[j]
  }

  lemma {:induction false} MatchingSpec(ids: seq<string>, prefix: string)
    ensures forall id :: id in Matching(ids, prefix) <==> id in ids && Like(id, prefix)
  {
    if ids != [] {
      MatchingSpec(ids[1..], prefix);
    }
  }

  lemma {:induction false} ResolveFromSpec(ids: seq<string>, requested: seq<string>, found: seq<string>)
    requires AllDifferent(found) && (forall id :: id in found ==> id in ids)
    requires ResolveFrom(ids, requested, found).Ok?
    ensures var r := ResolveFrom(ids, requested, found).value;
            && AllDifferent(r)
            && (forall id :: id in r ==> id in ids && (id in found || exists k :: 0 <= k < |requested| && Like(id, requested[k])))
            && (forall id :: id in found ==> id in r)
            && (forall k, id :: 0 <= k < |requested| && id in ids && Like(id, requested[k]) ==> id in r)
    decreases |requested|
  {
    if requested != [] {
      var prefix, rest := requested[0], requested[1..];
      var matches := Matching(ids, prefix);
      MatchingSpec(ids, prefix);
      assert matches == [matches[0]] && matches[0] in matches;
      var next := if matches[0] in found then found else found + matches;
      ResolveFromSpec(ids, rest, next);
      forall k, id | 0 <= k < |requested| && id in ids && Like(id, requested[k])
        ensures id in ResolveFrom(ids, requested, found).value
      {
        assert if k == 0 then id in matches else requested[k] == rest[k - 1];
      }
      forall id | id in ResolveFrom(ids, requested, found).value
        ensures id in ids && (id in found || exists k :: 0 <= k < |requested| && Like(id, requested[k]))
      {
        if id in next {
          assert id in found || Like(id, requested[0]);
        } else {
          var k :| 0 <= k < |rest| && Like(id, rest[k]);
          assert Like(id, requested[k + 1]);
        }
      }
    }
  }

  /** One of the prefixes matches the id. */
  predicate Named(requested: seq<string>, id: string) {
    exists k :: 0 <= k < |requested| && Like(id, requested[k])
  }

  /** The boards found are different, and are those whose id one of the prefixes matches. */
  lemma ResolveSpec(ids: seq<string>, requested: seq<string>, allowRouta: bool)
    requires Resolve(ids, requested, allowRouta).Ok?
    ensures var r := Resolve(ids, requested, allowRouta).value;
            && AllDifferent(r)
            && (forall id :: id in r <==> id in ids && Named(requested, id))
            && (RoutaBoard() in r ==> allowRouta)
  {
    hide Like, RoutaBoard;
    ResolveFromSpec(ids, requested, []);
  }

  /** The prefix matches exactly one of the ids. */
  ghost predicate NamesOne(ids: seq<string>, prefix: string) {
    exists k :: 0 <= k < |ids| && Like(ids[k], prefix) && forall j :: 0 <= j < |ids| && Like(ids[j], prefix) ==> j == k
  }

  lemma {:induction false} MatchingNone(ids: seq<string>, prefix: string)
    ensures Matching(ids, prefix) == [] <==> forall k :: 0 <= k < |ids| ==> !Like(ids[k], prefix)
  {
    if ids != [] {
      hide Like;
      MatchingNone(ids[1..], prefix);
      assert ids == [ids[0]] + ids[1..];
    }
  }

  lemma {:induction false} MatchingOne(ids: seq<string>, prefix: string)
    ensures |Matching(ids, prefix)| == 1 <==> NamesOne(ids, prefix)
  {
    if ids != [] {
      hide Like;
      var rest := ids[1..];
      assert forall k :: 0 <= k < |rest| ==> rest[k] == ids[k + 1];
      assert forall k :: 0 < k < |ids| ==> ids[k] == rest[k - 1];
      MatchingNone(rest, prefix);
      MatchingOne(rest, prefix);
      if Like(ids[0], prefix) {
        assert NamesOne(ids, prefix) <==> forall k :: 0 <= k < |rest| ==> !Like(rest[k], prefix);
      } else {
        NamesOneStep(ids, prefix);
      }
    }
  }

  lemma NamesOneStep(ids: seq<string>, prefix: string)
    requires ids != [] && !Like(ids[0], prefix)
    ensures NamesOne(ids, prefix) <==> NamesOne(ids[1..], prefix)
  {
    hide Like;
    var rest := ids[1..];
    if NamesOne(rest, prefix) {
      var k :| 0 <= k < |rest| && Like(rest[k], prefix) && forall j :: 0 <= j < |rest| && Like(rest[j], prefix) ==> j == k;
      assert Like(ids[k + 1], prefix);
      forall j | 0 <= j < |ids| && Like(ids[j], prefix) ensures j == k + 1 {
        assert rest[j - 1] == ids[j];
      }
    }
    if NamesOne(ids, prefix) {
      var k :| 0 <= k < |ids| && Like(ids[k], prefix) && forall j :: 0 <= j < |ids| && Like(ids[j], prefix) ==> j == k;
      assert Like(rest[k - 1], prefix);
      forall j | 0 <= j < |rest| && Like(rest[j], prefix) ensures j == k - 1 {
        assert ids[j + 1] == rest[j];
      }
    }
  }

  /** Every prefix is well formed and matches exactly one id, and the board refused by default is
      asked for only when it is allowed. */
  ghost predicate Resolvable(ids: seq<string>, requested: seq<string>, allowRouta: bool) {
    && (forall k :: 0 <= k < |requested| ==> ValidPrefix(requested[k]) && NamesOne(ids, requested[k]))
    && (RoutaBoard() in ids && Named(requested, RoutaBoard()) ==> allowRouta)
  }

  lemma {:induction false} ResolveFromOkIff(ids: seq<string>, requested: seq<string>, found: seq<string>)
    ensures ResolveFrom(ids, requested, found).Ok? <==>
            forall k :: 0 <= k < |requested| ==> ValidPrefix(requested[k]) && NamesOne(ids, requested[k])
    decreases |requested|
  {
    if requested != [] {
      hide ValidPrefix, NamesOne, Matching;
      var prefix, rest := requested[0], requested[1..];
      var matches := Matching(ids, prefix);
      MatchingOne(ids, prefix);
      assert requested == [prefix] + rest;
      if |matches| == 1 {
        ResolveFromOkIff(ids, rest, if matches[0] in found then found else found + matches);
      }
    }
  }

  /** When the boards asked for are found. */
  lemma ResolvesIff(ids: seq<string>, requested: seq<string>, allowRouta: bool)
    ensures Resolve(ids, requested, allowRouta).Ok? <==> Resolvable(ids, requested, allowRouta)
  {
    hide Like, RoutaBoard, ValidPrefix, NamesOne;
    ResolveFromOkIff(ids, requested, []);
    if ResolveFrom(ids, requested, []).Ok? {
      ResolveSpec(ids, requested, true);
    }
  }

  /** What a refusal to resolve says is so. */
  ghost predicate ResolveTells(ids: seq<string>, requested: seq<string>, allowRouta: bool, failure: Failure) {
    match failure
    case InvalidId(prefix) => prefix in requested && !ValidPrefix(prefix)
    case NoMatch(prefix) => prefix in requested && ValidPrefix(prefix) && forall id :: id in ids ==> !Like(id, prefix)
    case Ambiguous(prefix, matches) =>
      prefix in requested && ValidPrefix(prefix) && |matches| > 1 && forall id :: id in matches <==> id in ids && Like(id, prefix)
    case RoutaRefused => !allowRouta && RoutaBoard() in ids && Named(requested, RoutaBoard())
    case _ => false
  }

  lemma {:induction false} ResolveFromTells(ids: seq<string>, requested: seq<string>, found: seq<string>)
    requires ResolveFrom(ids, requested, found).Err?
    ensures !ResolveFrom(ids, requested, found).error.RoutaRefused?
    ensures ResolveTells(ids, requested, true, ResolveFrom(ids, requested, found).error)
    decreases |requested|
  {
    hide Like, ValidPrefix, RoutaBoard, Named;
    var prefix, matches := requested[0], Matching(ids, requested[0]);
    MatchingSpec(ids, prefix);
    assert matches != [] ==> matches[0] in matches;
    if ValidPrefix(prefix) && |matches| == 1 {
      ResolveFromTells(ids, requested[1..], if matches[0] in found then found else found + matches);
    }
  }

  /** A request that cannot be resolved is refused for a reason that holds. */
  lemma ResolveErrorTells(ids: seq<string>, requested: seq<string>, allowRouta: bool)
    requires Resolve(ids, requested, allowRouta).Err?
    ensures ResolveTells(ids, requested, allowRouta, Resolve(ids, requested, allowRouta).error)
  {
    hide Like, RoutaBoard, ValidPrefix, Named;
    if ResolveFrom(ids, requested, []).Err? {
      ResolveFromTells(ids, requested, []);
    } else {
      ResolveSpec(ids, requested, true);
    }
  }

  // ----- the table -----

  function Ids(boards: seq<Board>): (ids: seq<string>)
    ensures |ids| == |boards| && forall k :: 0 <= k < |ids| ==> ids[k] == boards[k].id
  {
    seq(|boards|, k requires 0 <= k < |boards| => boards[k].id)
  }

  /** The row with this id. */
  function RowOf(boards: seq<Board>, id: string): (row: Option<Board>)
    ensures row.Some? ==> row.value.id == id && row.value in boards
    ensures row.None? ==> id !in Ids(boards)
  {
    if boards == [] then None
    else if boards[0].id == id then Some(boards[0])
    else
      assert forall k :: 0 < k < |boards| ==> Ids(boards)[k] == Ids(boards[1..])[k - 1];
      RowOf(boards[1..], id)
  }

  datatype Write = Write(id: string, columns: string, updatedAt: int)

  /** `UPDATE kanban_boards SET columns = ?, updated_at = ? WHERE id = ?`. */
  function WriteRow(board: Board, write: Write): Board {
    if board.id == write.id then board.(columns := write.columns, updatedAt := write.updatedAt) else board
  }

  function WriteOne(boards: seq<Board>, write: Write): (after: seq<Board>)
    ensures |after| == |boards| && forall k :: 0 <= k < |boards| ==> after[k] == WriteRow(boards[k], write)
  {
    seq(|boards|, k requires 0 <= k < |boards| => WriteRow(boards[k], write))
  }

  function WriteAll(boards: seq<Board>, writes: seq<Write>): (after: seq<Board>)
    ensures |after| == |boards|
    decreases |writes|
  {
    if writes == [] then boards else WriteAll(WriteOne(boards, writes[0]), writes[1..])
  }

  function WritesToRow(board: Board, writes: seq<Write>): Board
    decreases |writes|
  {
    if writes == [] then board else WritesToRow(WriteRow(board, writes[0]), writes[1..])
  }

  lemma {:induction false} WriteAllAt(boards: seq<Board>, writes: seq<Write>, k: nat)
    requires k < |boards|
    ensures WriteAll(boards, writes)[k] == WritesToRow(boards[k], writes)
    decreases |writes|
  {
    if writes != [] {
      WriteAllAt(WriteOne(boards, writes[0]), writes[1..], k);
    }
  }

  predicate HasWrite(writes: seq<Write>, id: string) {
    exists k :: 0 <= k < |writes| && writes[k].id == id
  }

  lemma {:induction false} WritesAgree(board: Board, writes: seq<Write>, columns: string, updatedAt: int)
    requires forall k :: 0 <= k < |writes| && writes[k].id == board.id ==>
               writes[k].columns == columns && writes[k].updatedAt == updatedAt
    ensures WritesToRow(board, writes) ==
            if HasWrite(writes, board.id) then board.(columns := columns, updatedAt := updatedAt) else board
    decreases |writes|
  {
    if writes != [] {
      var rest := writes[1..];
      var next := WriteRow(board, writes[0]);
      assert forall k :: 0 <= k < |rest| ==> rest[k] == writes[k + 1];
      WritesAgree(next, rest, columns, updatedAt);
      HasWriteStep(writes, board.id);
    }
  }

  lemma HasWriteStep(writes: seq<Write>, id: string)
    requires writes != []
    ensures HasWrite(writes, id) <==> writes[0].id == id || HasWrite(writes[1..], id)
  {
    if HasWrite(writes[1..], id) {
      var k :| 0 <= k < |writes[1..]| && writes[1..][k].id == id;
      assert writes[k + 1].id == id;
    }
    if HasWrite(writes, id) && writes[0].id != id {
      var k :| 0 <= k < |writes| && writes[k].id == id;
      assert writes[1..][k - 1].id == id;
    }
  }

  // ----- planning -----

  /** What the resolver says about a board's workspace. */
  datatype Standard = ResolverFails | NotOneRepository | DoneStepsAre(ids: seq<Specialist>)

  datatype Planned = Planned(board: Board, columns: seq<Column>, next: seq<Column>, changed: bool)

  function PlanOne(codec: Codec, standard: string -> Standard, board: Board): Result<Planned, Failure> {
    var s := standard(board.workspace);
    if s.ResolverFails? then Err(ResolverFailed(board.id))
    else if s.DoneStepsAre? && CheckDoneSteps(s.ids).Some? then Err(CannotMount(board.id, CheckDoneSteps(s.ids).value))
    else
      var columns := codec.parse(board.columns);
      if columns.None? then Err(NotColumns(board.id))
      else
        var next := Mount(columns.value, if s.DoneStepsAre? then Some(s.ids) else None);
        if next.Err? then Err(CannotMount(board.id, next.error))
        else Ok(Planned(board, columns.value, next.value, columns.value != next.value))
  }

  function PlanRows(codec: Codec, standard: string -> Standard, boards: seq<Board>, ids: seq<string>): Result<seq<Planned>, Failure>
    requires forall id :: id in ids ==> RowOf(boards, id).Some?
  {
    if ids == [] then Ok([])
    else
      var first := PlanOne(codec, standard, RowOf(boards, ids[0]).value);
      if first.Err? then Err(first.error)
      else
        var rest := PlanRows(codec, standard, boards, ids[1..]);
        if rest.Err? then rest else Ok([first.value] + rest.value)
  }

  lemma ResolvedHaveRows(boards: seq<Board>, requested: seq<string>, allowRouta: bool)
    requires Resolve(Ids(boards), requested, allowRouta).Ok?
    ensures forall id :: id in Resolve(Ids(boards), requested, allowRouta).value ==> RowOf(boards, id).Some?
  {
    ResolveSpec(Ids(boards), requested, allowRouta);
  }

  function Plan(codec: Codec, standard: string -> Standard, boards: seq<Board>, requested: seq<string>, allowRouta: bool)
    : Result<seq<Planned>, Failure>
  {
    var ids := Resolve(Ids(boards), requested, allowRouta);
    if ids.Err? then Err(ids.error)
    else
      ResolvedHaveRows(boards, requested, allowRouta);
      PlanRows(codec, standard, boards, ids.value)
  }

  // ----- applying -----

  function ToUpdate(planned: seq<Planned>): seq<Planned> {
    if planned == [] then [] else (if planned[0].changed then [planned[0]] else []) + ToUpdate(planned[1..])
  }

  function PlannedIds(planned: seq<Planned>): (ids: seq<string>)
    ensures |ids| == |planned| && forall k :: 0 <= k < |ids| ==> ids[k] == planned[k].board.id
  {
    seq(|planned|, k requires 0 <= k < |planned| => planned[k].board.id)
  }

  /** The stored row is no longer the one the plan was made from. */
  predicate Stale(boards: seq<Board>, resolved: seq<string>, p: Planned) {
    var row := RowOf(boards, p.board.id);
    || p.board.id !in resolved
    || row.None?
    || row.value.columns != p.board.columns
    || row.value.updatedAt != p.board.updatedAt
  }

  function FirstStale(boards: seq<Board>, resolved: seq<string>, planned: seq<Planned>): Option<string> {
    if planned == [] then None
    else if Stale(boards, resolved, planned[0]) then Some(planned[0].board.id)
    else FirstStale(boards, resolved, planned[1..])
  }

  function Backup(codec: Codec, planned: seq<Planned>): (backup: seq<Entry>)
    ensures |backup| == |planned|
    ensures forall k :: 0 <= k < |planned| ==> backup[k] == EntryOf(codec, planned[k])
  {
    seq(|planned|, k requires 0 <= k < |planned| => EntryOf(codec, planned[k]))
  }

  function EntryOf(codec: Codec, p: Planned): Entry {
    Entry(p.board.id, p.board.name, p.board.columns, p.board.updatedAt, codec.stringify(p.next))
  }

  function Forward(backup: seq<Entry>, now: int): (writes: seq<Write>)
    ensures |writes| == |backup|
    ensures forall k :: 0 <= k < |backup| ==> writes[k] == Write(backup[k].id, backup[k].newColumns, now)
  {
    seq(|backup|, k requires 0 <= k < |backup| => Write(backup[k].id, backup[k].newColumns, now))
  }

  function Back(entries: seq<Entry>): (writes: seq<Write>)
    ensures |writes| == |entries|
    ensures forall k :: 0 <= k < |entries| ==> writes[k] == Write(entries[k].id, entries[k].columns, entries[k].updatedAt)
  {
    seq(|entries|, k requires 0 <= k < |entries| => Write(entries[k].id, entries[k].columns, entries[k].updatedAt))
  }

  /** The backup an apply writes, or why it fails before it writes anything. */
  function ApplyOutcome(codec: Codec, boards: seq<Board>, planned: seq<Planned>, loaded: bool, backupWritable: bool)
    : Result<seq<Entry>, Failure>
  {
    var update := ToUpdate(planned);
    if !loaded then Err(NotLoaded)
    else if update == [] then Ok([])
    else
      var resolved := Resolve(Ids(boards), PlannedIds(update), true);
      if resolved.Err? then Err(resolved.error)
      else
        var stale := FirstStale(boards, resolved.value, update);
        if stale.Some? then Err(ChangedWhilePlanning(stale.value))
        else if !backupWritable then Err(BackupNotWritten)
        else Ok(Backup(codec, update))
  }

  // ----- rolling back -----

  function FindEntry(backup: seq<Entry>, id: string): (entry: Option<Entry>)
    ensures entry.Some? ==> entry.value.id == id && entry.value in backup
    ensures entry.None? ==> forall k :: 0 <= k < |backup| ==> backup[k].id != id
  {
    if backup == [] then None
    else if backup[0].id == id then Some(backup[0])
    else FindEntry(backup[1..], id)
  }

  function EntriesFor(backup: seq<Entry>, ids: seq<string>): Result<seq<Entry>, Failure> {
    if ids == [] then Ok([])
    else
      var entry := FindEntry(backup, ids[0]);
      if entry.None? then Err(NoEntry(ids[0]))
      else
        var rest := EntriesFor(backup, ids[1..]);
        if rest.Err? then rest else Ok([entry.value] + rest.value)
  }

  /** The boards whose columns are no longer those the apply wrote. */
  function Mismatches(codec: Codec, boards: seq<Board>, entries: seq<Entry>): Result<seq<string>, Failure> {
    if entries == [] then Ok([])
    else
      var row := RowOf(boards, entries[0].id);
      var current, expected := if row.Some? then codec.parse(row.value.columns) else None, codec.parse(entries[0].newColumns);
      if current.None? || expected.None? then Err(NotColumns(entries[0].id))
      else
        var rest := Mismatches(codec, boards, entries[1..]);
        if rest.Err? then rest
        else Ok((if current.value != expected.value then [entries[0].id] else []) + rest.value)
  }

  /** The entries a rollback writes, or why it fails before it writes anything. */
  function RollbackOutcome(codec: Codec, boards: seq<Board>, requested: seq<string>, allowRouta: bool, force: bool, backup: seq<Entry>)
    : Result<seq<Entry>, Failure>
  {
    var ids := Resolve(Ids(boards), requested, allowRouta);
    if ids.Err? then Err(ids.error)
    else
      var entries := EntriesFor(backup, ids.value);
      if entries.Err? then entries
      else
        var mismatches := Mismatches(codec, boards, entries.value);
        if mismatches.Err? then Err(mismatches.error)
        else if mismatches.value != [] && !force then Err(ColumnsDiffer(mismatches.value))
        else entries
  }

  function Prefixed(found: seq<string>, more: Result<seq<string>, Failure>): Result<seq<string>, Failure> {
    if more.Err? then more else Ok(found + more.value)
  }

  lemma MismatchStep(codec: Codec, boards: seq<Board>, entries: seq<Entry>, found: seq<string>)
    requires entries != [] && RowOf(boards, entries[0].id).Some?
    requires var current := codec.parse(RowOf(boards, entries[0].id).value.columns);
             current.Some? && codec.parse(entries[0].newColumns).Some?
    ensures var current, expected := codec.parse(RowOf(boards, entries[0].id).value.columns), codec.parse(entries[0].newColumns);
            Prefixed(found, Mismatches(codec, boards, entries)) ==
            Prefixed(if current != expected then found + [entries[0].id] else found, Mismatches(codec, boards, entries[1..]))
  {
    var rest := Mismatches(codec, boards, entries[1..]);
    if rest.Ok? {
      assert found + ([entries[0].id] + rest.value) == found + [entries[0].id] + rest.value;
      assert [] + rest.value == rest.value;
    }
  }

  class Store {
    var boards: seq<Board>

    constructor (boards: seq<Board>)
      ensures this.boards == boards
    {
      this.boards := boards;
    }

    method Update(writes: seq<Write>)
      modifies this
      ensures boards == WriteAll(old(boards), writes)
    {
      for i := 0 to |writes|
        invariant WriteAll(boards, writes[i..]) == WriteAll(old(boards), writes)
      {
        assert writes[i..][1..] == writes[i + 1..];
        boards := WriteOne(boards, writes[i]);
      }
    }

    /** The apply part: `planned` was made from the table as it was earlier. */
    method Apply(codec: Codec, planned: seq<Planned>, loaded: bool, backupWritable: bool, now: int)
      returns (backup: Result<seq<Entry>, Failure>)
      modifies this
      ensures backup == ApplyOutcome(codec, old(boards), planned, loaded, backupWritable)
      ensures boards == if backup.Ok? then WriteAll(old(boards), Forward(backup.value, now)) else old(boards)
    {
      if !loaded {
        return Err(NotLoaded);
      }
      var update := ToUpdate(planned);
      if update == [] {
        return Ok([]);
      }
      var resolved := ResolveBoards(Ids(boards), PlannedIds(update), true);
      if resolved.Err? {
        return Err(resolved.error);
      }
      for i := 0 to |update|
        invariant FirstStale(boards, resolved.value, update[i..]) == FirstStale(boards, resolved.value, update)
        invariant boards == old(boards)
      {
        assert update[i..][1..] == update[i + 1..];
        if Stale(boards, resolved.value, update[i]) {
          return Err(ChangedWhilePlanning(update[i].board.id));
        }
      }
      if !backupWritable {
        return Err(BackupNotWritten);
      }
      backup := Ok(Backup(codec, update));
      Update(Forward(backup.value, now));
    }

    method ListMismatches(codec: Codec, entries: seq<Entry>) returns (r: Result<seq<string>, Failure>)
      ensures r == Mismatches(codec, boards, entries)
    {
      var found: seq<string> := [];
      ghost var all := Mismatches(codec, boards, entries);
      assert entries[0..] == entries && (all.Ok? ==> [] + all.value == all.value);
      for i := 0 to |entries|
        invariant Mismatches(codec, boards, entries) == Prefixed(found, Mismatches(codec, boards, entries[i..]))
      {
        var entry := entries[i];
        assert entries[i..][1..] == entries[i + 1..];
        var row := RowOf(boards, entry.id);
        var current := if row.Some? then codec.parse(row.value.columns) else None;
        var expected := codec.parse(entry.newColumns);
        if current.None? || expected.None? {
          return Err(NotColumns(entry.id));
        }
        MismatchStep(codec, boards, entries[i..], found);
        if current.value != expected.value {
          found := found + [entry.id];
        }
      }
      assert entries[|entries|..] == [] && found + [] == found;
      r := Ok(found);
    }

    /** The rollback. The report at the end reads the restored columns, after the write. */
    method Rollback(codec: Codec, requested: seq<string>, allowRouta: bool, force: bool, backup: seq<Entry>)
      returns (r: Result<seq<string>, Failure>)
      modifies this
      ensures var outcome := RollbackOutcome(codec, old(boards), requested, allowRouta, force, backup);
              && boards == (if outcome.Ok? then WriteAll(old(boards), Back(outcome.value)) else old(boards))
              && (outcome.Err? ==> r == Err(outcome.error))
              && (outcome.Ok? ==>
                    r == (if forall k :: 0 <= k < |outcome.value| ==> codec.parse(outcome.value[k].columns).Some?
                          then Resolve(Ids(old(boards)), requested, allowRouta) else Err(UnreadableReport)))
    {
      var ids := ResolveBoards(Ids(boards), requested, allowRouta);
      if ids.Err? {
        return Err(ids.error);
      }
      var entries := EntriesFor(backup, ids.value);
      if entries.Err? {
        return Err(entries.error);
      }
      var mismatches := ListMismatches(codec, entries.value);
      if mismatches.Err? {
        return Err(mismatches.error);
      }
      if mismatches.value != [] && !force {
        return Err(ColumnsDiffer(mismatches.value));
      }
      Update(Back(entries.value));
      if exists k :: 0 <= k < |entries.value| && codec.parse(entries.value[k].columns).None? {
        return Err(UnreadableReport);
      }
      r := ids;
    }
  }
}
