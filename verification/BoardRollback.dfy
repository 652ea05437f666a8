/** What applying and rolling back guarantee for the stored boards: when each succeeds, and that a
    rollback undoes its apply. */
module BoardRollback {
  import opened Options
  import opened BoardSteps
  import opened BoardStore

  // ----- what a plan holds -----

  /** `p` is what planning makes of its board: its parsed columns and the mounted ones. */
  predicate PlannedFrom(codec: Codec, standard: string -> Standard, p: Planned) {
    && codec.parse(p.board.columns) == Some(p.columns)
    && (p.changed <==> p.columns != p.next)
    && var s := standard(p.board.workspace);
       !s.ResolverFails? && Mount(p.columns, if s.DoneStepsAre? then Some(s.ids) else None) == Ok(p.next)
  }

  lemma {:induction false} PlanRowsSpec(
      codec: Codec, standard: string -> Standard, boards: seq<Board>, ids: seq<string>, planned: seq<Planned>)
    requires (forall id :: id in ids ==> RowOf(boards, id).Some?) && PlanRows(codec, standard, boards, ids) == Ok(planned)
    ensures |planned| == |ids|
    ensures forall k :: 0 <= k < |planned| ==>
              k < |ids| && Some(planned[k].board) == RowOf(boards, ids[k])
              && PlanOne(codec, standard, planned[k].board) == Ok(planned[k])
    decreases |ids|
  {
    if ids != [] {
      hide PlanOne, RowOf;
      PlanRowsSpec(codec, standard, boards, ids[1..], planned[1..]);
      PlanOneKeepsBoard(codec, standard, RowOf(boards, ids[0]).value);
    }
  }

  lemma PlanOneKeepsBoard(codec: Codec, standard: string -> Standard, board: Board)
    requires PlanOne(codec, standard, board).Ok?
    ensures PlanOne(codec, standard, board).value.board == board
  {
  }

  lemma {:induction false} PlanRowsAre(codec: Codec, standard: string -> Standard, boards: seq<Board>, ids: seq<string>, planned: seq<Planned>)
    requires (forall id :: id in ids ==> RowOf(boards, id).Some?) && |planned| == |ids|
    requires forall k :: 0 <= k < |ids| ==> PlanOne(codec, standard, RowOf(boards, ids[k]).value) == Ok(planned[k])
    ensures PlanRows(codec, standard, boards, ids) == Ok(planned)
    decreases |ids|
  {
    if ids != [] {
      hide PlanOne;
      PlanRowsAre(codec, standard, boards, ids[1..], planned[1..]);
      assert planned == [planned[0]] + planned[1..];
    }
  }

  /** A plan holds each resolved board once, with its stored row. */
  lemma PlanSpec(codec: Codec, standard: string -> Standard, boards: seq<Board>, requested: seq<string>, allowRouta: bool)
    requires Plan(codec, standard, boards, requested, allowRouta).Ok?
    ensures var planned := Plan(codec, standard, boards, requested, allowRouta).value;
            && Resolve(Ids(boards), requested, allowRouta) == Ok(PlannedIds(planned))
            && AllDifferent(PlannedIds(planned))
            && (forall k :: 0 <= k < |planned| ==> planned[k].board in boards && PlannedFrom(codec, standard, planned[k]))
  {
    var ids := Resolve(Ids(boards), requested, allowRouta).value;
    ResolveSpec(Ids(boards), requested, allowRouta);
    ResolvedHaveRows(boards, requested, allowRouta);
    var planned := PlanRows(codec, standard, boards, ids).value;
    PlanRowsSpec(codec, standard, boards, ids, planned);
    assert PlannedIds(planned) == ids;
    forall k | 0 <= k < |planned| ensures PlannedFrom(codec, standard, planned[k]) {
      PlanOneSound(codec, standard, planned[k].board);
    }
  }

  lemma PlanOneSound(codec: Codec, standard: string -> Standard, board: Board)
    requires PlanOne(codec, standard, board).Ok?
    ensures PlannedFrom(codec, standard, PlanOne(codec, standard, board).value)
  {
    hide Mount;
  }

  lemma {:induction false} ToUpdateSpec(planned: seq<Planned>)
    requires AllDifferent(PlannedIds(planned))
    ensures AllDifferent(PlannedIds(ToUpdate(planned)))
    ensures forall p :: p in ToUpdate(planned) <==> p in planned && p.changed
  {
    if planned != [] {
      var rest := planned[1..];
      assert PlannedIds(rest) == PlannedIds(planned)[1..];
      ToUpdateSpec(rest);
      forall k | 0 <= k < |ToUpdate(rest)| ensures ToUpdate(rest)[k].board.id != planned[0].board.id {
        assert ToUpdate(rest)[k] in rest;
        var j :| 0 <= j < |rest| && rest[j] == ToUpdate(rest)[k];
        assert PlannedIds(planned)[j + 1] == rest[j].board.id;
      }
    }
  }

  /** The columns a plan writes for a changed board are read back as an array. */
  predicate WritesColumns(codec: Codec, planned: seq<Planned>) {
    forall p :: p in planned && p.changed ==> codec.parse(codec.stringify(p.next)).Some?
  }

  /** They are read back as they were. */
  predicate WritesRoundTrip(codec: Codec, planned: seq<Planned>) {
    forall p :: p in planned && p.changed ==> codec.parse(codec.stringify(p.next)) == Some(p.next)
  }

  // ----- when applying fails -----

  /** The board is stored as it was when it was planned. */
  predicate Fresh(boards: seq<Board>, p: Planned) {
    exists k :: 0 <= k < |boards| && boards[k].id == p.board.id
                && boards[k].columns == p.board.columns && boards[k].updatedAt == p.board.updatedAt
  }

  lemma {:induction false} FirstStaleSpec(boards: seq<Board>, resolved: seq<string>, planned: seq<Planned>)
    ensures FirstStale(boards, resolved, planned).None? <==> forall p :: p in planned ==> !Stale(boards, resolved, p)
  {
    if planned != [] {
      FirstStaleSpec(boards, resolved, planned[1..]);
    }
  }

  lemma NotStaleIsFresh(boards: seq<Board>, resolved: seq<string>, p: Planned)
    requires AllDifferent(Ids(boards))
    ensures !Stale(boards, resolved, p) <==> p.board.id in resolved && Fresh(boards, p)
  {
    var row := RowOf(boards, p.board.id);
    if row.Some? {
      var k :| 0 <= k < |boards| && boards[k] == row.value;
      forall j | 0 <= j < |boards| && boards[j].id == p.board.id ensures j == k {
        assert Ids(boards)[j] == Ids(boards)[k];
      }
    } else {
      forall j | 0 <= j < |boards| ensures boards[j].id != p.board.id {
        assert Ids(boards)[j] in Ids(boards);
      }
    }
  }

  lemma FreshIsResolved(boards: seq<Board>, planned: seq<Planned>, p: Planned)
    requires Resolve(Ids(boards), PlannedIds(planned), true).Ok? && p in planned && Fresh(boards, p)
    ensures p.board.id in Resolve(Ids(boards), PlannedIds(planned), true).value
  {
    ResolveSpec(Ids(boards), PlannedIds(planned), true);
    var k :| 0 <= k < |boards| && boards[k].id == p.board.id;
    assert Ids(boards)[k] == p.board.id;
    var j :| 0 <= j < |planned| && planned[j] == p;
    assert Like(p.board.id, PlannedIds(planned)[j]);
  }

  /** Applying succeeds exactly when the specialists are loaded and, if some board is to change, the
      ids to change name one board each, all those boards are stored as planned, and the backup can
      be written. Otherwise nothing is written. */
  lemma ApplySucceedsIff(codec: Codec, boards: seq<Board>, planned: seq<Planned>, loaded: bool, backupWritable: bool)
    requires AllDifferent(Ids(boards)) && AllDifferent(PlannedIds(planned))
    ensures ApplyOutcome(codec, boards, planned, loaded, backupWritable).Ok? <==>
            loaded && ((exists p :: p in planned && p.changed) ==>
                         (&& backupWritable && Resolvable(Ids(boards), PlannedIds(ToUpdate(planned)), true)
                          && forall p :: p in planned && p.changed ==> Fresh(boards, p)))
  {
    hide Stale, Fresh, AllDifferent, Resolve, Resolvable, Ids;
    var update := ToUpdate(planned);
    ResolvesIff(Ids(boards), PlannedIds(update), true);
    ToUpdateSpec(planned);
    assert update != [] ==> update[0] in update;
    var resolved := Resolve(Ids(boards), PlannedIds(update), true);
    if resolved.Ok? {
      FirstStaleSpec(boards, resolved.value, update);
      forall p | p in update ensures Stale(boards, resolved.value, p) <==> !Fresh(boards, p) {
        NotStaleIsFresh(boards, resolved.value, p);
        if Fresh(boards, p) {
          FreshIsResolved(boards, update, p);
        }
      }
    }
  }

  // ----- when rolling back fails -----

  lemma {:induction false} EntriesForSpec(backup: seq<Entry>, ids: seq<string>)
    ensures var r := EntriesFor(backup, ids);
            && (r.Ok? <==> forall k :: 0 <= k < |ids| ==> FindEntry(backup, ids[k]).Some?)
            && (r.Ok? ==> |r.value| == |ids| && forall k :: 0 <= k < |ids| ==> FindEntry(backup, ids[k]) == Some(r.value[k]))
    decreases |ids|
  {
    if ids != [] {
      var rest := ids[1..];
      EntriesForSpec(backup, rest);
      assert forall k :: 0 < k < |ids| ==> ids[k] == rest[k - 1];
      assert forall k :: 0 <= k < |rest| ==> rest[k] == ids[k + 1];
    }
  }

  /** Both texts are columns. */
  predicate Readable(codec: Codec, boards: seq<Board>, entry: Entry) {
    && RowOf(boards, entry.id).Some?
    && codec.parse(RowOf(boards, entry.id).value.columns).Some?
    && codec.parse(entry.newColumns).Some?
  }

  /** The stored columns deep-equal those the apply wrote. */
  predicate AsApplied(codec: Codec, boards: seq<Board>, entry: Entry)
    requires Readable(codec, boards, entry)
  {
    codec.parse(RowOf(boards, entry.id).value.columns) == codec.parse(entry.newColumns)
  }

  lemma {:induction false} MismatchesSpec(codec: Codec, boards: seq<Board>, entries: seq<Entry>)
    ensures var r := Mismatches(codec, boards, entries);
            && (r.Ok? <==> forall e :: e in entries ==> Readable(codec, boards, e))
            && (r.Ok? ==> (r.value == [] <==> forall e :: e in entries ==> AsApplied(codec, boards, e)))
    decreases |entries|
  {
    if entries != [] {
      var first, rest := entries[0], entries[1..];
      MismatchesSpec(codec, boards, rest);
      assert entries == [first] + rest;
      assert first in entries && forall e :: e in rest ==> e in entries;
    }
  }

  /** A rollback writes exactly when every requested board has an entry in the backup, all texts
      compared are columns, and each board still holds what the apply wrote or the rollback is forced. */
  lemma RollbackSucceedsIff(codec: Codec, boards: seq<Board>, requested: seq<string>, allowRouta: bool, force: bool, backup: seq<Entry>)
    ensures RollbackOutcome(codec, boards, requested, allowRouta, force, backup).Ok? <==>
            && Resolvable(Ids(boards), requested, allowRouta)
            && forall id :: id in Ids(boards) && Named(requested, id) ==>
                 && FindEntry(backup, id).Some?
                 && Readable(codec, boards, FindEntry(backup, id).value)
                 && (force || AsApplied(codec, boards, FindEntry(backup, id).value))
  {
    hide Readable, AsApplied, Resolve, Resolvable, Named, Ids;
    var resolved := Resolve(Ids(boards), requested, allowRouta);
    ResolvesIff(Ids(boards), requested, allowRouta);
    if resolved.Ok? {
      ResolveSpec(Ids(boards), requested, allowRouta);
      var ids := resolved.value;
      EntriesForSpec(backup, ids);
      var entries := EntriesFor(backup, ids);
      if entries.Ok? {
        MismatchesSpec(codec, boards, entries.value);
        var mismatches := Mismatches(codec, boards, entries.value);
        assert forall k :: 0 <= k < |ids| ==> entries.value[k] in entries.value && FindEntry(backup, ids[k]) == Some(entries.value[k]);
      }
    }
  }

  // ----- what the errors say -----

  /** Planning was refused for a reason that holds: the request cannot be resolved, or a board it
      names has no readable columns, or its columns cannot be mounted. */
  lemma PlanErrorTells(codec: Codec, standard: string -> Standard, boards: seq<Board>, requested: seq<string>, allowRouta: bool)
    requires Plan(codec, standard, boards, requested, allowRouta).Err?
    ensures var failure := Plan(codec, standard, boards, requested, allowRouta).error;
            || ResolveTells(Ids(boards), requested, allowRouta, failure)
            || exists board :: board in boards && Named(requested, board.id) && BoardTells(codec, standard, board, failure)
  {
    hide ResolveTells, Named, BoardTells, Resolve;
    var ids := Resolve(Ids(boards), requested, allowRouta);
    if ids.Err? {
      ResolveErrorTells(Ids(boards), requested, allowRouta);
    } else {
      ResolveSpec(Ids(boards), requested, allowRouta);
      ResolvedHaveRows(boards, requested, allowRouta);
      var k := RowsTell(codec, standard, boards, ids.value);
      assert RowOf(boards, ids.value[k]).value in boards;
    }
  }

  ghost predicate BoardTells(codec: Codec, standard: string -> Standard, board: Board, failure: Failure) {
    var s, columns := standard(board.workspace), codec.parse(board.columns);
    match failure
    case ResolverFailed(id) => id == board.id && s.ResolverFails?
    case NotColumns(id) => id == board.id && columns.None?
    case CannotMount(id, error) =>
      && id == board.id
      && ((s.DoneStepsAre? && CheckDoneSteps(s.ids) == Some(error))
          || (columns.Some? && !s.ResolverFails? && Tells(error, columns.value, if s.DoneStepsAre? then Some(s.ids) else None)))
    case _ => false
  }

  lemma {:induction false} RowsTell(codec: Codec, standard: string -> Standard, boards: seq<Board>, ids: seq<string>) returns (k: nat)
    requires (forall id :: id in ids ==> RowOf(boards, id).Some?) && PlanRows(codec, standard, boards, ids).Err?
    ensures k < |ids| && BoardTells(codec, standard, RowOf(boards, ids[k]).value, PlanRows(codec, standard, boards, ids).error)
    decreases |ids|
  {
    hide PlanOne, BoardTells, RowOf;
    var board := RowOf(boards, ids[0]).value;
    if PlanOne(codec, standard, board).Err? {
      PlanOneTells(codec, standard, board);
      k := 0;
    } else {
      k := RowsTell(codec, standard, boards, ids[1..]);
      k := k + 1;
    }
  }

  lemma PlanOneTells(codec: Codec, standard: string -> Standard, board: Board)
    requires PlanOne(codec, standard, board).Err?
    ensures BoardTells(codec, standard, board, PlanOne(codec, standard, board).error)
  {
    hide Mount, Tells, CheckDoneSteps;
    var s, columns := standard(board.workspace), codec.parse(board.columns);
    if columns.Some? {
      var doneSteps := if s.DoneStepsAre? then Some(s.ids) else None;
      if Mount(columns.value, doneSteps).Err? {
        ErrorTells(columns.value, doneSteps);
      }
    }
  }

  ghost predicate ApplyTells(boards: seq<Board>, planned: seq<Planned>, loaded: bool, backupWritable: bool, failure: Failure) {
    match failure
    case NotLoaded => !loaded
    case ChangedWhilePlanning(board) => exists p :: p in planned && p.changed && p.board.id == board && !Fresh(boards, p)
    case BackupNotWritten => !backupWritable && forall p :: p in planned && p.changed ==> Fresh(boards, p)
    case _ => ResolveTells(Ids(boards), PlannedIds(ToUpdate(planned)), true, failure)
  }

  /** Applying was refused for a reason that holds. */
  lemma ApplyErrorTells(codec: Codec, boards: seq<Board>, planned: seq<Planned>, loaded: bool, backupWritable: bool)
    requires AllDifferent(Ids(boards)) && AllDifferent(PlannedIds(planned))
    requires ApplyOutcome(codec, boards, planned, loaded, backupWritable).Err?
    ensures ApplyTells(boards, planned, loaded, backupWritable, ApplyOutcome(codec, boards, planned, loaded, backupWritable).error)
  {
    hide Stale, Fresh, AllDifferent, Resolve, ResolveTells, Ids;
    var update := ToUpdate(planned);
    ToUpdateSpec(planned);
    var resolved := Resolve(Ids(boards), PlannedIds(update), true);
    if resolved.Err? {
      ResolveErrorTells(Ids(boards), PlannedIds(update), true);
      ResolveErrorsOnly(Ids(boards), PlannedIds(update), true);
    } else {
      FirstStaleSpec(boards, resolved.value, update);
      FirstStaleTells(boards, resolved.value, update);
      forall p | p in update ensures Stale(boards, resolved.value, p) <==> !Fresh(boards, p) {
        NotStaleIsFresh(boards, resolved.value, p);
        if Fresh(boards, p) {
          FreshIsResolved(boards, update, p);
        }
      }
    }
  }

  lemma ResolveErrorsOnly(ids: seq<string>, requested: seq<string>, allowRouta: bool)
    requires Resolve(ids, requested, allowRouta).Err?
    ensures var failure := Resolve(ids, requested, allowRouta).error;
            failure.InvalidId? || failure.NoMatch? || failure.Ambiguous? || failure.RoutaRefused?
  {
    ResolveErrorTells(ids, requested, allowRouta);
  }

  lemma {:induction false} FirstStaleTells(boards: seq<Board>, resolved: seq<string>, planned: seq<Planned>)
    ensures var stale := FirstStale(boards, resolved, planned);
            stale.Some? ==> exists p :: p in planned && p.board.id == stale.value && Stale(boards, resolved, p)
  {
    if planned != [] {
      hide Stale;
      FirstStaleTells(boards, resolved, planned[1..]);
      assert planned[0] in planned;
    }
  }

  ghost predicate RollbackTells(codec: Codec, boards: seq<Board>, requested: seq<string>, allowRouta: bool, force: bool,
                                backup: seq<Entry>, failure: Failure)
  {
    match failure
    case NoEntry(board) => board in Ids(boards) && Named(requested, board) && FindEntry(backup, board).None?
    case NotColumns(board) =>
      && board in Ids(boards) && Named(requested, board)
      && FindEntry(backup, board).Some? && !Readable(codec, boards, FindEntry(backup, board).value)
    case ColumnsDiffer(list) =>
      && !force && list != []
      && forall id :: id in list <==> id in Ids(boards) && Named(requested, id) && Differs(codec, boards, backup, id)
    case _ => ResolveTells(Ids(boards), requested, allowRouta, failure)
  }

  /** Rolling back was refused for a reason that holds; when columns differ, the list names exactly
      the boards whose columns are not those the apply wrote. */
  lemma RollbackErrorTells(codec: Codec, boards: seq<Board>, requested: seq<string>, allowRouta: bool, force: bool, backup: seq<Entry>)
    requires RollbackOutcome(codec, boards, requested, allowRouta, force, backup).Err?
    ensures RollbackTells(codec, boards, requested, allowRouta, force, backup,
                          RollbackOutcome(codec, boards, requested, allowRouta, force, backup).error)
  {
    hide Readable, AsApplied, Resolve, ResolveTells, Named, Ids, Differs;
    var resolved := Resolve(Ids(boards), requested, allowRouta);
    if resolved.Err? {
      ResolveErrorTells(Ids(boards), requested, allowRouta);
      ResolveErrorsOnly(Ids(boards), requested, allowRouta);
    } else {
      ResolveSpec(Ids(boards), requested, allowRouta);
      var entries := EntriesFor(backup, resolved.value);
      if entries.Err? {
        EntriesTell(backup, resolved.value);
      } else {
        MismatchesTell(codec, boards, backup, resolved.value);
      }
    }
  }

  /** The board's columns are not those its backup entry says the apply wrote. */
  predicate Differs(codec: Codec, boards: seq<Board>, backup: seq<Entry>, id: string) {
    && FindEntry(backup, id).Some?
    && Readable(codec, boards, FindEntry(backup, id).value)
    && !AsApplied(codec, boards, FindEntry(backup, id).value)
  }

  lemma {:induction false} EntriesTell(backup: seq<Entry>, ids: seq<string>)
    requires EntriesFor(backup, ids).Err?
    ensures var failure := EntriesFor(backup, ids).error;
            failure.NoEntry? && failure.board in ids && FindEntry(backup, failure.board).None?
    decreases |ids|
  {
    if FindEntry(backup, ids[0]).Some? {
      EntriesTell(backup, ids[1..]);
    }
  }

  lemma {:induction false} MismatchesTell(codec: Codec, boards: seq<Board>, backup: seq<Entry>, ids: seq<string>)
    requires EntriesFor(backup, ids).Ok?
    ensures var r := Mismatches(codec, boards, EntriesFor(backup, ids).value);
            && (r.Err? ==> && r.error.NotColumns? && r.error.board in ids
                           && FindEntry(backup, r.error.board).Some?
                           && !Readable(codec, boards, FindEntry(backup, r.error.board).value))
            && (r.Ok? ==> forall id :: id in r.value <==> id in ids && Differs(codec, boards, backup, id))
    decreases |ids|
  {
    if ids != [] {
      MismatchesTell(codec, boards, backup, ids[1..]);
      hide RowOf;
      var entries := EntriesFor(backup, ids).value;
      assert entries[0] == FindEntry(backup, ids[0]).value && entries[1..] == EntriesFor(backup, ids[1..]).value;
    }
  }

  // ----- applying and rolling back -----

  lemma {:induction false} IdsKept(boards: seq<Board>, writes: seq<Write>)
    ensures Ids(WriteAll(boards, writes)) == Ids(boards)
    decreases |writes|
  {
    if writes != [] {
      IdsKept(WriteOne(boards, writes[0]), writes[1..]);
      assert Ids(WriteOne(boards, writes[0])) == Ids(boards);
    }
  }

  /** The entries have different ids, and each holds what the table stored. */
  predicate BackupOf(boards: seq<Board>, backup: seq<Entry>) {
    && (forall i, j :: 0 <= i < j < |backup| ==> backup[i].id != backup[j].id)
    && (forall i, k :: 0 <= i < |backup| && 0 <= k < |boards| && boards[k].id == backup[i].id ==>
          boards[k].columns == backup[i].columns && boards[k].updatedAt == backup[i].updatedAt)
    && (forall i :: 0 <= i < |backup| ==> backup[i].id in Ids(boards))
  }

  lemma ApplyBacksUp(codec: Codec, boards: seq<Board>, planned: seq<Planned>, loaded: bool, backupWritable: bool)
    requires AllDifferent(Ids(boards)) && AllDifferent(PlannedIds(planned))
    requires ApplyOutcome(codec, boards, planned, loaded, backupWritable).Ok?
    ensures ApplyOutcome(codec, boards, planned, loaded, backupWritable).value == Backup(codec, ToUpdate(planned))
    ensures BackupOf(boards, Backup(codec, ToUpdate(planned)))
  {
    var update := ToUpdate(planned);
    var backup := Backup(codec, update);
    ToUpdateSpec(planned);
    assert update == [] ==> backup == [];
    ApplySucceedsIff(codec, boards, planned, loaded, backupWritable);
    forall i, j | 0 <= i < j < |backup| ensures backup[i].id != backup[j].id {
      assert PlannedIds(update)[i] != PlannedIds(update)[j];
    }
    forall i | 0 <= i < |backup|
      ensures backup[i].id in Ids(boards)
      ensures forall k :: 0 <= k < |boards| && boards[k].id == backup[i].id ==>
                boards[k].columns == backup[i].columns && boards[k].updatedAt == backup[i].updatedAt
    {
      assert update[i] in update;
      FreshIsUnique(boards, update[i]);
    }
  }

  lemma FreshIsUnique(boards: seq<Board>, p: Planned)
    requires AllDifferent(Ids(boards)) && Fresh(boards, p)
    ensures p.board.id in Ids(boards)
    ensures forall k :: 0 <= k < |boards| && boards[k].id == p.board.id ==>
              boards[k].columns == p.board.columns && boards[k].updatedAt == p.board.updatedAt
  {
    var j :| 0 <= j < |boards| && boards[j].id == p.board.id
             && boards[j].columns == p.board.columns && boards[j].updatedAt == p.board.updatedAt;
    assert Ids(boards)[j] == p.board.id;
    forall k | 0 <= k < |boards| && boards[k].id == p.board.id ensures k == j {
      assert Ids(boards)[k] == Ids(boards)[j];
    }
  }

  predicate InBackup(backup: seq<Entry>, id: string) {
    exists k :: 0 <= k < |backup| && backup[k].id == id
  }

  /** Applying gives a backed-up board the columns and the time of the apply, and leaves the others. */
  lemma AppliedAt(boards: seq<Board>, backup: seq<Entry>, now: int, k: nat)
    requires k < |boards| && BackupOf(boards, backup)
    ensures var after := WriteAll(boards, Forward(backup, now));
            && after[k].(columns := boards[k].columns, updatedAt := boards[k].updatedAt) == boards[k]
            && (!InBackup(backup, boards[k].id) ==> after[k] == boards[k])
            && forall i :: 0 <= i < |backup| && backup[i].id == boards[k].id ==>
                 after[k] == boards[k].(columns := backup[i].newColumns, updatedAt := now)
  {
    var writes, board := Forward(backup, now), boards[k];
    WriteAllAt(boards, writes, k);
    if InBackup(backup, board.id) {
      var i :| 0 <= i < |backup| && backup[i].id == board.id;
      assert writes[i].id == board.id;
      forall j | 0 <= j < |backup| && backup[j].id == board.id ensures j == i {
      }
      WritesAgree(board, writes, backup[i].newColumns, now);
    } else {
      forall j | 0 <= j < |writes| ensures writes[j].id != board.id {
        assert backup[j].id != board.id;
      }
      WritesAgree(board, writes, "", 0);
    }
  }

  lemma UniqueEntry(backup: seq<Entry>, i: nat)
    requires i < |backup| && forall a, b :: 0 <= a < b < |backup| ==> backup[a].id != backup[b].id
    ensures FindEntry(backup, backup[i].id) == Some(backup[i])
  {
    var found := FindEntry(backup, backup[i].id);
    var j :| 0 <= j < |backup| && backup[j] == found.value;
  }

  lemma UniqueRow(boards: seq<Board>, k: nat)
    requires k < |boards| && AllDifferent(Ids(boards))
    ensures RowOf(boards, boards[k].id) == Some(boards[k])
  {
    hide RowOf, AllDifferent;
    var id, ids := boards[k].id, Ids(boards);
    assert ids[k] in ids;
    var row := RowOf(boards, id).value;
    var j :| 0 <= j < |boards| && boards[j] == row;
    SamePlace(ids, j, k);
  }

  lemma SamePlace(ids: seq<string>, j: nat, k: nat)
    requires AllDifferent(ids) && j < |ids| && k < |ids| && ids[j] == ids[k]
    ensures j == k
  {
  }

  /** Right after an apply, every backed-up board holds what the apply wrote. */
  lemma AppliedMatches(codec: Codec, boards: seq<Board>, update: seq<Planned>, now: int, i: nat)
    requires AllDifferent(Ids(boards)) && BackupOf(boards, Backup(codec, update)) && i < |update|
    requires codec.parse(codec.stringify(update[i].next)).Some?
    ensures var backup := Backup(codec, update);
            var after := WriteAll(boards, Forward(backup, now));
            Readable(codec, after, backup[i]) && AsApplied(codec, after, backup[i])
  {
    var backup := Backup(codec, update);
    var writes := Forward(backup, now);
    var after := WriteAll(boards, writes);
    var k :| 0 <= k < |Ids(boards)| && Ids(boards)[k] == backup[i].id;
    AppliedAt(boards, backup, now, k);
    IdsKept(boards, writes);
    UniqueRow(after, k);
  }

  /** The rows that a rollback from a true backup writes are again the stored ones. */
  lemma RestoredAt(boards: seq<Board>, backup: seq<Entry>, now: int, entries: seq<Entry>, k: nat)
    requires k < |boards| && BackupOf(boards, backup) && forall e :: e in entries ==> e in backup
    ensures var after := WriteAll(boards, Forward(backup, now));
            WriteAll(after, Back(entries))[k] == if InBackup(entries, boards[k].id) then boards[k] else after[k]
  {
    var after := WriteAll(boards, Forward(backup, now));
    var writes := Back(entries);
    AppliedAt(boards, backup, now, k);
    WriteAllAt(after, writes, k);
    forall j | 0 <= j < |writes| && writes[j].id == after[k].id
      ensures writes[j].columns == boards[k].columns && writes[j].updatedAt == boards[k].updatedAt
    {
      assert entries[j] in entries;
      var i :| 0 <= i < |backup| && backup[i] == entries[j];
    }
    WritesAgree(after[k], writes, boards[k].columns, boards[k].updatedAt);
    assert HasWrite(writes, boards[k].id) <==> InBackup(entries, boards[k].id) by {
      if InBackup(entries, boards[k].id) {
        var j :| 0 <= j < |entries| && entries[j].id == boards[k].id;
        assert writes[j].id == boards[k].id;
      }
      if HasWrite(writes, boards[k].id) {
        var j :| 0 <= j < |writes| && writes[j].id == boards[k].id;
        assert entries[j].id == boards[k].id;
      }
    }
  }

  /** Rolling back right after an apply restores every requested board and leaves the others; when
      the request covers the whole backup, the table is the one before the apply. */
  lemma RollbackUndoesApply(codec: Codec, boards: seq<Board>, planned: seq<Planned>, now: int,
                            requested: seq<string>, allowRouta: bool, force: bool)
    requires WritesColumns(codec, planned) && AllDifferent(Ids(boards)) && AllDifferent(PlannedIds(planned))
    requires forall p :: p in planned ==> codec.parse(p.board.columns).Some?
    requires ApplyOutcome(codec, boards, planned, true, true).Ok?
    requires Resolve(Ids(boards), requested, allowRouta).Ok?
    requires forall id :: id in Resolve(Ids(boards), requested, allowRouta).value ==> InBackup(Backup(codec, ToUpdate(planned)), id)
    ensures var backup := ApplyOutcome(codec, boards, planned, true, true).value;
            var after := WriteAll(boards, Forward(backup, now));
            var outcome := RollbackOutcome(codec, after, requested, allowRouta, force, backup);
            var ids := Resolve(Ids(boards), requested, allowRouta).value;
            && outcome.Ok?
            && (forall e :: e in outcome.value ==> codec.parse(e.columns).Some?)
            && var restored := WriteAll(after, Back(outcome.value));
               && (forall k :: 0 <= k < |boards| ==> restored[k] == if boards[k].id in ids then boards[k] else after[k])
               && ((forall e :: e in backup ==> e.id in ids) ==> restored == boards)
  {
    hide AllDifferent, Resolve, Resolvable, Named, ApplyOutcome, PlannedIds, WriteAll, Fresh, Readable, AsApplied, FindEntry;
    var update := ToUpdate(planned);
    var backup := Backup(codec, update);
    ToUpdateSpec(planned);
    ApplyBacksUp(codec, boards, planned, true, true);
    var after := WriteAll(boards, Forward(backup, now));
    var ids := Resolve(Ids(boards), requested, allowRouta).value;
    IdsKept(boards, Forward(backup, now));
    EntriesForSpec(backup, ids);
    forall id | id in ids
      ensures FindEntry(backup, id).Some? && Readable(codec, after, FindEntry(backup, id).value)
      ensures AsApplied(codec, after, FindEntry(backup, id).value)
    {
      var i :| 0 <= i < |backup| && backup[i].id == id;
      UniqueEntry(backup, i);
      assert update[i] in update;
      AppliedMatches(codec, boards, update, now, i);
    }
    ResolvesIff(Ids(boards), requested, allowRouta);
    ResolveSpec(Ids(boards), requested, allowRouta);
    RollbackSucceedsIff(codec, after, requested, allowRouta, force, backup);
    var outcome := RollbackOutcome(codec, after, requested, allowRouta, force, backup);
    EntriesAreRequested(backup, ids, outcome.value);
    forall e | e in outcome.value ensures codec.parse(e.columns).Some? {
      var i :| 0 <= i < |backup| && backup[i] == e;
      assert update[i] in planned;
    }
    AllRestored(boards, backup, now, outcome.value, ids);
  }

  lemma EntriesAreRequested(backup: seq<Entry>, ids: seq<string>, entries: seq<Entry>)
    requires EntriesFor(backup, ids) == Ok(entries)
    ensures forall e :: e in entries ==> e in backup
    ensures forall id :: InBackup(entries, id) <==> id in ids
  {
    EntriesForSpec(backup, ids);
    forall id ensures InBackup(entries, id) <==> id in ids {
      if id in ids {
        var k :| 0 <= k < |ids| && ids[k] == id;
        assert entries[k].id == id;
      }
      if InBackup(entries, id) {
        var k :| 0 <= k < |entries| && entries[k].id == id;
        assert FindEntry(backup, ids[k]) == Some(entries[k]);
      }
    }
  }

  lemma AllRestored(boards: seq<Board>, backup: seq<Entry>, now: int, entries: seq<Entry>, ids: seq<string>)
    requires BackupOf(boards, backup) && (forall e :: e in entries ==> e in backup)
    requires forall id :: InBackup(entries, id) <==> id in ids
    ensures var after := WriteAll(boards, Forward(backup, now));
            var restored := WriteAll(after, Back(entries));
            && (forall k :: 0 <= k < |boards| ==> restored[k] == if boards[k].id in ids then boards[k] else after[k])
            && ((forall e :: e in backup ==> e.id in ids) ==> restored == boards)
  {
    hide BackupOf, WriteAll;
    var after := WriteAll(boards, Forward(backup, now));
    var restored := WriteAll(after, Back(entries));
    forall k | 0 <= k < |boards|
      ensures restored[k] == if boards[k].id in ids then boards[k] else after[k]
      ensures boards[k].id !in ids && (forall e :: e in backup ==> e.id in ids) ==> after[k] == boards[k]
    {
      RestoredAt(boards, backup, now, entries, k);
      AppliedAt(boards, backup, now, k);
      if InBackup(backup, boards[k].id) {
        var i :| 0 <= i < |backup| && backup[i].id == boards[k].id;
        assert backup[i] in backup;
      }
    }
    if forall e :: e in backup ==> e.id in ids {
      assert forall k :: 0 <= k < |boards| ==> restored[k] == boards[k];
    }
  }

  /** Rolling back with the board list of the apply works exactly when the apply changed every board
      of that list: a board that needed no change has no entry in the backup. */
  lemma SameRequestRollsBackIff(codec: Codec, standard: string -> Standard, boards: seq<Board>, requested: seq<string>,
                                allowRouta: bool, force: bool, now: int)
    requires AllDifferent(Ids(boards)) && Plan(codec, standard, boards, requested, allowRouta).Ok?
    requires WritesColumns(codec, Plan(codec, standard, boards, requested, allowRouta).value)
    requires ApplyOutcome(codec, boards, Plan(codec, standard, boards, requested, allowRouta).value, true, true).Ok?
    ensures var planned := Plan(codec, standard, boards, requested, allowRouta).value;
            var backup := ApplyOutcome(codec, boards, planned, true, true).value;
            var after := WriteAll(boards, Forward(backup, now));
            RollbackOutcome(codec, after, requested, allowRouta, force, backup).Ok? <==> forall p :: p in planned ==> p.changed
  {
    hide AllDifferent, Resolve, Resolvable, Named, ApplyOutcome, WriteAll, Fresh, PlannedFrom, BackupOf, Plan, Readable, AsApplied, RollbackOutcome, FindEntry;
    var planned := Plan(codec, standard, boards, requested, allowRouta).value;
    PlanSpec(codec, standard, boards, requested, allowRouta);
    ApplyBacksUp(codec, boards, planned, true, true);
    if forall p :: p in planned ==> p.changed {
      AllAreBackedUp(codec, planned);
      PlannedParses(codec, standard, planned);
      RollbackUndoesApply(codec, boards, planned, now, requested, allowRouta, force);
    } else {
      var p :| p in planned && !p.changed;
      var backup := Backup(codec, ToUpdate(planned));
      UnchangedHasNoEntry(codec, planned, p);
      var k :| 0 <= k < |planned| && planned[k] == p;
      assert PlannedIds(planned)[k] == p.board.id;
      IdsKept(boards, Forward(backup, now));
      ResolveSpec(Ids(boards), requested, allowRouta);
      RollbackSucceedsIff(codec, WriteAll(boards, Forward(backup, now)), requested, allowRouta, force, backup);
    }
  }

  lemma AllAreBackedUp(codec: Codec, planned: seq<Planned>)
    requires AllDifferent(PlannedIds(planned)) && forall p :: p in planned ==> p.changed
    ensures forall id :: id in PlannedIds(planned) ==> InBackup(Backup(codec, ToUpdate(planned)), id)
  {
    ToUpdateSpec(planned);
    forall id | id in PlannedIds(planned) ensures InBackup(Backup(codec, ToUpdate(planned)), id) {
      var k :| 0 <= k < |planned| && PlannedIds(planned)[k] == id;
      ChangedIsBackedUp(codec, ToUpdate(planned), planned[k]);
    }
  }

  lemma PlannedParses(codec: Codec, standard: string -> Standard, planned: seq<Planned>)
    requires forall k :: 0 <= k < |planned| ==> PlannedFrom(codec, standard, planned[k])
    ensures forall p :: p in planned ==> codec.parse(p.board.columns).Some?
  {
  }

  lemma ChangedIsBackedUp(codec: Codec, update: seq<Planned>, p: Planned)
    requires p in update
    ensures InBackup(Backup(codec, update), p.board.id)
  {
    var k :| 0 <= k < |update| && update[k] == p;
    assert Backup(codec, update)[k].id == p.board.id;
  }

  lemma UnchangedHasNoEntry(codec: Codec, planned: seq<Planned>, p: Planned)
    requires AllDifferent(PlannedIds(planned)) && p in planned && !p.changed
    ensures FindEntry(Backup(codec, ToUpdate(planned)), p.board.id).None?
  {
    ToUpdateSpec(planned);
    var update := ToUpdate(planned);
    var backup := Backup(codec, update);
    var k :| 0 <= k < |planned| && planned[k] == p;
    forall i | 0 <= i < |backup| ensures backup[i].id != p.board.id {
      assert update[i] in update;
      var j :| 0 <= j < |planned| && planned[j] == update[i];
      assert PlannedIds(planned)[j] != PlannedIds(planned)[k] || j == k;
    }
  }

  // ----- planning again -----

  lemma PlanAgain(codec: Codec, standard: string -> Standard, p: Planned, board: Board)
    requires PlanOne(codec, standard, p.board) == Ok(p) && (p.changed ==> codec.parse(codec.stringify(p.next)) == Some(p.next))
    requires board.id == p.board.id && board.workspace == p.board.workspace
    requires board.columns == if p.changed then codec.stringify(p.next) else p.board.columns
    ensures PlanOne(codec, standard, board) == Ok(Planned(board, p.next, p.next, false))
  {
    hide Mount;
    var s := standard(board.workspace);
    MountIsIdempotent(p.columns, if s.DoneStepsAre? then Some(s.ids) else None);
  }

  /** After an apply, planning the same boards again finds nothing to change. */
  lemma SecondApplyPlansNothing(codec: Codec, standard: string -> Standard, boards: seq<Board>, requested: seq<string>,
                                allowRouta: bool, now: int)
    requires AllDifferent(Ids(boards)) && Plan(codec, standard, boards, requested, allowRouta).Ok?
    requires WritesRoundTrip(codec, Plan(codec, standard, boards, requested, allowRouta).value)
    requires ApplyOutcome(codec, boards, Plan(codec, standard, boards, requested, allowRouta).value, true, true).Ok?
    ensures var planned := Plan(codec, standard, boards, requested, allowRouta).value;
            var after := WriteAll(boards, Forward(ApplyOutcome(codec, boards, planned, true, true).value, now));
            var again := Plan(codec, standard, after, requested, allowRouta);
            again.Ok? && ToUpdate(again.value) == []
  {
    hide AllDifferent, Resolve, ApplyOutcome, WriteAll, Fresh, PlannedFrom, PlanOne, BackupOf;
    var planned := Plan(codec, standard, boards, requested, allowRouta).value;
    var backup := Backup(codec, ToUpdate(planned));
    PlanSpec(codec, standard, boards, requested, allowRouta);
    var ids := PlannedIds(planned);
    PlanRowsSpec(codec, standard, boards, ids, planned);
    ApplyBacksUp(codec, boards, planned, true, true);
    var after := WriteAll(boards, Forward(backup, now));
    IdsKept(boards, Forward(backup, now));
    ResolvedHaveRows(after, requested, allowRouta);
    var again := seq(|planned|, k requires 0 <= k < |planned| => Planned(RowOf(after, ids[k]).value, planned[k].next, planned[k].next, false));
    forall k | 0 <= k < |ids| ensures PlanOne(codec, standard, RowOf(after, ids[k]).value) == Ok(again[k]) {
      RowAfter(codec, boards, planned, now, k);
      assert planned[k] in planned;
      PlanAgain(codec, standard, planned[k], RowOf(after, ids[k]).value);
    }
    PlanRowsAre(codec, standard, after, ids, again);
    NoneChanged(again);
  }

  lemma {:induction false} NoneChanged(planned: seq<Planned>)
    requires forall k :: 0 <= k < |planned| ==> !planned[k].changed
    ensures ToUpdate(planned) == []
  {
    if planned != [] {
      NoneChanged(planned[1..]);
    }
  }

  /** The row of a planned board after the apply. */
  lemma RowAfter(codec: Codec, boards: seq<Board>, planned: seq<Planned>, now: int, k: nat)
    requires k < |planned| && AllDifferent(Ids(boards)) && AllDifferent(PlannedIds(planned)) && planned[k].board in boards
    requires BackupOf(boards, Backup(codec, ToUpdate(planned)))
    ensures var p := planned[k];
            var row := RowOf(WriteAll(boards, Forward(Backup(codec, ToUpdate(planned)), now)), p.board.id);
            && row.Some? && row.value.id == p.board.id && row.value.workspace == p.board.workspace
            && row.value.columns == if p.changed then codec.stringify(p.next) else p.board.columns
  {
    hide BackupOf, WriteAll, AllDifferent;
    var p, update := planned[k], ToUpdate(planned);
    var backup := Backup(codec, update);
    var j :| 0 <= j < |boards| && boards[j] == p.board;
    var after := WriteAll(boards, Forward(backup, now));
    AppliedAt(boards, backup, now, j);
    IdsKept(boards, Forward(backup, now));
    UniqueRow(after, j);
    ToUpdateSpec(planned);
    if p.changed {
      var i :| 0 <= i < |update| && update[i] == p;
      assert backup[i].id == boards[j].id && backup[i].newColumns == codec.stringify(p.next);
    } else {
      UnchangedHasNoEntry(codec, planned, p);
    }
  }

  // ----- two boards, one of which needs no change -----

  function MountedBoard(): seq<Column> {
    FreshBoardChanges();
    Mount(FreshBoard(), None).value
  }

  function TwoBoards(unmounted: string, mounted: string): seq<Board> {
    [Board("aa", "w", "A", unmounted, 1), Board("bb", "w", "B", mounted, 2)]
  }

  function NoStandard(workspace: string): Standard {
    NotOneRepository
  }

  /** Each of the two ids names its own board. */
  lemma TwoIdsResolve()
    ensures Resolve(["aa", "bb"], ["aa", "bb"], false) == Ok(["aa", "bb"])
    ensures Resolve(["aa", "bb"], ["aa"], true) == Ok(["aa"])
    ensures AllDifferent(["aa", "bb"]) && AllDifferent(["aa"])
  {
    var ids := ["aa", "bb"];
    assert "aa"[0] == 'a' && "bb"[0] == 'b' && |"aa"| == 2 && |"bb"| == 2 && "aa" != "bb";
    assert Like("aa", "aa") && Like("bb", "bb") && !Like("bb", "aa") && !Like("aa", "bb") by {
      assert Lower("aa"[0]) != Lower("bb"[0]);
    }
    hide Like;
    assert ids[1..] == ["bb"] && ["bb"][1..] == [];
    assert Matching(["bb"], "aa") == [] && Matching(["bb"], "bb") == ["bb"];
    assert Matching(ids, "aa") == ["aa"] && Matching(ids, "bb") == ["bb"];
    assert ValidPrefix("aa") && ValidPrefix("bb");
    hide ValidPrefix, Matching;
    assert ["aa"] + ["bb"] == ["aa", "bb"] && [] + ["aa"] == ["aa"];
    assert ResolveFrom(ids, ["bb"], ["aa"]) == ResolveFrom(ids, [], ["aa", "bb"]);
    assert ResolveFrom(ids, ["aa", "bb"], []) == ResolveFrom(ids, ["bb"], ["aa"]);
    assert ResolveFrom(ids, ["aa"], []) == ResolveFrom(ids, [], ["aa"]);
    assert |RoutaBoard()| == 36;
  }

  lemma PlanOfOne(codec: Codec, board: Board, columns: seq<Column>)
    requires codec.parse(board.columns) == Some(columns) && Mount(columns, None).Ok?
    ensures var next := Mount(columns, None).value;
            PlanOne(codec, NoStandard, board) == Ok(Planned(board, columns, next, columns != next))
  {
    hide Mount;
  }

  lemma PlanOfTwo(codec: Codec, unmounted: string, mounted: string)
    requires codec.parse(unmounted) == Some(FreshBoard()) && codec.parse(mounted) == Some(MountedBoard())
    ensures var boards := TwoBoards(unmounted, mounted);
            Plan(codec, NoStandard, boards, ["aa", "bb"], false) ==
            Ok([Planned(boards[0], FreshBoard(), MountedBoard(), true), Planned(boards[1], MountedBoard(), MountedBoard(), false)])
  {
    hide Resolve, Mount, AllDifferent, FreshBoard, PlanOne;
    var boards, ids := TwoBoards(unmounted, mounted), ["aa", "bb"];
    assert Ids(boards) == ids;
    TwoIdsResolve();
    FreshBoardChanges();
    MountIsIdempotent(FreshBoard(), None);
    UniqueRow(boards, 0);
    UniqueRow(boards, 1);
    PlanOfOne(codec, boards[0], FreshBoard());
    PlanOfOne(codec, boards[1], MountedBoard());
    ResolvedHaveRows(boards, ids, false);
    PlanRowsAre(codec, NoStandard, boards, ids,
                [Planned(boards[0], FreshBoard(), MountedBoard(), true), Planned(boards[1], MountedBoard(), MountedBoard(), false)]);
  }

  /** A request for two boards, the second of which is mounted already: the apply succeeds, and a
      rollback with the same request fails. */
  lemma UnchangedBoardBlocksRollback(codec: Codec, unmounted: string, mounted: string, force: bool, now: int)
    requires codec.parse(unmounted) == Some(FreshBoard()) && codec.parse(mounted) == Some(MountedBoard())
    requires codec.parse(codec.stringify(MountedBoard())).Some?
    ensures var boards := TwoBoards(unmounted, mounted);
            var plan := Plan(codec, NoStandard, boards, ["aa", "bb"], false);
            && plan.Ok?
            && var backup := ApplyOutcome(codec, boards, plan.value, true, true);
               && backup.Ok?
               && RollbackOutcome(codec, WriteAll(boards, Forward(backup.value, now)), ["aa", "bb"], false, force, backup.value).Err?
  {
    hide MountedBoard, FreshBoard, Resolve, Resolvable, RollbackOutcome, WriteAll, Plan, ApplyOutcome, AllDifferent;
    var boards := TwoBoards(unmounted, mounted);
    PlanOfTwo(codec, unmounted, mounted);
    var planned := Plan(codec, NoStandard, boards, ["aa", "bb"], false).value;
    assert Ids(boards) == ["aa", "bb"] == PlannedIds(planned);
    TwoIdsResolve();
    assert planned[1..][0] == planned[1] && planned[1..][1..] == [];
    assert ToUpdate(planned[1..]) == [];
    assert ToUpdate(planned) == [planned[0]];
    assert PlannedIds(ToUpdate(planned)) == ["aa"];
    ResolvesIff(["aa", "bb"], ["aa"], true);
    assert Fresh(boards, planned[0]) by {
      assert boards[0].id == planned[0].board.id;
    }
    ApplySucceedsIff(codec, boards, planned, true, true);
    SameRequestRollsBackIff(codec, NoStandard, boards, ["aa", "bb"], false, force, now);
    assert planned[1] in planned && !planned[1].changed;
  }
}
