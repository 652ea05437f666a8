/** The rewriting of stored notifications page by page
    (scripts/maintenance/compact-tool-call-param-deltas.ts): pages follow the row id, and what is
    read and written in the end does not depend on the page size. */
module DeltaPaging {
  import opened Options

  datatype Row = Row(rowid: int, id: string, eventType: string, text: string)

  /** `scanned`, `changed`, `skippedInvalidJson`, `beforeBytes` and `afterBytes`. */
  datatype Stats = Stats(scanned: nat, changed: nat, skipped: nat, before: nat, after: nat)

  const EMPTY := Stats(0, 0, 0, 0, 0)

  /** The parts this model does not look into. */
  datatype Job = Job(
    /** The WHERE clause of the SELECT, without the row id. */
    matches: Row -> bool,
    /** The compacted text; `None` when the text is not JSON of the expected kind. */
    rewrite: string -> Option<string>,
    byteLength: string -> nat,
    apply: bool)

  datatype Compacted = Compacted(changed: bool, invalidJson: bool, afterJson: string)

  /** `compactNotificationJson` and `compactHistoryJson`. */
  function CompactJson(job: Job, raw: string): Compacted {
    match job.rewrite(raw)
    case None => Compacted(false, true, raw)
    case Some(text) => Compacted(text != raw, false, text)
  }

  /** The counters of one row. */
  function Accumulate(job: Job, stats: Stats, text: string): Stats {
    var compacted := CompactJson(job, text);
    if compacted.invalidJson then stats.(skipped := stats.skipped + 1)
    else stats.(before := stats.before + job.byteLength(text),
                after := stats.after + job.byteLength(compacted.afterJson),
                changed := stats.changed + if compacted.changed then 1 else 0)
  }

  // ----- the pass without pages -----

  /** The rows a run is to visit. */
  predicate IsDue(job: Job, row: Row) {
    job.matches(row) && row.rowid > 0
  }

  function Due(job: Job, rows: seq<Row>): seq<Row> {
    if rows == [] then [] else (if IsDue(job, rows[0]) then [rows[0]] else []) + Due(job, rows[1..])
  }

  function Rewritten(job: Job, row: Row): Row {
    var compacted := CompactJson(job, row.text);
    if IsDue(job, row) && job.apply && compacted.changed then row.(text := compacted.afterJson) else row
  }

  function RewrittenAll(job: Job, rows: seq<Row>): seq<Row> {
    if rows == [] then [] else [Rewritten(job, rows[0])] + RewrittenAll(job, rows[1..])
  }

  function Count(job: Job, stats: Stats, rows: seq<Row>): Stats
    decreases |rows|
  {
    if rows == [] then stats
    else Count(job, Accumulate(job, stats.(scanned := stats.scanned + 1), rows[0].text), rows[1..])
  }

  // ----- the table -----

  predicate DistinctIds(rows: seq<Row>) {
    forall i, j :: 0 <= i < j < |rows| ==> rows[i].id != rows[j].id
  }

  predicate ByRowId(rows: seq<Row>) {
    forall i, j :: 0 <= i < j < |rows| ==> rows[i].rowid < rows[j].rowid
  }

  /** `SELECT … WHERE … AND rowid > last ORDER BY rowid LIMIT limit`. */
  function Select(job: Job, rows: seq<Row>, last: int, limit: nat): seq<Row> {
    if rows == [] || limit == 0 then []
    else if job.matches(rows[0]) && rows[0].rowid > last then [rows[0]] + Select(job, rows[1..], last, limit - 1)
    else Select(job, rows[1..], last, limit)
  }

  /** `UPDATE … SET text = ? WHERE id = ?`. */
  function UpdateText(rows: seq<Row>, id: string, text: string): seq<Row> {
    if rows == [] then []
    else [if rows[0].id == id then rows[0].(text := text) else rows[0]] + UpdateText(rows[1..], id, text)
  }

  datatype Pending = Pending(id: string, text: string)

  function Flushed(rows: seq<Row>, pending: seq<Pending>): seq<Row>
    decreases |pending|
  {
    if pending == [] then rows else Flushed(UpdateText(rows, pending[0].id, pending[0].text), pending[1..])
  }

  /** What a page leaves to be written. */
  function ToWrite(job: Job, page: seq<Row>): seq<Pending> {
    if page == [] then []
    else
      var compacted := CompactJson(job, page[0].text);
      (if compacted.changed && job.apply then [Pending(page[0].id, compacted.afterJson)] else [])
      + ToWrite(job, page[1..])
  }

  class Table {
    var rows: seq<Row>

    constructor (rows: seq<Row>)
      ensures this.rows == rows
    {
      this.rows := rows;
    }

    method Flush(pending: seq<Pending>)
      modifies this
      ensures rows == Flushed(old(rows), pending)
    {
      for i := 0 to |pending|
        invariant Flushed(rows, pending[i..]) == Flushed(old(rows), pending)
      {
        assert pending[i..][1..] == pending[i + 1..];
        rows := UpdateText(rows, pending[i].id, pending[i].text);
      }
    }

    /** For every page size the run visits each due row once, in order, and ends with the table
        and the counters of the pass without pages. */
    method Compact(job: Job, batchSize: nat) returns (stats: Stats, ghost visited: seq<Row>)
      requires batchSize >= 1 && DistinctIds(rows) && ByRowId(rows)
      modifies this
      ensures rows == RewrittenAll(job, old(rows))
      ensures stats == Count(job, EMPTY, Due(job, old(rows)))
      ensures visited == Due(job, old(rows))
    {
      stats, visited := EMPTY, [];
      var lastRowId := 0;
      ghost var table, n := rows, 0;
      hide DistinctIds, ByRowId;
      while true
        invariant n <= |table| && rows == RewrittenAll(job, table[..n]) + table[n..]
        invariant Reached(job, table, n, lastRowId)
        invariant visited == Due(job, table[..n]) && stats == Count(job, EMPTY, visited)
        decreases |table| - n
      {
        hide RewrittenAll, Reached, Due, Count, Select, Flushed, PageEnd, ToWrite;
        var page := Select(job, rows, lastRowId, batchSize);
        PageIsDue(job, table, n, lastRowId, batchSize);
        if |page| == 0 {
          NothingLeft(job, table, n);
          break;
        }
        ghost var m := PageEnd(job, table, n, batchSize);
        var pending;
        stats, pending := ReadPage(job, page, stats);
        PageIsCounted(job, table, n, m);
        visited := visited + page;
        lastRowId := page[|page| - 1].rowid;
        assert Flushed(rows, pending) == RewrittenAll(job, table[..m]) + table[m..] by {
          PageIsWritten(job, table, n, m);
        }
        NothingToFlush(rows);
        n := m;
        if |pending| > 0 {
          Flush(pending);
        }
      }
    }
  }

  lemma PageIsCounted(job: Job, table: seq<Row>, n: nat, m: nat)
    requires n <= m <= |table|
    ensures var before, page := Due(job, table[..n]), Due(job, table[n..m]);
            && Due(job, table[..m]) == before + page
            && Count(job, EMPTY, Due(job, table[..m])) == Count(job, Count(job, EMPTY, before), page)
  {
    CountInTwo(job, EMPTY, Due(job, table[..n]), Due(job, table[n..m]));
    DueInTwo(job, table[..n], table[n..m]);
    assert table[..m] == table[..n] + table[n..m];
  }

  /** The inner loop: counts each row and collects what is to be written. */
  method ReadPage(job: Job, page: seq<Row>, before: Stats) returns (stats: Stats, pending: seq<Pending>)
    ensures stats == Count(job, before, page) && pending == ToWrite(job, page)
  {
    stats, pending := before, [];
    for i := 0 to |page|
      invariant Count(job, stats, page[i..]) == Count(job, before, page)
      invariant pending + ToWrite(job, page[i..]) == ToWrite(job, page)
    {
      assert page[i..][1..] == page[i + 1..];
      stats := stats.(scanned := stats.scanned + 1);
      var compacted := CompactJson(job, page[i].text);
      stats := Accumulate(job, stats, page[i].text);
      if compacted.changed && job.apply {
        pending := pending + [Pending(page[i].id, compacted.afterJson)];
      }
    }
  }

  // ----- why pages make no difference -----

  /** The first `n` rows are done, and `last` separates them from the due rows still to come. */
  ghost predicate Reached(job: Job, table: seq<Row>, n: nat, last: int) {
    && n <= |table| && last >= 0
    && (forall k :: 0 <= k < n ==> table[k].rowid <= last)
    && (forall k :: n <= k < |table| && IsDue(job, table[k]) ==> table[k].rowid > last)
  }

  /** Where a page of at most `limit` due rows ends that starts at `n`: after its last row. */
  ghost function PageEnd(job: Job, table: seq<Row>, n: nat, limit: nat): (m: nat)
    requires n <= |table|
    ensures n <= m <= |table|
    decreases |table| - n
  {
    if n == |table| || limit == 0 then n
    else if IsDue(job, table[n]) then PageEnd(job, table, n + 1, limit - 1)
    else
      var m := PageEnd(job, table, n + 1, limit);
      if m == n + 1 then n else m
  }

  lemma {:induction false} RewrittenAllAt(job: Job, rows: seq<Row>)
    ensures |RewrittenAll(job, rows)| == |rows|
    ensures forall k :: 0 <= k < |rows| ==> RewrittenAll(job, rows)[k] == Rewritten(job, rows[k])
  {
    if rows != [] {
      RewrittenAllAt(job, rows[1..]);
    }
  }

  lemma RewrittenOneMore(job: Job, table: seq<Row>, n: nat)
    requires n < |table|
    ensures RewrittenAll(job, table[..n + 1]) == RewrittenAll(job, table[..n]) + [Rewritten(job, table[n])]
  {
    RewrittenAllAt(job, table[..n]);
    RewrittenAllAt(job, table[..n + 1]);
  }

  lemma {:induction false} DueInTwo(job: Job, a: seq<Row>, b: seq<Row>)
    ensures Due(job, a + b) == Due(job, a) + Due(job, b)
    decreases |a|
  {
    if a == [] {
      assert a + b == b;
    } else {
      assert (a + b)[1..] == a[1..] + b;
      DueInTwo(job, a[1..], b);
    }
  }

  lemma {:induction false} CountInTwo(job: Job, stats: Stats, a: seq<Row>, b: seq<Row>)
    ensures Count(job, stats, a + b) == Count(job, Count(job, stats, a), b)
    decreases |a|
  {
    if a == [] {
      assert a + b == b;
    } else {
      assert (a + b)[1..] == a[1..] + b;
      CountInTwo(job, Accumulate(job, stats.(scanned := stats.scanned + 1), a[0].text), a[1..], b);
    }
  }

  /** Rows up to `last` are never selected again, whatever the update left in them. */
  lemma {:induction false} SelectSkips(job: Job, a: seq<Row>, b: seq<Row>, last: int, limit: nat)
    requires forall k :: 0 <= k < |a| ==> a[k].rowid <= last
    ensures Select(job, a + b, last, limit) == Select(job, b, last, limit)
    decreases |a|
  {
    if a == [] {
      assert a + b == b;
    } else if limit > 0 {
      assert (a + b)[1..] == a[1..] + b;
      SelectSkips(job, a[1..], b, last, limit);
    }
  }

  lemma DueStep(job: Job, table: seq<Row>, n: nat, m: nat)
    requires n < m <= |table|
    ensures Due(job, table[n..m]) == (if IsDue(job, table[n]) then [table[n]] else []) + Due(job, table[n + 1..m])
  {
    assert table[n..m][1..] == table[n + 1..m];
  }

  /** The due rows from index `n` up to, not including, index `m`. */
  ghost function DueIn(job: Job, table: seq<Row>, n: nat, m: nat): seq<Row>
    requires n <= m <= |table|
  {
    Due(job, table[n..m])
  }

  ghost function SelectFrom(job: Job, table: seq<Row>, n: nat, last: int, limit: nat): seq<Row>
    requires n <= |table|
  {
    Select(job, table[n..], last, limit)
  }

  lemma DueInStep(job: Job, table: seq<Row>, n: nat, m: nat)
    requires n < m <= |table|
    ensures DueIn(job, table, n, m) == (if IsDue(job, table[n]) then [table[n]] else []) + DueIn(job, table, n + 1, m)
  {
    DueStep(job, table, n, m);
  }

  lemma DueInNone(job: Job, table: seq<Row>, n: nat)
    requires n <= |table|
    ensures DueIn(job, table, n, n) == []
  {
    assert table[n..n] == [];
  }

  lemma SelectStep(job: Job, table: seq<Row>, n: nat, last: int, limit: nat)
    requires n <= |table|
    ensures SelectFrom(job, table, n, last, limit) ==
            if n == |table| || limit == 0 then []
            else if job.matches(table[n]) && table[n].rowid > last
            then [table[n]] + SelectFrom(job, table, n + 1, last, limit - 1)
            else SelectFrom(job, table, n + 1, last, limit)
  {
    if n < |table| {
      assert table[n..][1..] == table[n + 1..];
    }
  }

  lemma {:induction false} SelectIsDue(job: Job, table: seq<Row>, n: nat, last: int, limit: nat)
    requires n <= |table| && last >= 0
    requires forall k :: n <= k < |table| && IsDue(job, table[k]) ==> table[k].rowid > last
    ensures var m := PageEnd(job, table, n, limit);
            && SelectFrom(job, table, n, last, limit) == DueIn(job, table, n, m)
            && (m > n ==> IsDue(job, table[m - 1]))
            && (m == n && limit > 0 ==> DueIn(job, table, n, |table|) == [])
    decreases |table| - n
  {
    hide SelectFrom, DueIn;
    var m := PageEnd(job, table, n, limit);
    SelectStep(job, table, n, last, limit);
    DueInNone(job, table, n);
    if n < |table| && limit > 0 {
      DueInStep(job, table, n, |table|);
      DueInNone(job, table, n + 1);
      if m > n {
        DueInStep(job, table, n, m);
      }
      SelectIsDue(job, table, n + 1, last, if IsDue(job, table[n]) then limit - 1 else limit);
    }
  }

  lemma {:induction false} DueEndsLast(job: Job, table: seq<Row>, n: nat, m: nat)
    requires n < m <= |table| && IsDue(job, table[m - 1])
    ensures Due(job, table[n..m]) != [] && Due(job, table[n..m])[|Due(job, table[n..m])| - 1] == table[m - 1]
    decreases m - n
  {
    DueStep(job, table, n, m);
    if n + 1 < m {
      DueEndsLast(job, table, n + 1, m);
    } else {
      assert table[m..m] == [];
    }
  }

  /** A page holds exactly the due rows up to its end, and moves the boundary there. */
  lemma PageIsDue(job: Job, table: seq<Row>, n: nat, last: int, limit: nat)
    requires Reached(job, table, n, last) && limit >= 1 && ByRowId(table)
    ensures var page := Select(job, RewrittenAll(job, table[..n]) + table[n..], last, limit);
            var m := PageEnd(job, table, n, limit);
            && page == Due(job, table[n..m])
            && (page == [] ==> Due(job, table[n..]) == [])
            && (page != [] ==> m > n && Reached(job, table, m, page[|page| - 1].rowid))
  {
    hide Select, Due, RewrittenAll, PageEnd, ByRowId;
    var m := PageEnd(job, table, n, limit);
    DoneIsSkipped(job, table, n, last, limit);
    SelectIsDue(job, table, n, last, limit);
    assert table[n..|table|] == table[n..];
    if m > n {
      DueEndsLast(job, table, n, m);
      PageReaches(job, table, n, m, last);
    } else {
      DueInNone(job, table, n);
    }
  }

  lemma DoneIsSkipped(job: Job, table: seq<Row>, n: nat, last: int, limit: nat)
    requires Reached(job, table, n, last)
    ensures Select(job, RewrittenAll(job, table[..n]) + table[n..], last, limit) == Select(job, table[n..], last, limit)
  {
    RewrittenAllAt(job, table[..n]);
    SelectSkips(job, RewrittenAll(job, table[..n]), table[n..], last, limit);
  }

  lemma PageReaches(job: Job, table: seq<Row>, n: nat, m: nat, last: int)
    requires Reached(job, table, n, last) && ByRowId(table) && n < m <= |table| && IsDue(job, table[m - 1])
    ensures Reached(job, table, m, table[m - 1].rowid)
  {
  }

  lemma {:induction false} NoneDue(job: Job, rows: seq<Row>)
    requires Due(job, rows) == []
    ensures RewrittenAll(job, rows) == rows
  {
    if rows != [] {
      NoneDue(job, rows[1..]);
    }
  }

  lemma {:induction false} RewrittenInTwo(job: Job, a: seq<Row>, b: seq<Row>)
    ensures RewrittenAll(job, a + b) == RewrittenAll(job, a) + RewrittenAll(job, b)
  {
    RewrittenAllAt(job, a);
    RewrittenAllAt(job, b);
    RewrittenAllAt(job, a + b);
  }

  lemma NothingLeft(job: Job, table: seq<Row>, n: nat)
    requires n <= |table| && Due(job, table[n..]) == []
    ensures RewrittenAll(job, table) == RewrittenAll(job, table[..n]) + table[n..]
    ensures Due(job, table) == Due(job, table[..n])
  {
    assert table == table[..n] + table[n..];
    NoneDue(job, table[n..]);
    RewrittenInTwo(job, table[..n], table[n..]);
    DueInTwo(job, table[..n], table[n..]);
  }

  lemma NothingToFlush(rows: seq<Row>)
    ensures Flushed(rows, []) == rows
  {
  }

  lemma {:induction false} UpdateAt(rows: seq<Row>, id: string, text: string)
    ensures |UpdateText(rows, id, text)| == |rows|
    ensures forall k :: 0 <= k < |rows| ==>
              UpdateText(rows, id, text)[k] == if rows[k].id == id then rows[k].(text := text) else rows[k]
  {
    if rows != [] {
      UpdateAt(rows[1..], id, text);
    }
  }

  /** Writing what a page left pending rewrites exactly the rows of that page. */
  lemma {:induction false} PageIsWritten(job: Job, table: seq<Row>, n: nat, m: nat)
    requires n <= m <= |table| && DistinctIds(table)
    ensures Flushed(RewrittenAll(job, table[..n]) + table[n..], ToWrite(job, Due(job, table[n..m])))
         == RewrittenAll(job, table[..m]) + table[m..]
    decreases m - n
  {
    if n == m {
      assert table[n..m] == [];
    } else {
      hide RewrittenAll, Due, ToWrite, DistinctIds, IsDue;
      var rows, rest := RewrittenAll(job, table[..n]) + table[n..], Due(job, table[n + 1..m]);
      DueStep(job, table, n, m);
      RowIsWritten(job, table, n, rest);
      PageIsWritten(job, table, n + 1, m);
    }
  }

  lemma RowIsWritten(job: Job, table: seq<Row>, n: nat, rest: seq<Row>)
    requires n < |table| && DistinctIds(table)
    ensures Flushed(RewrittenAll(job, table[..n]) + table[n..],
                    ToWrite(job, (if IsDue(job, table[n]) then [table[n]] else []) + rest))
         == Flushed(RewrittenAll(job, table[..n + 1]) + table[n + 1..], ToWrite(job, rest))
  {
    hide RewrittenAll;
    var row := table[n];
    var rows, next := RewrittenAll(job, table[..n]) + table[n..], RewrittenAll(job, table[..n + 1]) + table[n + 1..];
    RewrittenOneMore(job, table, n);
    ToWriteStep(job, row, rest);
    if IsDue(job, row) && CompactJson(job, row.text).changed && job.apply {
      UpdateInTable(job, table, n, CompactJson(job, row.text).afterJson);
    } else {
      assert rows == next;
      assert [] + rest == rest;
    }
  }

  lemma ToWriteStep(job: Job, row: Row, rest: seq<Row>)
    ensures var compacted := CompactJson(job, row.text);
            ToWrite(job, [row] + rest) ==
            if compacted.changed && job.apply then [Pending(row.id, compacted.afterJson)] + ToWrite(job, rest)
            else ToWrite(job, rest)
  {
    assert ([row] + rest)[1..] == rest;
    assert [] + ToWrite(job, rest) == ToWrite(job, rest);
  }

  lemma UpdateInTable(job: Job, table: seq<Row>, n: nat, text: string)
    requires n < |table| && DistinctIds(table)
    ensures UpdateText(RewrittenAll(job, table[..n]) + table[n..], table[n].id, text)
         == RewrittenAll(job, table[..n]) + [table[n].(text := text)] + table[n + 1..]
  {
    hide DistinctIds;
    var done := RewrittenAll(job, table[..n]);
    var rows := done + table[n..];
    var after := UpdateText(rows, table[n].id, text);
    UpdateAt(rows, table[n].id, text);
    RewrittenAllAt(job, table[..n]);
    forall k | 0 <= k < |rows| ensures after[k] == (done + [table[n].(text := text)] + table[n + 1..])[k] {
      if k < n {
        assert rows[k] == Rewritten(job, table[k]);
        OtherId(table, k, n);
      } else if k > n {
        assert rows[k] == table[k];
        OtherId(table, n, k);
      }
    }
  }

  lemma OtherId(table: seq<Row>, i: nat, j: nat)
    requires DistinctIds(table) && i < j < |table|
    ensures table[i].id != table[j].id
  {
  }

  // ----- what a run means -----

  /** A dry run and an applying run report the same counters. */
  lemma {:induction false} DryRunTellsTheTruth(job: Job, stats: Stats, rows: seq<Row>, apply: bool)
    ensures Count(job.(apply := apply), stats, rows) == Count(job, stats, rows)
    ensures Due(job.(apply := apply), rows) == Due(job, rows)
    decreases |rows|
  {
    if rows != [] {
      var other := job.(apply := apply);
      assert forall s: Stats :: Accumulate(other, s, rows[0].text) == Accumulate(job, s, rows[0].text);
      assert IsDue(other, rows[0]) == IsDue(job, rows[0]);
      DryRunTellsTheTruth(job, Accumulate(job, stats.(scanned := stats.scanned + 1), rows[0].text), rows[1..], apply);
    }
  }

  /** A dry run writes nothing. */
  lemma {:induction false} DryRunKeeps(job: Job, rows: seq<Row>)
    requires !job.apply
    ensures RewrittenAll(job, rows) == rows
  {
    if rows != [] {
      DryRunKeeps(job, rows[1..]);
    }
  }

  function Matching(job: Job, rows: seq<Row>): seq<Row> {
    if rows == [] then [] else (if job.matches(rows[0]) then [rows[0]] else []) + Matching(job, rows[1..])
  }

  /** No matching row has a row id of 0 or less. */
  predicate MatchesArePositive(job: Job, rows: seq<Row>) {
    forall k :: 0 <= k < |rows| && job.matches(rows[k]) ==> rows[k].rowid > 0
  }

  lemma PositiveStep(job: Job, rows: seq<Row>)
    requires rows != []
    ensures MatchesArePositive(job, rows) <==>
            (job.matches(rows[0]) ==> rows[0].rowid > 0) && MatchesArePositive(job, rows[1..])
  {
    var rest := rows[1..];
    assert rows == [rows[0]] + rest;
  }

  /** Paging starts after row id 0: a run visits every matching row exactly when all their row ids
      are positive. */
  lemma {:induction false} EveryMatchVisitedIff(job: Job, rows: seq<Row>)
    ensures |Due(job, rows)| <= |Matching(job, rows)|
    ensures Due(job, rows) == Matching(job, rows) <==> MatchesArePositive(job, rows)
  {
    if rows != [] {
      var a, b := Due(job, rows[1..]), Matching(job, rows[1..]);
      EveryMatchVisitedIff(job, rows[1..]);
      PositiveStep(job, rows);
      if IsDue(job, rows[0]) {
        assert ([rows[0]] + a)[1..] == a && ([rows[0]] + b)[1..] == b;
      } else {
        assert [] + a == a && [] + b == b;
      }
    }
  }

  /** Rewriting a rewritten text changes nothing more. */
  ghost predicate Settles(job: Job) {
    forall raw :: job.rewrite(raw).Some? ==> job.rewrite(job.rewrite(raw).value) == job.rewrite(raw)
  }

  lemma {:induction false} SecondRunKeeps(job: Job, rows: seq<Row>)
    requires Settles(job)
    ensures RewrittenAll(job, RewrittenAll(job, rows)) == RewrittenAll(job, rows)
  {
    if rows != [] {
      var row := rows[0];
      SecondRunKeeps(job, rows[1..]);
      assert Rewritten(job, Rewritten(job, row)) == Rewritten(job, row);
    }
  }

  /** The rewriting ended with an applied run: a second one counts no changed row. */
  lemma {:induction false} SecondRunCountsNone(job: Job, stats: Stats, rows: seq<Row>)
    requires Settles(job) && job.apply
    ensures Count(job, stats, Due(job, RewrittenAll(job, rows))).changed == stats.changed
    decreases |rows|
  {
    if rows != [] {
      var first, rest := Rewritten(job, rows[0]), RewrittenAll(job, rows[1..]);
      assert RewrittenAll(job, rows)[1..] == rest;
      if IsDue(job, first) {
        assert !CompactJson(job, first.text).changed;
        assert ([first] + Due(job, rest))[1..] == Due(job, rest);
        SecondRunCountsNone(job, Accumulate(job, stats.(scanned := stats.scanned + 1), first.text), rows[1..]);
      } else {
        assert [] + Due(job, rest) == Due(job, rest);
        SecondRunCountsNone(job, stats, rows[1..]);
      }
    }
  }

  /** A matching row with row id 0 is never visited. */
  lemma RowZeroIsSkipped(job: Job, row: Row)
    requires job.matches(row) && row.rowid == 0
    ensures Matching(job, [row]) == [row] && Due(job, [row]) == []
  {
    assert Due(job, [row]) == [] + Due(job, []);
    assert Matching(job, [row]) == [row] + Matching(job, []);
  }

  // ----- what the counters mean -----

  function Total(rows: seq<Row>, weigh: Row -> nat): nat {
    if rows == [] then 0 else weigh(rows[0]) + Total(rows[1..], weigh)
  }

  predicate Valid(job: Job, row: Row) {
    job.rewrite(row.text).Some?
  }

  predicate Changes(job: Job, row: Row) {
    Valid(job, row) && job.rewrite(row.text).value != row.text
  }

  function Bytes(job: Job): Row -> nat {
    (row: Row) => job.byteLength(row.text)
  }

  function When(holds: bool, n: nat): nat {
    if holds then n else 0
  }

  function NewLength(job: Job, row: Row): nat {
    if Valid(job, row) then job.byteLength(job.rewrite(row.text).value) else 0
  }

  function Changing(job: Job): Row -> nat {
    row => When(Changes(job, row), 1)
  }

  function Unread(job: Job): Row -> nat {
    row => When(!Valid(job, row), 1)
  }

  function OldBytes(job: Job): Row -> nat {
    row => When(Valid(job, row), job.byteLength(row.text))
  }

  function UnreadBytes(job: Job): Row -> nat {
    row => When(!Valid(job, row), job.byteLength(row.text))
  }

  function NewBytes(job: Job): Row -> nat {
    row => NewLength(job, row)
  }

  /** Each counter is a sum over the rows visited: all of them, those a rewrite changes, those it
      does not read, and the old and the new byte lengths of those it reads. */
  lemma {:induction false} CountIsSums(job: Job, stats: Stats, rows: seq<Row>)
    ensures Count(job, stats, rows) == Stats(
              stats.scanned + |rows|,
              stats.changed + Total(rows, Changing(job)),
              stats.skipped + Total(rows, Unread(job)),
              stats.before + Total(rows, OldBytes(job)),
              stats.after + Total(rows, NewBytes(job)))
    decreases |rows|
  {
    if rows != [] {
      var next := Accumulate(job, stats.(scanned := stats.scanned + 1), rows[0].text);
      var row := rows[0];
      assert OldBytes(job)(row) == if Valid(job, row) then job.byteLength(row.text) else 0;
      assert next == Stats(stats.scanned + 1, stats.changed + Changing(job)(row), stats.skipped + Unread(job)(row),
                           stats.before + OldBytes(job)(row), stats.after + NewBytes(job)(row));
      CountIsSums(job, next, rows[1..]);
      hide Accumulate, Changing, Unread, OldBytes, NewBytes;
      assert Count(job, stats, rows) == Count(job, next, rows[1..]);
    }
  }

  /** A run that applies writes the new text of each row it is to visit and can read, and leaves
      every other row and every other field alone. */
  lemma RowsAreRewritten(job: Job, rows: seq<Row>, k: nat)
    requires k < |rows|
    ensures |RewrittenAll(job, rows)| == |rows|
    ensures RewrittenAll(job, rows)[k] ==
            if job.apply && job.matches(rows[k]) && rows[k].rowid > 0 && Valid(job, rows[k])
            then rows[k].(text := job.rewrite(rows[k].text).value)
            else rows[k]
  {
    RewrittenAllAt(job, rows);
  }

  /** No byte is lost from the report: the rows visited hold the bytes reported before the run, and
      after a run that applies those reported after it, next to those of the rows it cannot read. */
  lemma BytesAddUp(job: Job, rows: seq<Row>)
    requires job.apply && forall k :: 0 <= k < |rows| ==> IsDue(job, rows[k])
    ensures var stats := Count(job, EMPTY, rows);
            && Total(rows, Bytes(job)) == stats.before + Total(rows, UnreadBytes(job))
            && Total(RewrittenAll(job, rows), Bytes(job)) == stats.after + Total(rows, UnreadBytes(job))
  {
    CountIsSums(job, EMPTY, rows);
    TotalsAddUp(job, rows);
  }

  lemma {:induction false} TotalsAddUp(job: Job, rows: seq<Row>)
    requires job.apply && forall k :: 0 <= k < |rows| ==> IsDue(job, rows[k])
    ensures Total(rows, Bytes(job)) == Total(rows, OldBytes(job)) + Total(rows, UnreadBytes(job))
    ensures Total(RewrittenAll(job, rows), Bytes(job)) == Total(rows, NewBytes(job)) + Total(rows, UnreadBytes(job))
  {
    if rows != [] {
      var row, rest := rows[0], rows[1..];
      TotalsAddUp(job, rest);
      RowAddsUp(job, row);
      assert RewrittenAll(job, rows)[1..] == RewrittenAll(job, rest) && RewrittenAll(job, rows)[0] == Rewritten(job, row);
      hide IsDue, Bytes, OldBytes, NewBytes, UnreadBytes, Rewritten;
    }
  }

  lemma RowAddsUp(job: Job, row: Row)
    requires job.apply && IsDue(job, row)
    ensures Bytes(job)(row) == OldBytes(job)(row) + UnreadBytes(job)(row)
    ensures Bytes(job)(Rewritten(job, row)) == NewBytes(job)(row) + UnreadBytes(job)(row)
  {
    var text := if Valid(job, row) then job.rewrite(row.text).value else row.text;
    assert Rewritten(job, row).text == text;
    assert OldBytes(job)(row) == if Valid(job, row) then job.byteLength(row.text) else 0;
    assert UnreadBytes(job)(row) == if Valid(job, row) then 0 else job.byteLength(row.text);
    assert NewBytes(job)(row) == if Valid(job, row) then job.byteLength(text) else 0;
  }
}
