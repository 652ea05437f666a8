/** Grouping message chunks into consecutive runs (`groupConsecutiveChunks` of
    scripts/maintenance/compact-session-history.ts). */
module HistoryGroups {

  /** A row of `session_messages`. The table is kept in the order the query reads it:
      by session, then by message index. */
  datatype Row = Row(id: string, session: string, index: int, eventType: string, payload: string, createdAt: int)

  // ----- grouping -----

  /** `row` continues the run that ends in `previous`. */
  predicate Follows(previous: Row, row: Row) {
    previous.session == row.session && previous.index == row.index - 1
  }

  function Last<T>(s: seq<T>): T
    requires s != []
  {
    s[|s| - 1]
  }

  function Front<T>(s: seq<T>): seq<T>
    requires s != []
  {
    s[..|s| - 1]
  }

  predicate NonEmpty(runs: seq<seq<Row>>) {
    forall k :: 0 <= k < |runs| ==> runs[k] != []
  }

  /** One step of the grouping loop. */
  function Place(runs: seq<seq<Row>>, row: Row): (r: seq<seq<Row>>)
    requires NonEmpty(runs)
    ensures r != [] && NonEmpty(r) && Last(Last(r)) == row
  {
    if runs == [] || !Follows(Last(Last(runs)), row) then runs + [[row]]
    else Front(runs) + [Last(runs) + [row]]
  }

  function Runs(rows: seq<Row>): (runs: seq<seq<Row>>)
    ensures NonEmpty(runs)
  {
    if rows == [] then [] else Place(Runs(Front(rows)), Last(rows))
  }

  /** The runs of at least two rows. */
  function Groups(runs: seq<seq<Row>>): seq<seq<Row>> {
    if runs == [] then [] else (if |runs[0]| > 1 then [runs[0]] else []) + Groups(runs[1..])
  }

  method GroupConsecutiveChunks(rows: seq<Row>) returns (groups: seq<seq<Row>>)
    ensures groups == Groups(Runs(rows))
  {
    groups := [];
    for i := 0 to |rows|
      invariant groups == Runs(rows[..i])
    {
      hide Runs, Follows;
      var row := rows[i];
      RunsOfOneMore(rows, i);
      if groups == [] || !Follows(Last(Last(groups)), row) {
        groups := groups + [[row]];
      } else {
        groups := Front(groups) + [Last(groups) + [row]];
      }
    }
    assert rows[..|rows|] == rows;
    groups := OfSeveralRows(groups);
  }

  lemma RunsOfOneMore(rows: seq<Row>, i: nat)
    requires i < |rows|
    ensures Runs(rows[..i + 1]) == Place(Runs(rows[..i]), rows[i])
  {
    assert Front(rows[..i + 1]) == rows[..i] && Last(rows[..i + 1]) == rows[i];
  }

  method OfSeveralRows(runs: seq<seq<Row>>) returns (groups: seq<seq<Row>>)
    ensures groups == Groups(runs)
  {
    groups := [];
    for i := 0 to |runs|
      invariant groups + Groups(runs[i..]) == Groups(runs)
    {
      assert runs[i..][1..] == runs[i + 1..];
      if |runs[i]| > 1 {
        groups := groups + [runs[i]];
      }
    }
  }

  function Concat(runs: seq<seq<Row>>): seq<Row> {
    if runs == [] then [] else runs[0] + Concat(runs[1..])
  }

  lemma {:induction false} ConcatInTwo(a: seq<seq<Row>>, b: seq<seq<Row>>)
    ensures Concat(a + b) == Concat(a) + Concat(b)
    decreases |a|
  {
    if a == [] {
      assert a + b == b;
    } else {
      assert (a + b)[1..] == a[1..] + b;
      ConcatInTwo(a[1..], b);
    }
  }

  lemma ConcatOne(run: seq<Row>)
    ensures Concat([run]) == run
  {
    assert Concat([run]) == run + Concat([]);
  }

  predicate IsRun(run: seq<Row>) {
    run != [] && forall k :: 0 < k < |run| ==> Follows(run[k - 1], run[k])
  }

  /** The runs cover `rows` in order, each is consecutive, and none can be extended by the next. */
  predicate MaximalRuns(runs: seq<seq<Row>>, rows: seq<Row>) {
    && Concat(runs) == rows
    && (forall k :: 0 <= k < |runs| ==> IsRun(runs[k]))
    && (forall k :: 0 < k < |runs| ==> !Follows(Last(runs[k - 1]), runs[k][0]))
  }

  lemma PlaceKeeps(runs: seq<seq<Row>>, rows: seq<Row>, row: Row)
    requires MaximalRuns(runs, rows)
    ensures NonEmpty(runs) && MaximalRuns(Place(runs, row), rows + [row])
  {
    if runs == [] || !Follows(Last(Last(runs)), row) {
      NewRun(runs, rows, row);
    } else {
      LongerRun(runs, rows, row);
    }
  }

  lemma NewRun(runs: seq<seq<Row>>, rows: seq<Row>, row: Row)
    requires MaximalRuns(runs, rows)
    requires runs == [] || (Last(runs) != [] && !Follows(Last(Last(runs)), row))
    ensures MaximalRuns(runs + [[row]], rows + [row])
  {
    hide Follows, Concat;
    ConcatOne([row]);
    ConcatInTwo(runs, [[row]]);
  }

  lemma LongerRun(runs: seq<seq<Row>>, rows: seq<Row>, row: Row)
    requires MaximalRuns(runs, rows) && runs != [] && Last(runs) != [] && Follows(Last(Last(runs)), row)
    ensures MaximalRuns(Front(runs) + [Last(runs) + [row]], rows + [row])
  {
    hide Follows, Concat;
    var front, last := Front(runs), Last(runs);
    var longer := front + [last + [row]];
    assert Concat(longer) == rows + [row] by {
      assert runs == front + [last];
      ConcatInTwo(front, [last]);
      ConcatInTwo(front, [last + [row]]);
      ConcatOne(last);
      ConcatOne(last + [row]);
    }
    forall k | 0 <= k < |longer| ensures IsRun(longer[k]) {
      assert IsRun(runs[k]);
    }
    forall k | 0 < k < |longer| ensures !Follows(Last(longer[k - 1]), longer[k][0]) {
      assert longer[k][0] == runs[k][0];
    }
  }

  /** Grouping cuts the rows into maximal consecutive runs of one session. */
  lemma {:induction false} RunsAreMaximal(rows: seq<Row>)
    ensures MaximalRuns(Runs(rows), rows)
  {
    if rows != [] {
      RunsAreMaximal(Front(rows));
      PlaceKeeps(Runs(Front(rows)), Front(rows), Last(rows));
      assert rows == Front(rows) + [Last(rows)];
    }
  }

  lemma {:induction false} RunsStep(runs: seq<seq<Row>>, rows: seq<Row>, run: seq<Row>)
    requires IsRun(run) && Runs(rows) == runs
    requires runs == [] || !Follows(Last(Last(runs)), run[0])
    ensures Runs(rows + run) == runs + [run]
    decreases |run|
  {
    hide Follows, Runs;
    if |run| == 1 {
      RunsOfSnoc(rows, run[0]);
      assert run == [run[0]];
    } else {
      var front, row := Front(run), Last(run);
      assert IsRun(front) && front[0] == run[0] && Follows(Last(front), row);
      RunsStep(runs, rows, front);
      RunsOfSnoc(rows + front, row);
      assert rows + run == rows + front + [row] && run == front + [row];
      Lengthens(runs, front, row);
    }
  }

  lemma Lengthens(runs: seq<seq<Row>>, run: seq<Row>, row: Row)
    requires run != [] && Follows(Last(run), row) && NonEmpty(runs)
    ensures NonEmpty(runs + [run]) && Place(runs + [run], row) == runs + [run + [row]]
  {
    assert Front(runs + [run]) == runs && Last(runs + [run]) == run;
  }

  lemma RunsOfSnoc(rows: seq<Row>, row: Row)
    ensures Runs(rows + [row]) == Place(Runs(rows), row)
  {
    assert Front(rows + [row]) == rows && Last(rows + [row]) == row;
  }

  /** There is only one way to do so. */
  lemma {:induction false} MaximalRunsUnique(runs: seq<seq<Row>>, rows: seq<Row>)
    requires MaximalRuns(runs, rows)
    ensures runs == Runs(rows)
    decreases |runs|
  {
    if runs != [] {
      var front, last := Front(runs), Last(runs);
      assert runs == front + [last];
      ConcatInTwo(front, [last]);
      ConcatOne(last);
      MaximalRunsUnique(front, Concat(front));
      RunsStep(front, Concat(front), last);
    }
  }
}
