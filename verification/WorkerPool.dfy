/** `mapWithConcurrency` (scripts/office-wasm-reader/export-pptx-direct-cursor-canvas.ts): workers
    share one counter, and any of the awaited mapper calls may settle next. */
module WorkerPool {
  import opened Options

  /** What a mapper call settles to. */
  type Outcome<R> = Result<R, string>

  datatype Worker = Awaiting(index: nat) | Returned | Threw(index: nat)

  datatype Pool<R> = Pool(
    nextIndex: nat,
    results: seq<Option<R>>,     // None is a hole of the array
    workers: seq<Worker>,
    rejected: Option<string>,    // the first error, which `Promise.all` rejects with
    claims: seq<nat>,            // history: the indices handed to the mapper, in order
    owner: seq<nat>)             // history: which worker claimed each index

  function Claimed<R>(p: Pool<R>): nat {
    if p.nextIndex < |p.results| then p.nextIndex else |p.results|
  }

  /** `const index = nextIndex++; if (index >= values.length) return;` and the mapper call. */
  function Claim<R>(p: Pool<R>, w: nat): Pool<R>
    requires w < |p.workers|
  {
    if p.nextIndex >= |p.results| then p.(nextIndex := p.nextIndex + 1, workers := p.workers[w := Returned])
    else p.(nextIndex := p.nextIndex + 1,
            workers := p.workers[w := Awaiting(p.nextIndex)],
            claims := p.claims + [p.nextIndex],
            owner := p.owner + [w])
  }

  function Empty<R>(n: nat): Pool<R> {
    Pool(0, seq(n, _ => None), [], None, [], [])
  }

  /** Workers are started one after the other; each runs up to its first `await`. */
  function Start<R>(empty: Pool<R>, count: nat): (p: Pool<R>)
    ensures |p.results| == |empty.results|
  {
    if count == 0 then empty
    else
      var p := Start(empty, count - 1);
      Claim(p.(workers := p.workers + [Returned]), |p.workers|)
  }

  /** `Array.from({ length: Math.min(concurrency, values.length) })` */
  function WorkerCount(concurrency: int, n: nat): nat {
    if concurrency <= 0 then 0 else if concurrency < n then concurrency else n
  }

  /** The mapper call worker `w` awaits settles. */
  function Settle<R>(p: Pool<R>, w: nat, outcomes: seq<Outcome<R>>): Pool<R>
    requires |outcomes| == |p.results|
  {
    if w >= |p.workers| || !p.workers[w].Awaiting? || p.workers[w].index >= |p.results| then p
    else
      var i := p.workers[w].index;
      match outcomes[i]
      case Ok(value) => Claim(p.(results := p.results[i := Some(value)]), w)
      case Err(error) => p.(workers := p.workers[w := Threw(i)],
                            rejected := if p.rejected.Some? then p.rejected else Some(error))
  }

  /** A run: the order in which awaited calls settle, by worker. */
  function Run<R>(p: Pool<R>, schedule: seq<nat>, outcomes: seq<Outcome<R>>): (q: Pool<R>)
    requires |outcomes| == |p.results|
    ensures |q.results| == |p.results|
    decreases |schedule|
  {
    if schedule == [] then p else Run(Settle(p, schedule[0], outcomes), schedule[1..], outcomes)
  }

  function InFlight(workers: seq<Worker>): nat {
    if workers == [] then 0
    else InFlight(workers[..|workers| - 1]) + (if workers[|workers| - 1].Awaiting? then 1 else 0)
  }

  predicate Quiet<R>(p: Pool<R>) {
    forall w :: 0 <= w < |p.workers| ==> !p.workers[w].Awaiting?
  }

  predicate AllReturned<R>(p: Pool<R>) {
    forall w :: 0 <= w < |p.workers| ==> p.workers[w].Returned?
  }

  /** The pool's promise has resolved: every worker's promise has. */
  predicate Resolved<R>(p: Pool<R>) {
    p.rejected.None? && AllReturned(p)
  }

  predicate AllOk<R>(outcomes: seq<Outcome<R>>) {
    forall i :: 0 <= i < |outcomes| ==> outcomes[i].Ok?
  }

  /** `values.map(mapper)` for outcomes that are all values. */
  function SequentialMap<R>(outcomes: seq<Outcome<R>>): seq<Option<R>>
    requires AllOk(outcomes)
  {
    seq(|outcomes|, i requires 0 <= i < |outcomes| => Some(outcomes[i].value))
  }

  // ----- what every run keeps -----

  ghost predicate ClaimsInOrder<R>(p: Pool<R>) {
    && |p.claims| == |p.owner| == Claimed(p)
    && (forall k :: 0 <= k < |p.claims| ==> p.claims[k] == k)
    && (forall k :: 0 <= k < |p.owner| ==> p.owner[k] < |p.workers|)
  }

  /** A worker works on an index it claimed, which no result fills yet. */
  ghost predicate WorkersOnOwn<R>(p: Pool<R>, outcomes: seq<Outcome<R>>)
    requires |outcomes| == |p.results|
  {
    forall w :: 0 <= w < |p.workers| ==>
      match p.workers[w]
      case Awaiting(i) => i < |p.owner| && p.owner[i] == w && i < |p.results| && p.results[i].None?
      case Threw(i) => i < |p.results| && outcomes[i].Err? && p.rejected.Some?
      case Returned => p.nextIndex > |p.results|
  }

  /** An index is filled with its own value, or its owner is still on it, or nobody claimed it. */
  ghost predicate ResultsOwn<R>(p: Pool<R>, outcomes: seq<Outcome<R>>)
    requires |outcomes| == |p.results|
  {
    forall i :: 0 <= i < |p.results| ==>
      if p.results[i].Some? then outcomes[i] == Ok(p.results[i].value) && i < |p.owner|
      else i < |p.owner| ==>
             p.owner[i] < |p.workers| && (p.workers[p.owner[i]] == Awaiting(i) || p.workers[p.owner[i]] == Threw(i))
  }

  ghost predicate RejectionGenuine<R>(p: Pool<R>, outcomes: seq<Outcome<R>>) {
    p.rejected.Some? ==> exists i :: 0 <= i < |outcomes| && outcomes[i] == Err(p.rejected.value)
  }

  ghost predicate Inv<R>(p: Pool<R>, outcomes: seq<Outcome<R>>) {
    && |outcomes| == |p.results|
    && ClaimsInOrder(p) && WorkersOnOwn(p, outcomes) && ResultsOwn(p, outcomes) && RejectionGenuine(p, outcomes)
  }

  /** Claiming for a worker that has nothing in hand. */
  lemma ClaimKeeps<R>(p: Pool<R>, w: nat, outcomes: seq<Outcome<R>>)
    requires |outcomes| == |p.results| && w < |p.workers|
    requires ClaimsInOrder(p) && RejectionGenuine(p, outcomes)
    requires forall v :: 0 <= v < |p.workers| && v != w ==>
               match p.workers[v]
               case Awaiting(i) => i < |p.owner| && p.owner[i] == v && i < |p.results| && p.results[i].None?
               case Threw(i) => i < |p.results| && outcomes[i].Err? && p.rejected.Some?
               case Returned => p.nextIndex > |p.results|
    requires forall i :: 0 <= i < |p.results| ==>
               if p.results[i].Some? then outcomes[i] == Ok(p.results[i].value) && i < |p.owner|
               else i < |p.owner| ==>
                      p.owner[i] < |p.workers| && p.owner[i] != w
                      && (p.workers[p.owner[i]] == Awaiting(i) || p.workers[p.owner[i]] == Threw(i))
    ensures Inv(Claim(p, w), outcomes)
  {
  }

  /** One more worker starts. */
  lemma LaunchKeeps<R>(p: Pool<R>, outcomes: seq<Outcome<R>>)
    requires Inv(p, outcomes)
    ensures Inv(Claim(p.(workers := p.workers + [Returned]), |p.workers|), outcomes)
  {
    ClaimKeeps(p.(workers := p.workers + [Returned]), |p.workers|, outcomes);
  }

  lemma EmptyHolds<R>(n: nat, outcomes: seq<Outcome<R>>)
    requires |outcomes| == n
    ensures Inv(Empty<R>(n), outcomes) && Empty<R>(n).workers == []
  {
  }

  lemma {:induction false} StartKeeps<R>(n: nat, count: nat, outcomes: seq<Outcome<R>>)
    requires |outcomes| == n
    ensures Inv(Start(Empty<R>(n), count), outcomes) && |Start(Empty<R>(n), count).workers| == count
    decreases count
  {
    hide Inv, Empty;
    if count == 0 {
      EmptyHolds(n, outcomes);
    } else {
      StartKeeps(n, count - 1, outcomes);
      LaunchKeeps(Start(Empty<R>(n), count - 1), outcomes);
    }
  }

  lemma SettleKeeps<R>(p: Pool<R>, w: nat, outcomes: seq<Outcome<R>>)
    requires Inv(p, outcomes)
    ensures Inv(Settle(p, w, outcomes), outcomes) && |Settle(p, w, outcomes).workers| == |p.workers|
  {
    if w < |p.workers| && p.workers[w].Awaiting? && p.workers[w].index < |p.results| {
      var i := p.workers[w].index;
      match outcomes[i] {
        case Ok(value) =>
          var filled := p.(results := p.results[i := Some(value)]);
          ClaimKeeps(filled, w, outcomes);
        case Err(error) =>
          assert p.rejected.None? ==> outcomes[i] == Err(error);
      }
    }
  }

  lemma {:induction false} RunKeeps<R>(p: Pool<R>, schedule: seq<nat>, outcomes: seq<Outcome<R>>)
    requires Inv(p, outcomes)
    ensures Inv(Run(p, schedule, outcomes), outcomes) && |Run(p, schedule, outcomes).workers| == |p.workers|
    decreases |schedule|
  {
    if schedule != [] {
      SettleKeeps(p, schedule[0], outcomes);
      RunKeeps(Settle(p, schedule[0], outcomes), schedule[1..], outcomes);
    }
  }

  /** In every reachable state: the mapper has been called once for each index claimed, in index
      order, and at most min(concurrency, n) calls are in flight. */
  lemma ClaimedOnceAndBounded<R>(concurrency: int, schedule: seq<nat>, outcomes: seq<Outcome<R>>)
    ensures var p := Run(Start(Empty<R>(|outcomes|), WorkerCount(concurrency, |outcomes|)), schedule, outcomes);
            && (forall k :: 0 <= k < |p.claims| ==> p.claims[k] == k)
            && |p.claims| <= |outcomes|
            && InFlight(p.workers) <= WorkerCount(concurrency, |outcomes|)
  {
    StartKeeps(|outcomes|, WorkerCount(concurrency, |outcomes|), outcomes);
    RunKeeps(Start(Empty<R>(|outcomes|), WorkerCount(concurrency, |outcomes|)), schedule, outcomes);
    var p := Run(Start(Empty<R>(|outcomes|), WorkerCount(concurrency, |outcomes|)), schedule, outcomes);
    InFlightBounded(p.workers);
  }

  lemma {:induction false} InFlightBounded(workers: seq<Worker>)
    ensures InFlight(workers) <= |workers|
    decreases |workers|
  {
    if workers != [] {
      InFlightBounded(workers[..|workers| - 1]);
    }
  }

  // ----- termination -----

  /** Indices not claimed yet, plus calls in flight. */
  function Left<R>(p: Pool<R>): nat {
    |p.results| - Claimed(p) + InFlight(p.workers)
  }

  lemma {:induction false} InFlightUpdate(workers: seq<Worker>, w: nat, to: Worker)
    requires w < |workers|
    ensures InFlight(workers[w := to]) + (if workers[w].Awaiting? then 1 else 0) == InFlight(workers) + (if to.Awaiting? then 1 else 0)
    decreases |workers|
  {
    var last := |workers| - 1;
    if w == last {
      assert workers[w := to][..last] == workers[..last];
    } else {
      assert workers[w := to][..last] == workers[..last][w := to];
      InFlightUpdate(workers[..last], w, to);
    }
  }

  /** Every call that settles brings the end one step nearer, so a run of n settlements is over. */
  lemma SettlingProgresses<R>(p: Pool<R>, w: nat, outcomes: seq<Outcome<R>>)
    requires Inv(p, outcomes) && w < |p.workers| && p.workers[w].Awaiting?
    ensures Left(Settle(p, w, outcomes)) == Left(p) - 1
  {
    var i := p.workers[w].index;
    var q := Settle(p, w, outcomes);
    InFlightUpdate(p.workers, w, q.workers[w]);
    assert q.workers == p.workers[w := q.workers[w]];
  }

  // ----- the result -----

  /** When nothing is in flight any more, whatever the order of completion: the pool has resolved
      exactly when every mapper call gives a value, with the array the sequential map gives; and
      otherwise it has rejected with the error of one of the calls. */
  lemma PoolIsSequentialMap<R>(concurrency: int, schedule: seq<nat>, outcomes: seq<Outcome<R>>)
    requires concurrency >= 1
    requires Quiet(Run(Start(Empty<R>(|outcomes|), WorkerCount(concurrency, |outcomes|)), schedule, outcomes))
    ensures var p := Run(Start(Empty<R>(|outcomes|), WorkerCount(concurrency, |outcomes|)), schedule, outcomes);
            && (Resolved(p) <==> AllOk(outcomes))
            && (AllOk(outcomes) ==> p.results == SequentialMap(outcomes) && |p.claims| == |outcomes|)
            && (!AllOk(outcomes) ==> p.rejected.Some? && exists i :: 0 <= i < |outcomes| && outcomes[i] == Err(p.rejected.value))
  {
    var count := WorkerCount(concurrency, |outcomes|);
    StartKeeps(|outcomes|, count, outcomes);
    RunKeeps(Start(Empty<R>(|outcomes|), count), schedule, outcomes);
    QuietPool(Run(Start(Empty<R>(|outcomes|), count), schedule, outcomes), outcomes);
  }

  lemma QuietPool<R>(p: Pool<R>, outcomes: seq<Outcome<R>>)
    requires Inv(p, outcomes) && Quiet(p)
    requires |p.workers| == 0 ==> |outcomes| == 0
    ensures Resolved(p) <==> AllOk(outcomes)
    ensures AllOk(outcomes) ==> p.results == SequentialMap(outcomes) && |p.claims| == |outcomes|
    ensures !AllOk(outcomes) ==> p.rejected.Some? && exists i :: 0 <= i < |outcomes| && outcomes[i] == Err(p.rejected.value)
  {
    if p.rejected.None? {
      forall w | 0 <= w < |p.workers| ensures p.workers[w].Returned? { assert !p.workers[w].Awaiting?; }
      assert |p.workers| > 0 ==> p.workers[0].Returned?;
      assert |p.owner| == |outcomes|;
      forall i | 0 <= i < |outcomes| ensures p.results[i].Some? && outcomes[i] == Ok(p.results[i].value) {
        assert p.owner[i] < |p.workers|;
      }
    }
  }

  /** The error of the first call that settles with one. */
  function FirstError<R>(p: Pool<R>, schedule: seq<nat>, outcomes: seq<Outcome<R>>): Option<string>
    requires |outcomes| == |p.results|
    decreases |schedule|
  {
    if schedule == [] then None
    else
      var w := schedule[0];
      if w < |p.workers| && p.workers[w].Awaiting? && p.workers[w].index < |outcomes| && outcomes[p.workers[w].index].Err?
      then Some(outcomes[p.workers[w].index].error)
      else FirstError(Settle(p, w, outcomes), schedule[1..], outcomes)
  }

  /** The pool rejects with the first error in the order of completion, and no later one replaces it. */
  lemma {:induction false} FirstErrorRejects<R>(p: Pool<R>, schedule: seq<nat>, outcomes: seq<Outcome<R>>)
    requires |outcomes| == |p.results|
    ensures Run(p, schedule, outcomes).rejected ==
            if p.rejected.Some? then p.rejected else FirstError(p, schedule, outcomes)
    decreases |schedule|
  {
    if schedule != [] {
      FirstErrorRejects(Settle(p, schedule[0], outcomes), schedule[1..], outcomes);
    }
  }

  /** A rejection stops only the worker that threw: when nothing is in flight any more, every value
      computed stands at its index and every error left a hole, and an index was not computed only
      if every worker threw. */
  lemma OthersGoOn<R>(p: Pool<R>, outcomes: seq<Outcome<R>>)
    requires Inv(p, outcomes) && Quiet(p)
    ensures forall i :: 0 <= i < |outcomes| ==>
              p.results[i] == if i < |p.claims| && outcomes[i].Ok? then Some(outcomes[i].value) else None
    ensures |p.claims| < |outcomes| ==> forall w :: 0 <= w < |p.workers| ==> p.workers[w].Threw?
  {
    forall i | 0 <= i < |p.claims|
      ensures p.results[i] == if outcomes[i].Ok? then Some(outcomes[i].value) else None
    {
      assert p.owner[i] < |p.workers| && !p.workers[p.owner[i]].Awaiting?;
    }
    forall w | 0 <= w < |p.workers| && |p.claims| < |outcomes| ensures p.workers[w].Threw? {
      assert !p.workers[w].Awaiting?;
    }
  }

  /** With no worker the pool resolves at once with an array of holes: the result is the sequential
      map exactly when the concurrency is positive or there is nothing to map. */
  lemma WholeIffConcurrent<R>(concurrency: int, schedule: seq<nat>, outcomes: seq<Outcome<R>>)
    requires AllOk(outcomes)
    requires Quiet(Run(Start(Empty<R>(|outcomes|), WorkerCount(concurrency, |outcomes|)), schedule, outcomes))
    ensures var p := Run(Start(Empty<R>(|outcomes|), WorkerCount(concurrency, |outcomes|)), schedule, outcomes);
            Resolved(p) && (p.results == SequentialMap(outcomes) <==> concurrency >= 1 || outcomes == [])
  {
    if concurrency >= 1 {
      PoolIsSequentialMap(concurrency, schedule, outcomes);
    } else {
      IdleRun(Empty<R>(|outcomes|), schedule, outcomes);
      if outcomes != [] { assert SequentialMap(outcomes)[0].Some?; }
    }
  }

  lemma {:induction false} IdleRun<R>(p: Pool<R>, schedule: seq<nat>, outcomes: seq<Outcome<R>>)
    requires p.workers == [] && |outcomes| == |p.results|
    ensures Run(p, schedule, outcomes) == p
    decreases |schedule|
  {
    if schedule != [] {
      IdleRun(p, schedule[1..], outcomes);
    }
  }

  // ----- the function itself -----

  /** `mapWithConcurrency`: the shared counter, the array filled in place, and a scheduler that may
      let any awaited call settle next. */
  class MapWithConcurrency<T, R> {
    const values: seq<T>
    const mapper: (T, nat) -> Outcome<R>
    const results: array<Option<R>>
    var nextIndex: nat
    var workers: seq<Worker>
    var rejected: Option<string>
    ghost var claims: seq<nat>
    ghost var owner: seq<nat>

    ghost function View(): Pool<R>
      reads this, results
    {
      Pool(nextIndex, results[..], workers, rejected, claims, owner)
    }

    ghost function Outcomes(): (o: seq<Outcome<R>>)
      ensures |o| == |values|
    {
      seq(|values|, i requires 0 <= i < |values| => mapper(values[i], i))
    }

    constructor (values: seq<T>, mapper: (T, nat) -> Outcome<R>)
      ensures View() == Empty(|values|) && this.values == values && this.mapper == mapper && fresh(results)
    {
      this.values, this.mapper := values, mapper;
      results := new Option<R>[|values|](_ => None);
      nextIndex, workers, rejected, claims, owner := 0, [], None, [], [];
      new;
      assert results[..] == seq(|values|, _ => None);
    }

    /** One turn of a worker's loop, up to the `await`. */
    method Turn(w: nat)
      requires w < |workers| && results.Length == |values|
      modifies this
      ensures View() == Claim(old(View()), w)
    {
      var index := nextIndex;
      nextIndex := nextIndex + 1;
      if index >= |values| {
        workers := workers[w := Returned];
        return;
      }
      workers := workers[w := Awaiting(index)];
      claims := claims + [index];
      owner := owner + [w];
    }

    method Launch(concurrency: int)
      requires View() == Empty(|values|)
      modifies this
      ensures View() == Start(Empty(|values|), WorkerCount(concurrency, |values|))
    {
      for k := 0 to WorkerCount(concurrency, |values|)
        invariant View() == Start(Empty(|values|), k) && |workers| == k
        invariant results.Length == |values|
      {
        workers := workers + [Returned];
        Turn(k);
      }
    }

    method OnSettled(w: nat)
      requires results.Length == |values|
      modifies this, results
      ensures View() == Settle(old(View()), w, Outcomes())
    {
      if w >= |workers| || !workers[w].Awaiting? || workers[w].index >= |values| {
        return;
      }
      var index := workers[w].index;
      match mapper(values[index], index) {
        case Ok(value) =>
          results[index] := Some(value);
          Turn(w);
        case Err(error) =>
          workers := workers[w := Threw(index)];
          if rejected.None? {
            rejected := Some(error);
          }
      }
    }

    /** Run to the end under an arbitrary scheduler. */
    method Run(concurrency: int)
      requires View() == Empty(|values|) && concurrency >= 1
      modifies this, results
      ensures Quiet(View())
      ensures Resolved(View()) <==> AllOk(Outcomes())
      ensures AllOk(Outcomes()) ==> results[..] == SequentialMap(Outcomes())
      ensures claims == seq(|claims|, i => i)
      ensures AllOk(Outcomes()) ==> |claims| == |values|
    {
      Launch(concurrency);
      StartKeeps(|values|, WorkerCount(concurrency, |values|), Outcomes());
      while exists w :: 0 <= w < |workers| && workers[w].Awaiting?
        invariant Inv(View(), Outcomes()) && |workers| == WorkerCount(concurrency, |values|)
        decreases Left(View())
      {
        var w: nat :| w < |workers| && workers[w].Awaiting?;
        SettleKeeps(View(), w, Outcomes());
        SettlingProgresses(View(), w, Outcomes());
        OnSettled(w);
      }
      QuietPool(View(), Outcomes());
    }
  }
}
