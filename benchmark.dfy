/** The benchmark driver, `Main` of parallel-test/Program.cs (lines 50-104): five rounds whose
    request size starts at 100000 and grows tenfold, six producers per round, one
    `TestResult` per run, and the report in `OrderBy(p => p.Average)` order. The stopwatch
    readings and the item counts of the three concurrent producers are inputs. */
module Benchmark {
  import opened Workload
  import Producers
  import opened Measurement
  import opened Ranking

  /** `const int start = 100000`. */
  const Start: int := 100000
  /** `const int times = 5`. */
  const Times: nat := 5

  /** The fixed action list, in the order the driver runs it. */
  const Actions: seq<Action> := [
    SeqInsert,
    SeqPreAllocInsert,
    ParallelUnsafeInsert,
    ParallelLockInsert,
    ParallelThreadSafeInsert,
    ParallelPreAllocInsert
  ]

  /** The request size of round `r` (counting from 0). */
  function RoundQty(r: nat): (qty: int)
    ensures qty >= Start && qty % Start == 0
  {
    Start * Pow10(r)
  }

  /** Every request size the driver uses fits in `int`. */
  lemma RoundQtyFits(r: nat)
    requires r < Times
    ensures 0 < RoundQty(r) <= IntMax
  {
    assert Pow10(4) == 10000;
    Pow10Monotone(r, 4);
  }

  lemma {:induction false} Pow10Monotone(j: nat, k: nat)
    requires j <= k
    ensures Pow10(j) <= Pow10(k)
  {
    if j < k {
      Pow10Monotone(j, k - 1);
    }
  }

  /** C#'s unchecked `int` arithmetic: the value congruent to `x` modulo 2^32 in the `int` range.
      Unchecked is the C# compiler's default; a build with overflow checking turned on would
      instead throw `OverflowException` at `qty *= 10` after the last round. */
  function Wrap32(x: int): (r: Int32)
    ensures IntMin <= x <= IntMax ==> r == x
    ensures (x - r) % 0x1_0000_0000 == 0
  {
    (x - IntMin) % 0x1_0000_0000 + IntMin
  }

  /** The size schedule: `qty *= 10` goes from one round's size to the next, and after the
      last round it wraps around, to a value the driver never uses. */
  lemma QtySchedule(r: nat)
    requires r + 1 < Times
    ensures Wrap32(RoundQty(r) * 10) == RoundQty(r + 1)
  {
    RoundQtyFits(r + 1);
  }

  lemma QtyWrapsAfterLastRound()
    ensures RoundQty(Times - 1) * 10 > IntMax
    ensures Wrap32(RoundQty(Times - 1) * 10) == 1410065408
  {
    assert Pow10(4) == 10000;
  }

  /** The producers whose output this model computes: the two sequential ones and the indexed
      writes of `ParallelPreAllocInsert`. */
  predicate IsDeterministic(a: Action) {
    a == SeqInsert || a == SeqPreAllocInsert || a == ParallelPreAllocInsert
  }

  /** The concurrent producers that add under synchronisation: `ParallelLockInsert` adds under
      `lock (ret)` and `ParallelThreadSafeInsert` adds to a `ConcurrentBag`, so every add lands
      and only the order of the items depends on the scheduler. `ParallelUnsafeInsert`, whose
      unsynchronised `List.Add` calls can be lost, is the only producer whose count can fall
      short. */
  predicate KeepsEveryAdd(a: Action) {
    a == ParallelLockInsert || a == ParallelThreadSafeInsert
  }

  /** `action(qty)` followed by `Count()` on its result. For the three modelled producers the
      count is what their code yields; the three concurrent producers are not modelled, and their
      count is the observed one. `order` is the scheduler's processing order for
      `ParallelPreAllocInsert`. */
  method Execute(action: Action, qty: Int32, order: seq<int>, observed: nat) returns (count: nat)
    requires qty >= 0 && Producers.IsSchedule(order, qty)
    ensures IsDeterministic(action) ==> count == qty
    ensures !IsDeterministic(action) ==> count == observed
  {
    match action {
      case SeqInsert =>
        var ret := Producers.SeqInsert(qty);
        count := |ret|;
      case SeqPreAllocInsert =>
        var r := Producers.SeqPreAllocInsert(qty);
        count := r.value.Length;
      case ParallelPreAllocInsert =>
        var r := Producers.ParallelPreAllocInsert(qty, order);
        count := r.value.Length;
      case _ =>
        count := observed;
    }
  }

  /** `k == i * 6 + a` splits back into round `i` and action `a`. */
  lemma RoundMajor(i: nat, a: nat)
    requires a < |Actions|
    ensures (i * |Actions| + a) / |Actions| == i && (i * |Actions| + a) % |Actions| == a
  {
  }

  /** What `Main` records for its `k`-th run (`k` counting across rounds): the action
      `Actions[k mod 6]`, the size of round `k div 6`, that run's stopwatch reading, the item
      count (`qty` itself for a deterministic producer, the observed count otherwise) and
      `Assert == (count == qty)`. */
  ghost predicate RecordedRun(t: TestResult, k: nat, elapsed: seq<nat>, observed: seq<nat>)
    requires k < |elapsed| && k < |observed|
  {
    && t.execute == Actions[k % |Actions|]
    && t.qty == RoundQty(k / |Actions|)
    && t.elapsedTime == elapsed[k]
    && t.resultCount == (if IsDeterministic(t.execute) then t.qty else observed[k])
    && t.assertFlag == (t.resultCount == t.qty)
  }

  /** The item counts a run can observe: the synchronised producers yield every requested item. */
  ghost predicate ObservedCounts(observed: seq<nat>) {
    forall k :: 0 <= k < |observed| && KeepsEveryAdd(Actions[k % |Actions|]) ==>
      observed[k] == RoundQty(k / |Actions|)
  }

  /** The run phase of `Main` (lines 52-93). `elapsed[k]` and `observed[k]` are the stopwatch
      reading and, for a concurrent producer, the item count of the `k`-th run;
      `schedules[r]` is the processing order of `ParallelPreAllocInsert` in round `r`.
      The records come out round by round, in action-list order within a round, and every
      record but those of `ParallelUnsafeInsert` passes its `Assert`. */
  method RunRounds(elapsed: seq<nat>, observed: seq<nat>, schedules: seq<seq<int>>)
    returns (results: seq<TestResult>)
    requires |elapsed| == Times * |Actions| && |observed| == Times * |Actions|
    requires |schedules| == Times
    requires forall r :: 0 <= r < Times ==> Producers.IsSchedule(schedules[r], RoundQty(r))
    requires ObservedCounts(observed)
    ensures |results| == Times * |Actions|
    ensures forall k :: 0 <= k < |results| ==> RecordedRun(results[k], k, elapsed, observed)
    ensures forall k :: 0 <= k < |results| && results[k].execute != ParallelUnsafeInsert ==>
      results[k].assertFlag
  {
    results := [];
    var qty: Int32 := Start;
    var i := 0;
    while i < Times
      invariant 0 <= i <= Times
      invariant i < Times ==> qty == RoundQty(i)
      invariant |results| == i * |Actions|
      invariant forall k :: 0 <= k < |results| ==> RecordedRun(results[k], k, elapsed, observed)
    {
      RoundQtyFits(i);
      var a := 0;
      while a < |Actions|
        invariant 0 <= a <= |Actions|
        invariant qty == RoundQty(i)
        invariant |results| == i * |Actions| + a
        invariant forall k :: 0 <= k < |results| ==> RecordedRun(results[k], k, elapsed, observed)
      {
        var k := i * |Actions| + a;
        RoundMajor(i, a);
        var action := Actions[a];
        var count := Execute(action, qty, schedules[i], observed[k]);
        results := results + [TestResult(action, elapsed[k], count, qty, count == qty)];
        a := a + 1;
      }
      if i + 1 < Times {
        QtySchedule(i);
      }
      qty := Wrap32(qty * 10);
      i := i + 1;
    }
  }

  /** `Main` as a whole: the run phase, then the records in `OrderBy(p => p.Average)` order
      (line 98), which is a stable, sorted permutation of them. */
  method RunBenchmark(elapsed: seq<nat>, observed: seq<nat>, schedules: seq<seq<int>>)
    returns (results: seq<TestResult>, report: seq<TestResult>)
    requires |elapsed| == Times * |Actions| && |observed| == Times * |Actions|
    requires |schedules| == Times
    requires forall r :: 0 <= r < Times ==> Producers.IsSchedule(schedules[r], RoundQty(r))
    requires ObservedCounts(observed)
    ensures |results| == Times * |Actions|
    ensures forall k :: 0 <= k < |results| ==> RecordedRun(results[k], k, elapsed, observed)
    ensures forall k :: 0 <= k < |results| && results[k].execute != ParallelUnsafeInsert ==>
      results[k].assertFlag
    ensures report == OrderByAverage(results)
    ensures multiset(report) == multiset(results) && SortedByAverage(report)
    ensures forall k :: WithAverage(report, k) == WithAverage(results, k)
  {
    results := RunRounds(elapsed, observed, schedules);
    report := OrderByAverage(results);
    OrderByIsPermutation(results);
    OrderByIsSorted(results);
    forall k ensures WithAverage(report, k) == WithAverage(results, k) {
      OrderByIsStable(results, k);
    }
  }
}
