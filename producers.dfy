/** The deterministic producers of parallel-test/Program.cs: `SeqInsert` (lines 154-163),
    `SeqPreAllocInsert` (lines 165-174) and `ParallelPreAllocInsert` (lines 176-185). Each
    yields, for a request of `qty` items, the values `CalcIntValue(0), ..., CalcIntValue(qty - 1)`
    in index order. */
module Producers {
  import opened Workload

  /** `new int[qty]` throws `OverflowException` for a negative `qty`; the pre-allocating
      producers return that outcome instead of an array. */
  datatype Raises<T> = Returns(value: T) | OverflowException

  /** The number of items a request for `qty` can produce: a `for (i = 0; i < qty; i++)` loop
      runs no iteration for `qty <= 0`. */
  function Requested(qty: int): (n: nat) {
    if qty < 0 then 0 else qty
  }

  /** What every correct producer yields for `qty`: `qty` items, item `i` being `CalcIntValue(i)`. */
  ghost predicate IsExpected(s: seq<int>, qty: Int32) {
    |s| == Requested(qty) && forall i :: 0 <= i < |s| ==> s[i] == CalcIntValue(i)
  }

  /** There is only one such sequence, so producers that meet it agree element for element. */
  lemma {:induction false} ExpectedIsUnique(s: seq<int>, t: seq<int>, qty: Int32)
    requires IsExpected(s, qty) && IsExpected(t, qty)
    ensures s == t
  {
    assert |s| == |t|;
    forall i | 0 <= i < |s| ensures s[i] == t[i] {
      assert s[i] == CalcIntValue(i) == t[i];
    }
  }

  /** `SeqInsert`: appends `CalcIntValue(i)` to a growable list for `i = 0, 1, ..., qty - 1`. */
  method SeqInsert(qty: Int32) returns (ret: seq<int>)
    ensures |ret| == Requested(qty)
    ensures forall i :: 0 <= i < |ret| ==> ret[i] == CalcIntValue(i)
  {
    ret := [];
    var i := 0;
    while i < qty
      invariant 0 <= i <= Requested(qty)
      invariant |ret| == i
      invariant forall j :: 0 <= j < i ==> ret[j] == CalcIntValue(j)
    {
      var v := CalcIntValue(i);
      ret := ret + [v];
      i := i + 1;
    }
  }

  /** `SeqPreAllocInsert`: allocates `int[qty]` and fills slot `i` with `CalcIntValue(i)` in
      index order. */
  method SeqPreAllocInsert(qty: Int32) returns (r: Raises<array<int>>)
    ensures r.OverflowException? <==> qty < 0
    ensures r.Returns? ==> fresh(r.value) && r.value.Length == qty
    ensures r.Returns? ==> forall i :: 0 <= i < qty ==> r.value[i] == CalcIntValue(i)
  {
    if qty < 0 {
      return OverflowException;
    }
    var ret := new int[qty](_ => 0);
    var i := 0;
    while i < qty
      invariant 0 <= i <= qty
      invariant forall j :: 0 <= j < i ==> ret[j] == CalcIntValue(j)
    {
      ret[i] := CalcIntValue(i);
      i := i + 1;
    }
    return Returns(ret);
  }

  /** A processing order that `Parallel.For(0, qty, ...)` may choose: every index of
      `[0, qty)` occurs, exactly once, and nothing else occurs. */
  ghost predicate IsSchedule(order: seq<int>, qty: int) {
    && (forall k :: 0 <= k < |order| ==> 0 <= order[k] < qty)
    && (forall k, l :: 0 <= k < l < |order| ==> order[k] != order[l])
    && (forall i :: 0 <= i < qty ==> i in order)
  }

  /** The index order of a sequential `for` loop is one such schedule. */
  function Ascending(qty: nat): (order: seq<int>)
    ensures IsSchedule(order, qty)
  {
    var order := seq(qty, k => k);
    AscendingCovers(order, qty);
    order
  }

  lemma AscendingCovers(order: seq<int>, qty: nat)
    requires order == seq(qty, k => k)
    ensures forall i :: 0 <= i < qty ==> i in order
  {
    forall i | 0 <= i < qty ensures i in order {
      assert order[i] == i;
    }
  }

  /** So is the reverse order. */
  function Descending(qty: nat): (order: seq<int>)
    ensures IsSchedule(order, qty)
  {
    var order := seq(qty, k => qty - 1 - k);
    DescendingCovers(order, qty);
    order
  }

  lemma DescendingCovers(order: seq<int>, qty: nat)
    requires order == seq(qty, k => qty - 1 - k)
    ensures forall i :: 0 <= i < qty ==> i in order
  {
    forall i | 0 <= i < qty ensures i in order {
      assert order[qty - 1 - i] == i;
    }
  }

  /** The writes `ret[i] = CalcIntValue(i)` performed in the given order on the array `a`. */
  function IndexedWrites(a: seq<int>, order: seq<int>): (r: seq<int>)
    requires |a| <= IntMax + 1 && forall k :: 0 <= k < |order| ==> 0 <= order[k] < |a|
    ensures |r| == |a|
  {
    if order == [] then a
    else
      var last := order[|order| - 1];
      IndexedWrites(a, order[..|order| - 1])[last := CalcIntValue(last)]
  }

  /** A slot holds `CalcIntValue` of its index when the index was written, its old value
      otherwise. */
  lemma {:induction false} IndexedWritesAt(a: seq<int>, order: seq<int>, i: int)
    requires |a| <= IntMax + 1 && forall k :: 0 <= k < |order| ==> 0 <= order[k] < |a|
    requires 0 <= i < |a|
    ensures IndexedWrites(a, order)[i] == if i in order then CalcIntValue(i) else a[i]
  {
    if order != [] {
      var init := order[..|order| - 1];
      assert order == init + [order[|order| - 1]];
      assert i in order <==> i in init || i == order[|order| - 1];
      IndexedWritesAt(a, init, i);
    }
  }

  /** Writing every slot of a zeroed array once, in any schedule, gives the expected items. */
  lemma {:induction false} ScheduledWritesExpected(order: seq<int>, qty: Int32)
    requires qty >= 0 && IsSchedule(order, qty)
    ensures IsExpected(IndexedWrites(seq(qty, _ => 0), order), qty)
  {
    var r := IndexedWrites(seq(qty, _ => 0), order);
    forall i | 0 <= i < qty ensures r[i] == CalcIntValue(i) {
      IndexedWritesAt(seq(qty, _ => 0), order, i);
    }
  }

  /** The outcome of the indexed writes does not depend on the order the scheduler picks. */
  lemma OrderIndependent(order1: seq<int>, order2: seq<int>, qty: Int32)
    requires qty >= 0 && IsSchedule(order1, qty) && IsSchedule(order2, qty)
    ensures IndexedWrites(seq(qty, _ => 0), order1) == IndexedWrites(seq(qty, _ => 0), order2)
  {
    ScheduledWritesExpected(order1, qty);
    ScheduledWritesExpected(order2, qty);
    ExpectedIsUnique(IndexedWrites(seq(qty, _ => 0), order1),
                     IndexedWrites(seq(qty, _ => 0), order2), qty);
  }

  /** A schedule has exactly `qty` entries: `Parallel.For` runs the body `qty` times. */
  lemma ScheduleLength(order: seq<int>, qty: nat)
    requires IsSchedule(order, qty)
    ensures |order| == qty
  {
    DistinctCardinality(order);
    IndicesCardinality(qty);
    forall x ensures x in order <==> x in Indices(qty) {
      IndicesMembers(qty, x);
    }
    assert (set x | x in order) == Indices(qty);
  }

  lemma {:induction false} DistinctCardinality(s: seq<int>)
    requires forall k, l :: 0 <= k < l < |s| ==> s[k] != s[l]
    ensures |set x | x in s| == |s|
  {
    if s != [] {
      var init := s[..|s| - 1];
      var last := s[|s| - 1];
      assert s == init + [last];
      assert last !in init;
      assert (set x | x in s) == (set x | x in init) + {last};
      DistinctCardinality(init);
    }
  }

  /** The set `{0, ..., n - 1}`. */
  function Indices(n: nat): (s: set<int>) {
    if n == 0 then {} else Indices(n - 1) + {n - 1}
  }

  lemma {:induction false} IndicesMembers(n: nat, x: int)
    ensures x in Indices(n) <==> 0 <= x < n
  {
    if n > 0 {
      IndicesMembers(n - 1, x);
    }
  }

  lemma {:induction false} IndicesCardinality(n: nat)
    ensures |Indices(n)| == n
  {
    if n > 0 {
      IndicesMembers(n - 1, n - 1);
      IndicesCardinality(n - 1);
    }
  }

  /** `ParallelPreAllocInsert`: allocates `int[qty]`, then `Parallel.For(0, qty, ...)` writes
      `ret[i] = CalcIntValue(i)`; every body touches only its own slot. The worker threads are
      modelled by `order`, the sequence in which the bodies take effect. */
  method ParallelPreAllocInsert(qty: Int32, order: seq<int>) returns (r: Raises<array<int>>)
    requires IsSchedule(order, qty)
    ensures r.OverflowException? <==> qty < 0
    ensures r.Returns? ==> fresh(r.value) && r.value.Length == qty
    ensures r.Returns? ==> r.value[..] == IndexedWrites(seq(qty, _ => 0), order)
    ensures r.Returns? ==> forall i :: 0 <= i < qty ==> r.value[i] == CalcIntValue(i)
  {
    if qty < 0 {
      return OverflowException;
    }
    var ret := new int[qty](_ => 0);
    var k := 0;
    while k < |order|
      invariant 0 <= k <= |order|
      invariant ret[..] == IndexedWrites(seq(qty, _ => 0), order[..k])
    {
      assert order[..k + 1][..k] == order[..k];
      ret[order[k]] := CalcIntValue(order[k]);
      k := k + 1;
    }
    assert order[..|order|] == order;
    ScheduledWritesExpected(order, qty);
    return Returns(ret);
  }
}
