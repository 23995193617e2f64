/** The measurement record `TestResult` of parallel-test/Program.cs (lines 14-48) and its
    throughput `Average` (line 23). */
module Measurement {

  /** The six producers of the fixed action list, by the method name the report prints. */
  datatype Action =
    | SeqInsert
    | SeqPreAllocInsert
    | ParallelUnsafeInsert
    | ParallelLockInsert
    | ParallelThreadSafeInsert
    | ParallelPreAllocInsert

  /** One run of one producer: which producer (`Execute`), the measured milliseconds
      (`ElapsedTime`, a `long`), how many items it produced (`Result.Count()`), how many were
      requested (`Qty`) and whether the two agree (`Assert`). */
  datatype TestResult = TestResult(
    execute: Action,
    elapsedTime: int,
    resultCount: nat,
    qty: int,
    assertFlag: bool)

  /** `Math.Round(n / d, 0)` on `decimal` values, in its default mode `MidpointRounding.ToEven`:
      the integer nearest to `n / d`, and the even one of the two when `n / d` lies halfway. */
  function RoundHalfEven(n: nat, d: nat): (r: nat)
    requires d >= 1
    ensures 2 * n - d <= 2 * r * d <= 2 * n + d
    ensures (2 * r * d == 2 * n - d || 2 * r * d == 2 * n + d) ==> r % 2 == 0
  {
    var q, m := n / d, n % d;
    assert n == q * d + m;
    assert 2 * q * d == 2 * (q * d);
    assert 2 * (q + 1) * d == 2 * (q * d) + 2 * d;
    if 2 * m < d then q
    else if 2 * m > d then q + 1
    else if q % 2 == 0 then q
    else q + 1
  }

  /** The two properties of `RoundHalfEven` determine its result: no other integer is as near
      to `n / d` and, at a midpoint, even. */
  lemma RoundHalfEvenUnique(n: nat, d: nat, r: int)
    requires d >= 1
    requires 2 * n - d <= 2 * r * d <= 2 * n + d
    requires (2 * r * d == 2 * n - d || 2 * r * d == 2 * n + d) ==> r % 2 == 0
    ensures r == RoundHalfEven(n, d)
  {
    var e := RoundHalfEven(n, d);
    var k := r - e;
    assert 2 * r * d - 2 * e * d == 2 * (k * d);
    UnitFactor(k, d);
    assert k == 1 ==> k * d == d;
    assert k == -1 ==> k * d == -(d as int);
  }

  /** A multiple `k * d` of a positive `d` that lies within `[-d, d]` has `|k| <= 1`. */
  lemma UnitFactor(k: int, d: int)
    requires d >= 1 && -d <= k * d <= d
    ensures -1 <= k <= 1
  {
    assert (k - 1) * d == k * d - d;
    assert (k + 1) * d == k * d + d;
  }

  function Max(a: int, b: int): (m: int) {
    if a >= b then a else b
  }

  /** `TestResult.Average`: produced items per millisecond, with the elapsed time floored at
      1 ms by `Math.Max(ElapsedTime, 1)`, rounded to a whole number. A run measured at 0 ms
      (or less) yields its item count, and the throughput never exceeds the item count.
      The quotient is rounded exactly: for an `int` item count the 28-digit `decimal`
      division cannot move a quotient onto or off a midpoint, since a quotient that is not a
      midpoint lies at least `1 / (2 * d)` away from one. */
  function Average(t: TestResult): (r: nat)
    ensures t.elapsedTime <= 1 ==> r == t.resultCount
    ensures r <= t.resultCount
    ensures t.elapsedTime >= 1 ==>
      2 * t.resultCount - t.elapsedTime <= 2 * r * t.elapsedTime <= 2 * t.resultCount + t.elapsedTime
    ensures t.elapsedTime >= 1 ==>
      (2 * r * t.elapsedTime == 2 * t.resultCount - t.elapsedTime ||
       2 * r * t.elapsedTime == 2 * t.resultCount + t.elapsedTime) ==> r % 2 == 0
  {
    var d := Max(t.elapsedTime, 1);
    var r := RoundHalfEven(t.resultCount, d);
    AtMostNumerator(t.resultCount, d, r);
    r
  }

  /** A nonnegative number rounded after division by `d >= 1` does not exceed the number. */
  lemma AtMostNumerator(n: nat, d: nat, r: nat)
    requires d >= 1 && 2 * r * d <= 2 * n + d
    ensures r <= n
  {
    if r >= 1 {
      assert (2 * r - 1) * d == 2 * r * d - d;
      assert (2 * r - 1) * d >= 2 * r - 1;
    }
  }

  /** A 0 ms run of 1000 items, two midpoints (2.5 and 3.5) and a plain rounding (3.33...). */
  lemma AverageExamples()
    ensures Average(TestResult(SeqInsert, 0, 1000, 1000, true)) == 1000
    ensures Average(TestResult(SeqInsert, 4, 10, 10, true)) == 2
    ensures Average(TestResult(SeqInsert, 4, 14, 14, true)) == 4
    ensures Average(TestResult(SeqInsert, 3, 10, 10, true)) == 3
  {
  }
}
