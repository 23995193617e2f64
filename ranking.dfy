/** The report order `results.OrderBy(p => p.Average)` of parallel-test/Program.cs (line 98).
    LINQ's `OrderBy` is a stable sort: records are put in non-decreasing `Average`, and
    records with equal `Average` keep the order they had in `results`. */
module Ranking {
  import opened Measurement

  ghost predicate SortedByAverage(s: seq<TestResult>) {
    forall i, j :: 0 <= i < j < |s| ==> Average(s[i]) <= Average(s[j])
  }

  /** The records of `s` whose `Average` is `k`, in the order they have in `s`. */
  function WithAverage(s: seq<TestResult>, k: nat): (b: seq<TestResult>) {
    if s == [] then []
    else if Average(s[0]) == k then [s[0]] + WithAverage(s[1..], k)
    else WithAverage(s[1..], k)
  }

  /** Places `x` before the first record of `s` whose `Average` is at least that of `x`. */
  function InsertByAverage(x: TestResult, s: seq<TestResult>): (r: seq<TestResult>)
    ensures |r| == |s| + 1
  {
    if s == [] || Average(x) <= Average(s[0]) then [x] + s
    else [s[0]] + InsertByAverage(x, s[1..])
  }

  /** `results.OrderBy(p => p.Average)`, as a stable insertion sort. */
  function OrderByAverage(rs: seq<TestResult>): (r: seq<TestResult>)
    ensures |r| == |rs|
  {
    if rs == [] then [] else InsertByAverage(rs[0], OrderByAverage(rs[1..]))
  }

  lemma {:induction false} InsertPermutation(x: TestResult, s: seq<TestResult>)
    ensures multiset(InsertByAverage(x, s)) == multiset(s) + multiset{x}
  {
    if s != [] && Average(x) > Average(s[0]) {
      InsertPermutation(x, s[1..]);
      assert s == [s[0]] + s[1..];
    }
  }

  /** The ranking reorders the records and neither drops nor duplicates any. */
  lemma {:induction false} OrderByIsPermutation(rs: seq<TestResult>)
    ensures multiset(OrderByAverage(rs)) == multiset(rs)
  {
    if rs != [] {
      OrderByIsPermutation(rs[1..]);
      InsertPermutation(rs[0], OrderByAverage(rs[1..]));
      assert rs == [rs[0]] + rs[1..];
    }
  }

  /** Every record of `InsertByAverage(x, s)` has an `Average` of at least `m` when `x` and
      every record of `s` do. */
  lemma {:induction false} InsertLowerBound(x: TestResult, s: seq<TestResult>, m: nat)
    requires Average(x) >= m
    requires forall i :: 0 <= i < |s| ==> Average(s[i]) >= m
    ensures forall i :: 0 <= i < |InsertByAverage(x, s)| ==> Average(InsertByAverage(x, s)[i]) >= m
  {
    if s != [] && Average(x) > Average(s[0]) {
      InsertLowerBound(x, s[1..], m);
    }
  }

  lemma {:induction false} InsertSorted(x: TestResult, s: seq<TestResult>)
    requires SortedByAverage(s)
    ensures SortedByAverage(InsertByAverage(x, s))
  {
    if s != [] && Average(x) > Average(s[0]) {
      InsertSorted(x, s[1..]);
      InsertLowerBound(x, s[1..], Average(s[0]));
      var r := InsertByAverage(x, s[1..]);
      assert InsertByAverage(x, s) == [s[0]] + r;
    }
  }

  /** The ranking lists the records in non-decreasing `Average`. */
  lemma {:induction false} OrderByIsSorted(rs: seq<TestResult>)
    ensures SortedByAverage(OrderByAverage(rs))
  {
    if rs != [] {
      OrderByIsSorted(rs[1..]);
      InsertSorted(rs[0], OrderByAverage(rs[1..]));
    }
  }

  lemma {:induction false} WithAverageConcat(a: seq<TestResult>, b: seq<TestResult>, k: nat)
    ensures WithAverage(a + b, k) == WithAverage(a, k) + WithAverage(b, k)
  {
    if a == [] {
      assert a + b == b;
    } else {
      assert (a + b)[1..] == a[1..] + b;
      WithAverageConcat(a[1..], b, k);
    }
  }

  /** Inserting `x` in front of the records it is not smaller than leaves every bucket of
      equal `Average` as it was with `x` in front of all of them. */
  lemma {:induction false} InsertStable(x: TestResult, s: seq<TestResult>, k: nat)
    ensures WithAverage(InsertByAverage(x, s), k) == WithAverage([x] + s, k)
  {
    if s != [] && Average(x) > Average(s[0]) {
      InsertStable(x, s[1..], k);
      WithAverageConcat([s[0]], InsertByAverage(x, s[1..]), k);
      WithAverageConcat([x], s[1..], k);
      WithAverageConcat([s[0]], [x] + s[1..], k);
      WithAverageConcat([x], s, k);
      assert s == [s[0]] + s[1..];
      WithAverageConcat([s[0]], s[1..], k);
    }
  }

  /** Stability: the records of each `Average` come out in the order they went in. */
  lemma {:induction false} OrderByIsStable(rs: seq<TestResult>, k: nat)
    ensures WithAverage(OrderByAverage(rs), k) == WithAverage(rs, k)
  {
    if rs != [] {
      OrderByIsStable(rs[1..], k);
      InsertStable(rs[0], OrderByAverage(rs[1..]), k);
      WithAverageConcat([rs[0]], OrderByAverage(rs[1..]), k);
      WithAverageConcat([rs[0]], rs[1..], k);
      assert rs == [rs[0]] + rs[1..];
    }
  }

  lemma {:induction false} WithAverageMembers(s: seq<TestResult>, k: nat, y: TestResult)
    ensures y in WithAverage(s, k) ==> y in s && Average(y) == k
  {
    if s != [] {
      WithAverageMembers(s[1..], k, y);
    }
  }

  /** A non-empty sequence's first record lies in the bucket of its own `Average`. */
  lemma OwnBucket(s: seq<TestResult>)
    ensures s != [] ==> WithAverage(s, Average(s[0])) == [s[0]] + WithAverage(s[1..], Average(s[0]))
  {
  }

  /** In a sorted sequence no record has a smaller `Average` than the first. */
  lemma BucketAboveFirst(s: seq<TestResult>, k: nat)
    requires SortedByAverage(s) && s != [] && WithAverage(s, k) != []
    ensures Average(s[0]) <= k
  {
    var y := WithAverage(s, k)[0];
    WithAverageMembers(s, k, y);
    var j :| 0 <= j < |s| && s[j] == y;
    assert j == 0 || Average(s[0]) <= Average(s[j]);
  }

  /** Being sorted by `Average` and having the same buckets, in the same order, determines a
      sequence: a stable sort has only one possible outcome. */
  lemma {:induction false} SortedBucketsDetermine(a: seq<TestResult>, b: seq<TestResult>)
    requires SortedByAverage(a) && SortedByAverage(b)
    requires forall k :: WithAverage(a, k) == WithAverage(b, k)
    ensures a == b
    decreases |a|
  {
    OwnBucket(a);
    OwnBucket(b);
    if a != [] && b != [] {
      var ka, kb := Average(a[0]), Average(b[0]);
      BucketAboveFirst(b, ka);
      BucketAboveFirst(a, kb);
      assert ka == kb;
      assert WithAverage(a, ka) == WithAverage(b, ka);
      assert a[0] == WithAverage(a, ka)[0] == WithAverage(b, ka)[0] == b[0];
      forall k ensures WithAverage(a[1..], k) == WithAverage(b[1..], k) {
        assert WithAverage(a, k) == WithAverage(b, k);
        if k == ka {
          assert WithAverage(a, k) == [a[0]] + WithAverage(a[1..], k);
          assert WithAverage(b, k) == [b[0]] + WithAverage(b[1..], k);
          assert WithAverage(a[1..], k) == WithAverage(a, k)[1..];
          assert WithAverage(b[1..], k) == WithAverage(b, k)[1..];
        } else {
          assert WithAverage(a, k) == WithAverage(a[1..], k);
          assert WithAverage(b, k) == WithAverage(b[1..], k);
        }
      }
      SortedBucketsDetermine(a[1..], b[1..]);
      assert a == [a[0]] + a[1..] && b == [b[0]] + b[1..];
    }
  }

  /** `OrderByAverage` is the stable sort by `Average`: every sequence that is sorted by
      `Average` and keeps each bucket of `rs` in its order is the ranking of `rs`. */
  lemma OrderByCharacterized(rs: seq<TestResult>, s: seq<TestResult>)
    requires SortedByAverage(s)
    requires forall k :: WithAverage(s, k) == WithAverage(rs, k)
    ensures s == OrderByAverage(rs)
  {
    OrderByIsSorted(rs);
    forall k ensures WithAverage(s, k) == WithAverage(OrderByAverage(rs), k) {
      OrderByIsStable(rs, k);
    }
    SortedBucketsDetermine(s, OrderByAverage(rs));
  }
}
