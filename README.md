# A verified model of the parallel-insert benchmark

The benchmark (`parallel-test/Program.cs`) fills a collection with `qty` computed integers in
six ways and compares how fast each one is. Some ways are sequential, some use a
`Parallel.For`. It runs five rounds of request sizes, 100000 · 10^r for r = 0..4. It records
one `TestResult` per run and prints all of them ranked by `Average`, which is items per
millisecond.

This model covers the part of that program whose behaviour is exactly determined:

- `workload.dfy`, module `Workload`: `CalcIntValue(seed)`, which computes
  `int.MaxValue / (sum of the character codes of seed.GetHashCode().ToString())`. Two
  library calls are taken as assumptions. `Int32.GetHashCode` is the identity. `Int32.ToString`
  gives an optional `-` and then the decimal digits; the sign is the culture's
  `NegativeSign`, taken to be the ASCII `-`, and only the bound for negative seeds depends on
  it (the driver's seeds are never negative). The model proves that the divisor is
  always between 48 and 615, so the division is defined for every `int` seed and the result
  lies in `(0, 2147483647 / 48]`. It also proves that the value depends only on the multiset
  of the seed's characters. For a non-negative seed, the divisor equals 48 · (number of
  digits) + (sum of the digits).
- `producers.dfy`, module `Producers`: the three producers whose output is fixed by their
  code. `SeqInsert` appends to a growing list, modelled as a `seq`. `SeqPreAllocInsert` fills
  a pre-sized `array`. `ParallelPreAllocInsert` performs `ret[i] = CalcIntValue(i)` in the
  order a scheduler picks. That order is an input: a sequence in which each index of
  `[0, qty)` appears exactly once. Each producer is proved to yield exactly
  `CalcIntValue(0..qty-1)` in index order. For the indexed writes, the result is proved to be
  the same for every schedule.
- `measurement.dfy`, module `Measurement`: the `TestResult` record and
  `Average = Math.Round((decimal)count / Math.Max(elapsed, 1), 0)`. The division and the
  default `MidpointRounding.ToEven` are written in exact integer arithmetic.
- `ranking.dfy`, module `Ranking`: `results.OrderBy(p => p.Average)` as a stable insertion
  sort. It is proved to be a permutation of its input, to be sorted by `Average`, and to be
  stable. It is also proved to be the only ordering with those three properties.
- `benchmark.dfy`, module `Benchmark`: `Main`'s round loop. `qty` starts at 100000 and
  `qty *= 10` runs with C#'s unchecked 32-bit wrap-around (the compiler's default; the build
  settings are not part of this model). The 30 records come out in
  round-major, action-list order, each with its round's `Qty` and `Assert == (count == qty)`.
  Given that the two synchronised concurrent producers (`lock`, `ConcurrentBag`) yield every
  item, every record except those of `ParallelUnsafeInsert` passes its `Assert`.
  The report is the stable ranking of those records.

Two points about error behaviour, both following the code:

- `CalcIntValue` has no guard against a zero divisor. The model proves that none is needed.
- `Main` catches no exceptions, so an exception in a producer would end the whole run.
  No modelled operation raises for the sizes `Main` uses: the divisor of `CalcIntValue` is
  never zero, no array size is negative, and a character-code sum of at most 615 cannot
  overflow the checked `Sum`. Memory, the console and the three concurrent producers are
  outside the model (see "## Left out").

## Model

| member | source | states |
|---|---|---|
| `Workload.HashCode` | parallel-test/Program.cs:151 | assumption about library code: `Int32.GetHashCode()` returns the value itself |
| `Workload.Int32ToString` | parallel-test/Program.cs:151 | assumption about library code: `Int32.ToString()` starts with `-` exactly for a negative value, and the rest is decimal digits (`DecimalString` of the magnitude) |
| `Workload.CharCodeSum` | parallel-test/Program.cs:151 | `ToCharArray().Sum(c => (int)c)`; a string of decimal digits sums to between 48 and 57 per character |
| `Workload.CalcIntValue` | parallel-test/Program.cs:151 | for every `int` seed the division is defined and the value lies in `(0, int.MaxValue / 48]` |
| `Workload.DivisorBounds` | parallel-test/Program.cs:151 | the character-code sum of the seed's string is at least 48 (never zero) and at most 615 |
| `Workload.SameDigitsSameValue` | parallel-test/Program.cs:151 | two seeds whose strings hold the same characters, in any order, give the same value |
| `Workload.DivisorByDigits` | parallel-test/Program.cs:151 | for a seed >= 0 the divisor is `48 · (number of digits) + (digit sum)`, so the value depends only on those two |
| `Workload.CalcIntValueExamples` | parallel-test/Program.cs:151 | `CalcIntValue(0) == 44739242` and `CalcIntValue(12) == CalcIntValue(21)` |
| `Workload.DecimalString` | parallel-test/Program.cs:151 | `ToString()` of a non-negative `int` is a non-empty string of digits without a leading zero |
| `Workload.ParseDecimalString` | parallel-test/Program.cs:151 | reading the decimal string back gives the number |
| `Workload.DecimalStringInjective` | parallel-test/Program.cs:151 | distinct non-negative seeds have distinct decimal strings, so the string determines the seed |
| `Workload.DecimalStringLength` | parallel-test/Program.cs:151 | a number below 10^k has at most k digits, so an `int` has at most 10 |
| `Workload.CharCodeSumPermutation` | parallel-test/Program.cs:151 | the LINQ `Sum` of character codes depends only on the multiset of characters |
| `Producers.SeqInsert` | parallel-test/Program.cs:154-163 | returns `max(qty, 0)` items and item `i` is `CalcIntValue(i)` |
| `Producers.SeqPreAllocInsert` | parallel-test/Program.cs:165-174 | fails with `OverflowException` exactly when `qty < 0`, otherwise an array of length `qty` with `ret[i] == CalcIntValue(i)` |
| `Producers.ParallelPreAllocInsert` | parallel-test/Program.cs:176-185 | for any schedule of `[0, qty)`, the array is the result of those indexed writes and `ret[i] == CalcIntValue(i)`; `OverflowException` exactly when `qty < 0` |
| `Producers.IndexedWrites` | parallel-test/Program.cs:179-182 | the `For` body's writes `ret[i] = CalcIntValue(i)`, applied in schedule order to an array, keep its length; its contents are stated by the rows below |
| `Producers.ScheduledWritesExpected` | parallel-test/Program.cs:178-182 | writing each slot of a fresh zeroed `int[qty]` once, in any order, gives `CalcIntValue(0..qty-1)` |
| `Producers.OrderIndependent` | parallel-test/Program.cs:179-182 | two schedules of the same range give the same array |
| `Producers.IndexedWritesAt` | parallel-test/Program.cs:181 | after the writes a slot holds `CalcIntValue` of its index if that index was scheduled, and its initial value otherwise |
| `Producers.ScheduleLength` | parallel-test/Program.cs:179 | a schedule that covers `[0, qty)`, without repeats, has exactly `qty` entries |
| `Producers.ExpectedIsUnique` | parallel-test/Program.cs:154-185 | two outputs that each hold `CalcIntValue(i)` at every index `i < qty` are equal, so the three producers agree |
| `Producers.Ascending` | parallel-test/Program.cs:179 | the sequential index order is a valid schedule |
| `Producers.Descending` | parallel-test/Program.cs:179 | the reverse index order is a valid schedule |
| `Measurement.TestResult` | parallel-test/Program.cs:14-20 | the record of one run: producer, elapsed milliseconds, item count of `Result`, `Qty` and `Assert` |
| `Measurement.RoundHalfEven` | parallel-test/Program.cs:23 | the result is within 1/2 of `n / d`, and even when `n / d` is exactly halfway between two integers |
| `Measurement.RoundHalfEvenUnique` | parallel-test/Program.cs:23 | those two properties determine the rounded value |
| `Measurement.Average` | parallel-test/Program.cs:23 | elapsed <= 1 gives `Average == count`; the average lies between 0 and count; for elapsed >= 1 it is the nearest integer to `count / elapsed`, ties to even |
| `Measurement.AtMostNumerator` | parallel-test/Program.cs:23 | rounding `n / d` with `d >= 1` never exceeds `n` |
| `Measurement.AverageExamples` | parallel-test/Program.cs:23 | 1000 items in 0 ms average 1000; 10/4 rounds to 2 and 14/4 to 4 (ties go to the even value); 10/3 rounds to 3 |
| `Ranking.OrderByAverage` | parallel-test/Program.cs:98 | `results.OrderBy(p => p.Average)` as a stable insertion sort, of the same length as its input; proved a sorted, stable permutation and the only one (rows below) |
| `Ranking.OrderByIsPermutation` | parallel-test/Program.cs:98 | the ranking is a permutation of the results |
| `Ranking.OrderByIsSorted` | parallel-test/Program.cs:98 | the ranking is in non-decreasing `Average` |
| `Ranking.OrderByIsStable` | parallel-test/Program.cs:98 | records of equal `Average` appear in the ranking in their insertion order |
| `Ranking.SortedBucketsDetermine` | parallel-test/Program.cs:98 | two sequences that are sorted by `Average` and agree on the order within each `Average` are equal |
| `Ranking.OrderByCharacterized` | parallel-test/Program.cs:98 | any stable sort by `Average` of the results equals the modelled ranking |
| `Benchmark.RunRounds` | parallel-test/Program.cs:52-93 | 30 records in round-major, action-list order; record `k` has action `k mod 6`, `Qty == 100000 · 10^(k div 6)`, that run's elapsed time, count `qty` for a modelled producer (the observed count otherwise) and `Assert == (count == qty)`; when the lock and `ConcurrentBag` producers yield every item, every record but those of `ParallelUnsafeInsert` passes |
| `Benchmark.RunBenchmark` | parallel-test/Program.cs:52-101 | `Main`: the records of the run phase, all but `ParallelUnsafeInsert`'s passing when the lock and `ConcurrentBag` producers yield every item, and a report that is their stable ranking, a sorted permutation of them |
| `Benchmark.Execute` | parallel-test/Program.cs:78-83 | the item count of `action(qty)` is `qty` for the three deterministic producers and the observed count for the others |
| `Benchmark.RoundQty` | parallel-test/Program.cs:52-53 | the request size of round `r`, `start · 10^r` starting from `qty = start` and multiplied by 10 per round (lines 68, 92): a positive multiple of 100000 |
| `Benchmark.RoundQtyFits` | parallel-test/Program.cs:52-53 | each of the five request sizes is positive and fits in `int` |
| `Benchmark.QtySchedule` | parallel-test/Program.cs:92 | `qty *= 10` within `int` takes one round's size to the next |
| `Benchmark.QtyWrapsAfterLastRound` | parallel-test/Program.cs:92 | after the last round `qty *= 10` overflows and wraps to 1410065408, a value that is never used |
| `Benchmark.Wrap32` | parallel-test/Program.cs:92 | unchecked `int` arithmetic: a value in range is kept, and every result is congruent to the exact value modulo 2^32 |

## Left out

- `ParallelUnsafeInsert`, `ParallelLockInsert`, `ParallelThreadSafeInsert` (lines 187-221): their output is not modelled, and the driver takes their item counts as inputs (`observed`). Only `ParallelUnsafeInsert`'s count depends on how threads interleave: its unsynchronised `List.Add` calls can be lost. `ParallelLockInsert` adds under `lock (ret)` and `ParallelThreadSafeInsert` adds to a `ConcurrentBag`, so they yield all `qty` items, in an order the scheduler picks; `Benchmark.ObservedCounts` states exactly that about their counts. Anything these three might throw is not modelled either.
- Producers.SeqInsert: allocation is assumed to succeed (no memory limit, no cap on the length of the list's backing array); for a `qty` above the runtime's array-length cap `List.Add` would throw `OutOfMemoryException`. The driver's sizes, at most 10^9, stay below that cap.
- Producers.SeqPreAllocInsert: allocation is assumed to succeed (no memory limit, no array-length cap); `new int[qty]` above the runtime's cap would throw `OutOfMemoryException`.
- Producers.ParallelPreAllocInsert: allocation is assumed to succeed (no memory limit, no array-length cap); `new int[qty]` above the runtime's cap would throw `OutOfMemoryException`.
- Memory over the whole run: each `TestResult.Result` keeps its collection alive until the report is printed (lines 19, 86), so the last round holds six collections of 10^9 items. Whether that fits in memory is not modelled.
- Console exceptions: the output code sets `Console.CursorLeft` (lines 108, 115-119, 136, 138), which can throw on a narrow or redirected console. The model has no console.
- `Parallel.For` thread scheduling: only its effect is modelled, an order in which each index in `[0, qty)` runs exactly once.
- The stopwatch (lines 77-79, 87): elapsed milliseconds are an input of the driver.
- Console output: the progress bar (`StartProgressBar`, `FinishProgressBar`, and the `seed % _progressInterval` branch of `CalcIntValue`), `MakeHeader`, `MakeFooter`, `WriteLine`, `ToString`, colours and `DateTime.Now`. These print text and do not change any value.
- `Int32.GetHashCode` and `Int32.ToString` are library code. They are modelled by the assumptions stated above: identity, and the plain decimal digits with a `-` for negative values. Some cultures use another negative sign (U+2212 in some ICU locales); the bound of 615 on the divisor of a negative seed assumes the ASCII `-`. No seed the driver uses is negative.
- Benchmark.Wrap32: models `qty *= 10` in C#'s default unchecked context. A build with overflow checking would throw `OverflowException` at line 92 after the last round; the project's build settings are not part of this model.
- `TestResult.Execute` holds a delegate and `TestResult.Result` holds the produced collection. The model keeps the action's name and the collection's `Count()`. `Qty` and `Average` are `decimal`s holding whole numbers, modelled as `int` and `nat`.
- Benchmark.Execute: requires `qty >= 0`. For a negative size, the pre-allocating producers would throw from `new int[qty]` and end `Main`. The producers model that case as `OverflowException`, and the driver only passes sizes from 100000 up.
- LINQ's own sorting algorithm is not modelled. The ranking is an insertion sort, and `OrderByCharacterized` shows that it equals any stable sort by `Average`.
