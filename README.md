# go_bench_test in Dafny

A model of the micro-benchmarking harness in `bench/bench.go`, with proofs
about the model. The harness has three parts:

- A `Benchmark` object holding a list of `BenchmarkResult` records. `Run`
  measures one workload for a given number of iterations and appends one
  record. `Compare` runs every workload of a map. `PrintResults` sorts the
  list by mean time and reports the fastest. `Clear` empties the list.
- The `Fibonacci` sample workload.
- The `SieveOfEratosthenes` sample workload.

Files and modules:

- `go_ints.dfy` (`GoInts`): Go's `int64`/`time.Duration` and `uint64` as
  subset types of `int`. It spells out the wrap-around of `+` and `-` and the
  truncating `/` of `int64`.
- `measure.dfy` (`Engine`): what one iteration records and how `Run`
  reduces a run to one record. It also has reference sums in
  unbounded integers and the lemmas that relate the two.
- `harness.dfy` (`Harness`): the `Benchmark` class, with `results` as a
  `seq` field and `Run`, `Compare`, `PrintResults` and `Clear` as methods.
  It also has the in-place sort and a whole-session scenario.
- `workloads.dfy` (`Workloads`): `Fibonacci`, the sieve on a `bool` array,
  and trial-division reference definitions.

The clock and the runtime's memory statistics are not read. Each iteration
of `Run` is given as a `Sample`: the elapsed duration and the `HeapAlloc` and
`Mallocs` counters before and after the call. A workload in `Compare` is the
sequence of samples its iterations produce. Go's map iteration order is
unspecified, so `Compare` picks each next key with `:|`. Its contract holds
for every order.

Two behaviours of the code that the model keeps as they are:

- `sort.Slice` at `bench/bench.go:124` is not stable, so records with equal
  mean times may end in any order. `SortByAverageTime` and `PrintResults`
  promise only a sorted permutation. When no two mean times are equal,
  `SortedWithoutTiesIsUnique` shows that the sorted result is fully determined.
- `Run` has no guard for `iterations < 1`. Zero divides by zero at
  `bench/bench.go:82`, and a negative count panics in `make` at
  `bench/bench.go:49`. The model makes `iterations >= 1` a precondition of
  `Run`.

Three functions model source code directly and carry no row of their own in
the table below; their lemmas carry the rows:

- `Engine.Aggregate` is the record that `bench/bench.go:71-93` appends.
  `AggregateIsWrappedMean` and `AggregateExact` state what it holds.
- `Engine.Totals` is the summing loop of `bench/bench.go:76-80`.
  `TotalsOfSamples` and `TotalsAreWrappedSums` state what it reaches.
- `Workloads.Fibonacci` is `bench/bench.go:145-150`, written in the same
  form. `FibonacciMatchesPair` and the lemmas after it state its properties.

## Model

| member | source | states |
|---|---|---|
| GoInts.AddU64 | bench/bench.go:78-79 | `uint64 +=` is the true sum, minus 2^64 when the sum reaches 2^64 |
| GoInts.SubU64 | bench/bench.go:66-67 | `uint64` after-minus-before is the value that, added back to the old counter with wrap-around, gives the new counter; it is the plain difference when the counter did not drop, and the difference plus 2^64 when it did |
| GoInts.AddI64 | bench/bench.go:77 | `time.Duration +=` is the true sum, shifted by 2^64 when it leaves the `int64` range |
| GoInts.QuoI64 | bench/bench.go:82 | the quotient truncates toward zero: the remainder lies in `[0, b)` for a non-negative total and in `(-b, 0]` for a negative one |
| GoInts.QuoU64 | bench/bench.go:83-84 | the `uint64` quotient is the floor: `q*b <= a < q*b + b` |
| GoInts.WrapU64AddRight | bench/bench.go:76-80 | adding to a running total already reduced mod 2^64 gives the same `uint64` as adding to the unreduced total |
| GoInts.WrapI64AddRight | bench/bench.go:76-77 | the same for the `int64` duration total |
| Engine.Measure | bench/bench.go:64-68 | one iteration's record keeps the sample's duration; each delta, added to its counter's old reading with `uint64` wrap-around, gives the new reading |
| Engine.TotalsOfSamples | bench/bench.go:64-80 | the three totals the summing loop reaches are the samples' total time wrapped to `int64` and the sums of the per-iteration `HeapAlloc` and `Mallocs` changes reduced modulo 2^64 |
| Engine.TotalsAreWrappedSums | bench/bench.go:72-80 | the three wrapping running totals are the true sums of the records reduced to `int64`, `uint64` and `uint64` |
| Engine.MeasuredSumsAgree | bench/bench.go:64-80 | the summed durations equal the samples' total time; the summed memory and allocation deltas agree modulo 2^64 with the sums of the per-iteration `HeapAlloc` and `Mallocs` changes |
| Engine.AggregateIsWrappedMean | bench/bench.go:71-93 | for every admissible run, the record holds the given name and count, the total time wrapped to `int64`, the mean time rounded toward zero, and the sums of the per-iteration `HeapAlloc` and `Mallocs` changes, reduced mod 2^64 and floor-divided by the count |
| Engine.AggregateExact | bench/bench.go:76-92 | when nothing overflows and the summed per-iteration changes are non-negative: the total time is exact, the mean brackets it (`avg*n <= total < avg*n + n`), and the memory and allocation means are the floor means of those summed changes |
| Engine.HundredMillisecondsOverFive | bench/bench.go:82 | five iterations totalling 100 ms average exactly 20 ms |
| Engine.HeapShrinkWraps | bench/bench.go:66 | a heap that shrinks by 500 bytes during the single iteration reports a mean memory of 2^64 - 500 |
| Harness.SortedWithoutTiesIsUnique | bench/bench.go:124-126 | two lists sorted by mean time that are permutations of each other are equal when no two mean times tie |
| Harness.AppendNamed | bench/bench.go:86 | appending a record adds exactly its name, and a fresh name keeps the names distinct |
| Harness.CompareStep | bench/bench.go:101-102 | running one more not-yet-run key adds one record, named by that key and measured from its samples, and removes the key from those still to run |
| Harness.Swap | bench/bench.go:124-126 | exchanging two entries changes nothing else and keeps the multiset |
| Harness.SortByAverageTime | bench/bench.go:124-126 | the in-place sort leaves the array ordered by mean time and a permutation of its input; nothing is said about ties |
| Harness.Benchmark.constructor | bench/bench.go:33-37 | `New` starts with an empty result list |
| Harness.Benchmark.Run | bench/bench.go:40-97 | with `iterations >= 1` and one sample per iteration, it appends exactly one record at the end, leaves every earlier record as it was, and returns the same object; the appended record is `Aggregate` of the samples |
| Harness.Benchmark.Compare | bench/bench.go:100-105 | the list grows by one record per key; earlier records are untouched; the new records' names are exactly the keys, with no repeats; each new record is the result of running its key's samples with the shared count; their order is not fixed |
| Harness.Benchmark.PrintResults | bench/bench.go:108-136 | needs a non-empty list; the table rows are the records in their order before the sort; afterwards the list is a permutation of the old one, sorted by mean time; the fastest is its first element, with the least mean time of all; the rest are reported as slower |
| Harness.Benchmark.Clear | bench/bench.go:139-142 | the list is empty afterwards and the same object is returned |
| Harness.TwoKeys | bench/bench.go:100-105 | a two-record list naming "A" and "B" once each, where each record is the one for its name, holds those two records in one order or the other |
| Harness.SortedPair | bench/bench.go:124-126 | two records whose mean times differ sort in exactly one order |
| Harness.CompareTwo | bench/bench.go:100-105 | comparing keys "A" and "B" on an empty list yields exactly their two records, in some order |
| Harness.ClearThenCompare | bench/bench.go:100-142 | after a run, a `Clear`, a `Compare` of "A" and a slower "B", and `PrintResults`, the table holds only "A" and "B"; "A" is the fastest and only "B" is reported as slower |
| Workloads.FibonacciMatchesPair | bench/bench.go:145-150 | the recursive definition agrees with an independent iterated-pair definition at every `n >= 0` |
| Workloads.FibonacciNonNegative | bench/bench.go:145-150 | the value is non-negative for `n >= 0` |
| Workloads.FibonacciMonotone | bench/bench.go:145-150 | the value never decreases as `n` grows from 0 |
| Workloads.FibonacciOfTen | bench/bench.go:145-150 | `Fibonacci(10) == 55` |
| Workloads.NoDivisorFromDecidesPrime | bench/bench.go:152-173 | trial division up to the square root decides primality; this ties the reference list to `IsPrime` |
| Workloads.PrimeIffNoFactorBelow | bench/bench.go:158 | below `i*i`, a number is prime exactly when it has no factor below `i`, so the outer loop may stop once `i*i > n` |
| Workloads.FactorBelowStep | bench/bench.go:158-163 | processing `i` adds exactly the multiples of `i` from `i*i` on to the crossed-out numbers |
| Workloads.CrossedOutByFactor | bench/bench.go:159 | when `i` is already crossed out, every multiple of `i` from `i*i` on already is, so skipping `i` loses nothing |
| Workloads.CrossOutMultiples | bench/bench.go:160-162 | the inner loop clears exactly the entries `i*i, i*i + i, ...` up to `n` and leaves every other entry unchanged |
| Workloads.Sieve | bench/bench.go:153-164 | after the marking loops the array has `n + 1` entries; entries 0 and 1 stay true; an entry `k >= 2` is true exactly when `k` is prime |
| Workloads.PrimesUpToMeans | bench/bench.go:166-171 | the reference list of primes up to `n` is strictly increasing and holds exactly the primes `p` with `2 <= p <= n` |
| Workloads.PrimesUpToThirty | bench/bench.go:152-173 | the primes up to 30 are `[2, 3, 5, 7, 11, 13, 17, 19, 23, 29]` |
| Workloads.SieveOfEratosthenes | bench/bench.go:152-173 | for `n >= -1` the result is strictly increasing, holds exactly the primes from 2 to `n`, and equals the reference list |

## Left out

- Reading the clock and the heap statistics (`time.Now`, `time.Since`, `runtime.ReadMemStats`) is runtime I/O. It is replaced by the `Sample` values given to `Run`, one per iteration.
- `runtime.GC()` (bench/bench.go:44) and the warm-up call of `fn` (bench/bench.go:47) are there to change the heap readings and timings that follow. The model does not run them: whatever effect they have is already in the `Sample` values given to `Run`. A panic in the warm-up call is one of the unmodelled `fn` panics below.
- Calling `fn` is a call into foreign code. A workload is the sequence of samples its iterations produce. A panic inside it, and what the list then holds, is not modelled.
- Harness.Benchmark.Run: requires one sample per iteration (`|samples| == iterations`). This is the part of the input that the measuring loop would produce itself.
- Harness.Benchmark.Compare: requires every key's samples to have the shared iteration count, for the same reason.
- All `fmt` output is I/O and is left out. This covers the progress lines, the table text, the rendering of `time.Duration`, the float megabyte figure and the float slowdown ratios. `PrintResults` instead returns a `Report`: the table's records in the order they were printed, the fastest record, and the records reported as slower.
- Harness.SortByAverageTime: a selection sort stands in for the library's `sort.Slice`. Only the library's contract is modelled, which is a sorted permutation. That algorithm's own order of swaps, and where it puts ties, is not.
- Harness.Benchmark.PrintResults: sorts an array copy of `results` and stores it back. Go sorts the slice's backing array in place, which other slices sharing that array would see; that aliasing is not modelled.
- `b.results[:0]` in `Clear` keeps the slice's capacity. The model empties the sequence, so capacity and the reuse of the backing array are not modelled.
- Workloads.Fibonacci: uses unbounded integers. Go's `int` wraps past `Fibonacci(92)`, and that overflow is not modelled.
- Go's `int` is taken to be 64 bits wide. `iterations` and `BenchmarkResult.iterations` are `Int64`. The sieve's `n` is an unbounded integer, so the model does not capture two things: the 64-bit overflow of `n + 1`, `i * i` and `j += i` (bench/bench.go:153-160), and the panic in `make` when `n + 1` is too large to allocate.
- `ExampleUsage` (bench/bench.go:176-189) and cmd/main/main.go only wire the parts together: they build a map and call `Compare(...).PrintResults()`. They are not part of this model.
