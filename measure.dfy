/** The measurement engine's arithmetic: what one iteration records and how a
    run's records are reduced to one `BenchmarkResult` (bench/bench.go). The
    runtime's clock and heap statistics are not read here: each iteration is
    given as a `Sample` of the values the runtime reported. */
module Engine {
  import opened GoInts

  /** What the runtime reports around one call of the workload: the elapsed
      `time.Duration` and the `HeapAlloc` and `Mallocs` counters of
      `runtime.MemStats` read before and after the call. */
  datatype Sample = Sample(
    duration: Int64,
    heapAllocBefore: Uint64,
    heapAllocAfter: Uint64,
    mallocsBefore: Uint64,
    mallocsAfter: Uint64)

  /** The record `Run` keeps per iteration (Go's `measurement`). */
  datatype Measurement = Measurement(duration: Int64, memoryDelta: Uint64, allocCount: Uint64)

  /** One run's summary (Go's `BenchmarkResult`). */
  datatype BenchmarkResult = BenchmarkResult(
    name: string,
    totalTime: Int64,
    iterations: Int64,
    averageTime: Int64,
    memoryUsage: Uint64,
    allocCount: Uint64)

  /** The measurement of one iteration: the counter deltas are `uint64`
      after-minus-before, so each is the value that, added to the counter's
      old reading with wrap-around, gives its new reading. */
  function Measure(s: Sample): (m: Measurement)
    ensures m.duration == s.duration
    ensures AddU64(s.heapAllocBefore, m.memoryDelta) == s.heapAllocAfter
    ensures AddU64(s.mallocsBefore, m.allocCount) == s.mallocsAfter
  {
    Measurement(
      s.duration,
      SubU64(s.heapAllocAfter, s.heapAllocBefore),
      SubU64(s.mallocsAfter, s.mallocsBefore))
  }

  /** The measurements of a run, one per sample, in iteration order. */
  function MeasureAll(samples: seq<Sample>): (ms: seq<Measurement>)
    ensures |ms| == |samples|
    ensures forall i :: 0 <= i < |samples| ==> ms[i] == Measure(samples[i])
  {
    seq(|samples|, i requires 0 <= i < |samples| => Measure(samples[i]))
  }

  /** The three running totals after adding `m` with Go's wrapping `+=`. */
  function Accumulate(total: Measurement, m: Measurement): (sum: Measurement)
  {
    Measurement(
      AddI64(total.duration, m.duration),
      AddU64(total.memoryDelta, m.memoryDelta),
      AddU64(total.allocCount, m.allocCount))
  }

  /** The totals the summing loop reaches over `ms`, starting from zero. */
  function Totals(ms: seq<Measurement>): (t: Measurement)
  {
    if ms == [] then Measurement(0, 0, 0)
    else Accumulate(Totals(ms[..|ms| - 1]), ms[|ms| - 1])
  }

  /** One more step of the summing loop over a prefix of `ms`. */
  lemma TotalsStep(ms: seq<Measurement>, i: nat)
    requires i < |ms|
    ensures Totals(ms[..i + 1]) == Accumulate(Totals(ms[..i]), ms[i])
  {
    assert ms[..i + 1][..i] == ms[..i];
  }

  /** Reference sums in unbounded integers, with no wrap-around. */
  function SumDurations(ms: seq<Measurement>): (sum: int)
  {
    if ms == [] then 0 else SumDurations(ms[..|ms| - 1]) + ms[|ms| - 1].duration
  }

  function SumMemory(ms: seq<Measurement>): (sum: int)
  {
    if ms == [] then 0 else SumMemory(ms[..|ms| - 1]) + ms[|ms| - 1].memoryDelta
  }

  function SumAllocs(ms: seq<Measurement>): (sum: int)
  {
    if ms == [] then 0 else SumAllocs(ms[..|ms| - 1]) + ms[|ms| - 1].allocCount
  }

  /** Total elapsed time of the samples, in unbounded integers. */
  function SampleTime(samples: seq<Sample>): (total: int)
  {
    if samples == [] then 0
    else SampleTime(samples[..|samples| - 1]) + samples[|samples| - 1].duration
  }

  /** The sum of the per-iteration changes of `HeapAlloc`, in unbounded
      integers (negative when the measured calls freed more than they
      allocated). Changes between two iterations are not part of it. */
  function HeapGrowth(samples: seq<Sample>): (growth: int)
  {
    if samples == [] then 0
    else
      var s := samples[|samples| - 1];
      HeapGrowth(samples[..|samples| - 1]) + s.heapAllocAfter - s.heapAllocBefore
  }

  /** The sum of the per-iteration changes of `Mallocs`, in unbounded integers. */
  function MallocGrowth(samples: seq<Sample>): (growth: int)
  {
    if samples == [] then 0
    else
      var s := samples[|samples| - 1];
      MallocGrowth(samples[..|samples| - 1]) + s.mallocsAfter - s.mallocsBefore
  }

  /** The record `Run` appends: totals of the measurements and their means by
      Go's integer division. `iterations >= 1` is what Go demands: zero
      divides by zero, a negative count makes `make` panic. */
  function Aggregate(name: string, samples: seq<Sample>, iterations: Int64): (r: BenchmarkResult)
    requires iterations >= 1 && |samples| == iterations
  {
    var t := Totals(MeasureAll(samples));
    BenchmarkResult(
      name,
      t.duration,
      iterations,
      QuoI64(t.duration, iterations),
      QuoU64(t.memoryDelta, iterations),
      QuoU64(t.allocCount, iterations))
  }

  /** The wrapping running totals are the true sums reduced to 64 bits. */
  lemma TotalsAreWrappedSums(ms: seq<Measurement>)
    ensures Totals(ms).duration == WrapI64(SumDurations(ms))
    ensures Totals(ms).memoryDelta == WrapU64(SumMemory(ms))
    ensures Totals(ms).allocCount == WrapU64(SumAllocs(ms))
  {
    TotalTimeIsWrappedSum(ms);
    TotalMemoryIsWrappedSum(ms);
    TotalAllocsIsWrappedSum(ms);
  }

  lemma {:induction false} TotalTimeIsWrappedSum(ms: seq<Measurement>)
    ensures Totals(ms).duration == WrapI64(SumDurations(ms))
  {
    if ms != [] {
      var pre := ms[..|ms| - 1];
      TotalTimeIsWrappedSum(pre);
      WrapI64AddRight(SumDurations(pre), ms[|ms| - 1].duration);
    }
  }

  lemma {:induction false} TotalMemoryIsWrappedSum(ms: seq<Measurement>)
    ensures Totals(ms).memoryDelta == WrapU64(SumMemory(ms))
  {
    if ms != [] {
      var pre := ms[..|ms| - 1];
      TotalMemoryIsWrappedSum(pre);
      WrapU64AddRight(SumMemory(pre), ms[|ms| - 1].memoryDelta);
    }
  }

  lemma {:induction false} TotalAllocsIsWrappedSum(ms: seq<Measurement>)
    ensures Totals(ms).allocCount == WrapU64(SumAllocs(ms))
  {
    if ms != [] {
      var pre := ms[..|ms| - 1];
      TotalAllocsIsWrappedSum(pre);
      WrapU64AddRight(SumAllocs(pre), ms[|ms| - 1].allocCount);
    }
  }

  /** Summing the wrapped deltas loses nothing modulo 2^64: the sums of the
      measurements agree with the samples' summed per-iteration counter
      changes modulo 2^64. */
  lemma MeasuredSumsAgree(samples: seq<Sample>)
    ensures SumDurations(MeasureAll(samples)) == SampleTime(samples)
    ensures (SumMemory(MeasureAll(samples)) - HeapGrowth(samples)) % TwoTo64 == 0
    ensures (SumAllocs(MeasureAll(samples)) - MallocGrowth(samples)) % TwoTo64 == 0
  {
    MeasuredTimeAgrees(samples);
    MeasuredMemoryAgrees(samples);
    MeasuredAllocsAgree(samples);
  }

  lemma {:induction false} MeasuredTimeAgrees(samples: seq<Sample>)
    ensures SumDurations(MeasureAll(samples)) == SampleTime(samples)
  {
    if samples != [] {
      var pre := samples[..|samples| - 1];
      var ms := MeasureAll(samples);
      MeasuredTimeAgrees(pre);
      assert ms[..|ms| - 1] == MeasureAll(pre);
    }
  }

  lemma {:induction false} MeasuredMemoryAgrees(samples: seq<Sample>)
    ensures (SumMemory(MeasureAll(samples)) - HeapGrowth(samples)) % TwoTo64 == 0
  {
    if samples != [] {
      var pre := samples[..|samples| - 1];
      var ms := MeasureAll(samples);
      var s := samples[|samples| - 1];
      MeasuredMemoryAgrees(pre);
      assert ms[..|ms| - 1] == MeasureAll(pre);
      assert ms[|ms| - 1] == Measure(s);
      assert SumMemory(ms) == SumMemory(MeasureAll(pre)) + Measure(s).memoryDelta;
      assert (Measure(s).memoryDelta - (s.heapAllocAfter - s.heapAllocBefore)) % TwoTo64 == 0;
      MultiplesAdd(SumMemory(MeasureAll(pre)) - HeapGrowth(pre), Measure(s).memoryDelta - (s.heapAllocAfter - s.heapAllocBefore));
    }
  }

  lemma {:induction false} MeasuredAllocsAgree(samples: seq<Sample>)
    ensures (SumAllocs(MeasureAll(samples)) - MallocGrowth(samples)) % TwoTo64 == 0
  {
    if samples != [] {
      var pre := samples[..|samples| - 1];
      var ms := MeasureAll(samples);
      var s := samples[|samples| - 1];
      MeasuredAllocsAgree(pre);
      assert ms[..|ms| - 1] == MeasureAll(pre);
      assert ms[|ms| - 1] == Measure(s);
      assert SumAllocs(ms) == SumAllocs(MeasureAll(pre)) + Measure(s).allocCount;
      assert (Measure(s).allocCount - (s.mallocsAfter - s.mallocsBefore)) % TwoTo64 == 0;
      MultiplesAdd(SumAllocs(MeasureAll(pre)) - MallocGrowth(pre), Measure(s).allocCount - (s.mallocsAfter - s.mallocsBefore));
    }
  }

  /** What `Run` records, for every admissible input: the name and the count
      it was given, the total time wrapped to `int64`, the mean time rounded
      toward zero, and the memory and allocation means as the floor of the
      samples' summed per-iteration counter changes, reduced modulo 2^64,
      divided by the count. */
  lemma AggregateIsWrappedMean(name: string, samples: seq<Sample>, iterations: Int64)
    requires iterations >= 1 && |samples| == iterations
    ensures var r := Aggregate(name, samples, iterations);
      && r.name == name
      && r.iterations == iterations
      && r.totalTime == WrapI64(SampleTime(samples))
      && r.averageTime == QuoI64(r.totalTime, iterations)
      && r.memoryUsage == WrapU64(HeapGrowth(samples)) / iterations
      && r.allocCount == WrapU64(MallocGrowth(samples)) / iterations
  {
    TotalsOfSamples(samples);
  }

  /** The three totals of a run in terms of its samples. */
  lemma TotalsOfSamples(samples: seq<Sample>)
    ensures Totals(MeasureAll(samples)) == Measurement(
      WrapI64(SampleTime(samples)), WrapU64(HeapGrowth(samples)), WrapU64(MallocGrowth(samples)))
  {
    var ms := MeasureAll(samples);
    TotalsAreWrappedSums(ms);
    MeasuredSumsAgree(samples);
    WrapU64Congruent(SumMemory(ms), HeapGrowth(samples));
    WrapU64Congruent(SumAllocs(ms), MallocGrowth(samples));
  }

  /** When nothing overflows and the summed per-iteration counter changes are
      non-negative, the record holds the exact total time and the floor means
      of time, heap change and allocation count. */
  lemma AggregateExact(name: string, samples: seq<Sample>, iterations: Int64)
    requires iterations >= 1 && |samples| == iterations
    requires 0 <= SampleTime(samples) < TwoTo63
    requires 0 <= HeapGrowth(samples) < TwoTo64
    requires 0 <= MallocGrowth(samples) < TwoTo64
    ensures var r := Aggregate(name, samples, iterations);
      && r.totalTime == SampleTime(samples)
      && r.averageTime * iterations <= r.totalTime < r.averageTime * iterations + iterations
      && r.memoryUsage == HeapGrowth(samples) / iterations
      && r.allocCount == MallocGrowth(samples) / iterations
  {
    AggregateIsWrappedMean(name, samples, iterations);
  }

  /** A total of 100ms over 5 iterations averages to exactly 20ms. */
  lemma HundredMillisecondsOverFive(samples: seq<Sample>)
    requires |samples| == 5 && SampleTime(samples) == 100_000_000
    ensures Aggregate("t", samples, 5).averageTime == 20_000_000
  {
    AggregateIsWrappedMean("t", samples, 5);
  }

  /** A collection during the measured call can make `HeapAlloc` drop; the
      `uint64` delta then wraps and the mean memory is near 2^64. */
  lemma HeapShrinkWraps()
    ensures Aggregate("gc", [Sample(0, 1000, 500, 0, 0)], 1).memoryUsage == TwoTo64 - 500
  {
  }
}
