/** The `Benchmark` object of bench/bench.go: its result list and the
    operations that grow, sort and reset it. Workloads are not called:
    each is represented by the samples its measured iterations produce. */
module Harness {
  import opened GoInts
  import opened Engine

  /** `results` is sorted when the average times never decrease. */
  predicate SortedByAverageTime(rs: seq<BenchmarkResult>)
  {
    forall i, j :: 0 <= i < j < |rs| ==> rs[i].averageTime <= rs[j].averageTime
  }

  /** No two results have the same average time. */
  predicate DistinctAverages(rs: seq<BenchmarkResult>)
  {
    forall i, j :: 0 <= i < j < |rs| ==> rs[i].averageTime != rs[j].averageTime
  }

  /** Without ties, a sorted permutation is unique: sorting a list that is
      already sorted leaves it as it is. With ties `sort.Slice` promises
      nothing about their order, and neither does `SortByAverageTime`. */
  lemma {:induction false} SortedWithoutTiesIsUnique(s: seq<BenchmarkResult>, t: seq<BenchmarkResult>)
    requires SortedByAverageTime(s) && SortedByAverageTime(t)
    requires multiset(s) == multiset(t)
    requires DistinctAverages(s)
    ensures s == t
    decreases |s|
  {
    assert |s| == |multiset(s)| == |multiset(t)| == |t|;
    if |s| > 0 {
      SortedSameHead(s, t);
      DropHead(s, t);
      SortedWithoutTiesIsUnique(s[1..], t[1..]);
      assert s == [s[0]] + s[1..] && t == [t[0]] + t[1..];
    }
  }

  lemma SortedSameHead(s: seq<BenchmarkResult>, t: seq<BenchmarkResult>)
    requires SortedByAverageTime(s) && SortedByAverageTime(t)
    requires multiset(s) == multiset(t) && DistinctAverages(s)
    requires |s| > 0 && |t| > 0
    ensures s[0] == t[0]
  {
    assert s[0] in multiset(t) && t[0] in multiset(s);
    var k :| 0 <= k < |t| && t[k] == s[0];
    var j :| 0 <= j < |s| && s[j] == t[0];
    assert s[j].averageTime <= s[0].averageTime;
  }

  lemma DropHead(s: seq<BenchmarkResult>, t: seq<BenchmarkResult>)
    requires |s| > 0 && |t| > 0 && s[0] == t[0] && multiset(s) == multiset(t)
    ensures multiset(s[1..]) == multiset(t[1..])
  {
    MultisetTail(s);
    MultisetTail(t);
  }

  lemma MultisetTail(s: seq<BenchmarkResult>)
    requires |s| > 0
    ensures multiset(s[1..]) == multiset(s) - multiset{s[0]}
  {
    assert s == [s[0]] + s[1..];
  }

  /** The names of a list of results. */
  function Names(rs: seq<BenchmarkResult>): (names: set<string>)
    ensures forall k :: 0 <= k < |rs| ==> rs[k].name in names
    ensures forall n :: n in names ==> exists k :: 0 <= k < |rs| && rs[k].name == n
  {
    set r | r in rs :: r.name
  }

  /** No two results carry the same name. */
  predicate DistinctNames(rs: seq<BenchmarkResult>)
  {
    forall j, k :: 0 <= j < k < |rs| ==> rs[j].name != rs[k].name
  }

  /** Appending a result with a new name keeps the names distinct and adds
      exactly that name. */
  lemma AppendNamed(rs: seq<BenchmarkResult>, r: BenchmarkResult)
    ensures Names(rs + [r]) == Names(rs) + {r.name}
    ensures DistinctNames(rs) && r.name !in Names(rs) ==> DistinctNames(rs + [r])
  {
    assert forall k :: 0 <= k < |rs| ==> (rs + [r])[k] == rs[k];
    assert (rs + [r])[|rs|] == r;
  }

  /** How far `Compare` has got: `added` holds one result per key of `tests`
      outside `remaining`, each named by its key and measured from its samples. */
  ghost predicate CompareProgress(
    tests: map<string, seq<Sample>>, iterations: Int64,
    remaining: set<string>, added: seq<BenchmarkResult>)
  {
    && remaining <= tests.Keys
    && |added| + |remaining| == |tests.Keys|
    && Names(added) == tests.Keys - remaining
    && DistinctNames(added)
    && forall k :: 0 <= k < |added| ==> MeasuredFrom(added[k], tests, iterations)
  }

  /** `r` is the record `Run` appends for the samples `tests` holds under
      `r`'s name. */
  ghost predicate MeasuredFrom(r: BenchmarkResult, tests: map<string, seq<Sample>>, iterations: Int64)
  {
    && r.name in tests && |tests[r.name]| == iterations >= 1
    && r == Aggregate(r.name, tests[r.name], iterations)
  }

  /** Running one more remaining key keeps `CompareProgress`. */
  lemma CompareStep(
    tests: map<string, seq<Sample>>, iterations: Int64,
    remaining: set<string>, added: seq<BenchmarkResult>, name: string)
    requires CompareProgress(tests, iterations, remaining, added)
    requires name in remaining && iterations >= 1 && |tests[name]| == iterations
    ensures CompareProgress(tests, iterations, remaining - {name},
      added + [Aggregate(name, tests[name], iterations)])
  {
    var record := Aggregate(name, tests[name], iterations);
    AppendNamed(added, record);
    var added' := added + [record];
    assert |remaining - {name}| == |remaining| - 1;
    assert MeasuredFrom(record, tests, iterations);
    forall k | 0 <= k < |added'|
      ensures MeasuredFrom(added'[k], tests, iterations)
    {
      if k < |added| {
        assert added'[k] == added[k];
      }
    }
  }

  /** What `PrintResults` shows, short of its text: the table rows in the
      order the results had when the table was written, the fastest result,
      and the results reported as slower than it. */
  datatype Report = Report(
    table: seq<BenchmarkResult>,
    fastest: BenchmarkResult,
    slower: seq<BenchmarkResult>)

  /** Exchanges two elements of an array. */
  method Swap(a: array<BenchmarkResult>, i: int, j: int)
    requires 0 <= i < a.Length && 0 <= j < a.Length
    modifies a
    ensures a[i] == old(a[j]) && a[j] == old(a[i])
    ensures forall k :: 0 <= k < a.Length && k != i && k != j ==> a[k] == old(a[k])
    ensures multiset(a[..]) == old(multiset(a[..]))
  {
    a[i], a[j] := a[j], a[i];
  }

  /** `sort.Slice(b.results, less)` with `less` comparing average times: an
      in-place sort whose result is ordered and a permutation of its input.
      `sort.Slice` is not stable, and nothing here says how ties end up. */
  method SortByAverageTime(a: array<BenchmarkResult>)
    modifies a
    ensures SortedByAverageTime(a[..])
    ensures multiset(a[..]) == old(multiset(a[..]))
  {
    var i := 0;
    while i < a.Length
      invariant 0 <= i <= a.Length
      invariant SortedByAverageTime(a[..i])
      invariant forall p, q :: 0 <= p < i <= q < a.Length ==> a[p].averageTime <= a[q].averageTime
      invariant multiset(a[..]) == old(multiset(a[..]))
    {
      var m := i;
      var j := i + 1;
      while j < a.Length
        invariant i <= m < a.Length && i < j <= a.Length
        invariant forall q :: i <= q < j ==> a[m].averageTime <= a[q].averageTime
      {
        if a[j].averageTime < a[m].averageTime {
          m := j;
        }
        j := j + 1;
      }
      Swap(a, i, m);
      i := i + 1;
    }
  }

  class Benchmark {
    var results: seq<BenchmarkResult>

    /** Every stored result was produced by a run of at least one iteration. */
    predicate Valid()
      reads this
    {
      forall r :: r in results ==> r.iterations >= 1
    }

    /** `New`: an empty result list. */
    constructor ()
      ensures Valid() && results == []
    {
      results := [];
    }

    /** `Run`: measures one workload over `samples`, one sample per
        iteration, appends its record and returns the same object. */
    method Run(name: string, samples: seq<Sample>, iterations: Int64) returns (b: Benchmark)
      requires Valid()
      requires iterations >= 1 && |samples| == iterations
      modifies this
      ensures b == this && Valid()
      ensures results == old(results) + [Aggregate(name, samples, iterations)]
    {
      var measurements := new Measurement[iterations];
      for i := 0 to iterations
        invariant measurements[..i] == MeasureAll(samples)[..i]
        modifies measurements
      {
        measurements[i] := Measure(samples[i]);
      }
      ghost var ms := MeasureAll(samples);
      assert measurements[..] == ms;

      var totalDuration: Int64, totalMemory: Uint64, totalAllocs: Uint64 := 0, 0, 0;
      for i := 0 to iterations
        modifies {}
        invariant Measurement(totalDuration, totalMemory, totalAllocs) == Totals(ms[..i])
      {
        var m := measurements[i];
        TotalsStep(ms, i);
        totalDuration := AddI64(totalDuration, m.duration);
        totalMemory := AddU64(totalMemory, m.memoryDelta);
        totalAllocs := AddU64(totalAllocs, m.allocCount);
      }
      assert ms[..iterations] == ms;

      var avgDuration := QuoI64(totalDuration, iterations);
      var avgMemory := QuoU64(totalMemory, iterations);
      var avgAllocs := QuoU64(totalAllocs, iterations);

      var record := BenchmarkResult(name, totalDuration, iterations, avgDuration, avgMemory, avgAllocs);
      assert record == Aggregate(name, samples, iterations);
      results := results + [record];
      b := this;
    }

    /** `Compare`: runs every entry of `tests` once, in an unspecified order
        of the keys, with the shared iteration count. Afterwards the earlier
        results are untouched and one new result per key follows them, named
        by that key and measured from its samples. */
    method Compare(tests: map<string, seq<Sample>>, iterations: Int64) returns (b: Benchmark)
      requires Valid()
      requires |tests| > 0 ==> iterations >= 1
      requires forall name :: name in tests ==> |tests[name]| == iterations
      modifies this
      ensures b == this && Valid()
      ensures |results| == |old(results)| + |tests|
      ensures results[..|old(results)|] == old(results)
      ensures Names(results[|old(results)|..]) == tests.Keys
      ensures DistinctNames(results[|old(results)|..])
      ensures forall k :: |old(results)| <= k < |results| ==> MeasuredFrom(results[k], tests, iterations)
    {
      ghost var before := results;
      ghost var added: seq<BenchmarkResult> := [];
      var remaining := tests.Keys;
      while remaining != {}
        invariant Valid()
        invariant results == before + added
        invariant CompareProgress(tests, iterations, remaining, added)
        decreases remaining
      {
        var name :| name in remaining;
        var _ := Run(name, tests[name], iterations);
        CompareStep(tests, iterations, remaining, added, name);
        added := added + [Aggregate(name, tests[name], iterations)];
        remaining := remaining - {name};
      }
      assert results[|before|..] == added;
      forall k | |before| <= k < |results|
        ensures MeasuredFrom(results[k], tests, iterations)
      {
        assert results[k] == added[k - |before|];
      }
      b := this;
    }

    /** `PrintResults`, short of its output: the table lists the results in
        their stored order, then the list is sorted in place by average time
        and its first element is reported as the fastest. Go indexes
        `results[0]`, so the list must not be empty. */
    method PrintResults() returns (report: Report)
      requires Valid()
      requires |results| > 0
      modifies this
      ensures Valid()
      ensures multiset(results) == multiset(old(results))
      ensures SortedByAverageTime(results)
      ensures report.table == old(results)
      ensures report.fastest == results[0] && report.slower == results[1..]
      ensures forall r :: r in results ==> report.fastest.averageTime <= r.averageTime
    {
      var table := results;
      var a := new BenchmarkResult[|results|](i requires 0 <= i < |results| reads this => results[i]);
      assert a[..] == results;
      SortByAverageTime(a);
      results := a[..];
      assert forall r :: r in results ==> r in multiset(table);
      report := Report(table, results[0], results[1..]);
    }

    /** `Clear`: empties the result list and returns the same object. */
    method Clear() returns (b: Benchmark)
      modifies this
      ensures b == this && Valid()
      ensures results == []
    {
      results := results[..0];
      b := this;
    }
  }

  /** A list of two results named "A" and "B", each the given record for its
      name, holds those two records in one order or the other. */
  lemma TwoKeys(rs: seq<BenchmarkResult>, x: BenchmarkResult, y: BenchmarkResult)
    requires x.name == "A" && y.name == "B"
    requires |rs| == 2 && Names(rs) == {"A", "B"} && DistinctNames(rs)
    requires forall k :: 0 <= k < |rs| && rs[k].name == "A" ==> rs[k] == x
    requires forall k :: 0 <= k < |rs| && rs[k].name == "B" ==> rs[k] == y
    ensures multiset(rs) == multiset([x, y])
  {
    assert "A" != "B";
    assert rs == [rs[0], rs[1]];
    assert rs[0].name in {"A", "B"} && rs[1].name in {"A", "B"};
    if rs[0].name == "A" {
      assert rs[1].name == "B";
    } else {
      assert rs[0].name == "B" && rs[1].name == "A";
      assert rs == [y, x];
    }
  }

  /** Two results with different average times sort in one order only. */
  lemma SortedPair(rs: seq<BenchmarkResult>, x: BenchmarkResult, y: BenchmarkResult)
    requires SortedByAverageTime(rs) && multiset(rs) == multiset([x, y])
    requires x.averageTime < y.averageTime
    ensures rs == [x, y]
  {
    SortedWithoutTiesIsUnique([x, y], rs);
  }

  /** A whole session: an earlier result is cleared away, then a workload
      "A" and a workload "B" whose mean time is larger are compared and
      reported. The table holds only the two new results, "A" is the fastest,
      and "B" is reported as slower. */
  method ClearThenCompare(fast: seq<Sample>, slow: seq<Sample>, iterations: Int64)
    returns (report: Report)
    requires iterations >= 1 && |fast| == iterations && |slow| == iterations
    requires Aggregate("A", fast, iterations).averageTime < Aggregate("B", slow, iterations).averageTime
    ensures |report.table| == 2 && Names(report.table) == {"A", "B"}
    ensures report.fastest == Aggregate("A", fast, iterations)
    ensures report.slower == [Aggregate("B", slow, iterations)]
  {
    var b := new Benchmark();
    var _ := b.Run("earlier", slow, iterations);
    var _ := b.Clear();
    CompareTwo(b, fast, slow, iterations);
    report := b.PrintResults();
    SortedPair(b.results, Aggregate("A", fast, iterations), Aggregate("B", slow, iterations));
  }

  /** `Compare` of two keys "A" and "B" on an empty list. */
  method CompareTwo(b: Benchmark, fast: seq<Sample>, slow: seq<Sample>, iterations: Int64)
    requires b.Valid() && b.results == []
    requires iterations >= 1 && |fast| == iterations && |slow| == iterations
    modifies b
    ensures b.Valid() && |b.results| == 2 && Names(b.results) == {"A", "B"}
    ensures multiset(b.results) ==
      multiset([Aggregate("A", fast, iterations), Aggregate("B", slow, iterations)])
  {
    var tests := map["A" := fast, "B" := slow];
    assert tests.Keys == {"A", "B"} && tests["A"] == fast && tests["B"] == slow;
    ghost var ra, rb := Aggregate("A", fast, iterations), Aggregate("B", slow, iterations);
    var _ := b.Compare(tests, iterations);
    assert b.results[0..] == b.results;
    forall k | 0 <= k < |b.results|
      ensures b.results[k].name == "A" ==> b.results[k] == ra
      ensures b.results[k].name == "B" ==> b.results[k] == rb
    {
      assert MeasuredFrom(b.results[k], tests, iterations);
    }
    TwoKeys(b.results, ra, rb);
  }
}
