/**
 `run_batch_test` from the point where all probes of a batch have returned:
 the reduction of the gathered records into the batch statistics.
 The batch's wall-clock duration is a clock reading and enters as a parameter.
 */
module Batch {
  import opened Results
  import opened Probe
  import Sorting
  import Decimal
  import Counter

  /** The latency percentiles of one batch, in milliseconds. */
  datatype Percentiles = Percentiles(p50: nat, p90: nat, p95: nat, p99: nat)

  /** The statistics dictionary of one batch, minus its timestamps. */
  datatype BatchStats = BatchStats(
    batchId: nat,
    totalRequests: nat,
    totalDuration: nat,
    successfulRequests: nat,
    failedRequests: nat,
    averageResponseTime: real,
    statusCodes: map<string, nat>,
    detailedResults: seq<RequestRecord>,
    responseTimePercentiles: Percentiles)

  /* ---------- success and failure counts ---------- */

  /** `sum(1 for r in results if r['success'])` */
  function CountSuccesses(rs: seq<RequestRecord>): (k: nat)
    ensures k <= |rs|
  {
    if |rs| == 0 then 0 else (if rs[0].success then 1 else 0) + CountSuccesses(rs[1..])
  }

  /** `sum(1 for r in results if not r['success'])` */
  function CountFailures(rs: seq<RequestRecord>): (k: nat)
    ensures k <= |rs|
  {
    if |rs| == 0 then 0 else (if rs[0].success then 0 else 1) + CountFailures(rs[1..])
  }

  /** The two counts partition the batch. */
  lemma {:induction false} CountsPartition(rs: seq<RequestRecord>)
    ensures CountSuccesses(rs) + CountFailures(rs) == |rs|
  {
    if |rs| > 0 {
      CountsPartition(rs[1..]);
    }
  }

  /* ---------- status-code histogram ---------- */

  /** The histogram key of a status code: `str(result['status_code'])`. */
  function StatusKey(code: nat): string {
    Decimal.ToDecimal(code)
  }

  /** How many records carry the status code `code`. */
  function CountStatus(rs: seq<RequestRecord>, code: nat): (k: nat)
    ensures k <= |rs|
  {
    if |rs| == 0 then 0 else (if rs[0].statusCode == code then 1 else 0) + CountStatus(rs[1..], code)
  }

  /** Some record of `rs` has a status code whose key is `k`. */
  ghost predicate HasStatusKey(rs: seq<RequestRecord>, k: string) {
    exists i :: 0 <= i < |rs| && StatusKey(rs[i].statusCode) == k
  }

  /** The counting loop, continued from the counts `h` over the remaining records `rs`. */
  function TallyFrom(h: map<string, nat>, rs: seq<RequestRecord>): map<string, nat>
    decreases |rs|
  {
    if |rs| == 0 then h
    else TallyFrom(Counter.Bump(h, StatusKey(rs[0].statusCode)), rs[1..])
  }

  /** The `status_codes` histogram: the counting loop from an empty `defaultdict`. */
  function Tally(rs: seq<RequestRecord>): map<string, nat> {
    TallyFrom(map[], rs)
  }

  lemma {:induction false} TallyFromTotal(h: map<string, nat>, rs: seq<RequestRecord>)
    ensures Counter.Total(TallyFrom(h, rs)) == Counter.Total(h) + |rs|
    decreases |rs|
  {
    if |rs| > 0 {
      Counter.TotalBump(h, StatusKey(rs[0].statusCode));
      TallyFromTotal(Counter.Bump(h, StatusKey(rs[0].statusCode)), rs[1..]);
    }
  }

  /** The histogram's counts add up to the number of records. */
  lemma {:induction false} TallySumsToTotal(rs: seq<RequestRecord>)
    ensures Counter.Total(Tally(rs)) == |rs|
  {
    TallyFromTotal(map[], rs);
  }

  lemma {:induction false} TallyFromCounts(h: map<string, nat>, rs: seq<RequestRecord>, code: nat)
    ensures Counter.Get(TallyFrom(h, rs), StatusKey(code)) == Counter.Get(h, StatusKey(code)) + CountStatus(rs, code)
    decreases |rs|
  {
    if |rs| > 0 {
      Decimal.ToDecimalInjective(rs[0].statusCode, code);
      TallyFromCounts(Counter.Bump(h, StatusKey(rs[0].statusCode)), rs[1..], code);
    }
  }

  /** The entry under a code's key is the number of records with that code (zero when absent). */
  lemma {:induction false} TallyCounts(rs: seq<RequestRecord>, code: nat)
    ensures Counter.Get(Tally(rs), StatusKey(code)) == CountStatus(rs, code)
  {
    TallyFromCounts(map[], rs, code);
  }

  lemma {:induction false} TallyFromKeys(h: map<string, nat>, rs: seq<RequestRecord>)
    ensures forall k :: k in TallyFrom(h, rs) <==> k in h || HasStatusKey(rs, k)
    decreases |rs|
  {
    if |rs| > 0 {
      var k0 := StatusKey(rs[0].statusCode);
      TallyFromKeys(Counter.Bump(h, k0), rs[1..]);
      forall k
        ensures HasStatusKey(rs, k) <==> k == k0 || HasStatusKey(rs[1..], k)
      {
        if HasStatusKey(rs[1..], k) {
          var i :| 0 <= i < |rs[1..]| && StatusKey(rs[1..][i].statusCode) == k;
          assert StatusKey(rs[i + 1].statusCode) == k;
        }
        if HasStatusKey(rs, k) && k != k0 {
          var i :| 0 <= i < |rs| && StatusKey(rs[i].statusCode) == k;
          assert StatusKey(rs[1..][i - 1].statusCode) == k;
        }
      }
    }
  }

  /** The keys of the histogram are exactly the keys of the recorded status codes. */
  lemma {:induction false} TallyKeys(rs: seq<RequestRecord>)
    ensures forall k :: k in Tally(rs) <==> HasStatusKey(rs, k)
  {
    TallyFromKeys(map[], rs);
  }

  /** A batch whose records all carry one code has a one-entry histogram. */
  lemma {:induction false} UniformTally(rs: seq<RequestRecord>, code: nat)
    requires |rs| > 0
    requires forall i :: 0 <= i < |rs| ==> rs[i].statusCode == code
    ensures Tally(rs) == map[StatusKey(code) := |rs|]
  {
    var h := Tally(rs);
    TallyKeys(rs);
    TallyCounts(rs, code);
    CountStatusUniform(rs, code);
    assert HasStatusKey(rs, StatusKey(code)) by {
      assert StatusKey(rs[0].statusCode) == StatusKey(code);
    }
    assert h.Keys == {StatusKey(code)};
  }

  lemma {:induction false} CountStatusUniform(rs: seq<RequestRecord>, code: nat)
    requires forall i :: 0 <= i < |rs| ==> rs[i].statusCode == code
    ensures CountStatus(rs, code) == |rs|
  {
    if |rs| > 0 {
      CountStatusUniform(rs[1..], code);
    }
  }

  /** Where success means status 200, the success count is the histogram's count for 200. */
  lemma {:induction false} SuccessesAreOkStatus(rs: seq<RequestRecord>)
    requires forall i :: 0 <= i < |rs| ==> (rs[i].success <==> rs[i].statusCode == OkStatus)
    ensures CountSuccesses(rs) == CountStatus(rs, OkStatus)
  {
    if |rs| > 0 {
      SuccessesAreOkStatus(rs[1..]);
    }
  }

  /* ---------- latencies ---------- */

  /** `r['response_time'] for r in results` */
  function Latencies(rs: seq<RequestRecord>): (ls: seq<nat>)
    ensures |ls| == |rs|
    ensures forall i :: 0 <= i < |rs| ==> ls[i] == rs[i].responseTime
  {
    seq(|rs|, i requires 0 <= i < |rs| => rs[i].responseTime)
  }

  function Sum(s: seq<nat>): nat {
    if |s| == 0 then 0 else s[0] + Sum(s[1..])
  }

  /** The arithmetic mean of the latencies (before the script's rounding). */
  function Average(s: seq<nat>): real
    requires |s| > 0
  {
    Sum(s) as real / |s| as real
  }

  lemma {:induction false} SumBounds(s: seq<nat>, lo: nat, hi: nat)
    requires forall i :: 0 <= i < |s| ==> lo <= s[i] <= hi
    ensures |s| * lo <= Sum(s) <= |s| * hi
  {
    if |s| > 0 {
      SumBounds(s[1..], lo, hi);
      assert |s| * lo == (|s| - 1) * lo + lo;
      assert |s| * hi == (|s| - 1) * hi + hi;
    }
  }

  /** When every latency lies in `[lo, hi]`, so does their mean. */
  lemma {:induction false} AverageWithinRange(s: seq<nat>, lo: nat, hi: nat)
    requires |s| > 0
    requires forall i :: 0 <= i < |s| ==> lo <= s[i] <= hi
    ensures lo as real <= Average(s) <= hi as real
  {
    SumBounds(s, lo, hi);
    MeanBetween(Sum(s), |s|, lo, hi);
  }

  /** `m` is the mean of `s`: `m` times the count gives back the sum. */
  ghost predicate IsMeanOf(m: real, s: seq<nat>) {
    m * |s| as real == Sum(s) as real
  }

  lemma {:induction false} AverageIsMean(s: seq<nat>)
    requires |s| > 0
    ensures IsMeanOf(Average(s), s)
  {
  }

  lemma {:induction false} MeanBetween(sum: nat, n: nat, lo: nat, hi: nat)
    requires n > 0 && n * lo <= sum <= n * hi
    ensures lo as real <= sum as real / n as real <= hi as real
  {
  }

  /* ---------- percentiles ---------- */

  /** `len(response_times) // 2` */
  function MedianIndex(n: nat): nat {
    n / 2
  }

  /** `int(len(response_times) * f)` for `f` = `hundredths / 100`, in exact arithmetic. */
  function FractionIndex(n: nat, hundredths: nat): nat {
    n * hundredths / 100
  }

  /** On a non-empty batch the four indices are in bounds and never decrease. */
  lemma {:induction false} PercentileIndicesOrdered(n: nat)
    requires n >= 1
    ensures MedianIndex(n) <= FractionIndex(n, 90) <= FractionIndex(n, 95)
    ensures FractionIndex(n, 95) <= FractionIndex(n, 99) < n
  {
  }

  /** Reads the four percentiles off the ascending latencies. */
  function PickPercentiles(sorted: seq<nat>): (p: Percentiles)
    requires |sorted| >= 1
    ensures Sorting.SortedAsc(sorted) ==> p.p50 <= p.p90 <= p.p95 <= p.p99
    ensures p.p50 in sorted && p.p90 in sorted && p.p95 in sorted && p.p99 in sorted
  {
    var n := |sorted|;
    PercentileIndicesOrdered(n);
    Percentiles(
      sorted[MedianIndex(n)],
      sorted[FractionIndex(n, 90)],
      sorted[FractionIndex(n, 95)],
      sorted[FractionIndex(n, 99)])
  }

  /**
   On ascending latencies each pick is the latency of its rank: `n // 2`
   for p50, `int(n * 0.9)`, `int(n * 0.95)` and `int(n * 0.99)` for the others.
   */
  lemma {:induction false} PickPercentilesRanks(sorted: seq<nat>)
    requires |sorted| >= 1 && Sorting.SortedAsc(sorted)
    ensures var n := |sorted|;
      var p := PickPercentiles(sorted);
      && Sorting.HasRank(sorted, p.p50, MedianIndex(n))
      && Sorting.HasRank(sorted, p.p90, FractionIndex(n, 90))
      && Sorting.HasRank(sorted, p.p95, FractionIndex(n, 95))
      && Sorting.HasRank(sorted, p.p99, FractionIndex(n, 99))
  {
    var n := |sorted|;
    PercentileIndicesOrdered(n);
    Sorting.SortedRank(sorted, MedianIndex(n));
    Sorting.SortedRank(sorted, FractionIndex(n, 90));
    Sorting.SortedRank(sorted, FractionIndex(n, 95));
    Sorting.SortedRank(sorted, FractionIndex(n, 99));
  }

  /* ---------- the reduction ---------- */

  /** The counts agree with each other and with the records. */
  ghost predicate CountsConsistent(b: BatchStats) {
    var rs := b.detailedResults;
    && |rs| == b.totalRequests > 0
    && (forall i :: 0 <= i < |rs| ==> rs[i].requestId == i)
    && b.successfulRequests + b.failedRequests == b.totalRequests
    && b.successfulRequests == Counter.Get(b.statusCodes, StatusKey(OkStatus))
  }

  /** The histogram counts every record once, under its own code's key. */
  ghost predicate HistogramConsistent(b: BatchStats) {
    var rs := b.detailedResults;
    && Counter.Total(b.statusCodes) == b.totalRequests
    && (forall code: nat :: Counter.Get(b.statusCodes, StatusKey(code)) == CountStatus(rs, code))
    && (forall k :: k in b.statusCodes <==> HasStatusKey(rs, k))
  }

  /**
   The mean is the sum of the latencies over their number, and each
   percentile is the recorded latency of its rank: `n // 2` for p50 and
   `int(n * f)` for the others.
   */
  ghost predicate LatenciesConsistent(b: BatchStats) {
    var rs := b.detailedResults;
    var ls := Latencies(rs);
    var n := |rs|;
    var p := b.responseTimePercentiles;
    && IsMeanOf(b.averageResponseTime, ls)
    && Sorting.HasRank(ls, p.p50, MedianIndex(n))
    && Sorting.HasRank(ls, p.p90, FractionIndex(n, 90))
    && Sorting.HasRank(ls, p.p95, FractionIndex(n, 95))
    && Sorting.HasRank(ls, p.p99, FractionIndex(n, 99))
    && p.p50 <= p.p90 <= p.p95 <= p.p99
    && p.p50 in Latencies(rs) && p.p90 in Latencies(rs)
    && p.p95 in Latencies(rs) && p.p99 in Latencies(rs)
    && (exists i :: 0 <= i < |rs| && rs[i].responseTime as real <= b.averageResponseTime)
    && (exists i :: 0 <= i < |rs| && b.averageResponseTime <= rs[i].responseTime as real)
  }

  /** What every batch's statistics satisfy. */
  ghost predicate Consistent(b: BatchStats) {
    CountsConsistent(b) && HistogramConsistent(b) && LatenciesConsistent(b)
  }

  /** The reduction proper, over records already gathered. */
  function Reduce(batchId: nat, rs: seq<RequestRecord>, duration: nat): BatchStats
    requires |rs| > 0
  {
    var ls := Latencies(rs);
    BatchStats(
      batchId,
      |rs|,
      duration,
      CountSuccesses(rs),
      CountFailures(rs),
      Average(ls),
      Tally(rs),
      rs,
      PickPercentiles(Sorting.Sort(ls)))
  }

  /** Records as `Gather` produces them: numbered in order, successful exactly on status 200. */
  ghost predicate Gathered(rs: seq<RequestRecord>) {
    forall i :: 0 <= i < |rs| ==> rs[i].requestId == i && (rs[i].success <==> rs[i].statusCode == OkStatus)
  }

  lemma {:induction false} ReduceCounts(batchId: nat, rs: seq<RequestRecord>, duration: nat)
    requires |rs| > 0 && Gathered(rs)
    ensures CountsConsistent(Reduce(batchId, rs, duration))
  {
    CountsPartition(rs);
    SuccessesAreOkStatus(rs);
    TallyCounts(rs, OkStatus);
  }

  lemma {:induction false} ReduceHistogram(batchId: nat, rs: seq<RequestRecord>, duration: nat)
    requires |rs| > 0
    ensures HistogramConsistent(Reduce(batchId, rs, duration))
  {
    var h := Reduce(batchId, rs, duration).statusCodes;
    TallySumsToTotal(rs);
    TallyKeys(rs);
    forall code: nat
      ensures Counter.Get(h, StatusKey(code)) == CountStatus(rs, code)
    {
      TallyCounts(rs, code);
    }
  }

  lemma {:induction false} ReducePercentiles(batchId: nat, rs: seq<RequestRecord>, duration: nat)
    requires |rs| > 0
    ensures var p := Reduce(batchId, rs, duration).responseTimePercentiles;
      && p.p50 <= p.p90 <= p.p95 <= p.p99
      && p.p50 in Latencies(rs) && p.p90 in Latencies(rs)
      && p.p95 in Latencies(rs) && p.p99 in Latencies(rs)
  {
    var ls := Latencies(rs);
    var sorted := Sorting.Sort(ls);
    Sorting.SortPermutes(ls);
    var p := PickPercentiles(sorted);
    assert p.p50 in multiset(ls) && p.p90 in multiset(ls) by {
      assert multiset(sorted) == multiset(ls);
    }
    assert p.p95 in multiset(ls) && p.p99 in multiset(ls) by {
      assert multiset(sorted) == multiset(ls);
    }
  }

  /** The picks keep their ranks among the unsorted latencies. */
  lemma {:induction false} ReduceRanks(batchId: nat, rs: seq<RequestRecord>, duration: nat)
    requires |rs| > 0
    ensures var ls := Latencies(rs);
      var n := |rs|;
      var p := Reduce(batchId, rs, duration).responseTimePercentiles;
      && Sorting.HasRank(ls, p.p50, MedianIndex(n))
      && Sorting.HasRank(ls, p.p90, FractionIndex(n, 90))
      && Sorting.HasRank(ls, p.p95, FractionIndex(n, 95))
      && Sorting.HasRank(ls, p.p99, FractionIndex(n, 99))
  {
    var ls := Latencies(rs);
    var n := |rs|;
    var sorted := Sorting.Sort(ls);
    Sorting.SortPermutes(ls);
    var p := PickPercentiles(sorted);
    PickPercentilesRanks(sorted);
    Sorting.RankPermutation(sorted, ls, p.p50, MedianIndex(n));
    Sorting.RankPermutation(sorted, ls, p.p90, FractionIndex(n, 90));
    Sorting.RankPermutation(sorted, ls, p.p95, FractionIndex(n, 95));
    Sorting.RankPermutation(sorted, ls, p.p99, FractionIndex(n, 99));
  }

  /** The mean is `sum(response_times) / len(results)`. */
  lemma {:induction false} ReduceMean(batchId: nat, rs: seq<RequestRecord>, duration: nat)
    requires |rs| > 0
    ensures IsMeanOf(Reduce(batchId, rs, duration).averageResponseTime, Latencies(rs))
  {
    AverageIsMean(Latencies(rs));
  }

  lemma {:induction false} ReduceAverage(batchId: nat, rs: seq<RequestRecord>, duration: nat)
    requires |rs| > 0
    ensures var avg := Reduce(batchId, rs, duration).averageResponseTime;
      && (exists i :: 0 <= i < |rs| && rs[i].responseTime as real <= avg)
      && (exists i :: 0 <= i < |rs| && avg <= rs[i].responseTime as real)
  {
    var ls := Latencies(rs);
    var sorted := Sorting.Sort(ls);
    Sorting.SortPermutes(ls);
    var avg := Average(ls);
    Sorting.SortedEnds(ls, sorted);
    AverageWithinRange(ls, sorted[0], sorted[|ls| - 1]);
    var i :| 0 <= i < |ls| && ls[i] == sorted[0];
    var j :| 0 <= j < |ls| && ls[j] == sorted[|ls| - 1];
    assert rs[i].responseTime as real <= avg;
    assert avg <= rs[j].responseTime as real;
  }

  /**
   `run_batch_test` after `gather`: the records in `request_id` order and
   their statistics. An empty batch fails where the script divides by zero.
   */
  function RunBatch(batchId: nat, outcomes: seq<Outcome>, duration: nat): (r: Result<BatchStats>)
    ensures r.Err? <==> |outcomes| == 0
    ensures r.Err? ==> r.error == EmptyBatch(batchId)
    ensures r.Ok? ==> r.value.batchId == batchId && r.value.totalRequests == |outcomes|
    ensures r.Ok? ==> r.value.totalDuration == duration
    ensures r.Ok? ==> r.value.successfulRequests + r.value.failedRequests == r.value.totalRequests
    ensures r.Ok? ==> |r.value.detailedResults| == |outcomes|
    ensures r.Ok? ==> forall i :: 0 <= i < |outcomes| ==>
      r.value.detailedResults[i] == TestEndpoint(i, outcomes[i])
  {
    if |outcomes| == 0 then Err(EmptyBatch(batchId))
    else
      var rs := Gather(outcomes);
      CountsPartition(rs);
      Ok(Reduce(batchId, rs, duration))
  }

  /** The statistics of every non-empty batch are consistent. */
  lemma {:induction false} RunBatchConsistent(batchId: nat, outcomes: seq<Outcome>, duration: nat)
    requires |outcomes| > 0
    ensures Consistent(RunBatch(batchId, outcomes, duration).value)
  {
    var rs := Gather(outcomes);
    ReduceCounts(batchId, rs, duration);
    ReduceHistogram(batchId, rs, duration);
    ReducePercentiles(batchId, rs, duration);
    ReduceRanks(batchId, rs, duration);
    ReduceMean(batchId, rs, duration);
    ReduceAverage(batchId, rs, duration);
  }

  /** A batch where every probe got the same status: one histogram entry, and no success unless that status is 200. */
  lemma {:induction false} UniformStatusBatch(batchId: nat, outcomes: seq<Outcome>, duration: nat, code: nat)
    requires |outcomes| > 0
    requires forall i :: 0 <= i < |outcomes| ==> TestEndpoint(i, outcomes[i]).statusCode == code
    ensures var b := RunBatch(batchId, outcomes, duration).value;
      && b.statusCodes == map[StatusKey(code) := |outcomes|]
      && b.successfulRequests == (if code == OkStatus then |outcomes| else 0)
      && b.failedRequests == |outcomes| - b.successfulRequests
  {
    var b := RunBatch(batchId, outcomes, duration).value;
    RunBatchConsistent(batchId, outcomes, duration);
    UniformTally(b.detailedResults, code);
    Decimal.ToDecimalInjective(code, OkStatus);
  }

  /** A batch where every probe failed in transport: all failures, and the only key is "0". */
  lemma {:induction false} AllTransportFailures(batchId: nat, outcomes: seq<Outcome>, duration: nat)
    requires |outcomes| > 0
    requires forall i :: 0 <= i < |outcomes| ==> outcomes[i].TransportFailure?
    ensures var b := RunBatch(batchId, outcomes, duration).value;
      && b.successfulRequests == 0
      && b.failedRequests == |outcomes|
      && b.statusCodes == map["0" := |outcomes|]
  {
    UniformStatusBatch(batchId, outcomes, duration, NoResponse);
  }
}
