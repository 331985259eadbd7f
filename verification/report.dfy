/**
 The batch loop of `main` and the `overall_statistics` block: batches run
 one after another with ids 1..k in configured order, and their counts and
 durations are summed. Each configured batch size is the number of
 outcomes supplied for that batch.
 */
module Report {
  import opened Results
  import opened Probe
  import Batch

  /** What the network and the clock produced for one configured batch. */
  datatype BatchRun = BatchRun(outcomes: seq<Outcome>, duration: nat)

  /** `overall_statistics`; the success rate is a percentage, unrounded. */
  datatype OverallStatistics = OverallStatistics(
    totalRequests: nat,
    totalSuccessful: nat,
    totalFailed: nat,
    averageSuccessRate: real,
    totalDuration: nat)

  /** `final_report`, minus the URL and the timestamps. */
  datatype TestReport = TestReport(
    batchSizes: seq<nat>,
    configuredRequests: nat,
    batchResults: seq<Batch.BatchStats>,
    overallStatistics: OverallStatistics)

  /** The four sums `main` takes over the batch results. */
  datatype Totals = Totals(requests: nat, successful: nat, failed: nat, duration: nat)

  /** `batch_sizes`: one size per configured batch. */
  function BatchSizes(runs: seq<BatchRun>): (sizes: seq<nat>)
    ensures |sizes| == |runs|
    ensures forall i :: 0 <= i < |runs| ==> sizes[i] == |runs[i].outcomes|
  {
    seq(|runs|, i requires 0 <= i < |runs| => |runs[i].outcomes|)
  }

  function SumDurations(runs: seq<BatchRun>): nat {
    if |runs| == 0 then 0 else runs[0].duration + SumDurations(runs[1..])
  }

  /** The position of the first batch with no probes, or `|runs|` when there is none. */
  function FirstEmpty(runs: seq<BatchRun>): (k: nat)
    ensures k <= |runs|
    ensures k < |runs| ==> |runs[k].outcomes| == 0
    ensures forall j :: 0 <= j < k ==> |runs[j].outcomes| > 0
    decreases |runs|
  {
    if |runs| == 0 || |runs[0].outcomes| == 0 then 0
    else
      assert forall j :: 1 <= j < |runs| ==> runs[1..][j - 1] == runs[j];
      1 + FirstEmpty(runs[1..])
  }

  /**
   The loop `for i, batch_size in enumerate(batch_sizes)`: batch `i + 1` runs
   the i-th configured batch. Batches are independent of each other, so the
   loop's result is the sequence of their statistics, unless some batch is
   empty; then the first empty one raises and ends the run.
   */
  function RunBatches(runs: seq<BatchRun>): (r: Result<seq<Batch.BatchStats>>)
    ensures r.Err? <==> FirstEmpty(runs) < |runs|
    ensures r.Err? ==> r.error == EmptyBatch(FirstEmpty(runs) + 1)
    ensures r.Ok? ==> |r.value| == |runs|
  {
    var k := FirstEmpty(runs);
    if k < |runs| then Err(EmptyBatch(k + 1))
    else
      Ok(seq(|runs|, i requires 0 <= i < |runs| && |runs[i].outcomes| > 0 =>
        Batch.RunBatch(i + 1, runs[i].outcomes, runs[i].duration).value))
  }

  /** Entry i of the loop's result is what `run_batch_test` returns for the i-th configured batch, with id i + 1. */
  lemma {:induction false} RunBatchesElement(runs: seq<BatchRun>, bs: seq<Batch.BatchStats>, i: nat)
    requires RunBatches(runs) == Ok(bs) && i < |runs|
    ensures Batch.RunBatch(i + 1, runs[i].outcomes, runs[i].duration) == Ok(bs[i])
    ensures bs[i].batchId == i + 1
  {
  }

  /** The sums over the batch results, in one pass. */
  function Accumulate(bs: seq<Batch.BatchStats>): Totals {
    if |bs| == 0 then Totals(0, 0, 0, 0)
    else
      var t := Accumulate(bs[1..]);
      Totals(
        bs[0].totalRequests + t.requests,
        bs[0].successfulRequests + t.successful,
        bs[0].failedRequests + t.failed,
        bs[0].totalDuration + t.duration)
  }

  /** `sum(r['successful_requests'] for r in batch_results)` */
  function SumSuccessful(bs: seq<Batch.BatchStats>): nat {
    if |bs| == 0 then 0 else bs[0].successfulRequests + SumSuccessful(bs[1..])
  }

  /** `sum(r['failed_requests'] for r in batch_results)` */
  function SumFailed(bs: seq<Batch.BatchStats>): nat {
    if |bs| == 0 then 0 else bs[0].failedRequests + SumFailed(bs[1..])
  }

  /** The one-pass fold computes the same successful and failed totals as the script's separate sums. */
  lemma {:induction false} AccumulateSums(bs: seq<Batch.BatchStats>)
    ensures Accumulate(bs).successful == SumSuccessful(bs)
    ensures Accumulate(bs).failed == SumFailed(bs)
  {
    if |bs| > 0 {
      AccumulateSums(bs[1..]);
    }
  }

  /** Where every batch's counts partition its requests, so do the overall sums. */
  lemma {:induction false} TotalsPartition(bs: seq<Batch.BatchStats>)
    requires forall i :: 0 <= i < |bs| ==>
      bs[i].successfulRequests + bs[i].failedRequests == bs[i].totalRequests
    ensures Accumulate(bs).successful + Accumulate(bs).failed == Accumulate(bs).requests
  {
    if |bs| > 0 {
      TotalsPartition(bs[1..]);
    }
  }

  /** The summed batch totals are the configured total, and the summed durations are the batch durations. */
  lemma {:induction false} TotalsMatchRuns(runs: seq<BatchRun>, bs: seq<Batch.BatchStats>)
    requires |bs| == |runs|
    requires forall i :: 0 <= i < |runs| ==>
      bs[i].totalRequests == |runs[i].outcomes| && bs[i].totalDuration == runs[i].duration
    ensures Accumulate(bs).requests == Batch.Sum(BatchSizes(runs))
    ensures Accumulate(bs).duration == SumDurations(runs)
  {
    if |runs| > 0 {
      TotalsMatchRuns(runs[1..], bs[1..]);
      assert BatchSizes(runs)[1..] == BatchSizes(runs[1..]);
    }
  }

  /** What the loop records about each batch, read off `run_batch_test`'s contract. */
  lemma {:induction false} BatchFacts(runs: seq<BatchRun>, bs: seq<Batch.BatchStats>)
    requires RunBatches(runs) == Ok(bs)
    ensures |bs| == |runs|
    ensures forall i :: 0 <= i < |runs| ==>
      && bs[i].batchId == i + 1
      && bs[i].totalRequests == |runs[i].outcomes|
      && bs[i].totalDuration == runs[i].duration
      && bs[i].successfulRequests + bs[i].failedRequests == bs[i].totalRequests
  {
    forall i | 0 <= i < |runs|
      ensures bs[i].batchId == i + 1
      ensures bs[i].totalRequests == |runs[i].outcomes|
      ensures bs[i].totalDuration == runs[i].duration
      ensures bs[i].successfulRequests + bs[i].failedRequests == bs[i].totalRequests
    {
      RunBatchesElement(runs, bs, i);
    }
  }

  /** A non-empty configuration of non-empty batches asks for at least one request. */
  lemma {:induction false} ConfiguredPositive(runs: seq<BatchRun>)
    requires |runs| > 0 && FirstEmpty(runs) == |runs|
    ensures Batch.Sum(BatchSizes(runs)) > 0
  {
    assert BatchSizes(runs)[0] > 0;
  }

  /** `rate` is `part` as a percentage of `whole`. */
  ghost predicate IsPercentOf(rate: real, part: nat, whole: nat) {
    rate * whole as real == 100.0 * part as real
  }

  lemma {:induction false} QuotientTimes(x: real, w: real)
    requires w > 0.0
    ensures (x / w) * w == x
  {
  }

  lemma {:induction false} QuotientBounds(x: real, w: real)
    requires w > 0.0 && 0.0 <= x <= w
    ensures 0.0 <= x / w <= 1.0
  {
  }

  lemma {:induction false} QuotientOne(x: real, w: real)
    requires w > 0.0
    ensures x / w == 1.0 <==> x == w
  {
    QuotientTimes(x, w);
  }

  lemma {:induction false} QuotientZero(x: real, w: real)
    requires w > 0.0
    ensures x / w == 0.0 <==> x == 0.0
  {
    QuotientTimes(x, w);
  }

  /** A percentage of a positive whole lies in [0, 100] and hits each end exactly at the part's extremes. */
  lemma {:induction false} PercentFacts(rate: real, part: nat, whole: nat)
    requires 0 < whole && part <= whole
    requires rate == part as real / whole as real * 100.0
    ensures IsPercentOf(rate, part, whole)
    ensures 0.0 <= rate <= 100.0
    ensures rate == 100.0 <==> part == whole
    ensures rate == 0.0 <==> part == 0
  {
    var w := whole as real;
    var q := part as real / w;
    QuotientTimes(part as real, w);
    QuotientBounds(part as real, w);
    QuotientOne(part as real, w);
    QuotientZero(part as real, w);
    assert rate * w == 100.0 * (q * w);
  }

  /** `total_successful / total_requests * 100`, before rounding. */
  function SuccessRate(successful: nat, total: nat): (rate: real)
    requires 0 < total
    requires successful <= total
    ensures IsPercentOf(rate, successful, total)
    ensures 0.0 <= rate <= 100.0
    ensures rate == 100.0 <==> successful == total
    ensures rate == 0.0 <==> successful == 0
  {
    var rate := successful as real / total as real * 100.0;
    PercentFacts(rate, successful, total);
    rate
  }

  /** What every report satisfies. */
  ghost predicate ReportConsistent(rep: TestReport) {
    var bs := rep.batchResults;
    var o := rep.overallStatistics;
    && |bs| == |rep.batchSizes|
    && (forall i :: 0 <= i < |bs| ==>
         && bs[i].batchId == i + 1
         && bs[i].totalRequests == rep.batchSizes[i]
         && bs[i].successfulRequests + bs[i].failedRequests == bs[i].totalRequests)
    && o.totalRequests == rep.configuredRequests == Batch.Sum(rep.batchSizes)
    && o.totalSuccessful == SumSuccessful(bs)
    && o.totalFailed == SumFailed(bs)
    && o.totalSuccessful + o.totalFailed == o.totalRequests
    && IsPercentOf(o.averageSuccessRate, o.totalSuccessful, o.totalRequests)
    && 0.0 <= o.averageSuccessRate <= 100.0
    && (o.averageSuccessRate == 100.0 <==> o.totalFailed == 0)
  }

  /**
   `main` without I/O: runs the batches in order and folds their statistics.
   With no batch configured, the success rate divides zero by zero.
   */
  function RunTest(runs: seq<BatchRun>): (r: Result<TestReport>)
    ensures r.Ok? <==> |runs| > 0 && FirstEmpty(runs) == |runs|
    ensures |runs| == 0 ==> r == Err(NoRequests)
    ensures r.Err? && |runs| > 0 ==> r.error == EmptyBatch(FirstEmpty(runs) + 1)
    ensures r.Ok? ==> r.value.batchSizes == BatchSizes(runs)
    ensures r.Ok? ==> RunBatches(runs) == Ok(r.value.batchResults)
    ensures r.Ok? ==> r.value.overallStatistics.totalDuration == SumDurations(runs)
    ensures r.Ok? ==> ReportConsistent(r.value)
  {
    match RunBatches(runs)
    case Err(e) => Err(e)
    case Ok(bs) =>
      var t := Accumulate(bs);
      BatchFacts(runs, bs);
      TotalsPartition(bs);
      TotalsMatchRuns(runs, bs);
      AccumulateSums(bs);
      assert |runs| > 0 ==> t.requests > 0 by {
        if |runs| > 0 {
          ConfiguredPositive(runs);
        }
      }
      if t.requests == 0 then Err(NoRequests)
      else
        var sizes := BatchSizes(runs);
        Ok(TestReport(
          sizes,
          Batch.Sum(sizes),
          bs,
          OverallStatistics(t.requests, t.successful, t.failed, SuccessRate(t.successful, t.requests), t.duration)))
  }

  /** Each batch the loop produces has consistent statistics. */
  lemma {:induction false} RunBatchesConsistent(runs: seq<BatchRun>, bs: seq<Batch.BatchStats>, i: nat)
    requires RunBatches(runs) == Ok(bs) && i < |runs|
    ensures Batch.Consistent(bs[i])
  {
    RunBatchesElement(runs, bs, i);
    Batch.RunBatchConsistent(i + 1, runs[i].outcomes, runs[i].duration);
  }

  /** Every batch in a report has consistent statistics. */
  lemma {:induction false} RunTestConsistent(runs: seq<BatchRun>)
    requires |runs| > 0 && FirstEmpty(runs) == |runs|
    ensures forall i :: 0 <= i < |runs| ==> Batch.Consistent(RunTest(runs).value.batchResults[i])
  {
    var bs := RunBatches(runs).value;
    forall i | 0 <= i < |runs|
      ensures Batch.Consistent(bs[i])
    {
      RunBatchesConsistent(runs, bs, i);
    }
  }
}
