/**
 Concrete batches worked through the model: fixed latencies, a batch of
 HTTP 500 responses, and a mixed batch with one transport failure.
 */
module Scenarios {
  import opened Results
  import opened Probe
  import Batch
  import Sorting

  /** Five successful probes at 100..500 ms: mean 300, p50 300, p90 = p95 = p99 = 500. */
  lemma {:induction false} FiveFixedLatencies()
    ensures var outcomes := [Response(200, 100), Response(200, 200), Response(200, 300),
                             Response(200, 400), Response(200, 500)];
      var b := Batch.RunBatch(1, outcomes, 0).value;
      && b.averageResponseTime == 300.0
      && b.responseTimePercentiles == Batch.Percentiles(300, 500, 500, 500)
  {
    var ls: seq<nat> := [100, 200, 300, 400, 500];
    var outcomes := [Response(200, 100), Response(200, 200), Response(200, 300),
                     Response(200, 400), Response(200, 500)];
    var rs := Gather(outcomes);
    assert Batch.Latencies(rs) == ls;
    FiveSorted(ls);
    FiveSum(ls);
    MeanOfFive(ls);
    FivePercentiles(ls);
    assert Batch.RunBatch(1, outcomes, 0).value == Batch.Reduce(1, rs, 0);
  }

  lemma {:induction false} FiveSorted(ls: seq<nat>)
    requires ls == [100, 200, 300, 400, 500]
    ensures Sorting.Sort(ls) == ls
  {
    assert Sorting.SortedAsc(ls);
    Sorting.SortOfSorted(ls);
  }

  lemma {:induction false} FiveSum(ls: seq<nat>)
    requires ls == [100, 200, 300, 400, 500]
    ensures Batch.Sum(ls) == 1500
  {
    assert ls[1..] == [200, 300, 400, 500];
    assert ls[2..] == [300, 400, 500];
    assert ls[3..] == [400, 500];
    assert ls[4..] == [500];
    assert Batch.Sum(ls[4..]) == 500 by {
      assert ls[4..][1..] == [];
    }
    assert Batch.Sum(ls[3..]) == 900 by {
      assert ls[3..][1..] == ls[4..];
    }
    assert Batch.Sum(ls[2..]) == 1200 by {
      assert ls[2..][1..] == ls[3..];
    }
    assert Batch.Sum(ls[1..]) == 1400 by {
      assert ls[1..][1..] == ls[2..];
    }
  }

  lemma {:induction false} FivePercentiles(ls: seq<nat>)
    requires ls == [100, 200, 300, 400, 500]
    ensures Batch.PickPercentiles(ls) == Batch.Percentiles(300, 500, 500, 500)
  {
    assert Batch.MedianIndex(5) == 2;
    assert Batch.FractionIndex(5, 90) == 4;
    assert Batch.FractionIndex(5, 95) == 4;
    assert Batch.FractionIndex(5, 99) == 4;
  }

  lemma {:induction false} MeanOfFive(ls: seq<nat>)
    requires |ls| == 5 && Batch.Sum(ls) == 1500
    ensures Batch.Average(ls) == 300.0
  {
    assert Batch.Sum(ls) as real == 1500.0;
    assert |ls| as real == 5.0;
  }

  /** Ten HTTP 500 responses: no successes, ten failures, histogram {"500": 10}. */
  lemma {:induction false} AllServerErrors(latencies: seq<nat>)
    requires |latencies| == 10
    ensures var outcomes := seq(10, i requires 0 <= i < 10 => Response(500, latencies[i]));
      var b := Batch.RunBatch(1, outcomes, 0).value;
      && b.successfulRequests == 0
      && b.failedRequests == 10
      && b.statusCodes == map["500" := 10]
  {
    var outcomes := seq(10, i requires 0 <= i < 10 => Response(500, latencies[i]));
    Batch.UniformStatusBatch(1, outcomes, 0, 500);
    assert Batch.StatusKey(500) == "500";
  }

  /** Probe 0 times out and probes 1 and 2 get 200: two successes, one failure, status 0 first. */
  lemma {:induction false} MixedBatch(t0: nat, t1: nat, t2: nat)
    ensures var b := Batch.RunBatch(1, [TransportFailure(t0), Response(200, t1), Response(200, t2)], 0).value;
      && b.detailedResults[0].statusCode == 0
      && b.successfulRequests == 2
      && b.failedRequests == 1
  {
    var rs := Gather([TransportFailure(t0), Response(200, t1), Response(200, t2)]);
    assert !rs[0].success && rs[1].success && rs[2].success;
    assert Batch.CountSuccesses(rs[2..]) == 1 && Batch.CountFailures(rs[2..]) == 0 by {
      assert rs[2..][1..] == [];
    }
    assert rs[1..][1..] == rs[2..];
    assert Batch.CountSuccesses(rs[1..]) == 2 && Batch.CountFailures(rs[1..]) == 0;
    assert Batch.CountSuccesses(rs) == 2 && Batch.CountFailures(rs) == 1;
    assert Batch.RunBatch(1, [TransportFailure(t0), Response(200, t1), Response(200, t2)], 0).value
      == Batch.Reduce(1, rs, 0);
  }
}
