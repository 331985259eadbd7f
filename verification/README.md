# Batch load-test statistics, modelled in Dafny

The script fires a configured sequence of batches of concurrent HTTP GET
requests at one URL. Each probe (`test_endpoint`) becomes one result record,
whether it got a response or an exception. `run_batch_test` gathers the
records of a batch in `request_id` order and reduces them to batch
statistics: success and failure counts, the mean latency, a status-code
histogram keyed by the code's decimal string, and the p50/p90/p95/p99
latencies read off the sorted latencies. `main` runs the batches one after
another with ids 1..k and folds their statistics into `overall_statistics`.

This project models that pure part: the record a probe produces, the batch
reduction, and the overall fold. It proves what the reports promise about
them:

- the counts partition the batch;
- the histogram counts every record exactly once, under its own code's key;
- the sorted latencies are the unique ascending permutation of the records' latencies;
- the percentile indices are in bounds and ordered, so p50 ≤ p90 ≤ p95 ≤ p99;
- each percentile is the latency of its rank (n//2 or int(n·f)) among the records' latencies, a fact stated by counting rather than sorting;
- the mean is the latency sum over the record count, and lies between the smallest and the largest latency;
- the overall successful and failed totals are the sums of the batches' counts, partition the overall request count, and that count equals the configured total;
- the overall success rate is 100 times the successes over the total.

`app/robat.py` and `app/robat-base.py` hold the same logic. They differ
elsewhere:

- `robat-base.py` adds a fixed Authorization header (line 10) and passes it to `session.get` (line 12).
- Its configuration in `main` differs: a placeholder URL and `batch_sizes = [10, 20, 50, 100]` (lines 76-77).
- Its messages and comments are in English, where `robat.py`'s are in Persian.

Apart from the added line 10, the computation sits one line lower in
`robat-base.py`:

- `test_endpoint`: 8–32
- `run_batch_test`: 34–73
- the loop and `overall_statistics` in `main`: 89–106

The table cites `robat.py`; every row applies to the matching lines of
`robat-base.py`.

Modules:

- `Probe` (`probe.dfy`): probe outcomes, the result record, `test_endpoint`, and the order-preserving gather.
- `Batch` (`batch.dfy`): the reduction of `run_batch_test`.
- `Report` (`report.dfy`): the batch loop and the overall statistics of `main`.
- `Decimal` (`decimal.dfy`): Python's `str` on a non-negative `int`.
- `Counter` (`counter.dfy`): the `defaultdict(int)` histogram.
- `Sorting` (`sorting.dfy`): Python's `sorted` on latencies.
- `Results` (`results.dfy`): the failure type.
- `Scenarios` (`scenarios.dfy`): concrete batches worked through the model.

Latencies are whole milliseconds (`nat`). The script rounds a difference of
two `time.time()` readings to three decimals of a second, which is a whole
number of milliseconds whenever that difference is not negative. A probe's
network call becomes an `Outcome` value. It is either a response with a
status and a latency, or a failure with a latency. A failure is any exception
inside the `try` block, including one raised by `response.text()` after a
status arrived. A batch's wall-clock duration becomes a `nat` parameter.

## Model

| member | source | states |
|---|---|---|
| Probe.TestEndpoint | app/robat.py:8-31 | the record keeps the request id and the latency; `success` holds exactly when the status is 200 (strict equality, not 2xx); a response records its own status; a transport failure records status 0 and `success` false |
| Probe.Gather | app/robat.py:36-41 | a batch of n probes yields n records; record i has `request_id` i and is the probe of outcome i (gather keeps argument order) |
| Batch.CountsPartition | app/robat.py:52-53 | successful plus failed requests equals the number of records |
| Batch.SuccessesAreOkStatus | app/robat.py:52 | when success means status 200, the success count is the number of records with status 200 |
| Decimal.ToDecimal | app/robat.py:61 | `str(code)` is a non-empty string of digits; it starts with '0' only for 0, which prints as "0" |
| Decimal.FromToDecimal | app/robat.py:61 | reading the printed code back gives the code |
| Decimal.ToDecimalInjective | app/robat.py:61 | two codes have the same histogram key exactly when they are equal |
| Counter.Bump | app/robat.py:55-61 | `status_codes[key] += 1` on a `defaultdict(int)` adds the key, raises its count by one and leaves every other count unchanged |
| Counter.TotalBump | app/robat.py:60-61 | each increment raises the sum of all counts by exactly one |
| Batch.TallySumsToTotal | app/robat.py:59-61 | the histogram's counts add up to the number of records |
| Batch.TallyCounts | app/robat.py:59-61 | the count under `str(code)` is the number of records with that code, and zero when none has it |
| Batch.TallyKeys | app/robat.py:59-61 | a key is in the histogram exactly when it is `str` of some record's status code |
| Batch.UniformTally | app/robat.py:59-61 | when every record has the same code, the histogram has that one key, with the batch size as its count |
| Sorting.Sort | app/robat.py:64 | the sorted latencies are in ascending order, one per record |
| Sorting.SortPermutes | app/robat.py:64 | the sorted latencies are a permutation of the records' latencies: each value occurs as often as in the batch |
| Sorting.SortedPermutationUnique | app/robat.py:64 | two ascending permutations of the same latencies are equal, so this sort returns what `sorted` returns |
| Sorting.SortOfSorted | app/robat.py:64 | sorting already ascending latencies leaves them unchanged |
| Sorting.SortedEnds | app/robat.py:64 | the first and last entries of an ascending permutation are the smallest and largest recorded latencies, and both are recorded latencies |
| Batch.AverageWithinRange | app/robat.py:54 | when every latency lies in [lo, hi], so does the mean `sum / len` |
| Batch.PercentileIndicesOrdered | app/robat.py:66-69 | for n ≥ 1, n//2 ≤ n·90/100 ≤ n·95/100 ≤ n·99/100 < n, so no index leaves the list |
| Batch.PickPercentiles | app/robat.py:65-70 | each percentile is one of the sorted latencies, and on ascending latencies p50 ≤ p90 ≤ p95 ≤ p99 |
| Batch.PickPercentilesRanks | app/robat.py:64-69 | on ascending latencies p50 is the latency of rank n//2, and p90, p95 and p99 those of rank int(n·0.9), int(n·0.95) and int(n·0.99) |
| Sorting.SortedRank | app/robat.py:64-69 | entry k of an ascending list has rank k: at most k latencies lie below it and more than k at or below it |
| Sorting.CountBelowPermutation | app/robat.py:64 | reordering the latencies does not change how many lie below a value |
| Sorting.RankPermutation | app/robat.py:64-69 | a latency's rank among the sorted latencies is its rank among the records' latencies |
| Sorting.RankUnique | app/robat.py:64-69 | each rank has exactly one latency, so the rank facts fix every percentile's value |
| Batch.ReduceRanks | app/robat.py:64-69 | each percentile of a batch is the latency of its rank among the records' latencies, found without sorting |
| Batch.AverageIsMean | app/robat.py:54 | the mean times the number of latencies gives back their sum |
| Batch.ReduceMean | app/robat.py:54 | a batch's `average_response_time` is `sum(response_time) / len(results)`: times the record count it gives the sum |
| Batch.RunBatch | app/robat.py:33-72 | an empty batch fails where the average divides by zero; otherwise the statistics carry the batch id, the batch size, the duration and the records in `request_id` order, and success plus failure counts equal the total |
| Batch.RunBatchConsistent | app/robat.py:46-70 | a batch's statistics are consistent: the counts partition the records, the count of successes is the histogram's "200" entry, the histogram sums to the total and counts each code, the mean times the record count is the latency sum, each percentile is the latency of rank n//2 or int(n·f) among the records' latencies, and the percentiles are ordered |
| Batch.UniformStatusBatch | app/robat.py:52-61 | a batch whose probes all got one status has a one-entry histogram and no success unless that status is 200 |
| Batch.AllTransportFailures | app/robat.py:23-61 | a batch whose probes all failed in transport has no success, all failures, and "0" as its only key |
| Report.FirstEmpty | app/robat.py:88-90 | the position of the first batch with no probes; every batch before it has probes |
| Report.RunBatches | app/robat.py:88-91 | the loop fails exactly when some batch is empty, with the id of the first empty batch; otherwise it yields one result per configured batch |
| Report.RunBatchesElement | app/robat.py:88-91 | result i of the loop is what `run_batch_test` returns for the i-th configured batch, and its id is i+1 |
| Report.AccumulateSums | app/robat.py:98-99 | the one-pass fold gives the same successful and failed totals as the separate sums over the batches |
| Report.TotalsPartition | app/robat.py:96-99 | when each batch's counts partition its requests, total successful plus total failed equals total requests |
| Report.TotalsMatchRuns | app/robat.py:97-104 | the summed batch totals equal the configured total `sum(batch_sizes)`, and the summed durations equal the batches' durations |
| Report.SuccessRate | app/robat.py:100-103 | the overall success rate times the total is 100 times the successes; it lies between 0 and 100, is 100 exactly when every request succeeded and 0 exactly when none did |
| Report.RunTest | app/robat.py:74-105 | the run succeeds exactly when at least one batch is configured and none is empty; with none configured it fails on the 0/0 rate, otherwise on the first empty batch; a report has ids 1..k in configured order; `total_successful` and `total_failed` are the sums of the batches' counts, partition `total_requests` and match the configuration; the rate times the total is 100 times the successes and lies in [0, 100] |
| Report.RunBatchesConsistent | app/robat.py:88-91 | each result of the loop has consistent statistics |
| Report.RunTestConsistent | app/robat.py:88-91 | every batch in a report has consistent statistics |
| Scenarios.FiveFixedLatencies | app/robat.py:54-70 | latencies 100..500 ms give mean 300, p50 300 and p90 = p95 = p99 = 500 |
| Scenarios.AllServerErrors | app/robat.py:52-61 | ten HTTP 500 responses give 0 successes, 10 failures and histogram {"500": 10} |
| Scenarios.MixedBatch | app/robat.py:8-53 | a timeout at probe 0 and two 200 responses give status 0 for record 0, 2 successes and 1 failure |

## Left out

- The aiohttp session, `session.get`, `response.text()`, response headers and `response_size` are network I/O through a foreign library. Each probe is its `Outcome` instead.
- The Authorization header of `app/robat-base.py:10` is opaque configuration that changes no computation.
- `asyncio.gather` and the task fan-out are concurrency. Only their result is kept: records in `request_id` order.
- `time.time()`, `datetime.now()`, the ISO timestamps, `start_time`/`end_time` and `test_start_time`/`test_end_time` are clock reads. `total_duration` is a `nat` supplied per batch.
- Negative latencies are not modelled. `time.time()` reads the wall clock, which can step backwards between the two readings, and then `response_time` (and `total_duration`) is negative. The model's latencies and durations are `nat`, so such a batch cannot be expressed.
- The error string of a failed probe is opaque text with no effect on the statistics.
- `round(..., 3)` and `round(..., 2)` are left out: latencies are exact milliseconds, and the mean and success rate are exact `real` values before rounding.
- Batch.PercentileIndicesOrdered: `int(n * 0.9)` (and 0.95, 0.99) on floats is modelled as the exact integer `n*90/100` (`n*95/100`, `n*99/100`). The properties proved (every index below n, monotone in the fraction) also hold for the float product, which is monotone in a positive n with each fraction below 1.
- The code does not clamp the percentile index to n−1. The model has no clamp either, and proves the unclamped index is already below n.
- The test URL and `batch_sizes` are configuration. A batch size is the number of outcomes supplied for that batch, so a negative size cannot be expressed; `range` of a negative size is empty and would fail like a size of 0.
- Report.RunTest: a malformed configuration is not rejected before any request, because the code has no such check. An empty `batch_sizes` fails on the 0/0 success rate after the (empty) loop, and a zero-size batch fails inside `run_batch_test`; the model follows the code.
- The insertion order of the keys of `status_codes` (a Python dict) is not modelled: Dafny maps are unordered.
- JSON file writing, the file name, the console summary and `print` are output only.
