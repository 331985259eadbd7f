/**
 One probe (`test_endpoint`) and the fan-out of a batch. The network call
 is abstracted into its `Outcome`; `asyncio.gather` returns the records in
 argument order, so a batch's results are the outcomes indexed by
 `request_id`.
 */
module Probe {

  /** The status that counts as success: exactly 200, not the 2xx range. */
  const OkStatus: nat := 200

  /** The status recorded when the `try` block raised. */
  const NoResponse: nat := 0

  /**
   What one GET observed: a response whose body was read, with its status,
   or an exception anywhere inside the `try` block. That includes a failure
   of `response.text()` after a status arrived, which is still recorded as
   status 0. Latency is a clock difference rounded to whole milliseconds
   (the script rounds seconds to three decimals).
   */
  datatype Outcome =
    | Response(status: nat, latency: nat)
    | TransportFailure(latency: nat)

  /** The fields of a result dictionary that the statistics read. */
  datatype RequestRecord = RequestRecord(
    requestId: nat,
    statusCode: nat,
    success: bool,
    responseTime: nat)

  /** `test_endpoint`: turns an outcome into its record; never fails. */
  function TestEndpoint(requestId: nat, outcome: Outcome): (r: RequestRecord)
    ensures r.requestId == requestId
    ensures r.responseTime == outcome.latency
    ensures r.success <==> r.statusCode == OkStatus
    ensures r.success <==> outcome == Response(OkStatus, outcome.latency)
    ensures outcome.Response? ==> r.statusCode == outcome.status
    ensures outcome.TransportFailure? ==> r.statusCode == NoResponse && !r.success
  {
    match outcome
    case Response(status, latency) => RequestRecord(requestId, status, status == OkStatus, latency)
    case TransportFailure(latency) => RequestRecord(requestId, NoResponse, false, latency)
  }

  /** The probes of one batch, one per `request_id` in `0..|outcomes|-1`, gathered in that order. */
  function Gather(outcomes: seq<Outcome>): (rs: seq<RequestRecord>)
    ensures |rs| == |outcomes|
    ensures forall i :: 0 <= i < |rs| ==> rs[i].requestId == i
    ensures forall i :: 0 <= i < |rs| ==> rs[i] == TestEndpoint(i, outcomes[i])
  {
    seq(|outcomes|, i requires 0 <= i < |outcomes| => TestEndpoint(i, outcomes[i]))
  }
}
