/**
 Failure-carrying result of the batch reduction and of the whole run.
 In the script both failures surface as a `ZeroDivisionError`; the model
 names the place where the division by zero happens.
 */
module Results {

  /** Why a run produced no report. */
  datatype RunError =
    /** The batch with this id dispatched no probes, so its average divides by zero. */
    | EmptyBatch(batchId: nat)
    /** No batch was configured, so the overall success rate divides by zero. */
    | NoRequests

  datatype Result<T> = Ok(value: T) | Err(error: RunError)
}
