/** Failure-carrying results shared by both functions of the pipeline. */
module Wrappers {

  datatype Option<+T> = None | Some(value: T)

  /** The exceptions the two handlers raise, one constructor per cause. */
  datatype Failure =
    | FieldMissing(index: nat)                          // IndexError on values[index] of the split log line
    | TimestampInvalid(text: string)                    // float(timestamp) (or round of it) raised
    | StoreWriteFailed(partitionKey: string, sortKey: string)  // update_item raised
    | QueryFailed(partitionKey: string)                 // the query paginator raised
    | DivisionByZero(edgeLocation: string)              // count * 100.0 / status_sum with status_sum == 0

  datatype Result<+T> = Ok(value: T) | Err(error: Failure)
}
