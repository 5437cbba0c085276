/** Failure-carrying results shared by every stage of the pipeline. */
module Wrappers {

  /** A value that may be absent; used for JavaScript's `undefined`. */
  datatype Option<+T> = None | Some(value: T)

  /** The outcome of a stage: its output, or the error that stopped it. */
  datatype Result<+T, +E> = Success(value: T) | Failure(error: E)
}
