// Failure-carrying result types used throughout the model.
module Wrappers {

  datatype Option<+T> = None | Some(value: T)

  datatype Result<+R, +E> = Success(value: R) | Failure(error: E)

  /** Pass, or the internal error that aborted the pass. */
  datatype Outcome<+E> = Pass | Fail(error: E)
}
