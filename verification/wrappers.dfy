/** Failure-carrying results used across the model. */
module Wrappers {

  /** A value that may be absent. */
  datatype Option<+T> = None | Some(value: T)

  /** A computed value, or the error that stops the computation. */
  datatype Result<+T, +E> = Success(value: T) | Failure(error: E)
}
