/** Failure-compatible result types shared by the dice model. */
module Wrappers {

  /** A value that may be absent, standing in for JavaScript's `undefined`. */
  datatype Option<+T> = None | Some(value: T)

  /** The outcome of an operation that may throw. */
  datatype Result<+T, +E> = Success(value: T) | Failure(error: E)
}
