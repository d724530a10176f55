/** Failure-carrying values shared by the whole model. */
module Wrappers {

  /** An optional value, Swift's `T?`. */
  datatype Option<+T> = None | Some(value: T)

  /** The outcome of a call that can throw: a value or the error it threw. */
  datatype Result<+T, +E> = Success(value: T) | Failure(error: E)
}
