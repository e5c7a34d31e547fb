/** The Option and Result wrappers used across the model. */
module Wrappers {

  /** A value that may be absent, e.g. a regular-expression match attempt. */
  datatype Option<+T> = None | Some(value: T)

  /** The outcome of an operation that can raise: a value, or the error it raises. */
  datatype Result<+R, +E> = Success(value: R) | Failure(error: E)
}
