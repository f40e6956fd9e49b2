/** Failure-compatible wrappers used for the handlers' error returns. */
module Wrappers {

  datatype Option<+T> = None | Some(value: T)

  /** A handler outcome that carries a value on success. */
  datatype Result<+T, +E> = Success(value: T) | Failure(error: E)

  /** A handler outcome with nothing to return on success. */
  datatype Outcome<+E> = Pass | Fail(error: E)
}
