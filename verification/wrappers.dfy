/** Failure-carrying values used for Go's `(value, error)` returns. */
module Wrappers {

  datatype Option<+T> = None | Some(value: T)

  /** A value, or the error that replaced it. */
  datatype Result<+R, +E> = Success(value: R) | Failure(error: E)

  /** A Go `error` on its own: nil (Pass) or an error value. */
  datatype Outcome<+E> = Pass | Fail(error: E)
}
