/** Failure-carrying return values: the model's stand-in for Go's `(value, error)` pairs. */
module Wrappers {

  datatype Option<+T> = None | Some(value: T)

  /** A value or the error that replaced it. */
  datatype Result<+T, +E> = Ok(value: T) | Err(error: E)

  /** An error-only return, like a Go function returning just `error`. */
  datatype Outcome<+E> = Pass | Fail(error: E)
}
