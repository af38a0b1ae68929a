/** Failure-carrying results used throughout the model: Go's `(value, error)` pairs. */
module Wrappers {

  datatype Option<+T> = None | Some(value: T)

  /** A Go `(T, error)` return: `Err` carries the error's message. */
  datatype Result<+T> = Ok(value: T) | Err(error: string)

  /** A Go `error` return with no value beside it. */
  datatype Outcome = Pass | Fail(error: string)
}
