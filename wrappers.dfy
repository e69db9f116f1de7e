/** Failure-carrying values used in place of Go's `(value, error)` pairs and `nil` pointers. */
module Wrappers {

  datatype Option<+T> = None | Some(value: T)

  /** A value or the text of the error the operation returned. */
  datatype Result<+T> = Ok(value: T) | Err(msg: string)

  /** The outcome of an operation that returns only an `error`. */
  datatype Outcome = Pass | Fail(msg: string)
}
