/** Failure-carrying wrappers shared by every module of the model. */
module Wrappers {

  /** An optional value: Go's nil-able pointers and optional errors. */
  datatype Option<+T> = None | Some(value: T)

  /** The `(value, error)` pair of a Go call that returns one or the other. */
  datatype Result<+T, +E> = Ok(value: T) | Err(error: E)
}
