/** Option and Result, used for the Go `(value, error)` returns and nil pointers of the model. */
module Wrappers {

  /** A value that may be absent (a nil pointer, a missing map entry). */
  datatype Option<+T> = None | Some(value: T)

  /** The two outcomes of a Go call returning `(value, error)`. */
  datatype Result<+T, +E> = Ok(value: T) | Err(error: E)
}
