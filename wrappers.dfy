/** Option and Result values shared by the model. */
module Wrappers {

  /** A value that may be absent; stands for a Go nil pointer or an unset field. */
  datatype Option<+T> = None | Some(value: T)

  /** A Go `(value, error)` pair: either a value and a nil error, or an error. */
  datatype Result<+T, +E> = Ok(value: T) | Err(error: E)
}
