/** Option and Result values shared by every module. */
module Wrappers {

  datatype Option<+T> = None | Some(value: T)

  /** A Go `(value, error)` pair, or a Python value or exception. */
  datatype Result<+T, +E> = Ok(value: T) | Err(error: E)
}
