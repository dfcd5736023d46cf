/** Option and Result: the shapes used for Python's `None` returns and raised exceptions. */
module Wrappers {

  /** A value that may be absent (Python `None`). */
  datatype Option<+T> = None | Some(value: T)

  /** Either a value or the exception that replaced it. */
  datatype Result<+T, +E> = Ok(value: T) | Err(error: E)
}
