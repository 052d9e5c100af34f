/** Failure-compatible wrappers shared by the modules of this model. */
module Wrappers {

  /** A value that may be missing: Python's `Optional[T]`, with `None` for Python's `None`. */
  datatype Option<+T> = None | Some(value: T)

  /** Either the value an operation returns or the exception it raises. */
  datatype Result<+T, +E> = Ok(value: T) | Err(error: E)
}
