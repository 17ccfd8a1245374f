/** Failure and absence, as the Python sources express them. */
module Wrappers {

  /** `None` or a value: an omitted argument, or a search that may miss. */
  datatype Option<+T> = None | Some(value: T)

  /** The exception classes the engine raises: only a `ValueError` means "this
      graph cannot be walked". */
  datatype Error = ValueError | RuntimeError | IndexError

  /** A returned value, or the exception raised instead. */
  datatype Result<+T> = Ok(value: T) | Err(error: Error)
}
