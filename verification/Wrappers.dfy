/** Failure-carrying values shared by every component. */
module Wrappers {

  /** A value that may be absent (the program's `None`). */
  datatype Option<+T> = None | Some(value: T)

  /** A returned value, or the error the program raises or returns instead. */
  datatype Result<+T, +E> = Success(value: T) | Failure(error: E)
}
