/** Optional values and results with an error, standing in for the source's
    nullable references and thrown exceptions. */
module Wrappers {

  /** A value that may be absent: C#'s `null` is `None`. */
  datatype Option<+T> = None | Some(value: T)

  /** The outcome of an operation that either returns a value or throws. */
  datatype Result<+T, +E> = Success(value: T) | Failure(error: E)
}
