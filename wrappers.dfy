/** Optional values, and the results of operations that may throw. */
module Wrappers {

  /** A value that may be absent: `None` stands for C#'s `null` or for a failed `TryParse`. */
  datatype Option<+T> = None | Some(value: T)

  /** The outcome of an operation that either returns a value or throws an exception. */
  datatype Result<+R, +E> = Success(value: R) | Failure(error: E)
}
