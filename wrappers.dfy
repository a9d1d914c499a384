/** Optional values and results with an error, as the repository operations return them. */
module Wrappers {

  /** A value that may be absent (Python's `Optional`, `None` when absent). */
  datatype Option<+T> = None | Some(value: T)

  /** The outcome of an operation that either succeeds or raises an error. */
  datatype Result<+R, +E> = Success(value: R) | Failure(error: E)
}
