/** Optional values and results with an error, standing in for lazily resolved
    build settings and for the exceptions the task throws. */
module Wrappers {

  /** A setting that may be absent. */
  datatype Option<+T> = None | Some(value: T)

  /** The outcome of an operation that may throw. */
  datatype Result<+R, +E> = Success(value: R) | Failure(error: E)
}
