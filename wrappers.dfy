/** Optional values and results with an error, used across the model. */
module Wrappers {

  /** A value that may be missing: a dictionary key that is absent, or a field set to null. */
  datatype Option<+T> = None | Some(value: T)

  /** The outcome of a check that either yields a value or an error message. */
  datatype Result<+T, +E> = Success(value: T) | Failure(error: E)
}
