/** Optional values and results with an error, used across the model. */
module Wrappers {

  /** A value that may be absent: an out-of-range string read in JavaScript yields `undefined`. */
  datatype Option<+T> = None | Some(value: T)

  /** The outcome of an operation that can fail with an error of type `E`. */
  datatype Result<+R, +E> = Success(value: R) | Failure(error: E)
}
