/** Optional values and results with an error side, shared by the other modules. */
module Wrappers {

  /** A value that may be absent: a JSON key that is missing, a nullable column. */
  datatype Option<+T> = None | Some(value: T)

  /** The outcome of an operation that can fail with an error of type `E`. */
  datatype Result<+T, +E> = Success(value: T) | Failure(error: E)
}
