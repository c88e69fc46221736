/** Optional values and results with an error, as used by the discount model. */
module Wrappers {

  /** A value that may be missing (JavaScript `undefined` or `null`). */
  datatype Option<+T> = None | Some(value: T)

  /** Either a value or the exception the evaluation throws instead. */
  datatype Result<+R, +E> = Success(value: R) | Failure(error: E)
}
