/** Optional values and results with an error, as used by the decoders. */
module Wrappers {

  /** Swift's `T?`. */
  datatype Option<+T> = None | Some(value: T)

  /** A value of `T`, or the error a throwing Swift call would raise. */
  datatype Result<+T, +E> = Ok(value: T) | Err(error: E)
}
