/** Optional values and results with an error, as used throughout the model. */
module Wrappers {

  /** A value that may be absent (`undefined` / `None` in the modelled code). */
  datatype Option<+T> = None | Some(value: T)

  /** The outcome of an operation that can fail with an error of type E. */
  datatype Result<+T, +E> = Ok(value: T) | Err(error: E)
}
