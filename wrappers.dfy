/** Optional values and results with an error, as used by the handler's stages. */
module Wrappers {

  datatype Option<+T> = None | Some(value: T)

  /** The outcome of a stage that either produces a value or raises an error. */
  datatype Result<+T, +E> = Ok(value: T) | Err(error: E)
}
