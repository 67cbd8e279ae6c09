/** Optional values and results that carry an error, as used by every module below. */
module Wrappers {

  datatype Option<+T> = None | Some(value: T)

  /** A computation that either produced a value or raised an error that the caller reports. */
  datatype Result<+T, +E> = Ok(value: T) | Err(error: E)
}
