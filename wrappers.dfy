/** Optional values and results with an error, shared by every module. */
module Wrappers {

  /** A value that may be absent: a missing key, an unparsable cell, a null. */
  datatype Option<+T> = None | Some(value: T)

  /** The outcome of an operation that raises an error on some inputs. */
  datatype Result<+T, +E> = Ok(value: T) | Err(error: E)
}
