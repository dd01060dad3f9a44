/** Optional values and results with an error, shared by every module. */
module Wrappers {

  /** A value that may be absent: TypeScript's `T | null`. */
  datatype Option<+T> = None | Some(value: T)

  /** The outcome of an operation that can fail: a value or an error. */
  datatype Result<+T, +E> = Ok(value: T) | Err(error: E)
}
