/** Optional values and tagged outcomes used by the token checks. */
module Wrappers {

  /** A value that may be absent: JavaScript's `null`/`undefined` versus a value. */
  datatype Option<+T> = None | Some(value: T)

  /** The outcome of a check that either hands back a value or rejects with a reason. */
  datatype Result<+R, +E> = Success(value: R) | Failure(error: E)
}
