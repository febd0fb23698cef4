/** Optional values and error returns, as the TypeScript code expresses them with
    `undefined` and `throw`. */
module Wrappers {

  /** A value that may be `undefined`. */
  datatype Option<+T> = None | Some(value: T)

  /** The outcome of an operation that may throw. */
  datatype Result<+R, +E> = Success(value: R) | Failure(error: E)
}
