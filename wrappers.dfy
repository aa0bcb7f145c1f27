/** Optional values (JavaScript's `undefined`) and results of operations that can throw. */
module Wrappers {

  /** A value that may be absent, as a TypeScript `T | undefined`. */
  datatype Option<+T> = None | Some(value: T)

  /** The outcome of an operation that either returns a value or stops with an error. */
  datatype Result<+T, +E> = Success(value: T) | Failure(error: E)
}
