/** Optional values (TypeScript's `T | undefined` and `T | null`) and the
    outcome of an operation that may throw (a settled promise). */
module Wrappers {

  datatype Option<+T> = None | Some(value: T)

  datatype Result<+R, +E> = Success(value: R) | Failure(error: E)
}
