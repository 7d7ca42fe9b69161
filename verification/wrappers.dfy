/** Optional values (the source's `null`) and success-or-error results (the
    source's thrown exceptions). */
module Wrappers {

  datatype Option<+T> = None | Some(value: T)

  datatype Result<+R, +E> = Success(value: R) | Failure(error: E)
}
