/** Optional values and error-carrying results, standing in for Python's
    `None` and for exceptions raised by the core. */
module Wrappers {

  datatype Option<+T> = None | Some(value: T)

  datatype Result<+R, +E> = Success(value: R) | Failure(error: E)
}
