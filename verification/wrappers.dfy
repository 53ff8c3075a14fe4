/** Optional values and results with an error, used for the outcome of
    opening a file and for the outcome of a whole run. */
module Wrappers {

  datatype Option<+T> = None | Some(value: T)

  datatype Result<+T, +E> = Success(value: T) | Failure(error: E)
}
