/** Option and Result, used for the source's `Option` values and for the panics of level construction. */
module Wrappers {

  datatype Option<+T> = None | Some(value: T)

  datatype Result<+T, +E> = Success(value: T) | Failure(error: E)
}
