/** Option and Result: the shapes used for an optional value and for an
    operation that either succeeds or is rejected with a reason. */
module Wrappers {

  datatype Option<+T> = None | Some(value: T)

  datatype Result<+T, +E> = Success(value: T) | Failure(error: E)
}
