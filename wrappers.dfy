/** Option and Result, the failure-carrying datatypes the other modules share.
    Go's `nil` slice versus empty slice and its `(value, error)` returns are
    expressed with these. */
module Wrappers {

  datatype Option<+T> = None | Some(value: T)

  datatype Result<+R, +E> = Success(value: R) | Failure(error: E)
}
