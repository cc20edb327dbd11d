/** Option and Result, for absent values and for the exceptions of the
    reconciliation back end. */
module Wrappers {

  datatype Option<+T> = None | Some(value: T)

  datatype Result<+R, +E> = Success(value: R) | Failure(error: E)
}
