/** Option and Result wrappers used by the configuration model. */
module Wrappers {

  /** An optional value: Go's nil map or nil client is `None`. */
  datatype Option<+T> = None | Some(value: T)

  /** A value or an error: Go's `(value, error)` return pairs. */
  datatype Result<+T, +E> = Success(value: T) | Failure(error: E)
}
