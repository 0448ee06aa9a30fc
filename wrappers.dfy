/** Option and Result: Go's nil pointers and (value, error) pairs. */
module Wrappers {

  datatype Option<+T> = None | Some(value: T) {
    function GetOr(default: T): T {
      match this
      case Some(v) => v
      case None => default
    }
  }

  /** A Go call that returns a value or an error; the error is its Error() text. */
  datatype Result<+T, +E> = Success(value: T) | Failure(error: E)
}
