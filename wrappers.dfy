/** Option and Result values shared by the modules of this model. */
module Wrappers {

  /** A value that may be absent (JavaScript `undefined`, a Go nil or a failed lookup). */
  datatype Option<+T> = None | Some(value: T) {
    function GetOr(default: T): T {
      match this
      case Some(v) => v
      case None => default
    }
  }

  /** The outcome of an operation that returns either a value or an error. */
  datatype Result<+R, +E> = Success(value: R) | Failure(error: E)
}
