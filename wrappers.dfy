/** Option and Result, the two shapes the converters use for "no value" and for a recoverable failure. */
module Wrappers {

  /** JavaScript's null/undefined, kept distinct from every real value. */
  datatype Option<+T> = None | Some(value: T) {
    function GetOr(default: T): T {
      match this
      case Some(v) => v
      case None => default
    }
  }

  datatype Result<+R, +E> = Success(value: R) | Failure(error: E)
}
