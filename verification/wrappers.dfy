/** Option and Result: a missing Python value (`None`) and a call that raises. */
module Wrappers {

  /** `None` or a present value. */
  datatype Option<+T> = None | Some(value: T) {

    /** The wrapped value, or `default` when there is none. */
    function GetOr(default: T): T {
      match this
      case Some(v) => v
      case None => default
    }
  }

  /** Either a value or the exception Python would raise instead. */
  datatype Result<+R, +E> = Success(value: R) | Failure(error: E)
}
