/** Option and result types shared by the modules of the model. */
module Wrappers {

  /** A value that may be absent: a missing key, a `None` in the program. */
  datatype Option<+T> = None | Some(value: T) {
    function GetOr(default: T): T {
      match this
      case Some(v) => v
      case None => default
    }
  }

  /** The outcome of a step that may raise instead of returning. */
  datatype Result<+R, +E> = Success(value: R) | Failure(error: E)
}
