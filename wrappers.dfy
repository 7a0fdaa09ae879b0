/** Option/Result/Outcome values for the plugin's absent values and thrown errors. */
module Wrappers {

  /** A JavaScript value that may be `undefined`. */
  datatype Option<+T> = None | Some(value: T) {
    function GetOr(default: T): T {
      match this
      case Some(v) => v
      case None => default
    }
  }

  /** The value of a call that either returns or throws. */
  datatype Result<+R, +E> = Success(value: R) | Failure(error: E)

  /** A call that either completes or throws, and returns nothing. */
  datatype Outcome<+E> = Pass | Fail(error: E)
}
