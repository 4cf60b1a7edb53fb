/** `Option` for values that may be absent (Go's nil) and `Result` for calls
    that return a value or an error. */
module Wrappers {

  datatype Option<+T> = None | Some(value: T)

  datatype Result<+R, +E> = Success(value: R) | Failure(error: E) {

    /** The success value, or `None` for a failure. */
    function ToOption(): Option<R>
    {
      match this
      case Success(v) => Some(v)
      case Failure(_) => None
    }
  }
}
