/** Failure-compatible wrappers shared by every module of the model:
    `Option` stands for a JavaScript value that may be `undefined`,
    `Result` for an operation that either returns or throws. */
module Wrappers {

  datatype Option<+T> = None | Some(value: T) {

    /** The value, or `default` when absent (JavaScript `??`). */
    function GetOr(default: T): T {
      match this
      case Some(v) => v
      case None => default
    }
  }

  datatype Result<+R, +E> = Success(value: R) | Failure(error: E) {

    predicate IsFailure() {
      Failure?
    }

    function ToOption(): Option<R> {
      match this
      case Success(v) => Some(v)
      case Failure(_) => None
    }
  }
}
