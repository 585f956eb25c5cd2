/** Option and Result values shared by every module of the model. */
module Wrappers {

  /** A value that may be absent: stands for C#'s null and JavaScript's null/undefined. */
  datatype Option<+T> = None | Some(value: T) {
    function GetOr(default: T): T {
      match this
      case Some(v) => v
      case None => default
    }
  }

  /** The outcome of an operation that can throw: Failure carries the exception. */
  datatype Result<+R, +E> = Success(value: R) | Failure(error: E)
}
