/** Option and Result, the two failure-carrying datatypes the rest of the model uses. */
module Wrappers {

  /** A value that may be absent: TypeScript's `T | null`, Python's `Optional[T]`. */
  datatype Option<+T> = None | Some(value: T) {

    /** The contained value, or `default` when absent (TypeScript's `??`). */
    function GetOr(default: T): T
    {
      match this
      case Some(v) => v
      case None => default
    }
  }

  /** The outcome of a step that may raise: its value, or the text of the exception. */
  datatype Result<+R, +E> = Success(value: R) | Failure(error: E)
}
