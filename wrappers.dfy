/** Option and Result, the two wrappers the rest of the model is written with. */
module Wrappers {

  /** A nullable value: `None` is C#'s and TypeScript's `null`. */
  datatype Option<+T> = None | Some(value: T) {

    /** The null-coalescing operator `this ?? default`. */
    function GetOr(default: T): T {
      match this
      case Some(v) => v
      case None => default
    }
  }

  /** A value or the error that replaced it. */
  datatype Result<+T, +E> = Success(value: T) | Failure(error: E)
}
