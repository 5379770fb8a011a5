/** Optional values and failure results, as JavaScript's `undefined` and thrown exceptions appear in the model. */
module Wrappers {

  /** A value that may be absent (`undefined` in the extension's code). */
  datatype Option<+T> = None | Some(value: T) {
    function GetOr(default: T): T {
      match this
      case Some(v) => v
      case None => default
    }
  }

  /** The outcome of a computation that may throw. */
  datatype Result<+T, +E> = Ok(value: T) | Err(error: E)
}
