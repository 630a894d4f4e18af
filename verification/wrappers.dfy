/** Optional values and success-or-failure results, the two shapes the bot's
    JavaScript expresses with `undefined` and with thrown exceptions. */
module Wrappers {

  /** A value that may be absent (a JavaScript property that is `undefined`). */
  datatype Option<+T> = None | Some(value: T) {
    /** The wrapped value, or `default` when absent. */
    function GetOr(default: T): T {
      match this
      case Some(v) => v
      case None => default
    }
  }

  /** The outcome of an operation that may throw: a value or the error it threw. */
  datatype Result<+T, +E> = Ok(value: T) | Err(error: E) {
    /** The wrapped value, or `default` on failure (how a rejected promise is replaced). */
    function GetOr(default: T): T {
      match this
      case Ok(v) => v
      case Err(_) => default
    }
  }
}
