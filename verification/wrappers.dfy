/** Optional and fallible values shared by every module of the model. */
module Wrappers {

  /** A JavaScript property that may be `undefined`. */
  datatype Option<+T> = None | Some(value: T) {

    /** The value, or `default` when absent (JavaScript's `??`). */
    function GetOr(default: T): (r: T) {
      match this
      case Some(v) => v
      case None => default
    }
  }

  /** The outcome of an operation that may throw an `Error` carrying `message`. */
  datatype Result<+T> = Ok(value: T) | Err(message: string)
}
