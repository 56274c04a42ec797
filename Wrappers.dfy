/** Optional values and results, used where the TypeScript code has
    `undefined` or throws. */
module Wrappers {

  /** `undefined` is `None`. */
  datatype Option<+T> = None | Some(value: T) {

    /** The `??` operator: this value, or the default when absent. */
    function GetOr(default: T): T {
      match this
      case Some(v) => v
      case None => default
    }
  }

  /** A value, or the message of the `Error` that was thrown instead. */
  datatype Result<+R, +E> = Ok(value: R) | Err(error: E)
}
