/** Optional values and results with an error, shared by the other modules. */
module Wrappers {

  /** An optional value: a JavaScript `undefined`/`null` or a present value. */
  datatype Option<+T> = None | Some(value: T) {
    /** The present value, or `default` when there is none (JavaScript's `??`). */
    function GetOr(default: T): T {
      match this
      case Some(v) => v
      case None => default
    }
  }

  /** The outcome of a step that can throw. */
  datatype Result<+T, +E> = Ok(value: T) | Err(error: E)
}
