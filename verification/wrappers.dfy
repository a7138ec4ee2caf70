/** The optional-value wrapper used across the model: PHP's `isset`/`null`
    and the `??` operator are expressed with it. */
module Wrappers {

  datatype Option<+T> = None | Some(value: T) {

    /** The value, or `default` when absent (PHP's `$x ?? $default`). */
    function GetOr(default: T): T {
      match this
      case Some(v) => v
      case None => default
    }
  }
}
