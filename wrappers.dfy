/** Presence-tracked values: the model of a Go pointer that may be nil
    (a proto2 optional field, an `(x, ok)` pair with `ok == false`). */
module Wrappers {

  datatype Option<+T> = None | Some(value: T) {

    /** The value if present, otherwise `default` (Go's nil-safe getters). */
    function GetOr(default: T): T {
      match this
      case Some(v) => v
      case None => default
    }
  }
}
