/** PHP's nullable values (`?array`, a nullable column, `first()` finding nothing). */
module Wrappers {

  datatype Option<+T> = None | Some(value: T) {

    /** `$x ?? $default`: the value when present, the default otherwise. */
    function GetOr(default: T): T {
      match this
      case Some(v) => v
      case None => default
    }
  }
}
