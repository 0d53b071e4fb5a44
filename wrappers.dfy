/** Java's nullable references: a field or argument that may be `null`. */
module Wrappers {

  datatype Option<+T> = None | Some(value: T) {

    /** `Optional.ofNullable(x).orElse(default)` */
    function GetOr(default: T): T {
      match this
      case Some(v) => v
      case None => default
    }
  }
}
