/** Optional values: `None` stands for Go's nil (a nil pointer, a nil slice, a nil map),
    `Some(v)` for a non-nil one that refers to (or holds) `v`. */
module Wrappers {

  datatype Option<+T> = None | Some(value: T) {

    /** The held value, or `default` when there is none. */
    function GetOr(default: T): T {
      match this
      case Some(v) => v
      case None => default
    }
  }
}
