/** Optional values: a field or argument that may be missing. */
module Wrappers {

  datatype Option<T> = None | Some(value: T) {

    /** The held value, or `default` when there is none (JavaScript's `??`). */
    function GetOr(default: T): (r: T)
      ensures Some? ==> r == value
      ensures None? ==> r == default
    {
      match this
      case Some(v) => v
      case None => default
    }
  }
}
