/** Optional values: the model's stand-in for `undefined` / `null` and for
    optional object properties. */
module Wrappers {
  datatype Option<+T> = None | Some(value: T) {
    /** `x || fallback` on a value that is either present or absent. */
    function GetOr(fallback: T): T {
      match this
      case Some(v) => v
      case None => fallback
    }
  }
}
