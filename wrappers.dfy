/** Optional values: a header that may be missing. */
module Wrappers {
  datatype Option<+T> = None | Some(value: T) {
    /** The value when present, else `default` (Python's `dict.get(key, default)`). */
    function GetOr(default: T): T {
      match this
      case Some(v) => v
      case None => default
    }
  }
}
