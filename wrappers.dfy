/** Optional values, for dictionary keys that may be missing. */
module Wrappers {

  datatype Option<+T> = None | Some(value: T) {

    /** The value, or `default` when there is none (a dictionary `get` with a default). */
    function GetOr(default: T): T
    {
      match this
      case Some(x) => x
      case None => default
    }
  }
}
