/** Optional values, for Python's `None` and for keys a JSON object may lack. */
module Wrappers {
  datatype Option<T> = None | Some(value: T) {
    /** `d.get(key, default)` when the key may be absent. */
    function GetOr(default: T): (v: T)
      ensures Some? ==> v == value
      ensures None? ==> v == default
    {
      if Some? then value else default
    }
  }
}
