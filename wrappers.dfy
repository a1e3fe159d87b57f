/** Optional values: a request field that may be absent, a column that may be null. */
module Wrappers {

  datatype Option<+T> = None | Some(value: T) {

    /** The value, or `default` when absent (JavaScript's `x ?? default`). */
    function GetOr(default: T): T {
      match this
      case Some(v) => v
      case None => default
    }
  }

  /** `n || fallback` for a number: an absent (or `NaN`) or zero value takes the fallback. */
  function NumberOr(n: Option<int>, fallback: int): (r: int)
    ensures n.None? || n.value == 0 ==> r == fallback
    ensures n.Some? && n.value != 0 ==> r == n.value
  {
    if n.Some? && n.value != 0 then n.value else fallback
  }
}
