/** Optional values: `None` stands where the script produces NaN, undefined
    or an Invalid Date instead of a value. */
module Wrappers {

  datatype Option<+T> = None | Some(value: T) {

    /** The value, or `default` when there is none. It stands for JavaScript's
        `x || default` only where the present values it replaces are the
        default itself: `parseInt(...) || 0` turns NaN, 0 and -0 into 0, and
        keeping 0 (and -0, which is 0 here) gives the same number. */
    function GetOr(default: T): T {
      match this
      case Some(v) => v
      case None => default
    }
  }
}

/** `Math.max` on the two kinds of number the model uses. */
module JsMath {

  function MaxInt(a: int, b: int): (r: int)
    ensures r >= a && r >= b
    ensures r == a || r == b
  {
    if a >= b then a else b
  }

  function MaxReal(a: real, b: real): (r: real)
    ensures r >= a && r >= b
    ensures r == a || r == b
  {
    if a >= b then a else b
  }
}
