/** Optional values, used wherever the client reads something that may be
    `undefined` (a read that has not resolved or failed) or `null`. */
module Wrappers {

  datatype Option<+T> = None | Some(value: T) {

    /** The value, or `default` when absent: the client's `x ?? default`. */
    function GetOr(default: T): T {
      match this
      case Some(v) => v
      case None => default
    }
  }

  /** A string that JavaScript treats as truthy: defined and not empty.
      This is what `!address` tests for a wallet address. */
  predicate Present(s: Option<string>) {
    s.Some? && s.value != ""
  }

  /** A possibly-undefined boolean that JavaScript treats as truthy. */
  predicate Truthy(b: Option<bool>) {
    b == Some(true)
  }

  function Min(a: int, b: int): (m: int)
    ensures m <= a && m <= b && (m == a || m == b)
  {
    if a <= b then a else b
  }

  function Max(a: int, b: int): (m: int)
    ensures m >= a && m >= b && (m == a || m == b)
  {
    if a >= b then a else b
  }
}
