/** Arithmetic on the reals that stand for floats. */
module Reals {

  function Max(a: real, b: real): real {
    if a >= b then a else b
  }

  function Min(a: real, b: real): real {
    if a <= b then a else b
  }

  function Abs(a: real): real {
    if a >= 0.0 then a else -a
  }

  /** Python's `int()` on a float: truncation toward zero. */
  function Truncate(a: real): int {
    if a >= 0.0 then a.Floor else -(-a).Floor
  }
}
