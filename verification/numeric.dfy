/** Small integer helpers shared by the two simulations: absolute value,
    sign, maximum, and numpy's `clip`. */
module Numeric {

  function Abs(v: int): nat {
    if v < 0 then -v else v
  }

  function Max(a: int, b: int): int {
    if a >= b then a else b
  }

  /** -1, 0 or 1 according to the sign of `v`. */
  function Sign(v: int): int {
    if v > 0 then 1 else if v < 0 then -1 else 0
  }

  /** numpy's `clip(v, lo, hi)`, that is `min(max(v, lo), hi)`: when the
      bounds are ordered it leaves `v` alone inside [lo, hi] and
      otherwise returns the bound `v` crossed. */
  function Clip(v: int, lo: int, hi: int): (r: int)
    ensures lo <= hi ==> lo <= r <= hi
    ensures lo <= v <= hi ==> r == v
    ensures v < lo && lo <= hi ==> r == lo
    ensures v > hi ==> r == hi
  {
    var m := if v >= lo then v else lo;
    if m <= hi then m else hi
  }
}
