/** Kotlin's `sign` extension, as `Block` uses it: `(x).sign.toInt()` on a `Double`
    and `(x).sign` on an `Int`. */
module Signs {

  /** `x.sign.toInt()` for a Double `x`: 1 above zero, -1 below, 0 at zero. */
  function RealSign(x: real): (r: int)
    ensures -1 <= r <= 1
    ensures r == 1 <==> x > 0.0
    ensures r == -1 <==> x < 0.0
  {
    if x > 0.0 then 1 else if x < 0.0 then -1 else 0
  }

  /** `x.sign` for an Int `x`: the unit with the sign of `x`, or 0. */
  function IntSign(x: int): (r: int)
    ensures -1 <= r <= 1
    ensures r * x >= 0
    ensures r == 0 <==> x == 0
  {
    if x > 0 then 1 else if x < 0 then -1 else 0
  }
}
