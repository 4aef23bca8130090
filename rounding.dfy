/** The two roundings the source relies on: JavaScript's `Math.round` and
    SQLite's `ROUND(x)`. Values are exact reals; floating-point error is not
    modelled. */
module Rounding {

  /** `Math.round(x)`: the nearest integer, halves rounded up (towards
      positive infinity, so `Math.round(-2.5) == -2`). */
  function JsRound(x: real): (n: int)
    ensures n as real - 0.5 <= x < n as real + 0.5
  {
    (x + 0.5).Floor
  }

  /** SQLite `ROUND(x)`: the nearest integer, halves rounded away from zero. */
  function SqlRound(x: real): (n: int)
    ensures x >= 0.0 ==> n as real - 0.5 <= x < n as real + 0.5
    ensures x < 0.0 ==> n as real - 0.5 < x <= n as real + 0.5
  {
    if x >= 0.0 then (x + 0.5).Floor else -((-x + 0.5).Floor)
  }
}
