/** Real arithmetic the colour modules share. */
module Reals {

  function Max(a: real, b: real): real { if a >= b then a else b }

  function Min(a: real, b: real): real { if a <= b then a else b }

  function Clamp(x: real, lo: real, hi: real): real { Min(Max(x, lo), hi) }

  function Abs(x: real): real { if x >= 0.0 then x else -x }

  /** Rounding toward zero. */
  function Trunc(x: real): int {
    if x >= 0.0 then x.Floor else -((-x).Floor)
  }

  /** A product under a name, where it should be taken apart only on purpose. */
  function Mul(a: real, b: real): real { a * b }

  lemma ProductSign(a: real, b: real)
    requires a >= 0.0 && b >= 0.0
    ensures a * b >= 0.0
  {
  }

  lemma ProductPositive(a: real, b: real)
    requires a > 0.0 && b > 0.0
    ensures a * b > 0.0
  {
  }
}
