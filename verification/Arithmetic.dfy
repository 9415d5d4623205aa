/** Small arithmetic shared by the delay formulas and the counters. */
module Arithmetic {
  function Min(a: nat, b: nat): nat {
    if a <= b then a else b
  }

  /** The indicator of a condition. */
  function One(condition: bool): nat {
    if condition then 1 else 0
  }

  function Pow2(n: nat): (p: nat)
    ensures p >= 1
  {
    if n == 0 then 1 else 2 * Pow2(n - 1)
  }
}
