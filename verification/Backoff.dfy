/** The doubling delay shared by the consume loop and the supervisors. */
module Backoffs {
  import opened Arithmetic

  /** The longest duration, in nanoseconds. */
  const DURATION_MAX: nat := 0x1_0000_0000_0000_0000 * 1_000_000_000 - 1

  type Duration = n: nat | n <= DURATION_MAX

  const MILLISECOND: nat := 1_000_000

  function SaturatingDouble(d: Duration): Duration {
    Min(d * 2, DURATION_MAX)
  }

  /** The delay of the (k+1)-th sleep since the schedule was last reset. */
  function Nth(initial: Duration, cap: Duration, k: nat): Duration {
    if k == 0 then initial else Min(SaturatingDouble(Nth(initial, cap, k - 1)), cap)
  }

  /** min(cap, initial * 2^k), saturation notwithstanding; only the first delay may pass the
      cap, when the schedule starts above it. */
  lemma {:induction false} NthFormula(initial: Duration, cap: Duration, k: nat)
    ensures Nth(initial, cap, k) == if k == 0 then initial else Min(initial * Pow2(k), cap)
    ensures initial <= cap ==> Nth(initial, cap, k) == Min(initial * Pow2(k), cap)
  {
    if k > 0 {
      var before: nat := k - 1;
      NthFormula(initial, cap, before);
      Twice(initial, Pow2(before));
      AtLeastOnceItself(initial, Pow2(before));
      ghost var grown := initial * Pow2(before);
      assert initial * Pow2(k) == 2 * grown && grown >= initial;
    }
  }

  lemma Twice(x: nat, p: nat)
    ensures x * (2 * p) == 2 * (x * p)
  {}

  lemma AtLeastOnceItself(x: nat, p: nat)
    requires p >= 1
    ensures x * p >= x
  {}

  class Backoff {
    var current: Duration
    const initial: Duration
    const cap: Duration
    ghost var taken: nat

    /** `taken` counts the delays handed out since the last reset. */
    ghost predicate Valid()
      reads this
    {
      current == Nth(initial, cap, taken)
    }

    constructor (initial: Duration, cap: Duration)
      ensures Valid() && taken == 0 && this.initial == initial && this.cap == cap
    {
      this.current, this.initial, this.cap, this.taken := initial, initial, cap, 0;
    }

    constructor Production()
      ensures Valid() && taken == 0
      ensures initial == 200 * MILLISECOND && cap == 30_000 * MILLISECOND
    {
      this.current, this.initial, this.cap, this.taken :=
        200 * MILLISECOND, 200 * MILLISECOND, 30_000 * MILLISECOND, 0;
    }

    method Reset()
      modifies this
      ensures Valid() && taken == 0
    {
      current, taken := initial, 0;
    }

    method NextDelay() returns (delay: Duration)
      requires Valid()
      modifies this
      ensures Valid() && taken == old(taken) + 1
      ensures delay == Nth(initial, cap, old(taken))
    {
      delay := current;
      current := Min(SaturatingDouble(current), cap);
      taken := taken + 1;
    }
  }
}
