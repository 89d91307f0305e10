/** Retry backoff on 64-bit durations. */
module Backoff {

  newtype int64 = x: int | -0x8000_0000_0000_0000 <= x < 0x8000_0000_0000_0000

  function Pow2(n: nat): nat {
    if n == 0 then 1 else 2 * Pow2(n - 1)
  }

  function Min(a: int, b: int): int {
    if a <= b then a else b
  }

  /** The largest delay once the bounds are normalised: a missing or too small maximum means the base. */
  function Ceiling(base: int, max: int): int {
    if max < base then base else max
  }

  method Normalize(base: int64, max: int64) returns (b: int64, m: int64)
    ensures base <= 0 ==> b == 0 && m == 0
    ensures base > 0 ==> b == base && m as int == Ceiling(base as int, max as int)
    ensures 0 <= b <= m
  {
    b, m := base, max;
    if b < 0 {
      b := 0;
    }
    if b == 0 {
      return 0, 0;
    }
    if m <= 0 || m < b {
      m := b;
    }
  }

  /** The delay before the given attempt, over the unbounded integers. */
  function Delay(attempt: int, base: int, max: int): int {
    if attempt <= 0 || base <= 0 then 0 else Min(base * Pow2(attempt - 1), Ceiling(base, max))
  }

  lemma {:induction false} Pow2Grows(m: nat, n: nat)
    requires m <= n
    ensures 1 <= Pow2(m) <= Pow2(n)
  {
    if n > 0 {
      if m == n {
        Pow2Grows(m - 1, n - 1);
      } else {
        Pow2Grows(m, n - 1);
      }
    }
  }

  lemma ScaledGrows(base: nat, m: nat, n: nat)
    requires m <= n
    ensures base <= base * Pow2(m) <= base * Pow2(n)
  {
    hide Pow2;
    Pow2Grows(0, m);
    Pow2Grows(m, n);
    MulMonotone(base, 1, Pow2(m));
    MulMonotone(base, Pow2(m), Pow2(n));
  }

  lemma MulMonotone(a: nat, x: nat, y: nat)
    requires x <= y
    ensures a * x <= a * y
  {
  }

  /** Capped doubling: the guard on half the maximum keeps every product inside 64 bits, and stopping early
      gives what doubling on and capping at the end would. */
  method Exponential(attempt: int64, base: int64, max: int64) returns (delay: int64)
    ensures delay as int == Delay(attempt as int, base as int, max as int)
  {
    var base, max := Normalize(base, max);
    if attempt <= 0 || base <= 0 {
      return 0;
    }
    delay := base;
    var i: int64 := 1;
    while i < attempt
      invariant 1 <= i <= attempt
      invariant delay as int == base as int * Pow2(i as int - 1) && 0 < delay <= max
    {
      if delay >= max {
        ScaledGrows(base as int, i as int - 1, attempt as int - 1);
        return max;
      }
      if delay > max / 2 {
        ScaledGrows(base as int, i as int, attempt as int - 1);
        Doubled(base as int, i as int - 1);
        return max;
      }
      Doubled(base as int, i as int - 1);
      delay := delay * 2;
      i := i + 1;
    }
    if delay > max {
      return max;
    }
  }

  lemma Doubled(base: nat, n: nat)
    ensures base * Pow2(n + 1) == 2 * (base * Pow2(n))
  {
  }

  lemma AtLeastFactor(a: nat, x: nat)
    requires a > 0
    ensures x <= a * x
  {
  }

  /** The positive attempts and bases. */
  lemma DelayGrows(attempt: nat, later: nat, base: nat, max: int)
    requires 0 < attempt <= later && base > 0
    ensures base <= Delay(attempt, base, max) <= Delay(later, base, max) <= Ceiling(base, max)
    ensures attempt > Ceiling(base, max) ==> Delay(attempt, base, max) == Ceiling(base, max)
  {
    hide Pow2;
    ScaledGrows(base, attempt - 1, later - 1);
    Pow2Outgrows(attempt - 1);
    AtLeastFactor(base, Pow2(attempt - 1));
  }

  /** Later attempts never wait less, no delay leaves the configured range, and from some attempt on the
      delay is the maximum. */
  lemma DelayMonotone(attempt: int, later: int, base: int, max: int)
    requires attempt <= later
    ensures Delay(attempt, base, max) <= Delay(later, base, max)
    ensures attempt > 0 && base > 0 ==> base <= Delay(attempt, base, max) <= Ceiling(base, max)
    ensures base > 0 && attempt > Ceiling(base, max) ==> Delay(attempt, base, max) == Ceiling(base, max)
  {
    if base > 0 {
      if attempt > 0 {
        DelayGrows(attempt, later, base, max);
      } else if later > 0 {
        DelayGrows(later, later, base, max);
      }
    }
  }

  /** The schedule itself: no wait without an attempt or a base; the base before the first attempt; and each next wait
      is twice the one before, up to the maximum, or up to the base if the maximum is below it. */
  lemma DelayDoubles(attempt: nat, base: int, max: int)
    ensures Delay(0, base, max) == 0 && (base <= 0 ==> Delay(attempt, base, max) == 0)
    ensures base > 0 ==> Delay(1, base, max) == base
    ensures base > 0 && attempt > 0 ==>
              var twice := 2 * Delay(attempt, base, max);
              Delay(attempt + 1, base, max) == if twice <= max then twice else if base <= max then max else base
  {
    if base > 0 && attempt > 0 {
      Doubled(base, attempt - 1);
      DelayGrows(attempt, attempt, base, max);
    }
  }

  lemma {:induction false} Pow2Outgrows(n: nat)
    ensures Pow2(n) > n
  {
    if n > 0 {
      Pow2Outgrows(n - 1);
    }
  }
}
