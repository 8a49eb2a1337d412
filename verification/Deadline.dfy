/** Deadlines of src/thread/deadline.cpp: a time point of 64-bit nanoseconds, so many milliseconds on. */
module Deadline {

  /** The largest time point of the clock. */
  const MAX_TIME: int := 0x7FFF_FFFF_FFFF_FFFF

  /** The latest deadline; MAX_TIME itself means none. */
  const LIMIT: int := MAX_TIME - 1

  const NANOSECONDS: int := 1_000_000

  predicate FitsClock(x: int) {
    -MAX_TIME - 1 <= x <= MAX_TIME
  }

  /** Whole milliseconds, truncated toward zero as a duration cast does. */
  function Milliseconds(ns: int): int {
    if ns >= 0 then ns / NANOSECONDS else -(-ns / NANOSECONDS)
  }

  /** deadline::after(): the exact deadline unless that is within a millisecond of the limit, or past it. */
  function After(base: int, timeout: int): (r: int)
    ensures 0 <= base <= LIMIT ==> base <= r <= LIMIT
    ensures 0 <= base <= LIMIT && timeout >= 0 ==>
              r == base + timeout * NANOSECONDS
              || (r == LIMIT && LIMIT - NANOSECONDS < base + timeout * NANOSECONDS)
    ensures 0 <= base <= LIMIT && timeout >= 0 ==>
              (r == base + timeout * NANOSECONDS
               <==> timeout == 0 || timeout < Milliseconds(LIMIT - base) || base + timeout * NANOSECONDS == LIMIT)
  {
    if timeout <= 0 then base
    else if timeout < Milliseconds(LIMIT - base) then base + timeout * NANOSECONDS
    else LIMIT
  }

  /** Nothing it computes leaves the range of the clock. */
  lemma AfterFits(base: int, timeout: int)
    requires 0 <= base <= LIMIT
    ensures FitsClock(LIMIT - base)
    ensures timeout > 0 && timeout < Milliseconds(LIMIT - base) ==>
              FitsClock(timeout * NANOSECONDS) && FitsClock(base + timeout * NANOSECONDS)
  {
  }

  /** A later base gives no earlier deadline. */
  lemma AfterGrows(base: int, later: int, timeout: int)
    requires 0 <= base <= later <= LIMIT
    ensures After(base, timeout) <= After(later, timeout)
  {
  }
}
