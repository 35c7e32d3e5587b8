/** Money and tolerances. Amounts are whole cents. A tolerance is kept a hundredfold, so that
    one per cent of an amount is a whole number and every test stays in the integers. */
module Money {

  // 1000 UGX is 100_000 cents; a hundredfold of it is
  const MIN_TOLERANCE := 10_000_000

  const DAY_MS := 86_400_000
  const DATE_WINDOW_DAYS := 30

  function Abs(x: int): nat {
    if x < 0 then -x else x
  }

  function Max(x: int, y: int): int {
    if x < y then y else x
  }

  /** A hundred times max(1% of basis, 1000 UGX). */
  function Tolerance(basis: int): int {
    Max(basis, MIN_TOLERANCE)
  }

  /** amount is at most tolerance away from target. */
  predicate Within(amount: int, target: int, tolerance: int) {
    100 * Abs(amount - target) <= tolerance
  }

  /** The UTC calendar day of a time in milliseconds. */
  function Day(time: int): int {
    time / DAY_MS
  }
}
