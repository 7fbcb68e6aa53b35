/**
 Money. Every amount in this project is counted in cents. An amount that a caller supplies
 is a `real` number of cents and may be fractional; an amount that a table stores is an `int`.
 The source works in currency units, so its `0.005` is `0.5` here.
 */
module Money {

  /** `round2`: to the nearest cent, a tie going up (as JavaScript's `Math.round` does). */
  function Round2(x: real): (cents: int)
    ensures x - 0.5 < cents as real <= x + 0.5
  {
    (x + 0.5).Floor
  }

  /** What rounding takes off an amount: between minus and plus half a cent. */
  function Remainder(x: real): (remainder: real)
    ensures -0.5 <= remainder < 0.5
  {
    x - Round2(x) as real
  }

  predicate WholeCents(x: real) {
    x == x.Floor as real
  }

  function Abs(x: int): nat {
    if x < 0 then -x else x
  }

  function Positive(cents: int): nat {
    if cents > 0 then cents else 0
  }

  function AbsReal(x: real): real {
    if x < 0.0 then -x else x
  }

  /** The half-open interval around a cent is exactly what rounds to it. */
  lemma RoundsTo(x: real, cents: int)
    ensures Round2(x) == cents <==> cents as real - 0.5 <= x < cents as real + 0.5
  {
  }

  /** Whole cents are the fixed points of rounding. */
  lemma RoundWhole(x: real)
    ensures WholeCents(x) <==> Round2(x) as real == x
  {
    if WholeCents(x) {
      RoundsTo(x, x.Floor);
    }
  }

  lemma RoundCents(cents: int)
    ensures WholeCents(cents as real) && Round2(cents as real) == cents
  {
  }

  lemma RoundShift(x: real, cents: int)
    ensures Round2(x + cents as real) == Round2(x) + cents
  {
  }
}
