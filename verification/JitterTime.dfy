/** The arithmetic macros of jitter.c: timestamp comparisons in wrapping 32-bit arithmetic, and rounding. */
module JitterTime {
  import opened MachineWords
  import opened Remainders

  // (spx_int32_t)x of a timestamp, which may be kept unwrapped, is Wrap32(x).

  predicate LT32(a: int, b: int) { Wrap32(a - b) < 0 }

  predicate LE32(a: int, b: int) { Wrap32(a - b) <= 0 }

  predicate GT32(a: int, b: int) { Wrap32(a - b) > 0 }

  predicate GE32(a: int, b: int) { Wrap32(a - b) >= 0 }

  /** The same 32-bit word. */
  predicate EQ32(a: int, b: int) { Wrap32(a - b) == 0 }

  /** The comparisons see the wrapped words only. */
  lemma ComparisonsWrap(a: int, b: int, k: int)
    ensures Wrap32(a + k * TURN - b) == Wrap32(a - b) == Wrap32(a - (b + k * TURN))
  {
    AddMultiple(a - b + HALF_RANGE, k, TURN);
    AddMultiple(a - b + HALF_RANGE, -k, TURN);
  }

  predicate Near(a: int, b: int) { -HALF_RANGE < a - b < HALF_RANGE }

  /** Less than half the 32-bit range apart, timestamps compare as the unwrapped numbers do. */
  lemma OrderAgrees(a: int, b: int)
    requires Near(a, b)
    ensures Wrap32(a - b) == a - b
    ensures LT32(a, b) == (a < b) && LE32(a, b) == (a <= b) && GT32(a, b) == (a > b) && GE32(a, b) == (a >= b)
    ensures EQ32(a, b) == (a == b)
  {
    QuotientUnique(a - b + HALF_RANGE, 0, a - b + HALF_RANGE, TURN);
  }

  /** Half the range apart they no longer do: each of the two is then less than the other. */
  lemma OrderFailsAtHalf(a: int)
    ensures LT32(a, a + HALF_RANGE) && LT32(a + HALF_RANGE, a)
  {}

  /** C division: the quotient is truncated toward zero. */
  function Quotient(a: int, b: int): int
    requires b > 0
  {
    if a < 0 then -((-a) / b) else a / b
  }

  /** ROUND_DOWN as the macro spells it. */
  function RoundDown(x: int, step: int): int
    requires step > 0
  {
    if x < 0 then Quotient(x - step + 1, step) * step else Quotient(x, step) * step
  }

  /** It is the greatest multiple of the step not above x, for negative x too. */
  lemma RoundDownIsFloor(x: int, step: int)
    requires step > 0
    ensures RoundDown(x, step) == x / step * step
    ensures RoundDown(x, step) <= x < RoundDown(x, step) + step
  {
    FloorFacts(x, step);
    if x < 0 {
      TruncatedFloor(x, step, x / step);
    }
  }

  lemma FloorFacts(x: int, step: int)
    requires step > 0
    ensures x / step * step <= x < x / step * step + step
  {}

  lemma TruncatedFloor(x: int, step: int, q: int)
    requires step > 0 && x < 0 && q * step <= x < q * step + step
    ensures Quotient(x - step + 1, step) == q
  {
    var y := -(x - step + 1);
    assert y == (-q) * step + (q * step - x + step - 1);
    QuotientUnique(y, -q, q * step - x + step - 1, step);
  }
}
