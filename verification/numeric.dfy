/** Python's `round(x, 2)` and `str(x)` for the floats the profiler emits,
    stated over exact reals: rounding is half-to-even on the exact value. */
module Numeric {
  import opened Text

  /** Nearest integer to `y`, ties to the even neighbour (Python's `round`). */
  function RoundHalfEven(y: real): (n: int)
    ensures -0.5 <= n as real - y <= 0.5
  {
    var f := y.Floor;
    var d := y - f as real;
    if d < 0.5 then f
    else if d > 0.5 then f + 1
    else if f % 2 == 0 then f
    else f + 1
  }

  lemma RoundHalfEvenMonotone(x: real, y: real)
    requires x <= y
    ensures RoundHalfEven(x) <= RoundHalfEven(y)
  {
    var fx, fy := x.Floor, y.Floor;
    assert fx <= fy;
    if fx == fy {
      assert x - fx as real <= y - fy as real;
    } else {
      assert RoundHalfEven(x) <= fx + 1 <= fy <= RoundHalfEven(y);
    }
  }

  lemma RoundHalfEvenOfInt(k: int)
    ensures RoundHalfEven(k as real) == k
  {
    assert (k as real).Floor == k;
  }

  /** `round(x, 2)`: the nearest multiple of 0.01, ties to even. */
  function Round2(x: real): (r: real)
    ensures -0.005 <= r - x <= 0.005
    ensures r * 100.0 == RoundHalfEven(x * 100.0) as real
  {
    RoundHalfEven(x * 100.0) as real / 100.0
  }

  /** Rounding never reverses an order between two values. */
  lemma Round2Monotone(x: real, y: real)
    requires x <= y
    ensures Round2(x) <= Round2(y)
  {
    RoundHalfEvenMonotone(x * 100.0, y * 100.0);
  }

  /** Whole numbers are left as they are; with monotonicity this keeps
      percentages of counts inside [0, 100]. */
  lemma Round2OfInt(k: int)
    ensures Round2(k as real) == k as real
  {
    RoundHalfEvenOfInt(k * 100);
    assert (k as real) * 100.0 == (k * 100) as real;
  }

  /** Rounding an already rounded value changes nothing. */
  lemma Round2Idempotent(x: real)
    ensures Round2(Round2(x)) == Round2(x)
  {
    var n := RoundHalfEven(x * 100.0);
    assert Round2(x) * 100.0 == n as real;
    RoundHalfEvenOfInt(n);
  }

  lemma Round2WithinPercent(x: real)
    requires 0.0 <= x <= 100.0
    ensures 0.0 <= Round2(x) <= 100.0
  {
    Round2OfInt(0);
    Round2OfInt(100);
    Round2Monotone(0.0, x);
    Round2Monotone(x, 100.0);
  }

  /** `str(f)` for the float nearest to `x` rounded to two decimals: exact
      for every value with at most two decimals. */
  function FormatFloat(x: real): string {
    FormatCents(RoundHalfEven(x * 100.0))
  }
}
