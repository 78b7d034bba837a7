/** The numeric conversions of the source, over `real` instead of `double`. */
module Rounding {

  /** `std::round`: the nearest integer, halves away from zero. */
  function Round(x: real): int {
    if x >= 0.0 then (x + 0.5).Floor else -((0.5 - x).Floor)
  }

  /** `static_cast<int>`: the fraction is dropped. */
  function Truncate(x: real): int {
    if x >= 0.0 then x.Floor else -((-x).Floor)
  }

  /** Integer division that truncates toward zero, as `duration_cast` to a coarser unit does. */
  function TruncatingDivide(a: int, b: int): int
    requires b > 0
  {
    if a >= 0 then a / b else -((-a) / b)
  }

  function Max(a: int, b: int): int {
    if a < b then b else a
  }

  function Min(a: int, b: int): int {
    if a < b then a else b
  }

  function Abs(a: int): int {
    if a < 0 then -a else a
  }

  /** Rounding moves a value by at most one half, and by exactly one half only away from zero. */
  lemma RoundIsNearest(x: real)
    ensures -0.5 <= Round(x) as real - x <= 0.5
    ensures Round(x) as real - x == 0.5 ==> x > 0.0
    ensures Round(x) as real - x == -0.5 ==> x < 0.0
  {
    if x >= 0.0 {
      assert (x + 0.5).Floor as real <= x + 0.5 < (x + 0.5).Floor as real + 1.0;
    } else {
      assert (0.5 - x).Floor as real <= 0.5 - x < (0.5 - x).Floor as real + 1.0;
    }
  }

  /** Truncation drops the fraction: it never moves away from zero, and by less than one. */
  lemma TruncateDropsFraction(x: real)
    ensures x >= 0.0 ==> Truncate(x) as real <= x < Truncate(x) as real + 1.0
    ensures x <= 0.0 ==> Truncate(x) as real - 1.0 < x <= Truncate(x) as real
  {
  }

  /** The quotient of whole units, rounded toward zero. */
  lemma TruncatingDivideExactly(a: int, b: int)
    requires b > 0
    ensures a >= 0 ==> b * TruncatingDivide(a, b) <= a < b * TruncatingDivide(a, b) + b
    ensures a <= 0 ==> b * TruncatingDivide(a, b) - b < a <= b * TruncatingDivide(a, b)
  {
  }

  /** An integer below a value stays below it after rounding. */
  lemma RoundAtLeast(x: real, k: int)
    requires k as real <= x
    ensures k <= Round(x)
  {
    RoundIsNearest(x);
  }
}
