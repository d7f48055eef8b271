/** Exact arithmetic: bounds, and rounding half to even as Python's `round` and Decimal's `quantize` do. */
module RealMath {
  function Min(x: real, y: real): real { if x <= y then x else y }

  function Max(x: real, y: real): real { if x >= y then x else y }

  function Ceiling(x: real): int { -((-x).Floor) }

  function RoundHalfEven(x: real): int {
    var f := x.Floor;
    var d := x - f as real;
    if d < 0.5 || (d == 0.5 && f % 2 == 0) then f else f + 1
  }

  lemma RoundClose(x: real)
    ensures -0.5 <= RoundHalfEven(x) as real - x <= 0.5
  {
  }

  lemma RoundMonotone(x: real, y: real)
    requires x <= y
    ensures RoundHalfEven(x) <= RoundHalfEven(y)
  {
  }

  // The nearest whole number, and of two equally near ones the even one.
  predicate NearestEven(x: real, n: int) {
    -0.5 < n as real - x < 0.5 || (n % 2 == 0 && -0.5 <= n as real - x <= 0.5)
  }

  lemma RoundExact(x: real, n: int)
    ensures RoundHalfEven(x) == n <==> NearestEven(x, n)
  {
  }
}
