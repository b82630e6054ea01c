// Integer division as the two source languages define it. Dafny's `/` and
// `%` are Euclidean; C++ truncates toward zero and Python floors.

module Arith {

  /** C++ `a / b` on signed integers: the quotient truncated toward zero. */
  function TDiv(a: int, b: int): int
    requires b != 0
  {
    if a >= 0 then (if b > 0 then a / b else -(a / -b))
    else (if b > 0 then -((-a) / b) else (-a) / (-b))
  }

  /** C++ `a % b`: the remainder that goes with TDiv. */
  function TRem(a: int, b: int): int
    requires b != 0
  {
    a - b * TDiv(a, b)
  }

  /** Truncated division: the remainder takes the dividend's sign and is
      smaller than the divisor in magnitude. */
  lemma TDivProperties(a: int, b: int)
    requires b != 0
    ensures a == b * TDiv(a, b) + TRem(a, b)
    ensures a >= 0 ==> 0 <= TRem(a, b) < (if b > 0 then b else -b)
    ensures a < 0 ==> -(if b > 0 then b else -b) < TRem(a, b) <= 0
  {
    if a >= 0 && b > 0 {
      assert TRem(a, b) == a % b;
    } else if a >= 0 {
      assert TRem(a, b) == a % (-b);
    } else if b > 0 {
      assert TRem(a, b) == -((-a) % b);
    } else {
      assert TRem(a, b) == -((-a) % (-b));
    }
  }

  /** For a non-negative dividend and a positive divisor, truncation and
      Dafny's Euclidean division agree. */
  lemma TDivNonNegative(a: int, b: int)
    requires a >= 0 && b > 0
    ensures TDiv(a, b) == a / b && TRem(a, b) == a % b
  {
  }

  /** Python `a // b`: the quotient rounded toward negative infinity. */
  function FloorDiv(a: int, b: int): int
    requires b != 0
  {
    if b > 0 then a / b else (-a) / (-b)
  }

  /** Python `a % b`: the remainder that goes with FloorDiv. */
  function FloorMod(a: int, b: int): int
    requires b != 0
  {
    a - b * FloorDiv(a, b)
  }

  /** Floor division: the remainder takes the divisor's sign. */
  lemma FloorDivProperties(a: int, b: int)
    requires b != 0
    ensures a == b * FloorDiv(a, b) + FloorMod(a, b)
    ensures b > 0 ==> 0 <= FloorMod(a, b) < b
    ensures b < 0 ==> b < FloorMod(a, b) <= 0
  {
  }

  /** The floor quotient by a positive divisor is the unique q with
      b*q <= a < b*(q+1). */
  lemma FloorDivUnique(a: int, b: int, q: int)
    requires b > 0 && b * q <= a < b * q + b
    ensures FloorDiv(a, b) == q && FloorMod(a, b) == a - b * q
  {
    var d, m := a / b, a % b;
    assert a == b * d + m && 0 <= m < b;
    if d < q {
      MulMonotonic(b, d, q - 1);
      assert false;
    }
    if d > q {
      MulMonotonic(b, q + 1, d);
      assert false;
    }
  }

  lemma MulNonNegative(a: int, b: int)
    requires a >= 0 && b >= 0
    ensures a * b >= 0
  {
  }

  lemma MulMonotonic(b: int, x: int, y: int)
    requires b > 0 && x <= y
    ensures b * x <= b * y
  {
    assert b * y - b * x == b * (y - x);
  }

  /** A remainder below period * duration, divided by the duration, is a
      step of the period. */
  lemma StepInPeriod(m: int, p: int, d: int)
    requires p > 0 && d > 0 && 0 <= m < p * d
    ensures 0 <= m / d < p
  {
    if m / d >= p {
      MulMonotonic(d, p, m / d);
      assert false;
    }
  }

  /** One more row of w cells. */
  lemma MulStep(n: int, w: int)
    ensures n * w + w == (n + 1) * w && w * n + w == w * (n + 1)
  {
  }

  /** The absolute value as std::abs computes it. */
  function Abs(a: int): (r: int)
    ensures r >= 0 && (r == a || r == -a)
  {
    if a < 0 then -a else a
  }

  function Max(a: int, b: int): int { if a >= b then a else b }
  function Min(a: int, b: int): int { if a <= b then a else b }
}
