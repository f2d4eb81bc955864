/**
 * Integer arithmetic that stands in for Python's datetime arithmetic.
 *
 * Instants are whole microseconds (the resolution of Python's `datetime`),
 * so a difference of two instants is exact.  Three roundings of the source
 * are written out here:
 *  - `timedelta / 2` rounds the microsecond count half to even;
 *  - `round(x)` on a number of seconds rounds half to even;
 *  - `int(x)` on a number of seconds truncates toward zero.
 */
module TimeArith {

  /** Microseconds in one second. */
  const MicrosPerSecond: int := 1000000

  function Max(a: int, b: int): int { if a >= b then a else b }
  function Min(a: int, b: int): int { if a <= b then a else b }

  /**
   * a / b rounded to the nearest integer, ties to the even neighbour
   * (`_divide_and_round` in Python's datetime module, and Python's `round`).
   */
  function DivideAndRound(a: int, b: int): (q: int)
    requires b > 0
    ensures 2 * (a - b * q) <= b && 2 * (b * q - a) <= b
    ensures 2 * (a - b * q) == b || 2 * (b * q - a) == b ==> q % 2 == 0
  {
    var q0, r := a / b, a % b;
    assert a == b * q0 + r && 0 <= r < b;
    assert b * (q0 + 1) == b * q0 + b;
    if 2 * r > b || (2 * r == b && q0 % 2 == 1) then q0 + 1 else q0
  }

  /** `int(a / b)` for a positive divisor: the quotient truncated toward zero. */
  function TruncDiv(a: int, b: int): (q: int)
    requires b > 0
    ensures a >= 0 ==> 0 <= b * q <= a < b * q + b
  {
    if a >= 0 then
      var n, r := a / b, a % b;
      assert a == b * n + r && 0 <= r < b;
      NonNegativeProduct(b, n);
      n
    else
      -((-a) / b)
  }

  lemma NonNegativeProduct(x: int, y: int)
    requires x >= 0 && y >= 0
    ensures x * y >= 0
  {
  }

  /** Truncated seconds and rounded seconds never differ by more than one. */
  lemma RoundVersusTruncate(us: int)
    requires us >= 0
    ensures TruncDiv(us, MicrosPerSecond) <= DivideAndRound(us, MicrosPerSecond) <= TruncDiv(us, MicrosPerSecond) + 1
  {
  }
}
