/**
 * The integer semantics of C++ that the generator relies on: `/` and `%`
 * truncate toward zero, and converting a double to an integer drops the
 * fractional part (also toward zero).  Dafny's own `/` and `%` on `int` are
 * Euclidean, so they are spelled out here.
 */
module CInt {

  function Abs(x: int): int {
    if x < 0 then -x else x
  }

  function Min(a: int, b: int): int {
    if a <= b then a else b
  }

  function Max(a: int, b: int): int {
    if a >= b then a else b
  }

  /** C++ integer division: the exact quotient truncated toward zero. */
  function CDiv(a: int, b: int): int
    requires b != 0
  {
    if a >= 0 && b > 0 then a / b
    else if a >= 0 then -(a / -b)
    else if b > 0 then -((-a) / b)
    else (-a) / (-b)
  }

  /** C++ remainder, defined through `a == b * CDiv(a, b) + CMod(a, b)`. */
  function CMod(a: int, b: int): int
    requires b != 0
  {
    a - b * CDiv(a, b)
  }

  /** The C++ remainder takes the sign of the dividend and is smaller than the divisor in magnitude. */
  lemma CModSign(a: int, b: int)
    requires b != 0
    ensures a >= 0 ==> 0 <= CMod(a, b) < Abs(b)
    ensures a < 0 ==> -Abs(b) < CMod(a, b) <= 0
  {
    if a >= 0 && b > 0 {
      assert CMod(a, b) == a % b;
    } else if a >= 0 {
      assert b * CDiv(a, b) == (-b) * (a / -b);
      assert CMod(a, b) == a % (-b);
    } else if b > 0 {
      assert b * CDiv(a, b) == -(b * ((-a) / b));
      assert CMod(a, b) == -((-a) % b);
    } else {
      assert b * CDiv(a, b) == -((-b) * ((-a) / (-b)));
      assert CMod(a, b) == -((-a) % (-b));
    }
  }

  /** On a non-negative dividend and a positive divisor C++ and Dafny agree. */
  lemma CDivModNonNegative(a: int, b: int)
    requires a >= 0 && b > 0
    ensures CDiv(a, b) == a / b && CMod(a, b) == a % b
  {
  }

  /** The conversion `static_cast<int>(x)` of a (finite) double: truncation toward zero. */
  function Trunc(x: real): (n: int)
    ensures x >= 0.0 ==> n as real <= x < n as real + 1.0
    ensures x < 0.0 ==> n as real - 1.0 < x <= n as real
  {
    if x >= 0.0 then x.Floor else -((-x).Floor)
  }

  /** The largest value of a 32-bit `PetscInt`. */
  const PetscIntMax := 0x7fff_ffff

  lemma MulMonotone(x: int, y: int, m: int)
    requires x <= y && m >= 0
    ensures x * m <= y * m
  {
  }

  /** Quotient and remainder are determined by the division identity and the remainder's range. */
  lemma DivModUnique(a: int, m: int, q: int, r: int)
    requires m > 0 && 0 <= r < m && a == q * m + r
    ensures a / m == q && a % m == r
  {
    var q0, r0 := a / m, a % m;
    assert (q0 - q) * m == r - r0;
    if q0 > q {
      MulMonotone(1, q0 - q, m);
    } else if q0 < q {
      MulMonotone(1, q - q0, m);
    }
  }
}
