/** Integer arithmetic as C# performs it on `int`: truncating division,
    32-bit wrap-around of unchecked arithmetic, and banker's rounding of
    `Math.Round`. */
module Numeric {

  const INT32_MIN: int := -0x8000_0000
  const INT32_MAX: int := 0x7FFF_FFFF
  const TWO_POW_32: int := 0x1_0000_0000

  predicate InInt32(x: int) {
    INT32_MIN <= x <= INT32_MAX
  }

  /** The value an unchecked 32-bit C# `int` computation holds when the exact
      result is `x`. */
  function Wrap32(x: int): (r: int)
    ensures InInt32(r)
    ensures (x - r) % TWO_POW_32 == 0
    ensures InInt32(x) ==> r == x
  {
    var m := x % TWO_POW_32;
    if m > INT32_MAX then m - TWO_POW_32 else m
  }

  /** C# integer division: the quotient is truncated toward zero. */
  function Div(a: int, b: int): (q: int)
    requires b != 0
    ensures a >= 0 && b > 0 ==> q == a / b
    ensures a >= 0 && b > 0 ==> q * b <= a < q * b + b
    ensures a < 0 && b > 0 ==> q * b - b < a <= q * b
  {
    if a >= 0 then a / b else -((-a) / b)
  }

  /** For a positive divisor, truncating division is monotone in the dividend. */
  lemma DivMonotone(a: int, a': int, b: int)
    requires b > 0 && a <= a'
    ensures Div(a, b) <= Div(a', b)
  {
    if a >= 0 {
      FloorDivMonotone(a, a', b);
    } else if a' < 0 {
      FloorDivMonotone(-a', -a, b);
    } else {
      FloorDivNonNegative(-a, b);
      FloorDivNonNegative(a', b);
    }
  }

  lemma FloorDivMonotone(a: int, a': int, b: int)
    requires b > 0 && a <= a'
    ensures a / b <= a' / b
  {
    if a / b > a' / b {
      MulMonotone(a' / b + 1, a / b, b);
      assert false;
    }
  }

  lemma MulMonotone(x: int, y: int, b: int)
    requires x <= y && b > 0
    ensures x * b <= y * b
  {
    assert y * b - x * b == (y - x) * b;
  }

  lemma FloorDivNonNegative(a: int, b: int)
    requires b > 0 && a >= 0
    ensures a / b >= 0
  {
  }

  /** Dividing a multiple of `b` by `b` gives the factor back. */
  lemma DivMulCancel(m: int, b: int)
    requires b > 0
    ensures Div(m * b, b) == m
  {
    if m >= 0 {
      MulMonotone(0, m, b);
      FloorDivExact(m, b);
    } else {
      MulMonotone(m, 0, b);
      assert -(m * b) == (-m) * b;
      FloorDivExact(-m, b);
    }
  }

  lemma FloorDivExact(m: int, b: int)
    requires m >= 0 && b > 0
    ensures (m * b) / b == m
  {
    var q := (m * b) / b;
    assert q * b <= m * b < q * b + b;
    if q < m {
      MulMonotone(q + 1, m, b);
      assert false;
    }
    if q > m {
      MulMonotone(m + 1, q, b);
      assert false;
    }
  }

  /** `(int)Math.Round(total / (double)count)`: the nearest integer to the
      mean, ties going to the even neighbour. */
  function RoundHalfEven(total: int, count: int): (r: int)
    requires count > 0
    ensures 2 * (r * count - total) <= count
    ensures 2 * (total - r * count) <= count
    ensures 2 * (r * count - total) == count || 2 * (total - r * count) == count ==> r % 2 == 0
  {
    var q := total / count;
    var rem := total % count;
    if 2 * rem < count then q
    else if 2 * rem > count then q + 1
    else if q % 2 == 0 then q
    else q + 1
  }
}
