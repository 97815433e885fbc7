/** Small facts about integer arithmetic used by the encoders and the seating of players. */
module Arith {

  lemma {:induction false} MulAtLeast(x: int, b: int)
    requires x >= 1 && b >= 0
    ensures x * b >= b
  {
    if x > 1 {
      MulAtLeast(x - 1, b);
      assert x * b == (x - 1) * b + b;
    }
  }

  lemma {:induction false} MulNonNegative(x: int, b: int)
    requires x >= 0 && b >= 0
    ensures x * b >= 0
  {
    if x > 0 {
      MulNonNegative(x - 1, b);
      assert x * b == (x - 1) * b + b;
    }
  }

  lemma MulScale(x: int, y: int, c: int)
    ensures x * (c * y) == c * (x * y)
  {
  }

  /** Writing a number as a multiple of b plus a digit below b can be done in one way only. */
  lemma DigitSplit(a: int, c: int, a': int, c': int, b: int)
    requires b > 0 && 0 <= c < b && 0 <= c' < b && a * b + c == a' * b + c'
    ensures a == a' && c == c'
  {
    assert (a - a') * b == c' - c;
    if a > a' {
      MulAtLeast(a - a', b);
      assert false;
    } else if a < a' {
      MulAtLeast(a' - a, b);
      assert false;
    }
  }

  /** The remainder of q*n + r on division by n is r. */
  lemma ModOf(q: int, n: int, r: int)
    requires n > 0 && 0 <= r < n
    ensures (q * n + r) % n == r && (q * n + r) / n == q
  {
    var x := q * n + r;
    assert x == (x / n) * n + x % n;
    DigitSplit(q, r, x / n, x % n, n);
  }
}
