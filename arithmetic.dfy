/**
 * Facts about Dafny's division by a positive number, shared by the
 * bucket history and the slice alignment proofs. For a positive divisor
 * and a non-negative dividend Dafny's division agrees with Java's.
 */
module Arithmetic {
  /** The quotient times the divisor is at most the dividend, and less than one divisor below it. */
  lemma DivBounds(a: int, b: int)
    requires b > 0
    ensures (a / b) * b <= a < (a / b) * b + b
  {
  }

  /** A quotient bracketed by the dividend is the quotient. */
  lemma DivUnique(a: int, b: int, q: int)
    requires b > 0 && q * b <= a < q * b + b
    ensures a / b == q
  {
    var d := a / b;
    DivBounds(a, b);
    if d < q {
      MulMono(d + 1, q, b);
    } else if d > q {
      MulMono(q + 1, d, b);
    }
  }

  /** Taking away c divisors takes c from the quotient. */
  lemma DivShift(a: int, b: int, c: int)
    requires b > 0
    ensures (a - b * c) / b == a / b - c
  {
    DivBounds(a, b);
    var q := a / b;
    assert (q - c) * b == q * b - b * c;
    DivUnique(a - b * c, b, q - c);
  }

  /** Multiplying by a positive number keeps order. */
  lemma MulMono(x: int, y: int, b: int)
    requires b > 0 && x <= y
    ensures x * b <= y * b
    ensures (x + 1) * b == x * b + b
  {
    assert y * b - x * b == (y - x) * b;
  }

  /** Division by a positive number keeps order. */
  lemma DivMono(x: int, y: int, b: int)
    requires b > 0 && x <= y
    ensures x / b <= y / b
  {
    var qx, qy := x / b, y / b;
    DivBounds(x, b);
    DivBounds(y, b);
    if qx > qy {
      MulMono(qy, qx - 1, b);
    }
  }

  /** Multiplication by a positive number keeps a strict order. */
  lemma MulCancel(a: int, b: int, n: int)
    requires n > 0 && a * n < b * n
    ensures a < b
  {
  }
}
