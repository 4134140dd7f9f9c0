/** Facts about multiplication and division that the solver does not find unaided. */
module Arith {

  lemma MulMonotone(a: int, c: int, b: int)
    requires a <= c && b >= 0
    ensures a * b <= c * b
  {
    var d := c - a;
    assert c * b == a * b + d * b;
    MulNonNegative(d, b);
  }

  lemma MulNonNegative(a: int, b: int)
    requires a >= 0 && b >= 0
    ensures a * b >= 0
  {
  }

  /** Multiplying by a successor adds one more copy. */
  lemma MulSucc(n: int, a: int)
    ensures (n + 1) * a == n * a + a
  {
  }

  /** A non-zero factor cancels. */
  lemma MulCancel(a: int, b: int, c: int)
    requires c != 0 && a * c == b * c
    ensures a == b
  {
    assert (a - b) * c == a * c - b * c;
  }

  /** Quotient and remainder are the unique pair that rebuilds the dividend. */
  lemma DivModUnique(a: int, b: int, q: int, r: int)
    requires b > 0 && 0 <= r < b && a == q * b + r
    ensures a / b == q && a % b == r
  {
    var q', r' := a / b, a % b;
    assert a == q' * b + r';
    if q' > q {
      assert (q + 1) * b == q * b + b;
      MulMonotone(q + 1, q', b);
    } else if q' < q {
      assert (q' + 1) * b == q' * b + b;
      MulMonotone(q' + 1, q, b);
    }
  }

  /** Row-major indices of a grid `w` wide are distinct for distinct cells. */
  lemma GridIndexInjective(w: int, x: int, y: int, x': int, y': int)
    requires w > 0 && 0 <= x < w && 0 <= x' < w
    requires y * w + x == y' * w + x'
    ensures x == x' && y == y'
  {
    DivModUnique(y * w + x, w, y, x);
    DivModUnique(y' * w + x', w, y', x');
  }

  /** The last row-major index of a `w` by `h` grid is `w * h - 1`. */
  lemma GridIndexBound(w: int, h: int, x: int, y: int)
    requires 0 <= x < w && 0 <= y < h
    ensures 0 <= y * w + x < w * h
  {
    MulMonotone(y, h - 1, w);
    MulNonNegative(y, w);
    assert (h - 1) * w + w == w * h;
  }
}
