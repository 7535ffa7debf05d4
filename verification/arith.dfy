/** Facts about multiplication and floor division that the solver does not find alone. */
module Arith {

  /** Multiplying by a non-negative number keeps the order. */
  lemma MulMono(a: int, b: int, c: int)
    requires c >= 0
    ensures a <= b ==> a * c <= b * c
  {
    if a <= b {
      assert b * c - a * c == (b - a) * c;
    }
  }

  /** Quotient and remainder are the only ones with `x == q * d + r` and `0 <= r < d`. */
  lemma DivModUnique(x: int, d: int, q: int, r: int)
    requires d > 0 && x == q * d + r && 0 <= r < d
    ensures x / d == q && x % d == r
  {
    var q', r' := x / d, x % d;
    assert (q - q') * d == r' - r;
    MulMono(q - q', -1, d);
    MulMono(1, q - q', d);
  }

  /** Adding one whole page leaves the remainder unchanged. */
  lemma ModShift(x: nat, d: nat)
    requires d > 0
    ensures (x + d) % d == x % d
  {
    DivModUnique(x + d, d, x / d + 1, x % d);
  }

  /** Flooring twice is flooring once by the product: `floor(floor(x / a) / b) == floor(x / (a * b))`. */
  lemma NestedFloor(x: int, a: int, b: int)
    requires a > 0 && b > 0
    ensures (x / a) / b == x / (a * b)
  {
    var q, r := x / a, x % a;
    var q2, r2 := q / b, q % b;
    assert q == q2 * b + r2;
    assert x == q2 * (a * b) + (r2 * a + r) by {
      assert x == q * a + r;
      assert q * a == q2 * b * a + r2 * a;
    }
    MulMono(r2, b - 1, a);
    assert r2 * a + r < a * b by {
      assert (b - 1) * a == a * b - a;
    }
    MulMono(0, r2, a);
    DivModUnique(x, a * b, q2, r2 * a + r);
  }

  /** Floor division by a positive number keeps the order. */
  lemma DivMono(x: int, y: int, d: int)
    requires d > 0
    ensures x <= y ==> x / d <= y / d
  {
    var qx, qy := x / d, y / d;
    MulMono(qy + 1, qx, d);
  }
}
