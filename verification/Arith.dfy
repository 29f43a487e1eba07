/** Facts about floor division that the solver does not find by itself. */
module Arith {
  lemma MulMonotone(b: int, x: int, y: int)
    requires 0 <= b && x <= y
    ensures b * x <= b * y
  {
    if b > 0 && x < y {
      assert b * (y - x) >= 0;
    }
  }

  lemma Quotient(a: int, b: int)
    requires 0 < b
    ensures b * (a / b) <= a < b * (a / b) + b
  {
  }

  // A quotient is at least k exactly when its numerator holds k denominators.
  lemma QuotientAtLeast(a: int, b: int, k: int)
    requires 0 < b
    ensures k <= a / b <==> b * k <= a
  {
    Quotient(a, b);
    if k <= a / b {
      MulMonotone(b, k, a / b);
    } else {
      MulMonotone(b, a / b + 1, k);
      assert b * (a / b + 1) == b * (a / b) + b;
    }
  }

  // Two parts make no more whole units apart than together.
  lemma Superadditive(x: int, y: int, z: int, q: int)
    requires 0 < q && 0 <= x && 0 <= y && x + y <= z
    ensures 0 <= x / q && 0 <= y / q && x / q + y / q <= z / q
  {
    Quotient(x, q);
    Quotient(y, q);
    QuotientAtLeast(x, q, 0);
    QuotientAtLeast(y, q, 0);
    assert q * (x / q + y / q) == q * (x / q) + q * (y / q);
    QuotientAtLeast(z, q, x / q + y / q);
  }

  // If both parts do at least as well per unit as the whole, together they match the whole.
  lemma SumOfParts(a: int, b: int, whole: int, x: int, y: int)
    requires 0 < a && 0 < b && x * (a + b) >= whole * a && y * (a + b) >= whole * b
    ensures whole <= x + y
  {
    var n := a + b;
    assert n * whole == whole * a + whole * b;
    assert n * (x + y) == x * n + y * n;
    assert n * (x + y + 1) == n * (x + y) + n;
    if x + y + 1 <= whole {
      MulMonotone(n, x + y + 1, whole);
    }
  }

  lemma Distribute(a: int, x: int, y: int)
    ensures a * (x + y) == a * x + a * y
  {
  }

  lemma Cancel(n: int, x: int, y: int)
    requires 0 < n && n * x <= y * n
    ensures x <= y
  {
    if y + 1 <= x {
      MulMonotone(n, y + 1, x);
    }
  }

  // How a quotient moves when its numerator grows by one.
  lemma NextQuotient(x: int, q: int)
    requires 0 < q && 0 <= x
    ensures 0 <= x / q && q * (x / q) <= x < q * (x / q + 1)
    ensures (x + 1) / q == if x + 1 == q * (x / q + 1) then x / q + 1 else x / q
  {
    var k := x / q;
    Quotient(x, q);
    Distribute(q, k, 1);
    Distribute(q, k + 1, 1);
    QuotientAtLeast(x, q, 0);
    QuotientAtLeast(x + 1, q, k);
    QuotientAtLeast(x + 1, q, k + 1);
    QuotientAtLeast(x + 1, q, k + 2);
  }

  // A sum over the larger denominator is at most the two quotients and one unit.
  lemma SumOfQuotients(x: int, p: int, y: int, q: int, d: int)
    requires 0 < p <= d && 0 < q <= d && 0 <= x && 0 <= y
    ensures (x + y) / d <= x / p + y / q + 1
  {
    var k, m, z := x / p, y / q, (x + y) / d;
    Quotient(x, p);
    Quotient(y, q);
    QuotientAtLeast(x, p, 0);
    QuotientAtLeast(y, q, 0);
    MulMonotone(k + 1, p, d);
    MulMonotone(m + 1, q, d);
    Distribute(p, k, 1);
    Distribute(q, m, 1);
    Distribute(d, k + 1, m + 1);
    QuotientAtLeast(x + y, d, k + m + 2);
  }
}
