/** Laws of multiplication and division, one product at a time. */
module Arithmetic {

  lemma Commute(a: int, b: int)
    ensures a * b == b * a
  {
  }

  lemma Reassociate(a: int, b: int, c: int)
    ensures a * b * c == a * (b * c)
  {
  }

  lemma Distribute(x: int, y: int, factor: int)
    ensures (x + y) * factor == x * factor + y * factor
  {
  }

  lemma MulMonotone(d: int, a: int, b: int)
    requires d >= 0 && a <= b
    ensures d * a <= d * b
  {
  }

  lemma DivBounds(n: int, d: int)
    requires d > 0
    ensures d * (n / d) <= n < d * (n / d) + d
  {
  }

  lemma OneQuotient(n: int, d: int, q: int, r: int)
    requires d > 0 && d * q <= n < d * q + d
    ensures q == r <==> d * r <= n < d * r + d
  {
    if q < r { MulMonotone(d, q + 1, r); }
    if r < q { MulMonotone(d, r + 1, q); }
  }

  lemma DivisionIs(n: int, d: int, q: int)
    requires d > 0
    ensures n / d == q <==> d * q <= n < d * q + d
  {
    DivBounds(n, d);
    OneQuotient(n, d, n / d, q);
  }

  lemma DivMonotone(n: int, m: int, d: int)
    requires n <= m && d > 0
    ensures n / d <= m / d
  {
    var q, r := n / d, m / d;
    if r < q {
      MulMonotone(d, r + 1, q);
      assert false;
    }
  }

  // ----- Real factors -----

  lemma CastMul(a: int, b: int)
    ensures (a * b) as real == a as real * b as real
  {
  }

  lemma DividedBack(a: real, b: real, c: real)
    requires c > 0.0
    ensures a * (b / c) * c == a * b
  {
  }

  lemma SelfQuotient(a: real, b: real)
    requires a == b && b > 0.0
    ensures a / b == 1.0
  {
  }

  lemma MulOrder(a: real, b: real, s: real)
    requires a <= b && 0.0 <= s
    ensures a * s <= b * s
  {
  }

  lemma MulOrderStrict(a: real, b: real, s: real)
    requires a < b && 0.0 < s
    ensures a * s < b * s
  {
  }
}
