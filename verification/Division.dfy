/** Quotients, remainders and products of integers: the nonlinear facts the other modules rest on. */
module Division {

  lemma DivMod(n: int, d: int)
    requires d > 0
    ensures n == d * (n / d) + n % d && 0 <= n % d < d
  {}

  lemma MulMono(a: int, b: int, c: int)
    requires a <= b && 0 <= c
    ensures a * c <= b * c && c * a <= c * b
  {}

  lemma StrictMono(a: int, b: int, c: int)
    requires a < b && 0 < c
    ensures a * c < b * c && c * a < c * b
  {}

  lemma Distribute(x: int, y: int, z: int)
    ensures (x + y) * z == x * z + y * z && z * (x + y) == z * x + z * y
    ensures (x - y) * z == x * z - y * z && z * (x - y) == z * x - z * y
  {}

  lemma Assoc(x: int, y: int, z: int)
    ensures x * (y * z) == (x * y) * z && x * (y * z) == (y * x) * z
  {}

  /** Quotient and remainder are the only pair of their kind. */
  lemma UniqueRemainder(x: int, d: int, q: int, r: int)
    requires d > 0 && x == d * q + r && 0 <= r < d
    ensures x % d == r && x / d == q
  {
    var q' := x / d;
    DivMod(x, d);
    if q < q' {
      MulMono(q + 1, q', d);
      Distribute(q, 1, d);
    } else if q' < q {
      MulMono(q' + 1, q, d);
      Distribute(q', 1, d);
    }
  }

  lemma RemainderOf(x: int, d: int, q: int, r: int)
    requires d > 0 && x == q * d + r && 0 <= r < d
    ensures x % d == r
  {
    assert q * d == d * q;
    UniqueRemainder(x, d, q, r);
  }

  lemma QuotientNonNegative(n: int, d: int)
    requires d > 0 && n >= 0
    ensures n / d >= 0
  {
    DivMod(n, d);
    if n / d < 0 { MulMono(n / d, -1, d); }
  }

  /** (n / a) modulo b, scaled back, is n modulo a*b. */
  lemma NestedRemainder(n: int, a: int, b: int)
    requires a > 0 && b > 0
    ensures a * b > 0 && n % (a * b) == n % a + a * ((n / a) % b)
  {
    var q, r := n / a, n % a;
    var s, t := q / b, q % b;
    DivMod(n, a);
    DivMod(q, b);
    Distribute(b * s, t, a);
    Assoc(a, b, s);
    NestedBounds(a, b, t, r);
    UniqueRemainder(n, a * b, s, a * t + r);
  }

  lemma NestedBounds(a: int, b: int, t: int, r: int)
    requires a > 0 && b > 0 && 0 <= t < b && 0 <= r < a
    ensures a * b > 0 && 0 <= a * t + r < a * b
  {
    StrictMono(0, b, a);
    MulMono(0, t, a);
    MulMono(t, b - 1, a);
    Distribute(b, 1, a);
  }

  lemma DivUpper(x: int, n: int, q: int)
    requires n > 0 && n * q <= x
    ensures q <= x / n
  {
    DivMod(x, n);
    if x / n < q {
      MulMono(x / n + 1, q, n);
      Distribute(x / n, 1, n);
    }
  }

  lemma DivLower(x: int, n: int, q: int)
    requires n > 0 && x < n * (q + 1)
    ensures x / n <= q
  {
    DivMod(x, n);
    if q < x / n { MulMono(q + 1, x / n, n); }
  }
}
