/** Modular arithmetic up to Fermat's little theorem, for the square root used in point decompression. */
module NumberTheory {
  import opened Division

  function Pow(a: int, n: nat): int { if n == 0 then 1 else a * Pow(a, n - 1) }

  predicate Divides(d: int, n: int)
    requires d > 0
  {
    n % d == 0
  }

  ghost predicate Prime(p: int) { p >= 2 && forall d :: 2 <= d < p ==> !Divides(d, p) }

  /** x and y leave the same remainder. */
  predicate Cong(p: int, x: int, y: int)
    requires p > 0
  {
    Divides(p, x - y)
  }

  // ----- remainders -----

  lemma MultipleDivides(p: int, q: int)
    requires p > 0
    ensures Divides(p, p * q)
  {
    UniqueRemainder(p * q, p, q, 0);
  }

  lemma DividesSum(p: int, a: int, b: int)
    requires p > 0 && Divides(p, a) && Divides(p, b)
    ensures Divides(p, a + b) && Divides(p, a - b)
  {
    var x, y := a / p, b / p;
    assert a + b == p * (x + y);
    assert a - b == p * (x - y);
    MultipleDivides(p, x + y);
    MultipleDivides(p, x - y);
  }

  lemma DividesProduct(p: int, a: int, k: int)
    requires p > 0 && Divides(p, a)
    ensures Divides(p, k * a) && Divides(p, a * k)
  {
    var x := a / p;
    assert k * a == p * (k * x);
    MultipleDivides(p, k * x);
  }

  lemma CongMod(p: int, x: int)
    requires p > 0
    ensures Cong(p, x % p, x) && Cong(p, x, x % p)
  {
    var q := x / p;
    DivMod(x, p);
    Distribute(0, q, p);
    MultipleDivides(p, q);
    MultipleDivides(p, 0 - q);
  }

  lemma CongTrans(p: int, x: int, y: int, z: int)
    requires p > 0 && Cong(p, x, y) && Cong(p, y, z)
    ensures Cong(p, x, z) && Cong(p, y, x)
  {
    DividesSum(p, x - y, y - z);
    DividesProduct(p, x - y, -1);
  }

  lemma CongMul(p: int, a: int, b: int, c: int, d: int)
    requires p > 0 && Cong(p, a, b) && Cong(p, c, d)
    ensures Cong(p, a * c, b * d)
  {
    DividesProduct(p, a - b, c);
    DividesProduct(p, c - d, b);
    DividesSum(p, (a - b) * c, b * (c - d));
    assert (a - b) * c + b * (c - d) == a * c - b * d;
  }

  lemma CongRefl(p: int, x: int)
    requires p > 0
    ensures Cong(p, x, x)
  {}

  lemma {:induction false} CongPow(p: int, a: int, b: int, n: nat)
    requires p > 0 && Cong(p, a, b)
    ensures Cong(p, Pow(a, n), Pow(b, n))
  {
    if n == 0 {
      CongRefl(p, 1);
    } else {
      CongPow(p, a, b, n - 1);
      CongMul(p, a, b, Pow(a, n - 1), Pow(b, n - 1));
    }
  }

  /** Congruent remainders are equal. */
  lemma CongSmall(p: int, x: int, y: int)
    requires p > 0 && 0 <= x < p && 0 <= y < p && Cong(p, x, y)
    ensures x == y
  {
    var q := (x - y) / p;
    assert x - y == p * q;
    assert q >= 1 ==> p * q >= p;
    assert q <= -1 ==> p * q <= -p;
  }

  // ----- Euclid's lemma -----

  /** The least positive m with p | m*b. */
  lemma {:induction false} LeastAnnihilator(p: int, b: int) returns (m: int)
    requires p >= 1
    ensures 1 <= m <= p && Divides(p, m * b)
    ensures forall k :: 1 <= k < m ==> !Divides(p, k * b)
  {
    m := 1;
    while !Divides(p, m * b)
      invariant 1 <= m <= p
      invariant forall k :: 1 <= k < m ==> !Divides(p, k * b)
      decreases p - m
    {
      if m == p { MultipleDivides(p, b); }
      m := m + 1;
    }
  }

  lemma AnnihilatorDivides(p: int, b: int, m: int, n: int)
    requires p >= 1 && 1 <= m && Divides(p, m * b) && Divides(p, n * b)
    requires forall k :: 1 <= k < m ==> !Divides(p, k * b)
    ensures Divides(m, n)
  {
    var q, r := n / m, n % m;
    DividesProduct(p, m * b, q);
    DividesSum(p, n * b, q * (m * b));
    assert n == m * q + r;
    assert n * b - q * (m * b) == r * b by {
      assert n * b == (m * q + r) * b;
      Distribute(m * q, r, b);
      Assoc(q, m, b);
    }
  }

  lemma Euclid(p: int, a: int, b: int)
    requires Prime(p) && Divides(p, a * b)
    ensures Divides(p, a) || Divides(p, b)
  {
    var m := LeastAnnihilator(p, b);
    AnnihilatorDivides(p, b, m, a);
    MultipleDivides(p, b);
    AnnihilatorDivides(p, b, m, p);
    assert 1 * b == b;
  }

  // ----- binomials -----

  function Choose(n: nat, k: nat): nat {
    if k == 0 then 1 else if n == 0 then 0 else Choose(n - 1, k - 1) + Choose(n - 1, k)
  }

  lemma {:induction false} ChooseBeyond(n: nat, k: nat)
    requires k > n
    ensures Choose(n, k) == 0
  {
    if n > 0 {
      ChooseBeyond(n - 1, k - 1);
      ChooseBeyond(n - 1, k);
    }
  }

  lemma {:induction false} ChooseAll(n: nat)
    ensures Choose(n, n) == 1
  {
    if n > 0 {
      ChooseAll(n - 1);
      ChooseBeyond(n - 1, n);
    }
  }

  lemma AbsorbStep(n: int, k: int, u: int, v: int, s: int, t: int)
    requires k * v == (n - 1) * t && (k - 1) * u == (n - 1) * s && u == s + t
    ensures k * (u + v) == n * u
  {
    assert k * (u + v) == (k - 1) * u + u + k * v;
    assert (n - 1) * s + (n - 1) * t == (n - 1) * (s + t);
    assert (n - 1) * u + u == n * u;
  }

  /** k * C(n,k) == n * C(n-1,k-1). */
  lemma {:induction false} Absorb(n: nat, k: nat)
    requires n >= 1 && k >= 1
    ensures k * Choose(n, k) == n * Choose(n - 1, k - 1)
  {
    if n == 1 {
      if k >= 2 { ChooseBeyond(1, k); ChooseBeyond(0, k - 1); }
    } else {
      Absorb(n - 1, k);
      var u, v, t := Choose(n - 1, k - 1), Choose(n - 1, k), Choose(n - 2, k - 1);
      if k >= 2 {
        Absorb(n - 1, k - 1);
        AbsorbStep(n, k, u, v, Choose(n - 2, k - 2), t);
      } else {
        AbsorbStep(n, 1, u, v, 0, t);
      }
    }
  }

  /** The first m terms of the expansion of (a+1)^n. */
  function Terms(n: nat, a: int, m: nat): int {
    if m == 0 then 0 else Terms(n, a, m - 1) + Choose(n, m - 1) * Pow(a, m - 1)
  }

  lemma PascalStep(t1: int, t: int, s: int, a: int, c: int, d: int, w: int)
    requires t1 == t + a * s
    ensures t1 + (c + d) * (a * w) == t + d * (a * w) + a * (s + c * w)
  {
    assert (c + d) * (a * w) == c * (a * w) + d * (a * w);
    assert a * (s + c * w) == a * s + a * (c * w);
    assert c * (a * w) == a * (c * w);
  }

  lemma {:induction false} PascalTerms(n: nat, a: int, m: nat)
    ensures Terms(n + 1, a, m + 1) == Terms(n, a, m + 1) + a * Terms(n, a, m)
  {
    if m == 0 {
      assert Terms(n + 1, a, 0) == 0 && Terms(n, a, 0) == 0;
    } else {
      PascalTerms(n, a, m - 1);
      PascalStep(Terms(n + 1, a, m), Terms(n, a, m), Terms(n, a, m - 1), a,
                 Choose(n, m - 1), Choose(n, m), Pow(a, m - 1));
      LastTerm(n + 1, a, m);
      LastTerm(n, a, m);
      LastTerm(n, a, m - 1);
    }
  }

  lemma LastTerm(n: nat, a: int, m: nat)
    ensures Terms(n, a, m + 1) == Terms(n, a, m) + Choose(n, m) * Pow(a, m)
    ensures m > 0 ==> Pow(a, m) == a * Pow(a, m - 1)
  {}

  lemma {:induction false} Binomial(n: nat, a: int)
    ensures Terms(n, a, n + 1) == Pow(a + 1, n)
  {
    if n == 0 {
      assert Terms(0, a, 0) == 0;
      assert Pow(a, 0) == 1;
    } else {
      Binomial(n - 1, a);
      PascalTerms(n - 1, a, n);
      ChooseBeyond(n - 1, n);
      LastTerm(n - 1, a, n);
      BinomialStep(a, Terms(n - 1, a, n), Terms(n - 1, a, n + 1), Choose(n - 1, n), Pow(a, n));
      assert Pow(a + 1, n) == (a + 1) * Pow(a + 1, n - 1);
    }
  }

  lemma BinomialStep(a: int, t: int, t1: int, c: int, w: int)
    requires c == 0 && t1 == t + c * w
    ensures t1 + a * t == (a + 1) * t
  {
    assert c * w == 0;
    Distribute(a, 1, t);
  }

  /** A prime divides its inner binomial coefficients. */
  lemma PrimeDividesChoose(p: nat, k: nat)
    requires Prime(p) && 1 <= k < p
    ensures Divides(p, Choose(p, k))
  {
    Absorb(p, k);
    MultipleDivides(p, Choose(p - 1, k - 1));
    Euclid(p, k, Choose(p, k));
    if Divides(p, k) { CongSmall(p, k, 0); }
  }

  lemma {:induction false} TermsModPrime(p: nat, a: int, m: nat)
    requires Prime(p) && 1 <= m <= p
    ensures Cong(p, Terms(p, a, m), 1)
  {
    if m == 1 {
      assert Terms(p, a, 0) == 0 && Pow(a, 0) == 1;
    } else {
      TermsModPrime(p, a, m - 1);
      PrimeDividesChoose(p, m - 1);
      DividesProduct(p, Choose(p, m - 1), Pow(a, m - 1));
      DividesSum(p, Terms(p, a, m - 1) - 1, Choose(p, m - 1) * Pow(a, m - 1));
    }
  }

  /** (a+1)^p == a^p + 1 modulo a prime p. */
  lemma Freshman(p: nat, a: int)
    requires Prime(p)
    ensures Cong(p, Pow(a + 1, p), Pow(a, p) + 1)
  {
    Binomial(p, a);
    TermsModPrime(p, a, p);
    ChooseAll(p);
    assert Terms(p, a, p + 1) == Terms(p, a, p) + Choose(p, p) * Pow(a, p);
  }

  lemma {:induction false} PowZero(n: nat)
    requires n > 0
    ensures Pow(0, n) == 0
  {}

  lemma CongShift(p: int, x: int, y: int, k: int)
    requires p > 0 && Cong(p, x, y)
    ensures Cong(p, x + k, y + k)
  {
    assert x + k - (y + k) == x - y;
  }

  /** Fermat's little theorem. */
  lemma {:induction false} FermatNat(p: nat, a: nat)
    requires Prime(p)
    ensures Cong(p, Pow(a, p), a)
  {
    if a == 0 {
      PowZero(p);
    } else {
      FermatNat(p, a - 1);
      Freshman(p, a - 1);
      CongShift(p, Pow(a - 1, p), a - 1, 1);
      CongTrans(p, Pow(a, p), Pow(a - 1, p) + 1, a);
    }
  }

  lemma Fermat(p: nat, a: nat)
    requires Prime(p) && !Divides(p, a)
    ensures Cong(p, Pow(a, p - 1), 1)
  {
    FermatNat(p, a);
    assert Pow(a, p) - a == a * (Pow(a, p - 1) - 1);
    Euclid(p, a, Pow(a, p - 1) - 1);
  }

  lemma {:induction false} PowAdd(a: int, m: nat, n: nat)
    ensures Pow(a, m + n) == Pow(a, m) * Pow(a, n)
  {
    if m > 0 {
      PowAdd(a, m - 1, n);
      Assoc(a, Pow(a, m - 1), Pow(a, n));
      assert Pow(a, m + n) == a * Pow(a, m - 1 + n);
    }
  }

  lemma {:induction false} PowSquare(a: int, n: nat)
    ensures Pow(a * a, n) == Pow(a, n) * Pow(a, n)
  {
    if n > 0 {
      PowSquare(a, n - 1);
      var w := Pow(a, n - 1);
      assert (a * a) * (w * w) == (a * w) * (a * w);
    }
  }
}
