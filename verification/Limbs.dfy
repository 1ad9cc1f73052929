/** RSA circuit inputs: limb splitting and the Barrett reduction parameter (internal/prover/prover.go).
    Limbs are kept as numbers; the code then prints them in decimal. */
module Limbs {
  import opened Division

  function Pow2(n: nat): (r: nat)
    ensures r >= 1
  {
    if n == 0 then 1 else 2 * Pow2(n - 1)
  }

  lemma {:induction false} Pow2Add(m: nat, n: nat)
    ensures Pow2(m + n) == Pow2(m) * Pow2(n)
  {
    if m > 0 {
      Pow2Add(m - 1, n);
      Assoc(2, Pow2(m - 1), Pow2(n));
    }
  }

  lemma {:induction false} Pow2Mono(m: nat, n: nat)
    requires m <= n
    ensures Pow2(m) <= Pow2(n)
  {
    if m < n { Pow2Mono(m, n - 1); }
  }

  /** Little-endian value of limbs of the given width. */
  function Value(limbs: seq<nat>, bits: nat): nat {
    if limbs == [] then 0 else limbs[0] + Pow2(bits) * Value(limbs[1..], bits)
  }

  /** Right shift of a non-negative number. */
  function Shift(n: nat, bits: nat): nat {
    QuotientNonNegative(n, Pow2(bits));
    n / Pow2(bits)
  }

  function Split(n: nat, bits: nat, count: nat): seq<nat> {
    if count == 0 then [] else [n % Pow2(bits)] + Split(Shift(n, bits), bits, count - 1)
  }

  /** And with the mask 2^bits - 1 keeps the remainder; Rsh divides: for non-negative numbers. */
  method SplitBigIntToLimbs(n: nat, bits: nat, count: nat) returns (limbs: seq<nat>)
    ensures limbs == Split(n, bits, count)
  {
    limbs := [];
    var tmp: nat := n;
    for i := 0 to count
      invariant limbs + Split(tmp, bits, count - i) == Split(n, bits, count)
    {
      var limb := tmp % Pow2(bits);
      assert limbs + Split(tmp, bits, count - i) == limbs + [limb] + Split(Shift(tmp, bits), bits, count - i - 1);
      limbs := limbs + [limb];
      tmp := Shift(tmp, bits);
    }
    assert limbs + [] == limbs;
  }

  /** Every limb is in range. */
  lemma {:induction false} SplitBounds(n: nat, bits: nat, count: nat)
    ensures |Split(n, bits, count)| == count
    ensures forall i :: 0 <= i < count ==> Split(n, bits, count)[i] < Pow2(bits)
  {
    if count > 0 {
      SplitBounds(Shift(n, bits), bits, count - 1);
      var d := Pow2(bits);
      assert n % d < d;
    }
  }

  /** The limbs recombine to the number modulo 2^(bits*count). */
  lemma {:induction false} SplitValue(n: nat, bits: nat, count: nat)
    ensures Value(Split(n, bits, count), bits) == n % Pow2(bits * count)
  {
    if count == 0 {
      assert bits * 0 == 0;
    } else {
      var rest := Split(Shift(n, bits), bits, count - 1);
      SplitValue(Shift(n, bits), bits, count - 1);
      ValueCons(n % Pow2(bits), rest, bits);
      SplitStep(n, bits, count, Value(rest, bits));
    }
  }

  lemma SplitStep(n: nat, bits: nat, count: nat, v: nat)
    requires count > 0 && v == Shift(n, bits) % Pow2(bits * (count - 1))
    ensures n % Pow2(bits) + Pow2(bits) * v == n % Pow2(bits * count)
  {
    NestedRemainder(n, Pow2(bits), Pow2(bits * (count - 1)));
    Regroup(bits, count);
    Pow2Add(bits, bits * (count - 1));
  }

  lemma ValueCons(x: nat, rest: seq<nat>, bits: nat)
    ensures Value([x] + rest, bits) == x + Pow2(bits) * Value(rest, bits)
  {
    assert ([x] + rest)[1..] == rest;
  }

  lemma Regroup(bits: nat, count: int)
    ensures bits * count == bits + bits * (count - 1)
  {}

  /** Exactly the numbers below 2^(bits*count) survive splitting. */
  lemma SplitExactIff(n: nat, bits: nat, count: nat)
    ensures Value(Split(n, bits, count), bits) == n <==> n < Pow2(bits * count)
  {
    SplitValue(n, bits, count);
    var d := Pow2(bits * count);
    if n < d { UniqueRemainder(n, d, 0, n); } else { DivMod(n, d); }
  }

  // ----- the RSA-2048 inputs -----

  /** redcParam = 2^(2*2048+4) / modulus. */
  function Redc(modulus: nat): nat
    requires modulus > 0
  {
    Pow2(4100) / modulus
  }

  /** The parameter is the largest r with r * modulus at most 2^(2*2048 + 4). */
  lemma RedcIsFloor(modulus: nat)
    requires modulus > 0
    ensures Redc(modulus) * modulus <= Pow2(2 * 2048 + 4) < (Redc(modulus) + 1) * modulus
  {
    DivMod(Pow2(4100), modulus);
    Distribute(Redc(modulus), 1, modulus);
  }

  lemma DivBound(a: nat, n: nat, b: nat)
    requires n >= b > 0
    ensures a / n <= a / b
  {
    var q := a / n;
    DivMod(a, n);
    MulMono(b, n, q);
    DivUpper(a, b, q);
  }

  lemma RedcFits(modulus: nat)
    requires Pow2(2047) <= modulus
    ensures Redc(modulus) <= Pow2(2053)
  {
    DivBound(Pow2(4100), modulus, Pow2(2047));
    Pow2Add(2047, 2053);
    UniqueRemainder(Pow2(4100), Pow2(2047), Pow2(2053), 0);
  }

  ghost predicate ExactLimbs(n: nat) {
    var ls := Split(n, 120, 18);
    |ls| == 18 && (forall i :: 0 <= i < 18 ==> ls[i] < Pow2(120)) && Value(ls, 120) == n
  }

  lemma FitsExactly(n: nat)
    requires n < Pow2(2160)
    ensures ExactLimbs(n)
  {
    SplitBounds(n, 120, 18);
    SplitExactIff(n, 120, 18);
  }

  /** For a 2048-bit modulus and a signature below it, all three inputs split into eighteen 120-bit
      limbs that recombine to the exact values. */
  lemma CircuitInputsExact(modulus: nat, signature: nat)
    requires Pow2(2047) <= modulus < Pow2(2048) && signature < modulus
    ensures ExactLimbs(modulus) && ExactLimbs(signature) && ExactLimbs(Redc(modulus))
  {
    Pow2Mono(2048, 2160);
    Pow2Mono(2054, 2160);
    assert Pow2(2054) == 2 * Pow2(2053);
    RedcFits(modulus);
    FitsExactly(modulus);
    FitsExactly(signature);
    FitsExactly(Redc(modulus));
  }

  /** Barrett: with r = floor(K/n), the quotient floor(x*r/K) is floor(x/n) or one less, for x <= K. */
  lemma BarrettQuotient(x: nat, n: nat, K: nat)
    requires n > 0 && K > 0 && x <= K
    ensures var q := x * (K / n) / K; x / n - 1 <= q <= x / n
  {
    var r := K / n;
    QuotientNonNegative(K, n);
    MulMono(0, r, x);
    var q := x * r / K;
    QuotientNonNegative(x * r, K);
    DivMod(K, n);
    DivMod(x * r, K);
    BarrettUpper(x, n, K, r, q);
    BarrettLower(x, n, K, r, q);
  }

  lemma Cancel(k: int, a: int, b: int)
    requires k > 0
    ensures k * a <= k * b ==> a <= b
    ensures k * a < k * b ==> a < b
  {
    if a > b { StrictMono(b, a, k); }
    if a >= b { MulMono(b, a, k); }
  }

  lemma BarrettUpper(x: nat, n: nat, K: nat, r: nat, q: nat)
    requires n > 0 && K > 0 && n * r <= K && K * q <= x * r
    ensures q <= x / n
  {
    MulMono(K * q, x * r, n);
    MulMono(n * r, K, x);
    assert n * (x * r) == x * (n * r);
    assert n * (K * q) == K * (n * q);
    assert x * K == K * x;
    Cancel(K, n * q, x);
    DivUpper(x, n, q);
  }

  lemma BarrettLower(x: nat, n: nat, K: nat, r: nat, q: nat)
    requires n > 0 && K > 0 && x <= K && n * r + n > K && K * q + K > x * r
    ensures x / n - 1 <= q
  {
    MulMono(K, n * r + n, x);
    assert x * (n * r + n) == n * (x * r) + n * x;
    StrictMono(x * r, K * q + K, n);
    MulMono(x, K, n);
    assert n * (K * q + K) + n * K == K * (n * (q + 1 + 1)) by {
      assert n * (K * q + K) == K * (n * (q + 1));
      assert n * (q + 1 + 1) == n * (q + 1) + n;
      assert K * (n * (q + 1) + n) == K * (n * (q + 1)) + K * n;
    }
    assert x * K == K * x;
    Cancel(K, x, n * (q + 1 + 1));
    DivLower(x, n, q + 1);
  }

  /** For every product x of two residues of a 2048-bit modulus the circuit's quotient is right or one short. */
  lemma RedcQuotient(x: nat, modulus: nat)
    requires Pow2(2047) <= modulus < Pow2(2048) && x < modulus * modulus
    ensures var q := x * Redc(modulus) / Pow2(4100); x / modulus - 1 <= q <= x / modulus
  {
    Pow2Add(2048, 2048);
    Pow2Mono(4096, 4100);
    MulMono(modulus, Pow2(2048), modulus);
    MulMono(modulus, Pow2(2048), Pow2(2048));
    BarrettQuotient(x, modulus, Pow2(4100));
  }
}
