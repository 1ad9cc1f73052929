/** secp256k1 point decompression (internal/core/crypto.go), section 2.3.4 of SEC 1 v2. */
module Curve {
  import opened Bytes
  import opened Division
  import opened NumberTheory

  /** The field prime 2^256 - 2^32 - 977. */
  const P: int := 0xFFFFFFFF_FFFFFFFF_FFFFFFFF_FFFFFFFF_FFFFFFFF_FFFFFFFF_FFFFFFFE_FFFFFC2F

  function Rhs(x: int): int { x * x * x + 7 }

  /** The generator of secp256k1, section 2.4.1 of SEC 2 v2. */
  const GX: int := 0x79BE667E_F9DCBBAC_55A06295_CE870B07_029BFCDB_2DCE28D9_59F2815B_16F81798

  const GY: int := 0x483ADA77_26A3C465_5DA4FBFC_0E1108A8_FD17B448_A6855419_9C47D08F_FB10D4B8

  /** It is a point of y^2 = x^3 + 7 over the field. */
  lemma GeneratorIsPoint()
    ensures Cong(P, GY * GY, Rhs(GX)) && 0 <= GX < P && 0 < GY < P
  {}

  /** The candidate root: (x^3 + 7)^((p+1)/4) mod p. */
  function Candidate(p: int, x: int): int
    requires p > 0
  {
    Pow(Rhs(x) % p, (p + 1) / 4) % p
  }

  /** The candidate or its negation, whichever has the requested parity. */
  function Root(p: int, x: int, odd: bool): int
    requires p > 0
  {
    var y := Candidate(p, x);
    if (y % 2 == 1) != odd then p - y else y
  }

  /** The in-place big.Int updates; Exp is Go's modular exponentiation. */
  method Decompress(p: int, x: nat, prefix: byte) returns (y: int)
    requires p > 0
    ensures y == Root(p, x, prefix == 3)
  {
    var y2 := x * x;
    y2 := y2 % p;
    y2 := y2 * x;
    y2 := y2 % p;
    y2 := y2 + 7;
    y2 := y2 % p;
    RhsSteps(p, x);
    var exp := p + 1;
    exp := exp / 4;
    y := Pow(y2, exp) % p;
    if (y % 2 == 1) != (prefix == 3) {
      y := p - y;
    }
  }

  lemma RhsSteps(p: int, x: int)
    requires p > 0
    ensures ((x * x % p) * x % p + 7) % p == Rhs(x) % p
  {
    var a := x * x % p;
    var b := a * x % p;
    CongMod(p, x * x);
    CongRefl(p, x);
    CongMul(p, a, x * x, x, x);
    CongMod(p, a * x);
    CongTrans(p, b, a * x, x * x * x);
    CongShift(p, b, x * x * x, 7);
    CongMod(p, b + 7);
    CongMod(p, Rhs(x));
    CongTrans(p, (b + 7) % p, b + 7, Rhs(x));
    CongTrans(p, (b + 7) % p, Rhs(x), Rhs(x) % p);
    CongSmall(p, (b + 7) % p, Rhs(x) % p);
  }

  // ----- square roots modulo p == 3 mod 4 -----

  /** For y prime to p, (y^2)^((p+1)/4) squares to y^2. */
  lemma QuarterPower(p: int, y: nat)
    requires Prime(p) && p % 4 == 3 && !Divides(p, y)
    ensures var r := Pow(y * y, (p + 1) / 4); Cong(p, r * r, y * y)
  {
    var e := (p + 1) / 4;
    var r := Pow(y * y, e);
    PowSquare(y * y, e);
    assert r * r == Pow(y * y * (y * y), e);
    PowSquare(y, e);
    var w := Pow(y, e);
    assert r == w * w;
    PowAdd(y, e, e);
    PowAdd(y, e + e, e + e);
    assert r * r == Pow(y, 4 * e);
    PowAdd(y, p - 1, 2);
    assert 4 * e == p - 1 + 2;
    assert Pow(y, 2) == y * y by { assert Pow(y, 1) == y * Pow(y, 0); }
    Fermat(p, y);
    CongRefl(p, y * y);
    CongMul(p, Pow(y, p - 1), 1, y * y, y * y);
  }

  /** Two square roots of the same value differ at most in sign. */
  lemma RootsUpToSign(p: int, r: int, y: int)
    requires Prime(p) && 0 <= r < p && 0 < y < p && Cong(p, r * r, y * y)
    ensures r == y || r == p - y
  {
    assert r * r - y * y == (r - y) * (r + y);
    Euclid(p, r - y, r + y);
    if Divides(p, r - y) {
      CongSmall(p, r, y);
    } else {
      var m := p - y;
      DividesSum(p, r + y, p);
      assert r - m == r + y - p;
      CongSmall(p, r, m);
    }
  }

  lemma PowerOfRemainder(p: int, s: int, t: int, e: nat)
    requires p > 0 && Cong(p, s, t)
    ensures Cong(p, Pow(t % p, e) % p, Pow(s, e))
  {
    var v := t % p;
    CongMod(p, t);
    CongTrans(p, s, t, v);
    CongTrans(p, v, t, s);
    CongPow(p, v, s, e);
    var w := Pow(v, e);
    CongMod(p, w);
    CongTrans(p, w % p, w, Pow(s, e));
  }

  lemma SmallIsPrimeTo(p: int, y: int)
    requires 0 < y < p
    ensures !Divides(p, y)
  {
    UniqueRemainder(y, p, 0, y);
  }

  lemma CandidateIsRoot(p: int, x: int, y: int)
    requires Prime(p) && p % 4 == 3 && 0 < y < p && Cong(p, y * y, Rhs(x))
    ensures Candidate(p, x) == y || Candidate(p, x) == p - y
  {
    var r, q := Candidate(p, x), Pow(y * y, (p + 1) / 4);
    PowerOfRemainder(p, y * y, Rhs(x), (p + 1) / 4);
    CongMul(p, r, q, r, q);
    SmallIsPrimeTo(p, y);
    QuarterPower(p, y);
    CongTrans(p, r * r, q * q, y * y);
    RootsUpToSign(p, r, y);
  }

  /** Decompression inverts compression: for every prime p == 3 mod 4 and every point (x, y) with
      0 < y < p, the root chosen by y's parity is y. */
  lemma DecompressInverts(p: int, x: int, y: int)
    requires Prime(p) && p % 4 == 3 && 0 < y < p && Cong(p, y * y, Rhs(x))
    ensures Root(p, x, y % 2 == 1) == y
  {
    CandidateIsRoot(p, x, y);
    ParityPicks(p, Candidate(p, x), y);
  }

  /** The hypotheses can be met: (1, 1) is a point over the field of seven elements. */
  lemma SmallPoint()
    ensures Prime(7) && Cong(7, 1 * 1, Rhs(1)) && Root(7, 1, true) == 1
  {
    forall d | 2 <= d < 7 ensures !Divides(d, 7) {
      assert d == 2 || d == 3 || d == 4 || d == 5 || d == 6;
    }
    DecompressInverts(7, 1, 1);
  }

  /** y and p - y have opposite parity. */
  lemma ParityPicks(p: int, r: int, y: int)
    requires p % 4 == 3 && (r == y || r == p - y)
    ensures (if (r % 2 == 1) != (y % 2 == 1) then p - r else r) == y
  {}

  ghost predicate IsSquare(p: int, v: int)
    requires p > 0
  {
    exists z :: SquaresTo(p, z, v)
  }

  predicate SquaresTo(p: int, z: int, v: int)
    requires p > 0
  {
    Cong(p, z * z, v)
  }

  /** No check that the result is a point: it is one exactly when x^3 + 7 is a square modulo p. */
  lemma DecompressedIsOnCurveIff(p: int, x: int, odd: bool)
    requires Prime(p) && p % 4 == 3
    ensures SquaresTo(p, Root(p, x, odd), Rhs(x)) <==> IsSquare(p, Rhs(x))
  {
    if IsSquare(p, Rhs(x)) {
      var z :| SquaresTo(p, z, Rhs(x));
      var y := z % p;
      CongMod(p, z);
      CongMul(p, y, z, y, z);
      CongTrans(p, y * y, z * z, Rhs(x));
      var r := Candidate(p, x);
      if y > 0 {
        CandidateIsRoot(p, x, y);
        NegationSquares(p, y);
        CongTrans(p, (p - y) * (p - y), y * y, Rhs(x));
      } else {
        ZeroCandidate(p, x);
        NegationSquares(p, 0);
        CongTrans(p, (p - 0) * (p - 0), 0, Rhs(x));
      }
      NegationSquares(p, r);
    }
  }

  lemma NegationSquares(p: int, y: int)
    requires p > 0
    ensures Cong(p, (p - y) * (p - y), y * y)
  {
    assert (p - y) * (p - y) - y * y == p * (p - 2 * y);
    MultipleDivides(p, p - 2 * y);
  }

  lemma ZeroCandidate(p: int, x: int)
    requires p >= 3 && Cong(p, 0, Rhs(x))
    ensures Candidate(p, x) == 0
  {
    CongMod(p, Rhs(x));
    CongTrans(p, 0, Rhs(x), Rhs(x) % p);
    CongSmall(p, 0, Rhs(x) % p);
    PowZero((p + 1) / 4);
  }

  // ----- keys -----

  /** 33 bytes: the parity prefix and x. */
  function Compress(x: int, y: int): Bytes
    requires IsUint256(x)
  {
    [if y % 2 == 1 then 3 else 2] + Word32(x)
  }

  /** PubKeyToAddress for any hash function k; None is an error. */
  method PubKeyToAddress(k: Bytes -> Word, pubKey: Bytes) returns (addr: Option<Address>)
    ensures addr.None? <==> |pubKey| != 33 || (pubKey[0] != 2 && pubKey[0] != 3)
    ensures addr.Some? ==>
      addr.value ==
        k(PadLeft32(BE(Nat(pubKey[1..]))) + PadLeft32(BE(Abs(Root(P, Nat(pubKey[1..]), pubKey[0] == 3)))))[12..]
  {
    if |pubKey| != 33 { return None; }
    var prefix := pubKey[0];
    if prefix != 2 && prefix != 3 { return None; }
    var x := Nat(pubKey[1..]);
    var y := Decompress(P, x, prefix);
    addr := Some(k(PadLeft32(BE(x)) + PadLeft32(BE(Abs(y))))[12..]);
  }

  /** The address derived from a compressed key is the hash of the two coordinates of its point. */
  lemma CompressedKeyAddress(x: int, y: int)
    requires Prime(P) && 0 <= x < P && 0 < y < P && Cong(P, y * y, Rhs(x))
    ensures IsUint256(x) && IsUint256(y)
    ensures var key := Compress(x, y);
      && |key| == 33 && (key[0] == 2 || key[0] == 3)
      && Nat(key[1..]) == x && Root(P, Nat(key[1..]), key[0] == 3) == y
      && PadLeft32(BE(x)) + PadLeft32(BE(Abs(y))) == Word32(x) + Word32(y)
  {
    assert P % 4 == 3;
    PFits();
    WordValue(x);
    WordValue(y);
    DecompressInverts(P, x, y);
    assert Compress(x, y)[1..] == Word32(x);
  }

  lemma PFits()
    ensures P < Pow256(32)
  {
    Pow256Of8();
    Pow256Add(8, 8);
    assert Pow256(16) == 0x1_0000_0000_0000_0000 * 0x1_0000_0000_0000_0000;
    Pow256Add(16, 16);
  }

  lemma {:induction false} Pow256Add(j: nat, k: nat)
    ensures Pow256(j + k) == Pow256(j) * Pow256(k)
  {
    if j > 0 {
      Pow256Add(j - 1, k);
      Assoc(256, Pow256(j - 1), Pow256(k));
    }
  }
}
