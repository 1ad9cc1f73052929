/** expand_message_xmd (section 5.3.1 of RFC 9380) with any 32-byte hash in place of SHA-256, and
    the FROST challenge (section 6.5 of RFC 9591) built on it (internal/core/crypto.go). */
module Xmd {
  import opened Bytes
  import opened Curve

  function Xor(a: byte, b: byte): byte { ((a as bv8) ^ (b as bv8)) as byte }

  lemma XorCommutes(a: byte, b: byte)
    ensures Xor(a, b) == Xor(b, a)
  {
    var x, y := a as bv8, b as bv8;
    assert x ^ y == y ^ x;
  }

  // ----- the RFC -----

  /** strxor of two 32-byte strings. */
  function StrXor(a: Word, b: Word): Word { seq(32, i requires 0 <= i < 32 => Xor(a[i], b[i])) }

  /** I2OSP(n, 2). */
  function I2osp2(n: nat): Bytes { [n / 256 % 256, n % 256] }

  function B0(h: Bytes -> Word, msg: Bytes, dst: Bytes, outLen: nat): Word {
    h(Zeros(64) + msg + I2osp2(outLen) + [0] + dst)
  }

  /** b_i for 1 <= i <= 255. */
  function Block(h: Bytes -> Word, b0: Word, dst: Bytes, i: nat): Word
    requires 1 <= i <= 255
  {
    if i == 1 then h(b0 + [1] + dst) else h(StrXor(b0, Block(h, b0, dst, i - 1)) + [i] + dst)
  }

  /** b_1 || ... || b_n. */
  function Blocks(h: Bytes -> Word, b0: Word, dst: Bytes, n: nat): Bytes
    requires n <= 255
  {
    if n == 0 then [] else Blocks(h, b0, dst, n - 1) + Block(h, b0, dst, n)
  }

  function Ell(outLen: nat): nat { (outLen + 31) / 32 }

  lemma {:induction false} BlocksLength(h: Bytes -> Word, b0: Word, dst: Bytes, n: nat)
    requires n <= 255
    ensures |Blocks(h, b0, dst, n)| == 32 * n
  {
    if n > 0 { BlocksLength(h, b0, dst, n - 1); }
  }

  /** expand_message_xmd as the RFC defines it, for at most 255 blocks. */
  function Expand(h: Bytes -> Word, msg: Bytes, dst: Bytes, outLen: nat): Bytes
    requires Ell(outLen) <= 255
  {
    BlocksLength(h, B0(h, msg, dst, outLen), dst, Ell(outLen));
    Blocks(h, B0(h, msg, dst, outLen), dst, Ell(outLen))[..outLen]
  }

  // ----- the code -----

  /** One round of the inner loop: xorPrev[j] = prev[j] ^ b0[j]. */
  method XorBlock(prev: Word, b0: Word) returns (xorPrev: Word)
    ensures xorPrev == StrXor(b0, prev)
  {
    var buf := new byte[32](_ => 0);
    for j := 0 to 32
      invariant forall i :: 0 <= i < j ==> buf[i] == Xor(b0[i], prev[i])
    {
      buf[j] := Xor(prev[j], b0[j]);
      XorCommutes(prev[j], b0[j]);
    }
    xorPrev := buf[..];
  }

  /** The loop refines the RFC: for every message, every DST' and every length of at most 255 blocks,
      the same string. It returns exactly outLen bytes for every length, also where the RFC aborts:
      the code does not. It always computes b_1, even for length 0. */
  method ExpandMessageXMD(h: Bytes -> Word, msg: Bytes, dstPrime: Bytes, outLen: nat) returns (out: Bytes)
    ensures |out| == outLen
    ensures Ell(outLen) <= 255 ==> out == Expand(h, msg, dstPrime, outLen)
  {
    var ell := (outLen + 31) / 32;
    var b0 := h(Zeros(64) + msg + [outLen / 256 % 256, outLen % 256] + [0] + dstPrime);
    var b1 := h(b0 + [1] + dstPrime);
    var bs: seq<Word> := [b1];
    var i := 2;
    while i <= ell
      invariant 2 <= i && (ell >= 1 ==> i <= ell + 1) && |bs| == i - 1 && (ell < 1 ==> i == 2)
      invariant forall j :: 1 <= j < i && j <= 255 ==> bs[j - 1] == Block(h, b0, dstPrime, j)
      decreases ell - i
    {
      var xorPrev := XorBlock(bs[|bs| - 1], b0);
      bs := bs + [h(xorPrev + [i % 256] + dstPrime)];
      i := i + 1;
    }
    var uniform := JoinBlocks(h, b0, dstPrime, bs);
    assert ell >= 1 ==> |bs| == ell;
    out := uniform[..outLen];
  }

  method JoinBlocks(h: Bytes -> Word, ghost b0: Word, ghost dst: Bytes, bs: seq<Word>) returns (uniform: Bytes)
    requires forall j :: 1 <= j <= |bs| && j <= 255 ==> bs[j - 1] == Block(h, b0, dst, j)
    ensures |uniform| == 32 * |bs|
    ensures |bs| <= 255 ==> uniform == Blocks(h, b0, dst, |bs|)
  {
    uniform := [];
    for i := 0 to |bs|
      invariant |uniform| == 32 * i
      invariant i <= 255 ==> uniform == Blocks(h, b0, dst, i)
    {
      assert i < 255 ==> bs[i + 1 - 1] == Block(h, b0, dst, i + 1);
      uniform := uniform + bs[i];
    }
  }

  // ----- FROST challenge -----

  /** The order of secp256k1. */
  const N: nat := 0xFFFFFFFF_FFFFFFFF_FFFFFFFF_FFFFFFFE_BAAEDCE6_AF48A03B_BFD25E8C_D0364141

  /** N is the number of points of a curve with multiplication by cube roots of one over the field of P points:
      with t = P + 1 - N, 4P - t^2 is three times a square. */
  lemma OrderFitsField()
    ensures var t, v := P + 1 - N, 0xE4437ED6_010E8828_6F547FA9_0ABFE4C3;
      4 * P - t * t == 3 * v * v
  {}

  const DST: Bytes := Ascii("FROST-secp256k1-SHA256-v1chal")

  /** The challenge: 48 expanded bytes read big-endian, modulo the group order. */
  method FrostChallenge(h: Bytes -> Word, input: Bytes) returns (c: nat)
    ensures c == Nat(Expand(h, input, DST + [|DST|], 48)) % N
    ensures c < N
  {
    var dstPrime := DST + [|DST|];
    var uniform := ExpandMessageXMD(h, input, dstPrime, 48);
    c := Nat(uniform) % N;
  }
}
