/** Byte strings, their big-endian value, and the 32-byte words every encoder of the
    bundler is built from (internal/core/pack.go). */
module Bytes {

  type byte = x: int | 0 <= x < 256

  type Bytes = seq<byte>

  type Word = w: Bytes | |w| == 32 witness seq(32, _ => 0)

  type Address = a: Bytes | |a| == 20 witness seq(20, _ => 0)

  datatype Option<+T> = None | Some(value: T)

  /** What a Go slice length can be: len() returns an int64. */
  const MAX_LEN: nat := 0x7FFF_FFFF_FFFF_FFFF

  function Zeros(n: nat): Bytes { seq(n, _ => 0) }

  function Abs(n: int): nat { if n < 0 then -n else n }

  /** 256^k. */
  function Pow256(k: nat): (r: nat)
    ensures r >= 1
  {
    if k == 0 then 1 else 256 * Pow256(k - 1)
  }

  /** Big-endian value, big.Int.SetBytes. */
  function Nat(b: Bytes): nat {
    if b == [] then 0 else 256 * Nat(b[..|b| - 1]) + b[|b| - 1]
  }

  /** Minimal big-endian bytes, big.Int.Bytes. */
  function BE(n: nat): Bytes {
    if n == 0 then [] else BE(n / 256) + [n % 256]
  }

  function PadLeft32(b: Bytes): Bytes {
    if |b| >= 32 then b else Zeros(32 - |b|) + b
  }

  /** copy(buf[i:i+32], PadLeft32(n.Bytes())): big.Int.Bytes drops the sign and copy
      keeps the first 32 bytes. Defined for every integer, because intake accepts every integer. */
  function Word32(n: int): Word { PadLeft32(BE(Abs(n)))[..32] }

  /** An address left-padded to a word. */
  function AddressWord(a: Address): Word { Zeros(12) + a }

  predicate IsUint256(n: int) { 0 <= n < Pow256(32) }

  /** The bytes of a string of ASCII characters. */
  function Ascii(s: string): (b: Bytes)
    requires forall i :: 0 <= i < |s| ==> s[i] < 128 as char
  {
    seq(|s|, i requires 0 <= i < |s| => s[i] as int)
  }

  // ----- value and width -----

  lemma {:induction false} NatBE(n: nat)
    ensures Nat(BE(n)) == n
  {
    if n != 0 {
      NatBE(n / 256);
      assert BE(n)[..|BE(n)| - 1] == BE(n / 256);
    }
  }

  lemma {:induction false} NatBound(b: Bytes)
    ensures Nat(b) < Pow256(|b|)
  {
    if b != [] { NatBound(b[..|b| - 1]); }
  }

  lemma {:induction false} NatZeros(k: nat, b: Bytes)
    ensures Nat(Zeros(k) + b) == Nat(b)
  {
    var s := Zeros(k) + b;
    if b != [] {
      assert s[..|s| - 1] == Zeros(k) + b[..|b| - 1];
      NatZeros(k, b[..|b| - 1]);
    } else if k != 0 {
      assert s[..|s| - 1] == Zeros(k - 1) + b;
      NatZeros(k - 1, b);
    }
  }

  /** Big-endian strings of one length are determined by their value. */
  lemma {:induction false} NatInjective(a: Bytes, b: Bytes)
    requires |a| == |b| && Nat(a) == Nat(b)
    ensures a == b
  {
    if a != [] {
      NatInjective(a[..|a| - 1], b[..|b| - 1]);
      assert a == a[..|a| - 1] + [a[|a| - 1]];
      assert b == b[..|b| - 1] + [b[|b| - 1]];
    }
  }

  lemma {:induction false} BELength(n: nat, k: nat)
    ensures |BE(n)| <= k <==> n < Pow256(k)
  {
    if n != 0 && k != 0 { BELength(n / 256, k - 1); }
  }

  /** The value of a byte string splits at any point. */
  lemma {:induction false} NatConcat(a: Bytes, b: Bytes)
    ensures Nat(a + b) == Nat(a) * Pow256(|b|) + Nat(b)
  {
    var s := a + b;
    if b == [] {
      assert s == a;
    } else {
      var c := b[..|b| - 1];
      NatConcat(a, c);
      assert s[..|s| - 1] == a + c;
      ConcatStep(Nat(a), Pow256(|c|), Nat(c), b[|b| - 1]);
    }
  }

  lemma ConcatStep(x: nat, p: nat, y: nat, d: nat)
    ensures 256 * (x * p + y) + d == x * (256 * p) + (256 * y + d)
  {
    assert 256 * (x * p) == x * (256 * p);
  }

  lemma {:induction false} Pow256Mono(j: nat, k: nat)
    requires j <= k
    ensures Pow256(j) <= Pow256(k)
  {
    if j < k { Pow256Mono(j, k - 1); }
  }

  /** Every Go length fits in a word. */
  lemma LengthIsUint256(n: nat)
    requires n <= 2 * MAX_LEN
    ensures IsUint256(n)
  {
    Pow256Of8();
    Pow256Mono(8, 32);
  }

  lemma Pow256Of8()
    ensures Pow256(8) == 0x1_0000_0000_0000_0000
  {
    assert Pow256(4) == 0x1_0000_0000;
    assert Pow256(8) == 256 * 256 * 256 * 256 * Pow256(4);
  }

  // ----- words -----

  lemma WordValue(n: int)
    requires IsUint256(n)
    ensures Nat(Word32(n)) == n && Word32(n) == PadLeft32(BE(n))
  {
    BELength(n, 32);
    NatBE(n);
    PadLeftValue(BE(n));
  }

  lemma PadLeftValue(b: Bytes)
    requires |b| <= 32
    ensures |PadLeft32(b)| == 32 && Nat(PadLeft32(b)) == Nat(b) && PadLeft32(b)[..32] == PadLeft32(b)
  {
    if |b| < 32 { NatZeros(32 - |b|, b); }
  }

  lemma LengthWordValue(n: nat)
    requires n <= 2 * MAX_LEN
    ensures Nat(Word32(n)) == n
  {
    LengthIsUint256(n);
    WordValue(n);
  }

  /** Encoding the value of a word gives the word back. */
  lemma WordOfNat(w: Word)
    ensures IsUint256(Nat(w)) && Word32(Nat(w)) == w
  {
    NatBound(w);
    WordValue(Nat(w));
    NatInjective(Word32(Nat(w)), w);
  }

  /** Word32 is injective exactly on the 256-bit range: two in-range integers share a word only
      when equal, and an integer is recovered from its word if and only if it is in range. */
  lemma WordRecovers(n: int)
    ensures Nat(Word32(n)) == n <==> IsUint256(n)
  {
    NatBound(Word32(n));
    if IsUint256(n) { WordValue(n); }
  }

  lemma AddressWordValue(a: Address, b: Address)
    ensures AddressWord(a) == AddressWord(b) <==> a == b
    ensures AddressWord(a)[12..] == a
  {
    assert AddressWord(a)[12..] == a && AddressWord(b)[12..] == b;
  }

  // ----- words laid side by side -----

  function Flatten(ws: seq<Word>): Bytes {
    if ws == [] then [] else ws[0] + Flatten(ws[1..])
  }

  /** The j-th 32-byte slot of a buffer. */
  function Slot(s: Bytes, j: nat): Word
    requires 32 * (j + 1) <= |s|
  {
    s[32 * j..32 * (j + 1)]
  }

  lemma {:induction false} FlattenLength(ws: seq<Word>)
    ensures |Flatten(ws)| == 32 * |ws|
  {
    if ws != [] { FlattenLength(ws[1..]); }
  }

  lemma {:induction false} FlattenSlot(ws: seq<Word>, tail: Bytes, j: nat)
    requires j < |ws|
    ensures 32 * (j + 1) <= |Flatten(ws) + tail|
    ensures Slot(Flatten(ws) + tail, j) == ws[j]
  {
    FlattenLength(ws);
    var s := Flatten(ws) + tail;
    FlattenLength(ws[1..]);
    assert s == ws[0] + (Flatten(ws[1..]) + tail);
    if j == 0 {
      assert Slot(s, 0) == ws[0];
    } else {
      FlattenSlot(ws[1..], tail, j - 1);
      var r := Flatten(ws[1..]) + tail;
      assert s[32 * j..32 * (j + 1)] == r[32 * (j - 1)..32 * j];
    }
  }

  /** A buffer whose slots are the given words is their concatenation. */
  lemma {:induction false} FlattenOfSlots(s: Bytes, ws: seq<Word>)
    requires |s| == 32 * |ws|
    requires forall j :: 0 <= j < |ws| ==> Slot(s, j) == ws[j]
    ensures s == Flatten(ws)
  {
    if ws == [] {
    } else {
      var r := s[32..];
      forall j | 0 <= j < |ws[1..]| ensures Slot(r, j) == ws[1..][j] {
        assert Slot(s, j + 1) == ws[j + 1];
        assert Slot(r, j) == Slot(s, j + 1);
      }
      FlattenOfSlots(r, ws[1..]);
      assert s == s[..32] + r;
      assert Slot(s, 0) == ws[0];
    }
  }

  lemma FlattenInjective(a: seq<Word>, b: seq<Word>)
    requires Flatten(a) == Flatten(b)
    ensures a == b
  {
    FlattenLength(a);
    FlattenLength(b);
    forall j | 0 <= j < |a| ensures a[j] == b[j] {
      FlattenSlot(a, [], j);
      FlattenSlot(b, [], j);
      assert Flatten(a) + [] == Flatten(b) + [];
    }
  }

  lemma FlattenCons(w: Word, ws: seq<Word>)
    ensures Flatten([w] + ws) == w + Flatten(ws)
  {
    assert ([w] + ws)[1..] == ws;
  }

  lemma FourFlat(a: Word, b: Word, c: Word, d: Word, ws: seq<Word>)
    ensures Flatten([a, b, c, d] + ws) == a + b + c + d + Flatten(ws)
  {
    FlattenCons(d, ws);
    FlattenCons(c, [d] + ws);
    FlattenCons(b, [c] + ([d] + ws));
    FlattenCons(a, [b] + ([c] + ([d] + ws)));
    assert [a, b, c, d] + ws == [a] + ([b] + ([c] + ([d] + ws)));
  }

  lemma EightFlat(a: Word, b: Word, c: Word, d: Word, e: Word, f: Word, g: Word, h: Word)
    ensures Flatten([a, b, c, d, e, f, g, h]) == a + b + c + d + e + f + g + h
  {
    FourFlat(e, f, g, h, []);
    FourFlat(a, b, c, d, [e, f, g, h] + []);
    assert [a, b, c, d] + ([e, f, g, h] + []) == [a, b, c, d, e, f, g, h];
  }

  lemma ThreeFlat(a: Word, b: Word, c: Word)
    ensures Flatten([a, b, c]) == a + b + c
  {
    FlattenCons(c, []);
    FlattenCons(b, [c] + []);
    FlattenCons(a, [b] + ([c] + []));
    assert [a] + ([b] + ([c] + [])) == [a, b, c];
  }
}
