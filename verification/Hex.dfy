/** Hex codecs (internal/core/pack.go) and the Go library routines they call:
    hex.DecodeString, big.Int.SetString and Text, common.HexToAddress and Address.Hex. */
module Hex {
  import opened Bytes

  predicate IsHex(c: char) { '0' <= c <= '9' || 'a' <= c <= 'f' || 'A' <= c <= 'F' }

  function Val(c: char): (v: int)
    ensures IsHex(c) ==> 0 <= v < 16
  {
    if '0' <= c <= '9' then c as int - '0' as int
    else if 'a' <= c <= 'f' then c as int - 'a' as int + 10
    else if 'A' <= c <= 'F' then c as int - 'A' as int + 10
    else -1
  }

  function Digit(n: int): (c: char)
    requires 0 <= n < 16
    ensures IsHex(c) && Val(c) == n && c != 'x'
  {
    if n < 10 then ('0' as int + n) as char else ('a' as int + n - 10) as char
  }

  predicate AllHex(s: string) { forall i :: 0 <= i < |s| ==> IsHex(s[i]) }

  // ----- byte strings -----

  /** hex.EncodeToString */
  function Encode(b: Bytes): string {
    if b == [] then "" else [Digit(b[0] / 16), Digit(b[0] % 16)] + Encode(b[1..])
  }

  /** The bytes hex.DecodeString yields before the first malformed pair. */
  function Pairs(s: string): Bytes {
    if |s| < 2 || !IsHex(s[0]) || !IsHex(s[1]) then [] else [16 * Val(s[0]) + Val(s[1])] + Pairs(s[2..])
  }

  function TrimPrefix(s: string): string { if |s| >= 2 && s[..2] == "0x" then s[2..] else s }

  function DecodeHex(s: string): Option<Bytes> {
    var t := TrimPrefix(s);
    if t == "" then Some([])
    else if |t| % 2 == 0 && AllHex(t) then Some(Pairs(t))
    else None
  }

  function BytesToHex(b: Bytes): string { if |b| == 0 then "0x" else "0x" + Encode(b) }

  lemma {:induction false} PairsOfEncode(b: Bytes)
    ensures |Encode(b)| == 2 * |b| && AllHex(Encode(b)) && Pairs(Encode(b)) == b
  {
    if b != [] {
      PairsOfEncode(b[1..]);
      assert Encode(b)[2..] == Encode(b[1..]);
      assert b == [b[0]] + b[1..];
    }
  }

  lemma TrimOfPrefixed(t: string)
    ensures TrimPrefix("0x" + t) == t
  {
    assert ("0x" + t)[..2] == "0x";
  }

  /** Every byte string survives hex and back. */
  lemma BytesRoundTrip(b: Bytes)
    ensures DecodeHex(BytesToHex(b)) == Some(b)
  {
    PairsOfEncode(b);
    TrimOfPrefixed(Encode(b));
    assert BytesToHex(b) == "0x" + Encode(b);
    if b == [] { assert TrimPrefix("0x") == ""; }
  }

  // ----- which texts decode, and to what -----

  /** c is a hex digit, of either case, of value v. */
  predicate IsDigitOf(c: char, v: int) {
    || ('0' <= c <= '9' && v == c as int - '0' as int)
    || ('a' <= c <= 'f' && v == c as int - 'a' as int + 10)
    || ('A' <= c <= 'F' && v == c as int - 'A' as int + 10)
  }

  /** The text after an optional "0x". */
  function Stripped(s: string): string { if |s| >= 2 && s[0] == '0' && s[1] == 'x' then s[2..] else s }

  /** Every character is a hex digit. */
  predicate HexDigits(t: string) {
    forall i :: 0 <= i < |t| ==> '0' <= t[i] <= '9' || 'a' <= t[i] <= 'f' || 'A' <= t[i] <= 'F'
  }

  /** A byte text: an even number of digits after an optional "0x". */
  predicate ByteText(s: string) { |Stripped(s)| % 2 == 0 && HexDigits(Stripped(s)) }

  /** An integer text: an optional sign and at least one digit after an optional "0x". */
  predicate IntText(s: string) {
    var t := Stripped(s);
    var d := if t != "" && (t[0] == '-' || t[0] == '+') then t[1..] else t;
    d != "" && HexDigits(d)
  }

  /** The digits at 2i and 2i + 1 are the halves of byte i, the high one first. */
  predicate PairGives(t: string, b: Bytes, i: nat)
    requires i < |b| && |t| == 2 * |b|
  {
    IsDigitOf(t[2 * i], b[i] / 16) && IsDigitOf(t[2 * i + 1], b[i] % 16)
  }

  lemma StrippedIsTrimmed(s: string)
    ensures Stripped(s) == TrimPrefix(s)
  {
    if |s| >= 2 { assert s[..2] == [s[0], s[1]]; }
  }

  lemma {:induction false} PairsGive(t: string, i: nat)
    requires |t| % 2 == 0 && HexDigits(t)
    ensures |t| == 2 * |Pairs(t)| && (i < |Pairs(t)| ==> PairGives(t, Pairs(t), i))
  {
    if t != "" {
      PairsGive(t[2..], if i > 0 then i - 1 else 0);
      if 0 < i < |Pairs(t)| { assert PairGives(t[2..], Pairs(t[2..]), i - 1); }
    }
  }

  /** DecodeHex accepts exactly the byte texts, and each pair of digits gives one byte. */
  lemma DecodeHexIff(s: string)
    ensures DecodeHex(s).Some? <==> ByteText(s)
    ensures DecodeHex(s).Some? ==>
      && |Stripped(s)| == 2 * |DecodeHex(s).value|
      && forall i :: 0 <= i < |DecodeHex(s).value| ==> PairGives(Stripped(s), DecodeHex(s).value, i)
  {
    StrippedIsTrimmed(s);
    if DecodeHex(s).Some? {
      PairsGive(Stripped(s), 0);
      forall i | 0 <= i < |DecodeHex(s).value| ensures PairGives(Stripped(s), DecodeHex(s).value, i) {
        PairsGive(Stripped(s), i);
      }
    }
  }

  // ----- integers -----

  /** Text(16) of a positive number. */
  function NatText(n: nat): string {
    if n < 16 then [Digit(n)] else NatText(n / 16) + [Digit(n % 16)]
  }

  function BigToHex(n: int): string {
    if n == 0 then "0x0" else if n < 0 then "0x-" + NatText(-n) else "0x" + NatText(n)
  }

  function NatValue(s: string): int
    requires AllHex(s)
  {
    if s == "" then 0 else 16 * NatValue(s[..|s| - 1]) + Val(s[|s| - 1])
  }

  /** big.Int.SetString(s, 16): an optional sign, then at least one digit. */
  function SetString(s: string): Option<int> {
    var neg := |s| > 0 && s[0] == '-';
    var digits := if |s| > 0 && (s[0] == '-' || s[0] == '+') then s[1..] else s;
    if digits == "" || !AllHex(digits) then None
    else Some(if neg then -NatValue(digits) else NatValue(digits))
  }

  function HexToBigInt(s: string): Option<int> { SetString(TrimPrefix(s)) }

  lemma {:induction false} NatTextValue(n: nat)
    ensures NatText(n) != "" && AllHex(NatText(n)) && NatValue(NatText(n)) == n
  {
    if n >= 16 {
      NatTextValue(n / 16);
      assert NatText(n)[..|NatText(n)| - 1] == NatText(n / 16);
    } else {
      assert NatText(n)[..0] == "";
    }
  }

  lemma SignedText(t: string)
    requires t != "" && AllHex(t)
    ensures SetString(t) == Some(NatValue(t)) && SetString("-" + t) == Some(-NatValue(t))
  {
    assert IsHex(t[0]);
    assert ("-" + t)[1..] == t;
  }

  lemma PrefixedInt(t: string)
    ensures HexToBigInt("0x" + t) == SetString(t)
  {
    TrimOfPrefixed(t);
  }

  lemma PositiveText(n: nat)
    ensures HexToBigInt("0x" + NatText(n)) == Some(n) && HexToBigInt("0x" + ("-" + NatText(n))) == Some(0 - n)
  {
    var t := NatText(n);
    NatTextValue(n);
    SignedText(t);
    PrefixedInt(t);
    PrefixedInt("-" + t);
  }

  lemma BigToHexForm(n: int)
    ensures BigToHex(n) == "0x" + (if n < 0 then "-" + NatText(-n) else NatText(n))
  {
    if n < 0 {
      assert "0x-" + NatText(-n) == "0x" + ("-" + NatText(-n));
    } else if n == 0 {
      assert NatText(0) == [Digit(0)] == "0";
    }
  }

  /** Every integer, of any sign and size, survives hex and back. */
  lemma IntRoundTrip(n: int)
    ensures HexToBigInt(BigToHex(n)) == Some(n)
  {
    BigToHexForm(n);
    PositiveText(Abs(n));
  }

  /** HexToBigInt accepts exactly the integer texts. */
  lemma HexToBigIntIff(s: string)
    ensures HexToBigInt(s).Some? <==> IntText(s)
  {
    StrippedIsTrimmed(s);
  }

  // ----- addresses and hashes -----

  /** Keep the last n bytes, or pad with zeros on the left. */
  function Fit(b: Bytes, n: nat): (r: Bytes)
    ensures |r| == n
  {
    if |b| >= n then b[|b| - n..] else Zeros(n - |b|) + b
  }

  /** common.FromHex: a malformed tail is dropped, an odd string gets a leading zero. */
  function FromHex(s: string): Bytes {
    var t := if |s| >= 2 && s[0] == '0' && (s[1] == 'x' || s[1] == 'X') then s[2..] else s;
    Pairs(if |t| % 2 == 1 then "0" + t else t)
  }

  function HexToAddress(s: string): Address { Fit(FromHex(s), 20) }

  function HexToHash(s: string): Word { Fit(FromHex(s), 32) }

  function Upper(c: char): char { if 'a' <= c <= 'f' then (c as int - 'a' as int + 'A' as int) as char else c }

  /** Any choice of letter case per position. */
  function Cased(s: string, up: nat -> bool): string {
    seq(|s|, i requires 0 <= i < |s| => if up(i) then Upper(s[i]) else s[i])
  }

  /** Address.Hex with an arbitrary checksum casing in place of EIP-55's. */
  function AddressHex(a: Address, up: nat -> bool): string { "0x" + Cased(Encode(a), up) }

  /** strings.ToLower(Address.Hex()) and Hash.Hex(). */
  function LowerHex(b: Bytes): string { "0x" + Encode(b) }

  lemma {:induction false} PairsOfCased(s: string, t: string)
    requires |s| == |t| && forall i :: 0 <= i < |s| ==> t[i] == s[i] || t[i] == Upper(s[i])
    ensures Pairs(t) == Pairs(s)
  {
    if |s| >= 2 {
      assert IsHex(t[0]) == IsHex(s[0]) && IsHex(t[1]) == IsHex(s[1]);
      assert Val(t[0]) == Val(s[0]) && Val(t[1]) == Val(s[1]);
      forall i | 0 <= i < |s| - 2 ensures t[2..][i] == s[2..][i] || t[2..][i] == Upper(s[2..][i]) {
        assert t[2..][i] == t[i + 2] && s[2..][i] == s[i + 2];
      }
      PairsOfCased(s[2..], t[2..]);
    }
  }

  lemma FromPrefixedHex(t: string)
    requires |t| % 2 == 0
    ensures FromHex("0x" + t) == Pairs(t)
  {
    assert ("0x" + t)[2..] == t;
  }

  lemma AddressRoundTrip(a: Address, up: nat -> bool)
    ensures HexToAddress(AddressHex(a, up)) == a
  {
    PairsOfEncode(a);
    FromPrefixedHex(Cased(Encode(a), up));
    PairsOfCased(Encode(a), Cased(Encode(a), up));
  }

  lemma LowerHexRoundTrip(b: Bytes)
    ensures FromHex(LowerHex(b)) == b
  {
    PairsOfEncode(b);
    FromPrefixedHex(Encode(b));
  }
}
