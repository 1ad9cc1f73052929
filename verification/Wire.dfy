/** The JSON-RPC wire format, the packed form and the text columns of a row
    (internal/core/userop.go, internal/core/pack.go, internal/mempool/db.go, internal/rpc/methods.go). */
module Wire {
  import opened Bytes
  import opened Division
  import opened Hex
  import opened UserOps
  import opened Encoders

  /** Wire fields; an absent optional field is the empty string. */
  datatype RpcOp = RpcOp(
    sender: string, nonce: string, factory: string, factoryData: string, callData: string,
    callGasLimit: string, verificationGasLimit: string, preVerificationGas: string,
    maxFeePerGas: string, maxPriorityFeePerGas: string,
    paymaster: string, paymasterData: string, signature: string)

  /** Err names the field that failed to parse. */
  datatype Result<+T> = Ok(value: T) | Err(field: string)

  // ----- packing two 128-bit values -----

  /** The low 16 bytes of |v|, right-aligned. */
  function Half(v: int): (r: Bytes)
    ensures |r| == 16
  {
    Fit(BE(Abs(v)), 16)
  }

  function PackPair(hi: int, lo: int): Word { Half(hi) + Half(lo) }

  method PackBigInts(hi: int, lo: int) returns (w: Word)
    ensures w == PackPair(hi, lo)
  {
    var b := new byte[32](_ => 0);
    assert b[..] == Zeros(32) && b[0..16] == Zeros(16);
    TwoHalves(Half(hi), Half(lo));
    Into128(b, 0, hi);
    assert b[16..32] == b[..][16..];
    Into128(b, 16, lo);
    w := b[..];
  }

  lemma TwoHalves(x: Bytes, y: Bytes)
    requires |x| == 16 && |y| == 16
    ensures var s := Put(Zeros(32), 0, x); s[16..] == Zeros(16) && Put(s, 16, y) == x + y
  {
    assert Put(Zeros(32), 0, x) == x + Zeros(16);
  }

  /** The closure into128: the last 16 bytes of the magnitude, right-aligned in a zero half. */
  method Into128(b: array<byte>, at: nat, v: int)
    requires at + 16 <= b.Length && b[at..at + 16] == Zeros(16)
    modifies b
    ensures b[..] == Put(old(b[..]), at, Half(v))
  {
    var vb := BE(Abs(v));
    if |vb| > 16 { vb := vb[|vb| - 16..]; }
    RightAligned(b[..], at, vb);
    Copy(b, at + 16 - |vb|, vb);
  }

  lemma RightAligned(s: Bytes, at: nat, vb: Bytes)
    requires at + 16 <= |s| && s[at..at + 16] == Zeros(16) && |vb| <= 16
    ensures Put(s, at + 16 - |vb|, vb) == Put(s, at, Zeros(16 - |vb|) + vb)
  {
    var k := 16 - |vb|;
    assert s[at..at + k] == s[at..at + 16][..k] == Zeros(k);
    assert s[..at + k] == s[..at] + Zeros(k);
  }

  lemma {:induction false} NatModSuffix(b: Bytes, n: nat)
    requires n <= |b|
    ensures Nat(b[|b| - n..]) == Nat(b) % Pow256(n)
  {
    var a, c := b[..|b| - n], b[|b| - n..];
    assert b == a + c;
    NatConcat(a, c);
    NatBound(c);
    RemainderOf(Nat(b), Pow256(n), Nat(a), Nat(c));
  }

  lemma FitValue(b: Bytes, n: nat)
    ensures Nat(Fit(b, n)) == Nat(b) % Pow256(n)
  {
    if |b| >= n {
      NatModSuffix(b, n);
    } else {
      NatZeros(n - |b|, b);
      NatBound(b);
      Pow256Mono(|b|, n);
      UniqueRemainder(Nat(b), Pow256(n), 0, Nat(b));
    }
  }

  /** A packed half holds the magnitude modulo 2^128. */
  lemma HalfValue(v: int)
    ensures Nat(Half(v)) == Abs(v) % Pow256(16)
  {
    NatBE(Abs(v));
    FitValue(BE(Abs(v)), 16);
  }

  lemma HalfOfValue(h: Bytes)
    requires |h| == 16
    ensures Half(Nat(h)) == h
  {
    NatBound(h);
    HalfValue(Nat(h));
    UniqueRemainder(Nat(h), Pow256(16), 0, Nat(h));
    NatInjective(Half(Nat(h)), h);
  }

  /** Splitting a word into halves and packing their values gives the word back. */
  lemma PackOfSplit(w: Word)
    ensures PackPair(Nat(w[..16]), Nat(w[16..])) == w
  {
    HalfOfValue(w[..16]);
    HalfOfValue(w[16..]);
    assert w == w[..16] + w[16..];
  }

  // ----- FromRPC -----

  /** factory/paymaster address followed by its data; an empty address string means no field. */
  function Prefixed(address: string, data: string): Option<Bytes> {
    if address == "" then Some([])
    else
      var d := DecodeHex(data);
      if d.None? then None else Some(HexToAddress(address) + d.value)
  }

  /** The two copies that assemble initCode and paymasterAndData; None is a malformed data string. */
  method JoinPrefixed(address: string, data: string) returns (out: Option<Bytes>)
    ensures out == Prefixed(address, data)
  {
    if address == "" { return Some([]); }
    var a := HexToAddress(address);
    var d := DecodeHex(data);
    if d.None? { return None; }
    var buf := new byte[20 + |d.value|](_ => 0);
    Copy(buf, 0, a);
    Copy(buf, 20, d.value);
    assert buf[..] == a + d.value;
    out := Some(buf[..]);
  }

  datatype Fields = Fields(
    nonce: int, callData: Bytes, callGas: int, verifGas: int, pvg: int, maxFee: int, maxPrio: int, sig: Bytes)

  /** The early returns, in the code's order. */
  function Assemble(nonce: Option<int>, callData: Option<Bytes>, callGas: Option<int>, verifGas: Option<int>,
                    pvg: Option<int>, maxFee: Option<int>, maxPrio: Option<int>, sig: Option<Bytes>): Result<Fields>
  {
    if nonce.None? then Err("nonce")
    else if callData.None? then Err("callData")
    else if callGas.None? then Err("callGasLimit")
    else if verifGas.None? then Err("verificationGasLimit")
    else if pvg.None? then Err("preVerificationGas")
    else if maxFee.None? then Err("maxFeePerGas")
    else if maxPrio.None? then Err("maxPriorityFeePerGas")
    else if sig.None? then Err("signature")
    else Ok(Fields(nonce.value, callData.value, callGas.value, verifGas.value, pvg.value, maxFee.value,
                   maxPrio.value, sig.value))
  }

  function ParseFields(w: RpcOp): Result<Fields> {
    Assemble(HexToBigInt(w.nonce), DecodeHex(w.callData), HexToBigInt(w.callGasLimit),
             HexToBigInt(w.verificationGasLimit), HexToBigInt(w.preVerificationGas), HexToBigInt(w.maxFeePerGas),
             HexToBigInt(w.maxPriorityFeePerGas), DecodeHex(w.signature))
  }

  function FromRPC(w: RpcOp): Result<PackedUserOp> {
    var f := ParseFields(w);
    if f.Err? then Err(f.field) else
    var initCode := Prefixed(w.factory, w.factoryData);
    if initCode.None? then Err("factoryData") else
    var pm := Prefixed(w.paymaster, w.paymasterData);
    if pm.None? then Err("paymasterData") else
    Ok(PackedUserOp(HexToAddress(w.sender), f.value.nonce, initCode.value, f.value.callData,
                    PackPair(f.value.verifGas, f.value.callGas), f.value.pvg,
                    PackPair(f.value.maxPrio, f.value.maxFee), pm.value, f.value.sig))
  }

  /** The first field, in the code's order, that does not parse; "" when all do. */
  ghost function Malformed(w: RpcOp): string {
    if !IntText(w.nonce) then "nonce"
    else if !ByteText(w.callData) then "callData"
    else if !IntText(w.callGasLimit) then "callGasLimit"
    else if !IntText(w.verificationGasLimit) then "verificationGasLimit"
    else if !IntText(w.preVerificationGas) then "preVerificationGas"
    else if !IntText(w.maxFeePerGas) then "maxFeePerGas"
    else if !IntText(w.maxPriorityFeePerGas) then "maxPriorityFeePerGas"
    else if !ByteText(w.signature) then "signature"
    else if w.factory != "" && !ByteText(w.factoryData) then "factoryData"
    else if w.paymaster != "" && !ByteText(w.paymasterData) then "paymasterData"
    else ""
  }

  lemma FieldTexts(w: RpcOp)
    ensures HexToBigInt(w.nonce).Some? <==> IntText(w.nonce)
    ensures HexToBigInt(w.callGasLimit).Some? <==> IntText(w.callGasLimit)
    ensures HexToBigInt(w.verificationGasLimit).Some? <==> IntText(w.verificationGasLimit)
    ensures HexToBigInt(w.preVerificationGas).Some? <==> IntText(w.preVerificationGas)
    ensures HexToBigInt(w.maxFeePerGas).Some? <==> IntText(w.maxFeePerGas)
    ensures HexToBigInt(w.maxPriorityFeePerGas).Some? <==> IntText(w.maxPriorityFeePerGas)
    ensures DecodeHex(w.callData).Some? <==> ByteText(w.callData)
    ensures DecodeHex(w.signature).Some? <==> ByteText(w.signature)
    ensures DecodeHex(w.factoryData).Some? <==> ByteText(w.factoryData)
    ensures DecodeHex(w.paymasterData).Some? <==> ByteText(w.paymasterData)
  {
    HexToBigIntIff(w.nonce);
    HexToBigIntIff(w.callGasLimit);
    HexToBigIntIff(w.verificationGasLimit);
    HexToBigIntIff(w.preVerificationGas);
    HexToBigIntIff(w.maxFeePerGas);
    HexToBigIntIff(w.maxPriorityFeePerGas);
    DecodeHexIff(w.callData);
    DecodeHexIff(w.signature);
    DecodeHexIff(w.factoryData);
    DecodeHexIff(w.paymasterData);
  }

  /** FromRPC refuses exactly the wire ops with a malformed field, and names the first one. Data without an
      address is not read. */
  lemma RefusedIff(w: RpcOp)
    ensures FromRPC(w).Ok? <==> Malformed(w) == ""
    ensures Malformed(w) != "" ==> FromRPC(w) == Err(Malformed(w))
  {
    FieldTexts(w);
    FieldsRefused(w);
    JoinRefused(w.factory, w.factoryData);
    JoinRefused(w.paymaster, w.paymasterData);
  }

  lemma JoinRefused(address: string, data: string)
    ensures Prefixed(address, data).None? <==> address != "" && DecodeHex(data).None?
  {}

  lemma FieldsRefused(w: RpcOp)
    ensures ParseFields(w) ==
      if HexToBigInt(w.nonce).None? then Err("nonce")
      else if DecodeHex(w.callData).None? then Err("callData")
      else if HexToBigInt(w.callGasLimit).None? then Err("callGasLimit")
      else if HexToBigInt(w.verificationGasLimit).None? then Err("verificationGasLimit")
      else if HexToBigInt(w.preVerificationGas).None? then Err("preVerificationGas")
      else if HexToBigInt(w.maxFeePerGas).None? then Err("maxFeePerGas")
      else if HexToBigInt(w.maxPriorityFeePerGas).None? then Err("maxPriorityFeePerGas")
      else if DecodeHex(w.signature).None? then Err("signature")
      else ParseFields(w)
  {}

  // ----- storedOpToRPC -----

  function Split20(b: Bytes, up: nat -> bool): (string, string) {
    if |b| >= 20 then (AddressHex(b[..20], up), BytesToHex(b[20..])) else ("", "")
  }

  function StoredOpToRPC(op: PackedUserOp, up: nat -> bool): RpcOp {
    var (factory, factoryData) := Split20(op.initCode, up);
    var (paymaster, paymasterData) := Split20(op.paymasterAndData, up);
    RpcOp(AddressHex(op.sender, up), BigToHex(op.nonce), factory, factoryData, BytesToHex(op.callData),
          BigToHex(Nat(op.accountGasLimits[16..])), BigToHex(Nat(op.accountGasLimits[..16])),
          BigToHex(op.preVerificationGas),
          BigToHex(Nat(op.gasFees[16..])), BigToHex(Nat(op.gasFees[..16])),
          paymaster, paymasterData, BytesToHex(op.signature))
  }

  /** A prefixed field is absent or holds a whole address. */
  predicate Whole(b: Bytes) { |b| == 0 || |b| >= 20 }

  lemma PrefixedBack(b: Bytes, up: nat -> bool)
    ensures var p := Split20(b, up); Prefixed(p.0, p.1) == Some(if |b| >= 20 then b else [])
  {
    if |b| >= 20 {
      AddressRoundTrip(b[..20], up);
      BytesRoundTrip(b[20..]);
      assert b == b[..20] + b[20..];
      assert |AddressHex(b[..20], up)| >= 2;
    }
  }

  /** Re-parsing the wire form of a stored op gives the op back exactly when its initCode and
      paymasterAndData are each empty or at least an address long. */
  lemma WireRoundTripIff(op: PackedUserOp, up: nat -> bool)
    ensures FromRPC(StoredOpToRPC(op, up)) == Ok(op) <==> Whole(op.initCode) && Whole(op.paymasterAndData)
    ensures FromRPC(StoredOpToRPC(op, up)).Ok?
  {
    IntRoundTrip(op.nonce);
    BytesRoundTrip(op.callData);
    IntRoundTrip(Nat(op.accountGasLimits[16..]));
    IntRoundTrip(Nat(op.accountGasLimits[..16]));
    IntRoundTrip(op.preVerificationGas);
    IntRoundTrip(Nat(op.gasFees[16..]));
    IntRoundTrip(Nat(op.gasFees[..16]));
    BytesRoundTrip(op.signature);
    PrefixedBack(op.initCode, up);
    PrefixedBack(op.paymasterAndData, up);
    AddressRoundTrip(op.sender, up);
    PackOfSplit(op.accountGasLimits);
    PackOfSplit(op.gasFees);
  }

  lemma AcceptedGas(w: RpcOp)
    requires ParseFields(w).Ok?
    ensures var f := ParseFields(w).value;
      && HexToBigInt(w.verificationGasLimit) == Some(f.verifGas) && HexToBigInt(w.callGasLimit) == Some(f.callGas)
      && HexToBigInt(w.maxPriorityFeePerGas) == Some(f.maxPrio) && HexToBigInt(w.maxFeePerGas) == Some(f.maxFee)
      && HexToBigInt(w.nonce) == Some(f.nonce) && HexToBigInt(w.preVerificationGas) == Some(f.pvg)
      && DecodeHex(w.callData) == Some(f.callData) && DecodeHex(w.signature) == Some(f.sig)
  {
    Assembled(HexToBigInt(w.nonce), DecodeHex(w.callData), HexToBigInt(w.callGasLimit),
              HexToBigInt(w.verificationGasLimit), HexToBigInt(w.preVerificationGas), HexToBigInt(w.maxFeePerGas),
              HexToBigInt(w.maxPriorityFeePerGas), DecodeHex(w.signature));
  }

  lemma Assembled(nonce: Option<int>, callData: Option<Bytes>, callGas: Option<int>, verifGas: Option<int>,
                  pvg: Option<int>, maxFee: Option<int>, maxPrio: Option<int>, sig: Option<Bytes>)
    ensures var r := Assemble(nonce, callData, callGas, verifGas, pvg, maxFee, maxPrio, sig);
      r.Ok? ==> verifGas == Some(r.value.verifGas) && callGas == Some(r.value.callGas)
                && maxPrio == Some(r.value.maxPrio) && maxFee == Some(r.value.maxFee)
                && nonce == Some(r.value.nonce) && pvg == Some(r.value.pvg)
                && callData == Some(r.value.callData) && sig == Some(r.value.sig)
  {}

  lemma AcceptedFields(w: RpcOp)
    requires FromRPC(w).Ok?
    ensures ParseFields(w).Ok?
    ensures var op, f := FromRPC(w).value, ParseFields(w).value;
      && op.sender == HexToAddress(w.sender) && op.nonce == f.nonce && op.callData == f.callData
      && op.preVerificationGas == f.pvg && op.signature == f.sig
      && op.accountGasLimits == PackPair(f.verifGas, f.callGas) && op.gasFees == PackPair(f.maxPrio, f.maxFee)
      && Some(op.initCode) == Prefixed(w.factory, w.factoryData)
      && Some(op.paymasterAndData) == Prefixed(w.paymaster, w.paymasterData)
  {}

  /** b is the address parsed from one string followed by the data parsed from the other. */
  predicate Joins(b: Bytes, address: string, data: string) {
    |b| >= 20 && b[..20] == HexToAddress(address) && Some(b[20..]) == DecodeHex(data)
  }

  lemma PrefixedShape(b: Bytes, address: string, data: string)
    requires Prefixed(address, data) == Some(b)
    ensures Whole(b) && (if address == "" then b == [] else Joins(b, address, data))
  {
    if address != "" {
      var a: Bytes := HexToAddress(address);
      var d := DecodeHex(data).value;
      assert (a + d)[..20] == a && (a + d)[20..] == d;
    }
  }

  /** What an accepted op holds, field by field. */
  lemma AcceptedValues(w: RpcOp)
    requires FromRPC(w).Ok?
    ensures var op := FromRPC(w).value;
      && op.sender == HexToAddress(w.sender) && Some(op.nonce) == HexToBigInt(w.nonce)
      && Some(op.callData) == DecodeHex(w.callData) && Some(op.signature) == DecodeHex(w.signature)
      && Some(op.preVerificationGas) == HexToBigInt(w.preVerificationGas)
  {
    AcceptedFields(w);
    AcceptedGas(w);
  }

  /** Every op FromRPC accepts is re-parsed to itself; its gas fields are the parsed magnitudes modulo
      2^128, and its prefixed fields are absent or split into exactly the address and data parsed. */
  lemma AcceptedRoundTrip(w: RpcOp, up: nat -> bool)
    requires FromRPC(w).Ok?
    ensures FromRPC(StoredOpToRPC(FromRPC(w).value, up)) == FromRPC(w)
    ensures HexToBigInt(w.verificationGasLimit).Some? && HexToBigInt(w.callGasLimit).Some?
    ensures HexToBigInt(w.maxPriorityFeePerGas).Some? && HexToBigInt(w.maxFeePerGas).Some?
    ensures var op := FromRPC(w).value;
      && op.sender == HexToAddress(w.sender) && Some(op.nonce) == HexToBigInt(w.nonce)
      && Some(op.callData) == DecodeHex(w.callData) && Some(op.signature) == DecodeHex(w.signature)
      && Some(op.preVerificationGas) == HexToBigInt(w.preVerificationGas)
      && Nat(op.accountGasLimits[..16]) == Abs(HexToBigInt(w.verificationGasLimit).value) % Pow256(16)
      && Nat(op.accountGasLimits[16..]) == Abs(HexToBigInt(w.callGasLimit).value) % Pow256(16)
      && Nat(op.gasFees[..16]) == Abs(HexToBigInt(w.maxPriorityFeePerGas).value) % Pow256(16)
      && Nat(op.gasFees[16..]) == Abs(HexToBigInt(w.maxFeePerGas).value) % Pow256(16)
      && (if w.factory == "" then op.initCode == [] else Joins(op.initCode, w.factory, w.factoryData))
      && (if w.paymaster == "" then op.paymasterAndData == []
          else Joins(op.paymasterAndData, w.paymaster, w.paymasterData))
  {
    var op := FromRPC(w).value;
    AcceptedValues(w);
    AcceptedFields(w);
    AcceptedGas(w);
    PrefixedShape(op.initCode, w.factory, w.factoryData);
    PrefixedShape(op.paymasterAndData, w.paymaster, w.paymasterData);
    WireRoundTripIff(op, up);
    PairHalves(HexToBigInt(w.verificationGasLimit).value, HexToBigInt(w.callGasLimit).value);
    PairHalves(HexToBigInt(w.maxPriorityFeePerGas).value, HexToBigInt(w.maxFeePerGas).value);
  }

  lemma PairHalves(hi: int, lo: int)
    ensures Nat(PackPair(hi, lo)[..16]) == Abs(hi) % Pow256(16) && Nat(PackPair(hi, lo)[16..]) == Abs(lo) % Pow256(16)
  {
    assert PackPair(hi, lo)[..16] == Half(hi) && PackPair(hi, lo)[16..] == Half(lo);
    HalfValue(hi);
    HalfValue(lo);
  }

  // ----- rows -----

  /** The text columns Insert writes. */
  datatype TextRow = TextRow(
    hash: string, sender: string, nonce: string, initCode: string, callData: string,
    accountGasLimits: string, preVerificationGas: string, gasFees: string,
    paymasterAndData: string, signature: string)

  function StoreRow(op: PackedUserOp, hash: Word): TextRow {
    TextRow(LowerHex(hash), LowerHex(op.sender), BigToHex(op.nonce), BytesToHex(op.initCode),
            BytesToHex(op.callData), BytesToHex(op.accountGasLimits), BigToHex(op.preVerificationGas),
            BytesToHex(op.gasFees), BytesToHex(op.paymasterAndData), BytesToHex(op.signature))
  }

  /** DecodeHex with its error dropped. */
  function Lenient(s: string): Bytes {
    var d := DecodeHex(s);
    if d.Some? then d.value else if |TrimPrefix(s)| == 0 then [] else Pairs(TrimPrefix(s))
  }

  /** A fixed 32-byte column; any other length is read as zeros. */
  function Fixed32(s: string): Word { if |Lenient(s)| == 32 then Lenient(s) else Zeros(32) }

  function HydrateRow(t: TextRow): Result<(PackedUserOp, Word)> {
    var nonce := HexToBigInt(t.nonce);
    if nonce.None? then Err("nonce") else
    var pvg := HexToBigInt(t.preVerificationGas);
    if pvg.None? then Err("preVerificationGas") else
    Ok((PackedUserOp(HexToAddress(t.sender), nonce.value, Lenient(t.initCode), Lenient(t.callData),
                     Fixed32(t.accountGasLimits), pvg.value, Fixed32(t.gasFees),
                     Lenient(t.paymasterAndData), Lenient(t.signature)),
        HexToHash(t.hash)))
  }

  /** Storing and hydrating gives every op back, whatever its integers and lengths. */
  lemma RowRoundTrip(op: PackedUserOp, hash: Word)
    ensures HydrateRow(StoreRow(op, hash)) == Ok((op, hash))
  {
    LowerHexRoundTrip(hash);
    LowerHexRoundTrip(op.sender);
    IntRoundTrip(op.nonce);
    IntRoundTrip(op.preVerificationGas);
    BytesRoundTrip(op.initCode);
    BytesRoundTrip(op.callData);
    BytesRoundTrip(op.accountGasLimits);
    BytesRoundTrip(op.gasFees);
    BytesRoundTrip(op.paymasterAndData);
    BytesRoundTrip(op.signature);
  }

  /** The unique index on the text columns (sender, nonce) is an index on the values. */
  lemma TextKeyIsKey(a: PackedUserOp, g: Word, b: PackedUserOp, h: Word)
    ensures (StoreRow(a, g).sender == StoreRow(b, h).sender && StoreRow(a, g).nonce == StoreRow(b, h).nonce)
        <==> (a.sender == b.sender && a.nonce == b.nonce)
    ensures StoreRow(a, g).hash == StoreRow(b, h).hash <==> g == h
  {
    RowRoundTrip(a, g);
    RowRoundTrip(b, h);
    LowerHexRoundTrip(g);
    LowerHexRoundTrip(h);
    LowerHexRoundTrip(a.sender);
    LowerHexRoundTrip(b.sender);
    IntRoundTrip(a.nonce);
    IntRoundTrip(b.nonce);
  }
}
