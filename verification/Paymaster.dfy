/** Sponsorship: the hash the Go service signs before paymasterAndData exists, and the hash and parser
    of the contract that later checks it (internal/paymaster/paymaster.go,
    contracts/src/SignetPaymaster.sol). */
module Paymaster {
  import opened Bytes
  import opened UserOps
  import opened Encoders
  import opened UserOpHash
  import Hex
  import Wire

  // ----- the service -----

  /** Word 5 of the preimage is the packed paymaster gas limits. */
  function ServiceWords(k: Hasher, op: PackedUserOp, limits: Word, chain: nat, paymaster: Address, until: nat,
                        from: nat): seq<Word> {
    [AddressWord(op.sender), Word32(op.nonce), k(op.initCode), k(op.callData), op.accountGasLimits, limits,
     Word32(op.preVerificationGas), op.gasFees, Word32(chain), AddressWord(paymaster), Word32(until), Word32(from)]
  }

  /** The service's uint64 packer, two big-endian eight-byte writes, agrees with the wire codec's
      big.Int packer on uint64 values. */
  method PackUint128s(hi: nat, lo: nat) returns (w: Word)
    requires hi < Pow256(8) && lo < Pow256(8)
    ensures w == Wire.PackPair(hi, lo)
    ensures Nat(w[..16]) == hi && Nat(w[16..]) == lo
  {
    var b := new byte[32](_ => 0);
    assert b[..] == Zeros(32);
    Copy(b, 8, Hex.Fit(BE(hi), 8));
    Copy(b, 24, Hex.Fit(BE(lo), 8));
    w := b[..];
    HalfOfUint64(hi);
    HalfOfUint64(lo);
    TwoEights(Hex.Fit(BE(hi), 8), Hex.Fit(BE(lo), 8));
    assert w == w[..16] + w[16..];
  }

  lemma TwoEights(x: Bytes, y: Bytes)
    requires |x| == 8 && |y| == 8
    ensures var w := Put(Put(Zeros(32), 8, x), 24, y); w[..16] == Zeros(8) + x && w[16..] == Zeros(8) + y
  {
    assert Put(Zeros(32), 8, x) == Zeros(8) + x + Zeros(16);
  }

  lemma HalfOfUint64(v: nat)
    requires v < Pow256(8)
    ensures Wire.Half(v) == Zeros(8) + Hex.Fit(BE(v), 8) && Nat(Wire.Half(v)) == v
  {
    BELength(v, 8);
    NatBE(v);
    NatZeros(16 - |BE(v)|, BE(v));
  }

  /** getHash's 384-byte buffer, filled as the code fills it. */
  method GetHash(k: Hasher, op: PackedUserOp, limits: Word, chain: nat, paymaster: Address, until: nat, from: nat)
    returns (h: Word)
    ensures h == k(Flatten(ServiceWords(k, op, limits, chain, paymaster, until, from)))
  {
    var buf := new byte[384](_ => 0);
    ghost var ws := seq(12, _ => Zeros(32));
    CopyOp(buf, k, op, limits, ws);
    ws := OpWords(k, op, limits) + ws[8..];
    CopyContext(buf, chain, paymaster, until, from, ws);
    ws := ws[..8] + [Word32(chain), AddressWord(paymaster), Word32(until), Word32(from)];
    assert ws == ServiceWords(k, op, limits, chain, paymaster, until, from);
    HeadThenTail(buf[..], ws, []);
    assert Flatten(ws) + [] == Flatten(ws);
    h := k(buf[..]);
  }

  /** The last four words of the buffer. */
  method CopyContext(buf: array<byte>, chain: nat, paymaster: Address, until: nat, from: nat, ghost done: seq<Word>)
    requires |done| == 12 && SlotsAre(buf[..], done) && done[9] == Zeros(32)
    modifies buf
    ensures SlotsAre(buf[..], done[..8] + [Word32(chain), AddressWord(paymaster), Word32(until), Word32(from)])
  {
    ghost var ws := done;
    CopyWord(buf, 8, Word32(chain), ws);
    ws := ws[8 := Word32(chain)];
    AddressSlot(buf[..], ws, 9, paymaster);
    Copy(buf, 300, paymaster);
    ws := ws[9 := AddressWord(paymaster)];
    CopyWord(buf, 10, Word32(until), ws);
    ws := ws[10 := Word32(until)];
    CopyWord(buf, 11, Word32(from), ws);
    ws := ws[11 := Word32(from)];
    assert ws == done[..8] + [Word32(chain), AddressWord(paymaster), Word32(until), Word32(from)];
  }

  function OpWords(k: Hasher, op: PackedUserOp, limits: Word): seq<Word> {
    [AddressWord(op.sender), Word32(op.nonce), k(op.initCode), k(op.callData), op.accountGasLimits, limits,
     Word32(op.preVerificationGas), op.gasFees]
  }

  /** The first eight words of the buffer. */
  method CopyOp(buf: array<byte>, k: Hasher, op: PackedUserOp, limits: Word, ghost zero: seq<Word>)
    requires |zero| == 12 && SlotsAre(buf[..], zero) && zero[0] == Zeros(32)
    modifies buf
    ensures SlotsAre(buf[..], OpWords(k, op, limits) + zero[8..])
  {
    ghost var ws := zero;
    AddressSlot(buf[..], ws, 0, op.sender);
    Copy(buf, 12, op.sender);
    ws := ws[0 := AddressWord(op.sender)];
    CopyWord(buf, 1, Word32(op.nonce), ws);
    ws := ws[1 := Word32(op.nonce)];
    CopyWord(buf, 2, k(op.initCode), ws);
    ws := ws[2 := k(op.initCode)];
    CopyWord(buf, 3, k(op.callData), ws);
    ws := ws[3 := k(op.callData)];
    CopyLimits(buf, op, limits, ws);
    ws := ws[4 := op.accountGasLimits][5 := limits][6 := Word32(op.preVerificationGas)][7 := op.gasFees];
    assert ws == OpWords(k, op, limits) + zero[8..];
  }

  method CopyLimits(buf: array<byte>, op: PackedUserOp, limits: Word, ghost done: seq<Word>)
    requires |done| == 12 && SlotsAre(buf[..], done)
    modifies buf
    ensures SlotsAre(buf[..],
      done[4 := op.accountGasLimits][5 := limits][6 := Word32(op.preVerificationGas)][7 := op.gasFees])
  {
    ghost var ws := done;
    CopyWord(buf, 4, op.accountGasLimits, ws);
    ws := ws[4 := op.accountGasLimits];
    CopyWord(buf, 5, limits, ws);
    ws := ws[5 := limits];
    CopyWord(buf, 6, Word32(op.preVerificationGas), ws);
    ws := ws[6 := Word32(op.preVerificationGas)];
    CopyWord(buf, 7, op.gasFees, ws);
  }

  /** encodeValidityAndSig */
  function ValidityAndSig(until: nat, from: nat, sig: Bytes): Bytes { Word32(until) + Word32(from) + sig }

  method EncodeValidityAndSig(until: nat, from: nat, sig: Bytes) returns (out: Bytes)
    ensures out == ValidityAndSig(until, from, sig)
  {
    var encoded := new byte[64 + |sig|](_ => 0);
    Copy(encoded, 0, Word32(until));
    Copy(encoded, 32, Word32(from));
    Copy(encoded, 64, sig);
    out := encoded[..];
  }

  // ----- the contract -----

  /** abi.encode of the twelve static values of getHash; None when the slice [20:52] is out of range. */
  function ContractWords(k: Hasher, op: PackedUserOp, chain: nat, this_: Address, until: nat,
                         from: nat): Option<seq<Word>> {
    if |op.paymasterAndData| < 52 then None
    else
      var limits: Word := op.paymasterAndData[20..52];
      Some([AddressWord(op.sender), Word32(op.nonce), k(op.initCode), k(op.callData), op.accountGasLimits,
            limits, Word32(op.preVerificationGas), op.gasFees, Word32(chain),
            AddressWord(this_), Word32(until), Word32(from)])
  }

  const UINT48: nat := 0x1_0000_0000_0000

  datatype Window = Window(until: nat, from: nat, signature: Bytes)

  /** parsePaymasterAndData: abi.decode of two uint48 words at 52, the rest is the signature. A word
      above the uint48 range or a short slice reverts. */
  function Parse(pmd: Bytes): Option<Window> {
    if |pmd| < 116 then None
    else
      var until, from := Nat(pmd[52..84]), Nat(pmd[84..116]);
      if until >= UINT48 || from >= UINT48 then None else Some(Window(until, from, pmd[116..]))
  }

  /** paymaster ‖ packed gas limits ‖ validity ‖ signature. */
  function Completed(op: PackedUserOp, paymaster: Address, limits: Word, until: nat, from: nat,
                     sig: Bytes): PackedUserOp {
    op.(paymasterAndData := paymaster + limits + ValidityAndSig(until, from, sig))
  }

  // ----- agreement -----

  lemma CompletedSlices(a: Address, limits: Word, u: Word, f: Word, sig: Bytes)
    ensures var pmd := a + limits + (u + f + sig);
      |pmd| == 116 + |sig| && pmd[20..52] == limits && pmd[52..84] == u && pmd[84..116] == f && pmd[116..] == sig
  {}

  /** The preimage signed by the service, before paymasterAndData exists, is the preimage the contract
      hashes for the completed op as it decodes it, for every op, window and signature. */
  lemma PreimagesAgree(k: Hasher, op: PackedUserOp, limits: Word, chain: nat, paymaster: Address, until: nat,
                       from: nat, sig: Bytes)
    ensures ContractWords(k, Canonical(Completed(op, paymaster, limits, until, from, sig)),
                          chain, paymaster, until, from)
              == Some(ServiceWords(k, op, limits, chain, paymaster, until, from))
  {
    CompletedSlices(paymaster, limits, Word32(until), Word32(from), sig);
    Word32Canonical(op.nonce);
    Word32Canonical(op.preVerificationGas);
  }

  /** The contract recovers the window and signature exactly when both timestamps fit uint48. */
  lemma ParseRecoversIff(op: PackedUserOp, paymaster: Address, limits: Word, until: nat, from: nat, sig: Bytes)
    requires IsUint256(until) && IsUint256(from)
    ensures Parse(Completed(op, paymaster, limits, until, from, sig).paymasterAndData)
              == (if until < UINT48 && from < UINT48 then Some(Window(until, from, sig)) else None)
  {
    CompletedSlices(paymaster, limits, Word32(until), Word32(from), sig);
    WordValue(until);
    WordValue(from);
  }

  // ----- what intake makes of a sponsored op -----

  /** The contract reads these gas limits, window and signature from paymasterAndData. */
  predicate Sponsored(pmd: Bytes, limits: Word, until: nat, from: nat, sig: Bytes) {
    |pmd| >= 52 && pmd[20..52] == limits && Parse(pmd) == Some(Window(until, from, sig))
  }

  lemma SponsoredIf(a: Address, limits: Word, until: nat, from: nat, sig: Bytes)
    requires until < UINT48 && from < UINT48
    ensures Sponsored(a + (limits + ValidityAndSig(until, from, sig)), limits, until, from, sig)
  {
    Uint48Word(until);
    Uint48Word(from);
    RelayedSlices(a, limits, Word32(until), Word32(from), sig);
  }

  lemma RelayedSlices(a: Address, limits: Word, u: Word, f: Word, sig: Bytes)
    ensures var pmd := a + (limits + (u + f + sig));
      |pmd| == 116 + |sig| && pmd[20..52] == limits && pmd[52..84] == u && pmd[84..116] == f && pmd[116..] == sig
  {}

  lemma SponsoredOnlyIf(a: Address, d: Bytes, limits: Word, until: nat, from: nat, sig: Bytes)
    requires Sponsored(a + d, limits, until, from, sig)
    ensures until < UINT48 && from < UINT48 && d == limits + ValidityAndSig(until, from, sig)
  {
    var pmd := a + d;
    WordOfNat(pmd[52..84]);
    WordOfNat(pmd[84..116]);
    AfterAddress(a, d);
  }

  lemma AfterAddress(a: Address, d: Bytes)
    requires |d| >= 96
    ensures d == (a + d)[20..52] + ((a + d)[52..84] + (a + d)[84..116] + (a + d)[116..])
  {}

  lemma Uint48Word(n: nat)
    requires n < UINT48
    ensures Nat(Word32(n)) == n
  {
    LengthWordValue(n);
  }

  /** An op that intake assembles meets the contract for given gas limits, window and signature if and
      only if both timestamps are uint48 values and the paymasterData sent decodes to the limits
      followed by the service's data: FromRPC joins only the paymaster's address and paymasterData. */
  lemma RelayedSponsorshipIff(w: Wire.RpcOp, limits: Word, until: nat, from: nat, sig: Bytes)
    requires Wire.FromRPC(w).Ok? && w.paymaster != ""
    ensures Sponsored(Wire.FromRPC(w).value.paymasterAndData, limits, until, from, sig) <==>
      && until < UINT48 && from < UINT48
      && Hex.DecodeHex(w.paymasterData) == Some(limits + ValidityAndSig(until, from, sig))
  {
    var pmd := Wire.FromRPC(w).value.paymasterAndData;
    Wire.AcceptedFields(w);
    Wire.PrefixedShape(pmd, w.paymaster, w.paymasterData);
    var a: Address, d := pmd[..20], pmd[20..];
    assert pmd == a + d;
    if Sponsored(pmd, limits, until, from, sig) {
      SponsoredOnlyIf(a, d, limits, until, from, sig);
    } else if until < UINT48 && from < UINT48 && d == limits + ValidityAndSig(until, from, sig) {
      SponsoredIf(a, limits, until, from, sig);
    }
  }

  /** The wire form of an op to which a client adds the service's answer, paymaster and paymasterData,
      as it is. */
  function VerbatimRelay(op: PackedUserOp, up: nat -> bool, paymaster: Address, until: nat, from: nat,
                         sig: Bytes): Wire.RpcOp {
    Wire.StoredOpToRPC(op, up).(paymaster := Hex.AddressHex(paymaster, up),
                                paymasterData := Hex.BytesToHex(ValidityAndSig(until, from, sig)))
  }

  /** For every op, window and signature the verbatim relay is accepted by intake and then fails the
      contract: no gas limits, and a signature 32 bytes short. */
  lemma VerbatimRelayMisparses(op: PackedUserOp, up: nat -> bool, paymaster: Address, limits: Word, until: nat,
                               from: nat, sig: Bytes)
    ensures var w := VerbatimRelay(op, up, paymaster, until, from, sig);
      && Wire.FromRPC(w).Ok? && Wire.FromRPC(w).value.paymasterAndData == paymaster + ValidityAndSig(until, from, sig)
      && !Sponsored(Wire.FromRPC(w).value.paymasterAndData, limits, until, from, sig)
      && var p := Parse(Wire.FromRPC(w).value.paymasterAndData);
        p.Some? ==> |p.value.signature| + 32 == |sig|
  {
    var d := ValidityAndSig(until, from, sig);
    var w := VerbatimRelay(op, up, paymaster, until, from, sig);
    RelayAccepted(op, up, paymaster, d);
    Hex.BytesRoundTrip(d);
    assert |d| == 64 + |sig| && |limits + d| == 96 + |sig|;
    RelayedSponsorshipIff(w, limits, until, from, sig);
  }

  lemma RelayAccepted(op: PackedUserOp, up: nat -> bool, paymaster: Address, d: Bytes)
    ensures var w := Wire.StoredOpToRPC(op, up).(paymaster := Hex.AddressHex(paymaster, up),
                                                 paymasterData := Hex.BytesToHex(d));
      Wire.FromRPC(w).Ok? && w.paymaster != "" && Wire.FromRPC(w).value.paymasterAndData == paymaster + d
  {
    var w := Wire.StoredOpToRPC(op, up).(paymaster := Hex.AddressHex(paymaster, up),
                                         paymasterData := Hex.BytesToHex(d));
    RelayIsStoredForm(op, up, paymaster, d);
    Wire.WireRoundTripIff(op.(paymasterAndData := paymaster + d), up);
    Wire.AcceptedFields(w);
    assert |w.paymaster| >= 2;
    Hex.AddressRoundTrip(paymaster, up);
    Hex.BytesRoundTrip(d);
  }

  lemma RelayIsStoredForm(op: PackedUserOp, up: nat -> bool, paymaster: Address, d: Bytes)
    ensures Wire.StoredOpToRPC(op.(paymasterAndData := paymaster + d), up)
      == Wire.StoredOpToRPC(op, up).(paymaster := Hex.AddressHex(paymaster, up), paymasterData := Hex.BytesToHex(d))
  {
    assert (paymaster + d)[..20] == paymaster && (paymaster + d)[20..] == d;
  }

  /** Any other window, gas limits or op changes the preimage: the signature binds them all. */
  lemma PreimageBinds(k: Hasher, a: PackedUserOp, la: Word, ua: nat, fa: nat, b: PackedUserOp, lb: Word,
                      ub: nat, fb: nat,
                      chain: nat, paymaster: Address)
    requires IsUint256(ua) && IsUint256(fa) && IsUint256(ub) && IsUint256(fb)
    requires CollisionFree(k, {a.initCode, a.callData, b.initCode, b.callData})
    requires Flatten(ServiceWords(k, a, la, chain, paymaster, ua, fa))
          == Flatten(ServiceWords(k, b, lb, chain, paymaster, ub, fb))
    ensures la == lb && ua == ub && fa == fb
    ensures Committed(a).(paymasterAndData := []) == Committed(b).(paymasterAndData := [])
  {
    var x, y := ServiceWords(k, a, la, chain, paymaster, ua, fa), ServiceWords(k, b, lb, chain, paymaster, ub, fb);
    FlattenInjective(x, y);
    assert x[0] == y[0] && x[1] == y[1] && x[2] == y[2] && x[3] == y[3] && x[4] == y[4] && x[5] == y[5];
    assert x[6] == y[6] && x[7] == y[7] && x[10] == y[10] && x[11] == y[11];
    AddressWordValue(a.sender, b.sender);
    WordValue(ua);
    WordValue(ub);
    WordValue(fa);
    WordValue(fb);
  }
}
