/** The entry point's side of the userOpHash (ERC-4337 v0.7, EntryPoint.getUserOpHash over UserOperationLib.encode):
    what the contract hashes, read word by word from the ABI tuple it is handed. It knows nothing of the
    bundler's own hash; the two are proved equal. */
module EntryPoint {
  import opened Bytes
  import opened UserOps
  import opened Abi
  import opened UserOpHash

  /** keccak256 of a dynamic bytes member. */
  function HashedMember(k: Hasher, t: Bytes, slot: nat): Option<Word> {
    var m := ReadMember(t, slot);
    if m.None? then None else Some(k(m.value))
  }

  /** abi.encode(sender, nonce, hash of initCode, hash of callData, accountGasLimits, preVerificationGas, gasFees,
      hash of paymasterAndData) of the tuple at the start of t: slots 0, 1, 4, 5 and 6 are words, 2, 3 and 7
      are offsets of bytes. The signature, slot 8, is not in it. */
  function Encoded(k: Hasher, t: Bytes): Option<Bytes> {
    var sender, nonce := ReadWord(t, 0), ReadWord(t, 32);
    var initCode, callData := HashedMember(k, t, 2), HashedMember(k, t, 3);
    var limits, pvg, fees := ReadWord(t, 128), ReadWord(t, 160), ReadWord(t, 192);
    var pm := HashedMember(k, t, 7);
    if sender.None? || nonce.None? || initCode.None? || callData.None? || limits.None? || pvg.None? || fees.None?
       || pm.None?
    then None
    else
      Some(sender.value + nonce.value + initCode.value + callData.value + limits.value + pvg.value + fees.value
           + pm.value)
  }

  /** keccak256(abi.encode(hash of the op, this contract, the chain id)). */
  function GetUserOpHash(k: Hasher, t: Bytes, this_: Address, chainid: nat): Option<Word> {
    var inner := Encoded(k, t);
    if inner.None? then None else Some(k(k(inner.value) + (Zeros(12) + this_) + Word32(chainid)))
  }

  /** Where element i of the ops of a handleOps call starts, for calldata that decodes. */
  function Element(selector: Bytes, cd: Bytes, i: nat): Option<Bytes> {
    var call := DecodeHandleOps(selector, cd);
    if call.None? || i >= |call.value.ops| then None
    else
      var args := cd[4..];
      var arr := ReadNat(args, 0);
      if arr.None? || arr.value + 32 > |args| then None
      else
        var e := args[arr.value + 32..];
        var o := ReadNat(e, 32 * i);
        if o.None? || o.value > |e| then None else Some(e[o.value..])
  }

  // ----- agreement with the bundler -----

  lemma AddressOfWord(w: Word)
    requires w[..12] == Zeros(12)
    ensures AddressWord(w[12..]) == w
  {
    assert w == w[..12] + w[12..];
  }

  /** The words the contract hashes of a tuple are the ones the bundler hashes of the op in it. */
  lemma EncodedIsInner(k: Hasher, t: Bytes)
    requires DecodeTuple(t).Some?
    ensures Encoded(k, t) == Some(Inner(k, DecodeTuple(t).value))
  {
    var op := DecodeTuple(t).value;
    AddressOfWord(ReadWord(t, 0).value);
    WordOfNat(ReadWord(t, 32).value);
    WordOfNat(ReadWord(t, 160).value);
    EightFlat(AddressWord(op.sender), Word32(op.nonce), k(op.initCode), k(op.callData), op.accountGasLimits,
              Word32(op.preVerificationGas), op.gasFees, k(op.paymasterAndData));
  }

  /** For every tuple that decodes to an op, the contract's hash of the tuple is the bundler's hash of the op. */
  lemma ContractHashIsHash(k: Hasher, t: Bytes, ep: Address, chain: nat)
    requires DecodeTuple(t).Some?
    ensures GetUserOpHash(k, t, ep, chain) == Some(Hash(k, DecodeTuple(t).value, ep, chain))
  {
    EncodedIsInner(k, t);
    ThreeFlat(k(Inner(k, DecodeTuple(t).value)), AddressWord(ep), Word32(chain));
  }

  /** For every op: what the contract computes from the tuple the bundler encodes, whatever follows it, is
      what ComputeUserOpHash computes from the op. */
  lemma BundlerHashIsContractHash(k: Hasher, op: PackedUserOp, rest: Bytes, ep: Address, chain: nat)
    requires |EncTuple(op) + rest| <= MAX_LEN
    ensures GetUserOpHash(k, EncTuple(op) + rest, ep, chain) == Some(Hash(k, op, ep, chain))
  {
    TupleRoundTrip(op, rest);
    ContractHashIsHash(k, EncTuple(op) + rest, ep, chain);
    HashOfCanonical(k, op, ep, chain);
  }

  // ----- elements of a call -----

  lemma {:induction false} GatherAt<T>(f: nat -> Option<T>, n: nat, i: nat)
    requires Gather(f, n).Some? && i < n
    ensures |Gather(f, n).value| == n && f(i) == Some(Gather(f, n).value[i])
  {
    GatherLength(f, n);
    if i < n - 1 { GatherAt(f, n - 1, i); } else { GatherLength(f, n - 1); }
  }

  lemma {:induction false} GatherLength<T>(f: nat -> Option<T>, n: nat)
    requires Gather(f, n).Some?
    ensures |Gather(f, n).value| == n
  {
    if n > 0 { GatherLength(f, n - 1); }
  }

  /** In any calldata that decodes, the contract finds an element exactly for each op, and its hash of the
      element is the bundler's hash of the op. */
  lemma ElementIsOp(k: Hasher, selector: Bytes, cd: Bytes, i: nat, ep: Address, chain: nat)
    requires DecodeHandleOps(selector, cd).Some?
    ensures var ops := DecodeHandleOps(selector, cd).value.ops;
      && (Element(selector, cd, i).Some? <==> i < |ops|)
      && (i < |ops| ==> GetUserOpHash(k, Element(selector, cd, i).value, ep, chain) == Some(Hash(k, ops[i], ep, chain)))
  {
    var args := cd[4..];
    var arr := ReadNat(args, 0).value;
    var e, n := args[arr + 32..], ReadNat(args, arr).value;
    var f := (j: nat) => DecodeElement(e, j);
    GatherLength(f, n);
    if i < n {
      GatherAt(f, n, i);
      assert f(i) == DecodeElement(e, i);
      ContractHashIsHash(k, Element(selector, cd, i).value, ep, chain);
    }
  }
}
