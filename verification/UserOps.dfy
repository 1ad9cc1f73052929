/** The on-chain struct of a user operation (internal/core/userop.go). */
module UserOps {
  import opened Bytes

  /** Nonce and preVerificationGas are big.Ints: the parser accepts any sign and any size. */
  datatype PackedUserOp = PackedUserOp(
    sender: Address,
    nonce: int,
    initCode: Bytes,
    callData: Bytes,
    accountGasLimits: Word,
    preVerificationGas: int,
    gasFees: Word,
    paymasterAndData: Bytes,
    signature: Bytes)

  /** The op the chain sees: both integers replaced by the value of the word they are encoded as. */
  function Canonical(op: PackedUserOp): PackedUserOp {
    op.(nonce := Nat(Word32(op.nonce)), preVerificationGas := Nat(Word32(op.preVerificationGas)))
  }

  predicate InRange(op: PackedUserOp) {
    IsUint256(op.nonce) && IsUint256(op.preVerificationGas)
  }

  /** An op is its own canonical form exactly when both integers are uint256 values. */
  lemma CanonicalIff(op: PackedUserOp)
    ensures Canonical(op) == op <==> InRange(op)
    ensures Canonical(Canonical(op)) == Canonical(op)
  {
    WordRecovers(op.nonce);
    WordRecovers(op.preVerificationGas);
    WordOfNat(Word32(op.nonce));
    WordOfNat(Word32(op.preVerificationGas));
  }
}
