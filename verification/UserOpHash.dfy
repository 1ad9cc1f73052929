/** The ERC-4337 v0.7 userOpHash (internal/core/hash.go), for any hash function k in place of
    keccak256. */
module UserOpHash {
  import opened Bytes
  import opened UserOps
  import opened Encoders

  type Hasher = Bytes -> Word

  function InnerWords(k: Hasher, op: PackedUserOp): seq<Word> {
    [AddressWord(op.sender), Word32(op.nonce), k(op.initCode), k(op.callData), op.accountGasLimits,
     Word32(op.preVerificationGas), op.gasFees, k(op.paymasterAndData)]
  }

  function Inner(k: Hasher, op: PackedUserOp): Bytes { Flatten(InnerWords(k, op)) }

  function OuterWords(k: Hasher, op: PackedUserOp, ep: Address, chain: nat): seq<Word> {
    [k(Inner(k, op)), AddressWord(ep), Word32(chain)]
  }

  function Outer(k: Hasher, op: PackedUserOp, ep: Address, chain: nat): Bytes {
    Flatten(OuterWords(k, op, ep, chain))
  }

  function Hash(k: Hasher, op: PackedUserOp, ep: Address, chain: nat): Word { k(Outer(k, op, ep, chain)) }

  // ----- the buffers as the code fills them -----

  method ComputeUserOpHash(k: Hasher, op: PackedUserOp, ep: Address, chain: nat) returns (h: Word)
    ensures h == Hash(k, op, ep, chain)
    ensures h == k(k(Zeros(12) + op.sender + Word32(op.nonce) + k(op.initCode) + k(op.callData) + op.accountGasLimits
                     + Word32(op.preVerificationGas) + op.gasFees + k(op.paymasterAndData))
                   + (Zeros(12) + ep) + Word32(chain))
  {
    var innerHash := InnerHash(k, op);
    var outer := new byte[96](_ => 0);
    ghost var ws := seq(3, _ => Zeros(32));
    CopyWord(outer, 0, innerHash, ws);
    ws := ws[0 := innerHash];
    AddressSlot(outer[..], ws, 1, ep);
    Copy(outer, 44, ep);
    ws := ws[1 := AddressWord(ep)];
    CopyWord(outer, 2, Word32(chain), ws);
    ws := ws[2 := Word32(chain)];
    HeadThenTail(outer[..], ws, []);
    assert Flatten(ws) + [] == Flatten(ws);
    assert ws == OuterWords(k, op, ep, chain);
    h := k(outer[..]);
    EightFlat(AddressWord(op.sender), Word32(op.nonce), k(op.initCode), k(op.callData), op.accountGasLimits,
              Word32(op.preVerificationGas), op.gasFees, k(op.paymasterAndData));
    ThreeFlat(innerHash, AddressWord(ep), Word32(chain));
  }

  /** Copying an address into the low 20 bytes of a zero slot makes it the address's word. */
  lemma AddressSlot(s: Bytes, ws: seq<Word>, j: nat, a: Address)
    requires j < |ws| && SlotsAre(s, ws) && ws[j] == Zeros(32)
    ensures SlotsAre(Put(s, 32 * j + 12, a), ws[j := AddressWord(a)])
  {
    var t := Put(s, 32 * j + 12, a);
    var w := Put(s, 32 * j, AddressWord(a));
    assert Slot(s, j) == Zeros(32);
    assert t == w by {
      forall x | 0 <= x < |s| ensures t[x] == w[x] {
        if 32 * j <= x < 32 * j + 12 { assert s[x] == Slot(s, j)[x - 32 * j]; }
      }
    }
    PutWord(s, ws, j, AddressWord(a));
  }

  method InnerHash(k: Hasher, op: PackedUserOp) returns (h: Word)
    ensures h == k(Inner(k, op))
  {
    var inner := new byte[256](_ => 0);
    ghost var ws := seq(8, _ => Zeros(32));
    AddressSlot(inner[..], ws, 0, op.sender);
    Copy(inner, 12, op.sender);
    ws := ws[0 := AddressWord(op.sender)];
    CopyWord(inner, 1, Word32(op.nonce), ws);
    ws := ws[1 := Word32(op.nonce)];
    CopyWord(inner, 2, k(op.initCode), ws);
    ws := ws[2 := k(op.initCode)];
    CopyWord(inner, 3, k(op.callData), ws);
    ws := ws[3 := k(op.callData)];
    CopyGas(inner, k, op, ws);
    ws := ws[..4] + [op.accountGasLimits, Word32(op.preVerificationGas), op.gasFees, k(op.paymasterAndData)];
    assert ws == InnerWords(k, op);
    HeadThenTail(inner[..], ws, []);
    assert Flatten(ws) + [] == Flatten(ws);
    h := k(inner[..]);
  }

  /** The last four words of the inner buffer. */
  method CopyGas(inner: array<byte>, k: Hasher, op: PackedUserOp, ghost done: seq<Word>)
    requires |done| == 8 && SlotsAre(inner[..], done)
    modifies inner
    ensures SlotsAre(inner[..],
      done[..4] + [op.accountGasLimits, Word32(op.preVerificationGas), op.gasFees, k(op.paymasterAndData)])
  {
    ghost var ws := done;
    CopyWord(inner, 4, op.accountGasLimits, ws);
    ws := ws[4 := op.accountGasLimits];
    CopyWord(inner, 5, Word32(op.preVerificationGas), ws);
    ws := ws[5 := Word32(op.preVerificationGas)];
    CopyWord(inner, 6, op.gasFees, ws);
    ws := ws[6 := op.gasFees];
    CopyWord(inner, 7, k(op.paymasterAndData), ws);
    ws := ws[7 := k(op.paymasterAndData)];
    assert ws == done[..4] + [op.accountGasLimits, Word32(op.preVerificationGas), op.gasFees, k(op.paymasterAndData)];
  }

  // ----- what the hash commits to -----

  /** The op as the chain sees it, without its signature. */
  function Committed(op: PackedUserOp): PackedUserOp { Canonical(op).(signature := []) }

  /** The strings hashed on the way to the userOpHash. */
  function Preimages(k: Hasher, op: PackedUserOp, ep: Address, chain: nat): set<Bytes> {
    {op.initCode, op.callData, op.paymasterAndData, Inner(k, op), Outer(k, op, ep, chain)}
  }

  ghost predicate CollisionFree(k: Hasher, s: set<Bytes>) {
    forall x, y :: x in s && y in s && k(x) == k(y) ==> x == y
  }

  lemma Word32Canonical(n: int)
    ensures Word32(Nat(Word32(n))) == Word32(n)
  {
    WordOfNat(Word32(n));
  }

  lemma InnerOfCommitted(k: Hasher, a: PackedUserOp, b: PackedUserOp)
    requires Committed(a) == Committed(b)
    ensures InnerWords(k, a) == InnerWords(k, b)
  {
    Word32Canonical(a.nonce);
    Word32Canonical(b.nonce);
    Word32Canonical(a.preVerificationGas);
    Word32Canonical(b.preVerificationGas);
  }

  /** Hashing the decoded op gives the hash of the op encoded. */
  lemma HashOfCanonical(k: Hasher, op: PackedUserOp, ep: Address, chain: nat)
    ensures Hash(k, Canonical(op), ep, chain) == Hash(k, op, ep, chain)
  {
    CanonicalIff(op);
    InnerOfCommitted(k, Canonical(op), op);
  }

  lemma InnerDetermines(k: Hasher, a: PackedUserOp, b: PackedUserOp, s: set<Bytes>)
    requires CollisionFree(k, s) && {a.initCode, a.callData, a.paymasterAndData} <= s
    requires {b.initCode, b.callData, b.paymasterAndData} <= s
    requires Inner(k, a) == Inner(k, b)
    ensures Committed(a) == Committed(b)
  {
    FlattenInjective(InnerWords(k, a), InnerWords(k, b));
    var x, y := InnerWords(k, a), InnerWords(k, b);
    assert x[0] == y[0] && x[1] == y[1] && x[2] == y[2] && x[3] == y[3];
    assert x[4] == y[4] && x[5] == y[5] && x[6] == y[6] && x[7] == y[7];
    AddressWordValue(a.sender, b.sender);
  }

  /** The hash commits to every field but the signature, to the entry point and to the chain: unless
      the hash function collides on one of the strings actually hashed, two triples have equal
      hashes if and only if they agree on all of them. */
  lemma HashCommits(k: Hasher, a: PackedUserOp, ea: Address, ca: nat, b: PackedUserOp, eb: Address, cb: nat)
    requires IsUint256(ca) && IsUint256(cb)
    requires CollisionFree(k, Preimages(k, a, ea, ca) + Preimages(k, b, eb, cb))
    ensures Hash(k, a, ea, ca) == Hash(k, b, eb, cb) <==>
              Committed(a) == Committed(b) && ea == eb && ca == cb
  {
    var s := Preimages(k, a, ea, ca) + Preimages(k, b, eb, cb);
    if Hash(k, a, ea, ca) == Hash(k, b, eb, cb) {
      assert Outer(k, a, ea, ca) in s && Outer(k, b, eb, cb) in s;
      FlattenInjective(OuterWords(k, a, ea, ca), OuterWords(k, b, eb, cb));
      OuterDetermines(k, a, ea, ca, b, eb, cb);
      assert Inner(k, a) in s && Inner(k, b) in s;
      InnerDetermines(k, a, b, s);
    } else if Committed(a) == Committed(b) {
      InnerOfCommitted(k, a, b);
    }
  }

  lemma OuterDetermines(k: Hasher, a: PackedUserOp, ea: Address, ca: nat, b: PackedUserOp, eb: Address, cb: nat)
    requires IsUint256(ca) && IsUint256(cb) && OuterWords(k, a, ea, ca) == OuterWords(k, b, eb, cb)
    ensures k(Inner(k, a)) == k(Inner(k, b)) && ea == eb && ca == cb
  {
    var x, y := OuterWords(k, a, ea, ca), OuterWords(k, b, eb, cb);
    assert x[0] == y[0] && x[1] == y[1] && x[2] == y[2];
    AddressWordValue(ea, eb);
    WordValue(ca);
    WordValue(cb);
  }

  /** Outside the uint256 range the integers are not committed to: a nonce and its negation share
      every hash although intake stores them as different nonces. */
  lemma NegativeNonceCollides(k: Hasher, op: PackedUserOp, ep: Address, chain: nat)
    requires op.nonce != 0
    ensures op.(nonce := -op.nonce) != op
    ensures Hash(k, op.(nonce := -op.nonce), ep, chain) == Hash(k, op, ep, chain)
  {
    var m := op.(nonce := -op.nonce);
    assert Word32(m.nonce) == Word32(op.nonce);
    assert InnerWords(k, m) == InnerWords(k, op);
  }
}
