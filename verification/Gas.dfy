/** preVerificationGas against the real handleOps calldata (internal/estimator/gas.go).
    The uint64 accumulator is modelled unbounded: it cannot overflow below 2^60 calldata bytes. */
module Gas {
  import opened Bytes
  import opened UserOps
  import opened Abi

  /** EIP-2028: 4 gas per zero byte, 16 per nonzero byte. */
  function Cost(b: Bytes): nat {
    if b == [] then 0 else Cost(b[..|b| - 1]) + (if b[|b| - 1] == 0 then 4 else 16)
  }

  /** abiEncodePackedOp: the estimator's approximation of an op's share of the calldata. */
  function Approx(op: PackedUserOp): Bytes {
    PadLeft32(op.sender) + PadLeft32(BE(Abs(op.nonce))) + op.initCode + op.callData + op.accountGasLimits
    + PadLeft32(BE(Abs(op.preVerificationGas))) + op.gasFees + op.paymasterAndData + op.signature
  }

  function PreVerificationGas(op: PackedUserOp): nat { Cost(Approx(op)) + 21000 + 11000 }

  /** The appends. */
  method AbiEncodePackedOp(op: PackedUserOp) returns (buf: Bytes)
    ensures buf == Approx(op)
  {
    buf := PadLeft32(op.sender);
    buf := buf + PadLeft32(BE(Abs(op.nonce)));
    buf := buf + op.initCode;
    buf := buf + op.callData;
    buf := buf + op.accountGasLimits;
    buf := buf + PadLeft32(BE(Abs(op.preVerificationGas)));
    buf := buf + op.gasFees;
    buf := buf + op.paymasterAndData;
    buf := buf + op.signature;
  }

  /** How many bytes of b are zero. */
  function ZeroBytes(b: Bytes): nat { multiset(b)[0] }

  lemma {:induction false} CostCounts(b: Bytes)
    ensures ZeroBytes(b) <= |b| && Cost(b) == 4 * ZeroBytes(b) + 16 * (|b| - ZeroBytes(b))
  {
    if b != [] {
      var c, d := b[..|b| - 1], b[|b| - 1];
      CostCounts(c);
      assert b == c + [d];
      assert multiset(b) == multiset(c) + multiset{d};
    }
  }

  /** 4 gas per zero byte and 16 per other byte of the approximation, plus 21000 and 11000. */
  method CalcPreVerificationGas(op: PackedUserOp) returns (gas: nat)
    ensures gas == PreVerificationGas(op)
    ensures gas == 4 * ZeroBytes(Approx(op)) + 16 * (|Approx(op)| - ZeroBytes(Approx(op))) + 21000 + 11000
  {
    CostCounts(Approx(op));
    var packed := AbiEncodePackedOp(op);
    var calldataCost := CountCost(packed);
    gas := calldataCost + 21000 + 11000;
  }

  method CountCost(packed: Bytes) returns (calldataCost: nat)
    ensures calldataCost == Cost(packed)
  {
    calldataCost := 0;
    for i := 0 to |packed|
      invariant calldataCost == Cost(packed[..i])
    {
      assert packed[..i + 1][..i] == packed[..i];
      if packed[i] == 0 {
        calldataCost := calldataCost + 4;
      } else {
        calldataCost := calldataCost + 16;
      }
    }
    assert packed[..|packed|] == packed;
  }

  lemma {:induction false} CostConcat(a: Bytes, b: Bytes)
    ensures Cost(a + b) == Cost(a) + Cost(b)
  {
    if b == [] {
      assert a + b == a;
    } else {
      var s := a + b;
      CostConcat(a, b[..|b| - 1]);
      assert s[..|s| - 1] == a + b[..|b| - 1];
    }
  }

  lemma {:induction false} CostBounds(b: Bytes)
    ensures 4 * |b| <= Cost(b) <= 16 * |b|
  {
    if b != [] { CostBounds(b[..|b| - 1]); }
  }

  lemma {:induction false} CostZeros(n: nat)
    ensures Cost(Zeros(n)) == 4 * n
  {
    if n > 0 {
      CostZeros(n - 1);
      assert Zeros(n)[..n - 1] == Zeros(n - 1);
    }
  }

  lemma {:induction false} CostFlatten(ws: seq<Word>)
    ensures Cost(Flatten(ws)) == SumWords(ws) <= 512 * |ws|
  {
    if ws != [] {
      CostConcat(ws[0], Flatten(ws[1..]));
      CostFlatten(ws[1..]);
      CostBounds(ws[0]);
    }
  }

  function SumWords(ws: seq<Word>): nat { if ws == [] then 0 else Cost(ws[0]) + SumWords(ws[1..]) }

  function SumCost(bs: seq<Bytes>): nat { if bs == [] then 0 else SumCost(bs[..|bs| - 1]) + Cost(bs[|bs| - 1]) }

  lemma {:induction false} CostOfConcat(bs: seq<Bytes>)
    ensures Cost(Concat(bs)) == SumCost(bs)
  {
    if bs != [] {
      CostOfConcat(bs[..|bs| - 1]);
      CostConcat(Concat(bs[..|bs| - 1]), bs[|bs| - 1]);
    }
  }

  lemma CostFrame(ws: seq<Word>, tails: seq<Bytes>)
    ensures Cost(Frame(ws, tails)) == SumWords(ws) + SumCost(tails)
  {
    CostConcat(Flatten(ws), Concat(tails));
    CostFlatten(ws);
    CostOfConcat(tails);
  }

  // ----- one tuple -----

  /** A bytes field costs its data plus one length word and zero padding. */
  function FieldFraming(d: Bytes): nat { Cost(Word32(|d|)) + 4 * (PaddedLen(|d|) - |d|) }

  lemma CostEncBytes(d: Bytes)
    ensures Cost(EncBytes(d)) == Cost(d) + FieldFraming(d)
    ensures FieldFraming(d) <= 512 + 4 * 31
  {
    CostConcat(Word32(|d|) + d, Zeros(PaddedLen(|d|) - |d|));
    CostConcat(Word32(|d|), d);
    CostZeros(PaddedLen(|d|) - |d|);
    CostBounds(Word32(|d|));
    EncBytesLength(d);
  }

  /** What a tuple adds to the estimator's bytes: four offset words, four length words, zero padding. */
  function TupleFraming(op: PackedUserOp): nat {
    var ds := Dynamics(op);
    Cost(Word32(TailAt(9, ds, 0))) + Cost(Word32(TailAt(9, ds, 1))) + Cost(Word32(TailAt(9, ds, 2)))
    + Cost(Word32(TailAt(9, ds, 3)))
    + FieldFraming(op.initCode) + FieldFraming(op.callData) + FieldFraming(op.paymasterAndData)
    + FieldFraming(op.signature)
  }

  /** What the estimator over-counts: bytes of a nonce or gas value that do not fit its word. */
  function Excess(op: PackedUserOp): int {
    Cost(PadLeft32(BE(Abs(op.nonce)))) - Cost(Word32(op.nonce))
    + Cost(PadLeft32(BE(Abs(op.preVerificationGas)))) - Cost(Word32(op.preVerificationGas))
  }

  lemma SumTail(ws: seq<Word>, k: nat)
    requires k < |ws|
    ensures SumWords(ws[k..]) == Cost(ws[k]) + SumWords(ws[k + 1..])
  {
    assert ws[k..][1..] == ws[k + 1..];
  }

  lemma SumNine(ws: seq<Word>)
    requires |ws| == 9
    ensures SumWords(ws) == Cost(ws[0]) + Cost(ws[1]) + Cost(ws[2]) + Cost(ws[3]) + Cost(ws[4]) + Cost(ws[5])
                            + Cost(ws[6]) + Cost(ws[7]) + Cost(ws[8])
  {
    SumFour(ws, 0);
    SumFour(ws, 4);
    SumTail(ws, 8);
    assert ws[0..] == ws && ws[9..] == [];
  }

  lemma SumFour(ws: seq<Word>, k: nat)
    requires k + 4 <= |ws|
    ensures SumWords(ws[k..]) == Cost(ws[k]) + Cost(ws[k + 1]) + Cost(ws[k + 2]) + Cost(ws[k + 3])
                               + SumWords(ws[k + 4..])
  {
    SumTail(ws, k);
    SumTail(ws, k + 1);
    SumTail(ws, k + 2);
    SumTail(ws, k + 3);
  }

  lemma SumFourTails(bs: seq<Bytes>)
    requires |bs| == 4
    ensures SumCost(bs) == Cost(bs[0]) + Cost(bs[1]) + Cost(bs[2]) + Cost(bs[3])
  {
    assert bs[..3][..2] == bs[..2] && bs[..2][..1] == bs[..1] && bs[..1][..0] == [];
    assert SumCost(bs[..0]) == 0;
    assert SumCost(bs[..1]) == Cost(bs[0]);
    assert SumCost(bs[..2]) == Cost(bs[0]) + Cost(bs[1]);
    assert SumCost(bs[..3]) == SumCost(bs[..2]) + Cost(bs[2]);
  }

  lemma CostParts(a: Bytes, b: Bytes, c: Bytes, d: Bytes, e: Bytes, f: Bytes, g: Bytes, h: Bytes, i: Bytes)
    ensures Cost(a + b + c + d + e + f + g + h + i)
              == Cost(a) + Cost(b) + Cost(c) + Cost(d) + Cost(e) + Cost(f) + Cost(g) + Cost(h) + Cost(i)
  {
    CostConcat(a, b);
    CostConcat(a + b, c);
    CostConcat(a + b + c, d);
    CostConcat(a + b + c + d, e);
    CostConcat(a + b + c + d + e, f);
    CostConcat(a + b + c + d + e + f, g);
    CostConcat(a + b + c + d + e + f + g, h);
    CostConcat(a + b + c + d + e + f + g + h, i);
  }

  lemma CostTupleWords(op: PackedUserOp)
    ensures Cost(EncTuple(op)) == SumWords(Head(op)) + SumCost(Dynamics(op))
  {
    CostFrame(Head(op), Dynamics(op));
  }

  lemma HeadCost(op: PackedUserOp)
    ensures var ds := Dynamics(op);
      SumWords(Head(op)) == Cost(AddressWord(op.sender)) + Cost(Word32(op.nonce))
        + Cost(Word32(TailAt(9, ds, 0))) + Cost(Word32(TailAt(9, ds, 1))) + Cost(op.accountGasLimits)
        + Cost(Word32(op.preVerificationGas)) + Cost(op.gasFees)
        + Cost(Word32(TailAt(9, ds, 2))) + Cost(Word32(TailAt(9, ds, 3)))
  {
    SumNine(Head(op));
  }

  lemma DynamicsCost(op: PackedUserOp)
    ensures SumCost(Dynamics(op)) == Cost(op.initCode) + Cost(op.callData)
      + Cost(op.paymasterAndData) + Cost(op.signature)
      + FieldFraming(op.initCode) + FieldFraming(op.callData)
      + FieldFraming(op.paymasterAndData) + FieldFraming(op.signature)
  {
    SumFourTails(Dynamics(op));
    CostEncBytes(op.initCode);
    CostEncBytes(op.callData);
    CostEncBytes(op.paymasterAndData);
    CostEncBytes(op.signature);
  }

  lemma ApproxCost(op: PackedUserOp)
    ensures Cost(Approx(op)) == Cost(AddressWord(op.sender)) + Cost(PadLeft32(BE(Abs(op.nonce)))) + Cost(op.initCode)
      + Cost(op.callData) + Cost(op.accountGasLimits)
      + Cost(PadLeft32(BE(Abs(op.preVerificationGas)))) + Cost(op.gasFees)
      + Cost(op.paymasterAndData) + Cost(op.signature)
  {
    CostParts(PadLeft32(op.sender), PadLeft32(BE(Abs(op.nonce))), op.initCode, op.callData, op.accountGasLimits,
              PadLeft32(BE(Abs(op.preVerificationGas))), op.gasFees, op.paymasterAndData, op.signature);
  }

  /** Exactly what separates the estimate from the tuple: the framing, less the excess bytes, which
      are none when both integers are uint256 values. */
  lemma TupleVersusEstimate(op: PackedUserOp)
    ensures Cost(EncTuple(op)) == Cost(Approx(op)) + TupleFraming(op) - Excess(op)
    ensures Excess(op) >= 0 && (InRange(op) ==> Excess(op) == 0)
    ensures TupleFraming(op) <= 4 * 512 + 4 * (512 + 4 * 31)
  {
    CostTupleWords(op);
    HeadCost(op);
    DynamicsCost(op);
    ApproxCost(op);
    ExcessWord(op.nonce);
    ExcessWord(op.preVerificationGas);
    FramingBound(op);
  }

  lemma ExcessWord(n: int)
    ensures Cost(PadLeft32(BE(Abs(n)))) >= Cost(Word32(n))
    ensures IsUint256(n) ==> Cost(PadLeft32(BE(Abs(n)))) == Cost(Word32(n))
  {
    var p := PadLeft32(BE(Abs(n)));
    CostConcat(p[..32], p[32..]);
    assert p == p[..32] + p[32..];
    if IsUint256(n) { WordValue(n); }
  }

  lemma FramingBound(op: PackedUserOp)
    ensures TupleFraming(op) <= 4 * 512 + 4 * (512 + 4 * 31)
  {
    var ds := Dynamics(op);
    CostBounds(Word32(TailAt(9, ds, 0)));
    CostBounds(Word32(TailAt(9, ds, 1)));
    CostBounds(Word32(TailAt(9, ds, 2)));
    CostBounds(Word32(TailAt(9, ds, 3)));
    CostEncBytes(op.initCode);
    CostEncBytes(op.callData);
    CostEncBytes(op.paymasterAndData);
    CostEncBytes(op.signature);
  }

  // ----- the bundle -----

  function SumPreVerificationGas(ops: seq<PackedUserOp>): nat {
    if ops == [] then 0 else SumPreVerificationGas(ops[..|ops| - 1]) + PreVerificationGas(ops[|ops| - 1])
  }

  /** b costs at most what the estimator charges for op beyond its constants, plus the framing bound. */
  predicate Covered(b: Bytes, op: PackedUserOp) { Cost(b) + 32000 <= PreVerificationGas(op) + 4592 }

  lemma {:induction false} SumCovered(bs: seq<Bytes>, ops: seq<PackedUserOp>)
    requires |bs| == |ops| && forall i :: 0 <= i < |ops| ==> Covered(bs[i], ops[i])
    ensures SumCost(bs) + 32000 * |ops| <= SumPreVerificationGas(ops) + 4592 * |ops|
  {
    if ops != [] {
      var n := |ops| - 1;
      SumCovered(bs[..n], ops[..n]);
      assert Covered(bs[n], ops[n]);
    }
  }

  lemma TuplesVersusEstimates(ops: seq<PackedUserOp>)
    ensures SumCost(EncTuples(ops)) + 32000 * |ops| <= SumPreVerificationGas(ops) + 4592 * |ops|
  {
    forall i | 0 <= i < |ops| ensures Covered(EncTuples(ops)[i], ops[i]) { TupleVersusEstimate(ops[i]); }
    SumCovered(EncTuples(ops), ops);
  }

  lemma CostCalldata(selector: Bytes, ops: seq<PackedUserOp>, ben: Address)
    requires |selector| == 4
    ensures 400 <= Cost(HandleOps(selector, ops, ben)) <= 64 + 3 * 512 + 512 * |ops| + SumCost(EncTuples(ops))
  {
    var ws, bs := ArgWords(|ops|, ben), EncTuples(ops);
    var args := Flatten(ws) + EncArray(bs);
    CalldataSize(selector, ops, ben);
    CostBounds(selector + args);
    CostBounds(selector);
    CostConcat(selector, args);
    CostConcat(Flatten(ws), EncArray(bs));
    CostFlatten(ws);
    CostFrame(Offsets(bs), bs);
    CostFlatten(Offsets(bs));
  }

  /** The calldata outside the tuples: selector, argument words and the offset word of each element. */
  function CallFraming(selector: Bytes, ops: seq<PackedUserOp>, ben: Address): nat {
    Cost(selector) + SumWords(ArgWords(|ops|, ben)) + SumWords(Offsets(EncTuples(ops)))
  }

  function SumFraming(ops: seq<PackedUserOp>): nat {
    if ops == [] then 0 else SumFraming(ops[..|ops| - 1]) + TupleFraming(ops[|ops| - 1])
  }

  function SumExcess(ops: seq<PackedUserOp>): int {
    if ops == [] then 0 else SumExcess(ops[..|ops| - 1]) + Excess(ops[|ops| - 1])
  }

  lemma {:induction false} TuplesExactly(bs: seq<Bytes>, ops: seq<PackedUserOp>)
    requires |bs| == |ops| && forall i :: 0 <= i < |ops| ==> bs[i] == EncTuple(ops[i])
    ensures SumPreVerificationGas(ops) + SumFraming(ops) == 32000 * |ops| + SumCost(bs) + SumExcess(ops)
  {
    if ops != [] {
      var n := |ops| - 1;
      TuplesExactly(bs[..n], ops[..n]);
      TupleVersusEstimate(ops[n]);
    }
  }

  lemma CallExactly(selector: Bytes, ops: seq<PackedUserOp>, ben: Address)
    ensures Cost(HandleOps(selector, ops, ben)) == CallFraming(selector, ops, ben) + SumCost(EncTuples(ops))
  {
    var ws, bs := ArgWords(|ops|, ben), EncTuples(ops);
    CostConcat(selector, Flatten(ws) + EncArray(bs));
    CostConcat(Flatten(ws), EncArray(bs));
    CostFlatten(ws);
    CostFrame(Offsets(bs), bs);
  }

  /** The account of a bundle, exactly: what its preVerificationGas pays beyond 21000 per op and the whole real
      calldata is 11000 per op and the over-counted integer bytes, less the framing of the tuples and
      of the call. */
  lemma BundleGasExact(selector: Bytes, ops: seq<PackedUserOp>, ben: Address)
    ensures SumPreVerificationGas(ops) - 21000 * |ops| - Cost(HandleOps(selector, ops, ben))
         == 11000 * |ops| + SumExcess(ops) - SumFraming(ops) - CallFraming(selector, ops, ben)
  {
    CallExactly(selector, ops, ben);
    TuplesExactly(EncTuples(ops), ops);
  }

  /** Bundle gas bound: the summed preVerificationGas pays 21000 per op plus the EIP-2028 cost of the
      whole real handleOps calldata, for every selector, ops and beneficiary, exactly when the
      bundle is not empty. */
  lemma BundleGasBound(selector: Bytes, ops: seq<PackedUserOp>, ben: Address)
    requires |selector| == 4
    ensures SumPreVerificationGas(ops) >= 21000 * |ops| + Cost(HandleOps(selector, ops, ben)) <==> ops != []
  {
    CostCalldata(selector, ops, ben);
    TuplesVersusEstimates(ops);
  }
}
