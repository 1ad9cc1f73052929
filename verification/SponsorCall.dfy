/** The paymaster service's own encoder of the shouldSponsor call (internal/paymaster/paymaster.go). It
    repeats the bundler's tuple encoding in code of its own; both are proved to produce the bytes Abi
    specifies. */
module SponsorCall {
  import opened Bytes
  import opened UserOps
  import opened Abi
  import opened Encoders

  /** The service's encodeBytes. */
  method EncodeBytesForCall(data: Bytes) returns (out: Bytes)
    ensures out == EncBytes(data)
  {
    var paddedLen := (|data| + 31) / 32 * 32;
    var buf := new byte[32 + paddedLen](_ => 0);
    assert buf[..] == Zeros(32 + paddedLen);
    Copy(buf, 0, Word32(|data|));
    Copy(buf, 32, data);
    out := buf[..];
    BytesBuffer(Word32(|data|), data, paddedLen);
  }

  /** The five static fields, in the order the service copies them into a zeroed buffer. */
  method StaticFields(buf: array<byte>, op: PackedUserOp) returns (ghost ws: seq<Word>)
    requires buf.Length >= 288 && forall i :: 0 <= i < buf.Length ==> buf[i] == 0
    modifies buf
    ensures SlotsAre(buf[..], ws) && |ws| == 9
    ensures ws[0] == AddressWord(op.sender) && ws[1] == Word32(op.nonce) && ws[4] == op.accountGasLimits
    ensures ws[5] == Word32(op.preVerificationGas) && ws[6] == op.gasFees
  {
    Copy(buf, 12, op.sender);
    ws := HeadZero(buf[..], op.sender);
    CopyWord(buf, 1, Word32(op.nonce), ws);
    ws := ws[1 := Word32(op.nonce)];
    CopyWord(buf, 4, op.accountGasLimits, ws);
    ws := ws[4 := op.accountGasLimits];
    CopyWord(buf, 5, Word32(op.preVerificationGas), ws);
    ws := ws[5 := Word32(op.preVerificationGas)];
    CopyWord(buf, 6, op.gasFees, ws);
    ws := ws[6 := op.gasFees];
  }

  /** The dynamic field offsets, each copied before tailOffset moves on to the next. */
  method OffsetFields(buf: array<byte>, i: Bytes, c: Bytes, p: Bytes, ghost head: seq<Word>)
    requires |head| == 9 && SlotsAre(buf[..], head)
    modifies buf
    ensures SlotsAre(buf[..], head[2 := Word32(288)][3 := Word32(288 + |i|)]
                                  [7 := Word32(288 + |i| + |c|)][8 := Word32(288 + |i| + |c| + |p|)])
  {
    ghost var ws := head;
    var tailOffset := 288;
    CopyWord(buf, 2, Word32(tailOffset), ws);
    ws := ws[2 := Word32(tailOffset)];
    tailOffset := tailOffset + |i|;
    CopyWord(buf, 3, Word32(tailOffset), ws);
    ws := ws[3 := Word32(tailOffset)];
    tailOffset := tailOffset + |c|;
    CopyWord(buf, 7, Word32(tailOffset), ws);
    ws := ws[7 := Word32(tailOffset)];
    tailOffset := tailOffset + |p|;
    CopyWord(buf, 8, Word32(tailOffset), ws);
  }

  /** The head as a whole. */
  method FillHead(buf: array<byte>, op: PackedUserOp, i: Bytes, c: Bytes, p: Bytes)
    requires buf.Length >= 288 && forall i :: 0 <= i < buf.Length ==> buf[i] == 0
    modifies buf
    ensures SlotsAre(buf[..], HeadWords(op, 288, 288 + |i|, 288 + |i| + |c|, 288 + |i| + |c| + |p|))
  {
    ghost var ws := StaticFields(buf, op);
    OffsetFields(buf, i, c, p, ws);
    ws := ws[2 := Word32(288)][3 := Word32(288 + |i|)]
            [7 := Word32(288 + |i| + |c|)][8 := Word32(288 + |i| + |c| + |p|)];
    assert ws == HeadWords(op, 288, 288 + |i|, 288 + |i| + |c|, 288 + |i| + |c| + |p|);
  }

  /** The encoded fields one after the other behind the head. */
  method DynamicData(buf: array<byte>, i: Bytes, c: Bytes, p: Bytes, g: Bytes, ghost ws: seq<Word>)
    requires |ws| == 9 && SlotsAre(buf[..], ws) && buf.Length == 288 + |i| + |c| + |p| + |g|
    modifies buf
    ensures SlotsAre(buf[..], ws) && buf[..][32 * |ws|..] == i + c + p + g
  {
    ghost var done: Bytes := [];
    var pos := 288;
    CopyTail(buf, pos, i, ws, done);
    done := done + i;
    pos := pos + |i|;
    CopyTail(buf, pos, c, ws, done);
    done := done + c;
    pos := pos + |c|;
    CopyTail(buf, pos, p, ws, done);
    done := done + p;
    pos := pos + |p|;
    CopyTail(buf, pos, g, ws, done);
    assert done == i + c + p;
  }

  method EncodePackedUserOpForCall(op: PackedUserOp) returns (out: Bytes)
    ensures out == EncTuple(op)
  {
    var initCodeEnc := EncodeBytesForCall(op.initCode);
    var callDataEnc := EncodeBytesForCall(op.callData);
    var pmDataEnc := EncodeBytesForCall(op.paymasterAndData);
    var sigEnc := EncodeBytesForCall(op.signature);
    out := FillTuple(op, initCodeEnc, callDataEnc, pmDataEnc, sigEnc);
    TupleBytes(op, Dynamics(op), initCodeEnc, callDataEnc, pmDataEnc, sigEnc);
  }

  method FillTuple(op: PackedUserOp, i: Bytes, c: Bytes, p: Bytes, g: Bytes) returns (out: Bytes)
    ensures out == Flatten(HeadWords(op, 288, 288 + |i|, 288 + |i| + |c|, 288 + |i| + |c| + |p|)) + (i + c + p + g)
  {
    var buf := new byte[288 + |i| + |c| + |p| + |g|](_ => 0);
    FillHead(buf, op, i, c, p);
    ghost var ws := HeadWords(op, 288, 288 + |i|, 288 + |i| + |c|, 288 + |i| + |c| + |p|);
    DynamicData(buf, i, c, p, g, ws);
    out := buf[..];
    HeadThenTail(out, ws, i + c + p + g);
  }

  /** encodeShouldSponsorCall: selector, the offset of the one parameter, the tuple. */
  method EncodeShouldSponsorCall(selector: Bytes, op: PackedUserOp) returns (buf: Bytes)
    ensures buf == ShouldSponsorCall(selector, op)
  {
    buf := selector;
    buf := buf + Word32(32);
    var encoded := EncodePackedUserOpForCall(op);
    buf := buf + encoded;
  }
}
