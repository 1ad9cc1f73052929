/** The encoders as the bundler runs them: fixed buffers filled by copies, running offsets, appends.
    Each is proved to produce the bytes Abi specifies (internal/bundler/loop.go). */
module Encoders {
  import opened Bytes
  import opened UserOps
  import opened Abi

  function Put(s: Bytes, at: nat, src: Bytes): Bytes
    requires at + |src| <= |s|
  {
    s[..at] + src + s[at + |src|..]
  }

  lemma PutSnoc(s: Bytes, at: nat, src: Bytes, i: nat)
    requires at + |src| <= |s| && i < |src|
    ensures Put(s, at, src[..i])[at + i := src[i]] == Put(s, at, src[..i + 1])
  {}

  /** copy(buf[at:], src) where src fits. */
  method Copy(buf: array<byte>, at: nat, src: Bytes)
    requires at + |src| <= buf.Length
    modifies buf
    ensures buf[..] == Put(old(buf[..]), at, src)
  {
    for i := 0 to |src|
      invariant buf[..] == Put(old(buf[..]), at, src[..i])
    {
      PutSnoc(old(buf[..]), at, src, i);
      buf[at + i] := src[i];
    }
    assert src[..|src|] == src;
  }

  /** The first |ws| slots of s hold the words ws. */
  ghost predicate SlotsAre(s: Bytes, ws: seq<Word>) {
    32 * |ws| <= |s| && forall j :: 0 <= j < |ws| ==> Slot(s, j) == ws[j]
  }

  lemma PutWord(s: Bytes, ws: seq<Word>, k: nat, w: Word)
    requires k < |ws| && SlotsAre(s, ws)
    ensures SlotsAre(Put(s, 32 * k, w), ws[k := w])
  {
    var t := Put(s, 32 * k, w);
    forall j | 0 <= j < |ws| ensures Slot(t, j) == ws[k := w][j] {
      if j == k {
        assert Slot(t, k) == w;
      } else {
        assert Slot(s, j) == ws[j];
        assert forall x :: 32 * j <= x < 32 * (j + 1) ==> t[x] == s[x];
        assert Slot(t, j) == Slot(s, j);
      }
    }
  }

  /** copy(buf[32*k:32*(k+1)], w) */
  method CopyWord(buf: array<byte>, k: nat, w: Word, ghost ws: seq<Word>)
    requires k < |ws| && SlotsAre(buf[..], ws)
    modifies buf
    ensures SlotsAre(buf[..], ws[k := w])
  {
    PutWord(buf[..], ws, k, w);
    Copy(buf, 32 * k, w);
  }

  lemma PutTail(s: Bytes, ws: seq<Word>, at: nat, src: Bytes, done: Bytes)
    requires SlotsAre(s, ws) && 32 * |ws| <= at && at + |src| <= |s| && s[32 * |ws|..at] == done
    ensures var t := Put(s, at, src);
      |t| == |s| && t[32 * |ws|..at + |src|] == done + src && SlotsAre(t, ws)
  {
    var t := Put(s, at, src);
    forall j | 0 <= j < |ws| ensures Slot(t, j) == ws[j] {
      assert Slot(s, j) == ws[j];
      assert forall x :: 32 * j <= x < 32 * (j + 1) ==> t[x] == s[x];
      assert Slot(t, j) == Slot(s, j);
    }
  }

  /** copy(buf[pos:], src) past the head; done is what earlier copies put there. */
  method CopyTail(buf: array<byte>, pos: nat, src: Bytes, ghost ws: seq<Word>, ghost done: Bytes)
    requires SlotsAre(buf[..], ws) && 32 * |ws| <= pos && pos + |src| <= buf.Length
    requires buf[32 * |ws|..pos] == done
    modifies buf
    ensures SlotsAre(buf[..], ws) && buf[32 * |ws|..pos + |src|] == done + src
  {
    PutTail(buf[..], ws, pos, src, done);
    Copy(buf, pos, src);
  }

  method EncodeBytes(data: Bytes) returns (out: Bytes)
    ensures out == EncBytes(data)
  {
    var paddedLen := (|data| + 31) / 32 * 32;
    var buf := new byte[32 + paddedLen](_ => 0);
    assert buf[..] == Zeros(32 + paddedLen);
    Copy(buf, 0, Word32(|data|));
    Copy(buf, 32, data);
    out := buf[..];
    BytesBuffer(Word32(|data|), data, paddedLen);
  }

  lemma BytesBuffer(w: Word, d: Bytes, n: nat)
    requires |d| <= n
    ensures Put(Put(Zeros(32 + n), 0, w), 32, d) == w + d + Zeros(n - |d|)
  {
    assert Put(Zeros(32 + n), 0, w) == w + Zeros(n);
  }

  function HeadWords(op: PackedUserOp, a: nat, b: nat, c: nat, d: nat): seq<Word> {
    [AddressWord(op.sender), Word32(op.nonce), Word32(a), Word32(b), op.accountGasLimits,
     Word32(op.preVerificationGas), op.gasFees, Word32(c), Word32(d)]
  }

  /** The nine head words, copied in the order the code copies them, into a zeroed buffer. */
  method WriteHead(buf: array<byte>, op: PackedUserOp, a: nat, b: nat, c: nat, d: nat)
    requires buf.Length >= 288 && forall i :: 0 <= i < buf.Length ==> buf[i] == 0
    modifies buf
    ensures SlotsAre(buf[..], HeadWords(op, a, b, c, d))
  {
    Copy(buf, 12, op.sender);
    ghost var ws := HeadZero(buf[..], op.sender);
    CopyWord(buf, 1, Word32(op.nonce), ws);
    ws := ws[1 := Word32(op.nonce)];
    CopyWord(buf, 4, op.accountGasLimits, ws);
    ws := ws[4 := op.accountGasLimits];
    CopyWord(buf, 5, Word32(op.preVerificationGas), ws);
    ws := ws[5 := Word32(op.preVerificationGas)];
    CopyWord(buf, 6, op.gasFees, ws);
    ws := ws[6 := op.gasFees];
    CopyWord(buf, 2, Word32(a), ws);
    ws := ws[2 := Word32(a)];
    CopyWord(buf, 3, Word32(b), ws);
    ws := ws[3 := Word32(b)];
    CopyWord(buf, 7, Word32(c), ws);
    ws := ws[7 := Word32(c)];
    CopyWord(buf, 8, Word32(d), ws);
    ws := ws[8 := Word32(d)];
    assert ws == HeadWords(op, a, b, c, d);
  }

  lemma HeadZero(s: Bytes, sender: Address) returns (ws: seq<Word>)
    requires |s| >= 288 && s[..12] == Zeros(12) && s[12..32] == sender
    ensures |ws| == 9 && ws[0] == AddressWord(sender) && SlotsAre(s, ws)
  {
    ws := seq(9, j requires 0 <= j < 9 => Slot(s, j));
    assert Slot(s, 0) == AddressWord(sender);
  }

  method EncodePackedUserOp(op: PackedUserOp) returns (out: Bytes)
    ensures out == EncTuple(op)
  {
    var headSize := 288;
    var initCodeEnc := EncodeBytes(op.initCode);
    var callDataEnc := EncodeBytes(op.callData);
    var pmDataEnc := EncodeBytes(op.paymasterAndData);
    var sigEnc := EncodeBytes(op.signature);
    out := EncodeTuple(op, headSize, initCodeEnc, callDataEnc, pmDataEnc, sigEnc);
    TupleBytes(op, Dynamics(op), initCodeEnc, callDataEnc, pmDataEnc, sigEnc);
  }

  lemma TupleBytes(op: PackedUserOp, ds: seq<Bytes>, i: Bytes, c: Bytes, p: Bytes, g: Bytes)
    requires |ds| == 4 && Dynamics(op) == ds && ds[0] == i && ds[1] == c && ds[2] == p && ds[3] == g
    ensures EncTuple(op)
         == Flatten(HeadWords(op, 288, 288 + |i|, 288 + |i| + |c|, 288 + |i| + |c| + |p|)) + (i + c + p + g)
  {
    HeadOffsets(op, ds, i, c, p);
    FrameOfFour(Head(op), ds);
  }

  lemma FrameOfFour(ws: seq<Word>, ds: seq<Bytes>)
    requires |ds| == 4
    ensures Frame(ws, ds) == Flatten(ws) + (ds[0] + ds[1] + ds[2] + ds[3])
  {
    FourTails(ds);
  }

  lemma HeadOffsets(op: PackedUserOp, ds: seq<Bytes>, i: Bytes, c: Bytes, p: Bytes)
    requires |ds| == 4 && Dynamics(op) == ds && ds[0] == i && ds[1] == c && ds[2] == p
    ensures Head(op) == HeadWords(op, 288, 288 + |i|, 288 + |i| + |c|, 288 + |i| + |c| + |p|)
  {
    FourTails(ds);
  }

  lemma FourTails(ds: seq<Bytes>)
    requires |ds| == 4
    ensures Concat(ds) == ds[0] + ds[1] + ds[2] + ds[3]
    ensures TailAt(9, ds, 0) == 288 && TailAt(9, ds, 1) == 288 + |ds[0]|
    ensures TailAt(9, ds, 2) == 288 + |ds[0]| + |ds[1]| && TailAt(9, ds, 3) == 288 + |ds[0]| + |ds[1]| + |ds[2]|
  {
    TailEnd(9, ds, 0);
    TailEnd(9, ds, 1);
    TailEnd(9, ds, 2);
    assert ds[..0] == [];
    assert ds[..1] == [ds[0]] && Concat([ds[0]]) == ds[0];
    assert ds[..2][..1] == ds[..1] && ds[..3][..2] == ds[..2] && ds[..4][..3] == ds[..3] && ds[..4] == ds;
  }

  /** The buffer part of encodePackedUserOp, with the running tailOffset and pos. */
  method EncodeTuple(op: PackedUserOp, headSize: nat, i: Bytes, c: Bytes, p: Bytes, g: Bytes) returns (out: Bytes)
    requires headSize == 288
    ensures out == Flatten(HeadWords(op, 288, 288 + |i|, 288 + |i| + |c|, 288 + |i| + |c| + |p|)) + (i + c + p + g)
  {
    var totalSize := headSize + |i| + |c| + |p| + |g|;
    var buf := new byte[totalSize](_ => 0);
    var tailOffset := headSize;
    var o1 := tailOffset;
    tailOffset := tailOffset + |i|;
    var o2 := tailOffset;
    tailOffset := tailOffset + |c|;
    var o3 := tailOffset;
    tailOffset := tailOffset + |p|;
    WriteHead(buf, op, o1, o2, o3, tailOffset);
    ghost var ws := HeadWords(op, o1, o2, o3, tailOffset);
    WriteTail(buf, headSize, i, c, p, g, ws);
    out := buf[..];
    HeadThenTail(out, ws, i + c + p + g);
  }

  method WriteTail(buf: array<byte>, headSize: nat, i: Bytes, c: Bytes, p: Bytes, g: Bytes, ghost ws: seq<Word>)
    requires |ws| == 9 && headSize == 288 && SlotsAre(buf[..], ws)
    requires buf.Length == headSize + |i| + |c| + |p| + |g|
    modifies buf
    ensures SlotsAre(buf[..], ws) && buf[..][288..] == i + c + p + g
  {
    var pos := headSize;
    assert buf[32 * |ws|..pos] == [];
    CopyTail(buf, pos, i, ws, []);
    assert [] + i == i;
    pos := pos + |i|;
    CopyTail(buf, pos, c, ws, i);
    pos := pos + |c|;
    CopyTail(buf, pos, p, ws, i + c);
    pos := pos + |p|;
    CopyTail(buf, pos, g, ws, i + c + p);
  }

  lemma SlotOfPrefix(s: Bytes, n: nat, j: nat)
    requires 32 * (j + 1) <= n <= |s|
    ensures Slot(s[..n], j) == Slot(s, j)
  {}

  lemma HeadThenTail(s: Bytes, ws: seq<Word>, tail: Bytes)
    requires SlotsAre(s, ws) && s[32 * |ws|..] == tail
    ensures s == Flatten(ws) + tail
  {
    var h := s[..32 * |ws|];
    forall j | 0 <= j < |ws| ensures Slot(h, j) == ws[j] {
      assert Slot(s, j) == ws[j];
      SlotOfPrefix(s, 32 * |ws|, j);
    }
    FlattenOfSlots(h, ws);
    assert s == h + tail;
  }

  /** BuildHandleOpsCalldata: append the head, encode the ops, append the offset words while summing
      currentOffset, append the encoded ops. */
  method BuildHandleOpsCalldata(selector: Bytes, ops: seq<PackedUserOp>, beneficiary: Address) returns (buf: Bytes)
    ensures buf == HandleOps(selector, ops, beneficiary)
  {
    buf := selector;
    buf := buf + Word32(64);
    buf := buf + AddressWord(beneficiary);
    buf := buf + Word32(|ops|);
    var encodedOps := EncodeOps(ops);
    var tail := AppendArray(encodedOps);
    buf := buf + tail;
    ThreeWords(selector, Word32(64), AddressWord(beneficiary), Word32(|ops|), tail);
  }

  method EncodeOps(ops: seq<PackedUserOp>) returns (encodedOps: seq<Bytes>)
    ensures encodedOps == EncTuples(ops)
  {
    encodedOps := [];
    for i := 0 to |ops|
      invariant encodedOps == EncTuples(ops[..i])
    {
      var enc := EncodePackedUserOp(ops[i]);
      encodedOps := encodedOps + [enc];
      MapSnoc(EncTuple, ops, i);
    }
    assert ops[..|ops|] == ops;
  }

  lemma MapSnoc<A, B>(f: A -> B, s: seq<A>, i: nat)
    requires i < |s|
    ensures Map(f, s[..i + 1]) == Map(f, s[..i]) + [f(s[i])]
  {}

  lemma ThreeWords(selector: Bytes, a: Word, b: Word, c: Word, e: Bytes)
    ensures selector + a + b + c + e == selector + (Flatten([a, b, c]) + e)
  {
    var ws := [a, b, c];
    FlattenSnoc(ws, 0);
    FlattenSnoc(ws, 1);
    FlattenSnoc(ws, 2);
    assert ws[..0] == [] && ws[..3] == ws;
    assert Flatten(ws) == a + b + c;
  }

  /** The two appending loops over the encoded ops. */
  method AppendArray(encodedOps: seq<Bytes>) returns (buf: Bytes)
    ensures buf == EncArray(encodedOps)
  {
    var n := |encodedOps|;
    buf := [];
    var currentOffset := n * 32;
    ghost var ws := Offsets(encodedOps);
    for i := 0 to n
      invariant currentOffset == TailAt(n, encodedOps, i)
      invariant buf == Flatten(ws[..i])
    {
      buf := buf + Word32(currentOffset);
      FlattenSnoc(ws, i);
      TailEnd(n, encodedOps, i);
      currentOffset := currentOffset + |encodedOps[i]|;
    }
    assert ws[..n] == ws;
    ghost var head := buf;
    for i := 0 to n
      invariant buf == head + Concat(encodedOps[..i])
    {
      buf := buf + encodedOps[i];
      assert encodedOps[..i + 1][..i] == encodedOps[..i];
    }
    assert encodedOps[..n] == encodedOps;
  }

  lemma {:induction false} FlattenSnoc(ws: seq<Word>, i: nat)
    requires i < |ws|
    ensures Flatten(ws[..i + 1]) == Flatten(ws[..i]) + ws[i]
  {
    if i == 0 {
      assert ws[..1] == [ws[0]] && [ws[0]][1..] == [] && ws[..0] == [];
    } else {
      FlattenSnoc(ws[1..], i - 1);
      assert ws[..i + 1][1..] == ws[1..][..i] && ws[..i][1..] == ws[1..][..i - 1];
    }
  }
}
