/** The hand-written ABI encoder of handleOps and shouldSponsor calldata, and a decoder that follows
    the Solidity Contract ABI Specification independently
    (internal/bundler/loop.go, internal/paymaster/paymaster.go). */
module Abi {
  import opened Bytes
  import opened UserOps

  // ----- heads and tails -----

  function Concat(bs: seq<Bytes>): Bytes {
    if bs == [] then [] else Concat(bs[..|bs| - 1]) + bs[|bs| - 1]
  }

  /** Head words followed by the tails of the dynamic components. */
  function Frame(ws: seq<Word>, tails: seq<Bytes>): Bytes { Flatten(ws) + Concat(tails) }

  /** Where tail k starts in a frame of n head words. */
  function TailAt(n: nat, tails: seq<Bytes>, k: nat): nat
    requires k <= |tails|
  {
    32 * n + |Concat(tails[..k])|
  }

  // ----- the bytes produced -----

  function PaddedLen(n: nat): nat { (n + 31) / 32 * 32 }

  /** bytes: length word, data, zero padding to a multiple of 32. */
  function EncBytes(d: Bytes): Bytes { Word32(|d|) + d + Zeros(PaddedLen(|d|) - |d|) }

  /** The encoded dynamic fields of an op, in order. */
  function Dynamics(op: PackedUserOp): seq<Bytes> {
    [EncBytes(op.initCode), EncBytes(op.callData), EncBytes(op.paymasterAndData), EncBytes(op.signature)]
  }

  function Head(op: PackedUserOp): seq<Word> {
    var ds := Dynamics(op);
    [AddressWord(op.sender), Word32(op.nonce), Word32(TailAt(9, ds, 0)), Word32(TailAt(9, ds, 1)),
     op.accountGasLimits, Word32(op.preVerificationGas), op.gasFees,
     Word32(TailAt(9, ds, 2)), Word32(TailAt(9, ds, 3))]
  }

  function EncTuple(op: PackedUserOp): Bytes { Frame(Head(op), Dynamics(op)) }

  function Map<A, B>(f: A -> B, s: seq<A>): (r: seq<B>)
    ensures |r| == |s|
  {
    seq(|s|, i requires 0 <= i < |s| => f(s[i]))
  }

  function EncTuples(ops: seq<PackedUserOp>): seq<Bytes> { Map(EncTuple, ops) }

  /** The offset words of array elements. */
  function Offsets(bs: seq<Bytes>): seq<Word> {
    seq(|bs|, i requires 0 <= i < |bs| => Word32(TailAt(|bs|, bs, i)))
  }

  function EncArray(bs: seq<Bytes>): Bytes { Frame(Offsets(bs), bs) }

  function ArgWords(n: nat, beneficiary: Address): seq<Word> {
    [Word32(64), AddressWord(beneficiary), Word32(n)]
  }

  function HandleOps(selector: Bytes, ops: seq<PackedUserOp>, beneficiary: Address): Bytes {
    selector + (Flatten(ArgWords(|ops|, beneficiary)) + EncArray(EncTuples(ops)))
  }

  function ShouldSponsorCall(selector: Bytes, op: PackedUserOp): Bytes {
    selector + Word32(32) + EncTuple(op)
  }

  // ----- the specification decoder -----

  function ReadWord(b: Bytes, off: nat): Option<Word> {
    if off + 32 <= |b| then Some(b[off..off + 32]) else None
  }

  function ReadNat(b: Bytes, off: nat): Option<nat> {
    var w := ReadWord(b, off);
    if w.None? then None else Some(Nat(w.value))
  }

  /** An address word with nonzero high bytes is rejected. */
  function ReadAddress(b: Bytes, off: nat): Option<Address> {
    var w := ReadWord(b, off);
    if w.None? || w.value[..12] != Zeros(12) then None else Some(w.value[12..])
  }

  /** A dynamic bytes value at byte offset off. */
  function ReadBytes(b: Bytes, off: nat): Option<Bytes> {
    var n := ReadNat(b, off);
    if n.None? || off + 32 + n.value > |b| then None else Some(b[off + 32..off + 32 + n.value])
  }

  /** A dynamic bytes member of a tuple: its head slot holds an offset from the tuple's start. */
  function ReadMember(t: Bytes, slot: nat): Option<Bytes> {
    var o := ReadNat(t, 32 * slot);
    if o.None? then None else ReadBytes(t, o.value)
  }

  /** A PackedUserOperation whose encoding starts at the beginning of t. */
  function DecodeTuple(t: Bytes): Option<PackedUserOp> {
    var sender, nonce := ReadAddress(t, 0), ReadNat(t, 32);
    var initCode, callData := ReadMember(t, 2), ReadMember(t, 3);
    var limits, pvg, fees := ReadWord(t, 128), ReadNat(t, 160), ReadWord(t, 192);
    var pm, sig := ReadMember(t, 7), ReadMember(t, 8);
    if sender.None? || nonce.None? || initCode.None? || callData.None? || limits.None? || pvg.None?
       || fees.None? || pm.None? || sig.None?
    then None
    else Some(PackedUserOp(sender.value, nonce.value, initCode.value, callData.value, limits.value,
                           pvg.value, fees.value, pm.value, sig.value))
  }

  /** Element i of a dynamic array of tuples whose offset words start at the beginning of e. */
  function DecodeElement(e: Bytes, i: nat): Option<PackedUserOp> {
    var o := ReadNat(e, 32 * i);
    if o.None? || o.value > |e| then None else DecodeTuple(e[o.value..])
  }

  /** The first n results of f, if all are present. */
  function Gather<T>(f: nat -> Option<T>, n: nat): Option<seq<T>> {
    if n == 0 then Some([])
    else
      var init := Gather(f, n - 1);
      var last := f(n - 1);
      if init.None? || last.None? then None else Some(init.value + [last.value])
  }

  function DecodeElements(e: Bytes, n: nat): Option<seq<PackedUserOp>> {
    Gather((i: nat) => DecodeElement(e, i), n)
  }

  datatype Call = Call(ops: seq<PackedUserOp>, beneficiary: Address)

  function DecodeHandleOps(selector: Bytes, cd: Bytes): Option<Call> {
    if |selector| != 4 || |cd| < 4 || cd[..4] != selector then None
    else
      var args := cd[4..];
      var arr, ben := ReadNat(args, 0), ReadAddress(args, 32);
      if arr.None? || ben.None? then None
      else
        var n := ReadNat(args, arr.value);
        if n.None? then None
        else
          var ops := DecodeElements(args[arr.value + 32..], n.value);
          if ops.None? then None else Some(Call(ops.value, ben.value))
  }

  function DecodeShouldSponsor(selector: Bytes, cd: Bytes): Option<PackedUserOp> {
    if |selector| != 4 || |cd| < 4 || cd[..4] != selector then None
    else
      var o := ReadNat(cd[4..], 0);
      if o.None? || o.value > |cd| - 4 then None else DecodeTuple(cd[4..][o.value..])
  }

  // ----- frames -----

  lemma {:induction false} ConcatSplit(bs: seq<Bytes>, k: nat)
    requires k < |bs|
    ensures Concat(bs) == Concat(bs[..k]) + bs[k] + Concat(bs[k + 1..])
  {
    var n := |bs| - 1;
    if k == n {
      assert bs[..k] == bs[..n] && bs[k + 1..] == [];
    } else {
      var init := bs[..n];
      ConcatSplit(init, k);
      var r := bs[k + 1..];
      assert init[..k] == bs[..k] && init[k + 1..] == r[..|r| - 1] && r[|r| - 1] == bs[n];
    }
  }

  lemma FrameLength(ws: seq<Word>, tails: seq<Bytes>)
    ensures |Frame(ws, tails)| == TailAt(|ws|, tails, |tails|)
  {
    FlattenLength(ws);
    assert tails[..|tails|] == tails;
  }

  lemma TailEnd(n: nat, tails: seq<Bytes>, k: nat)
    requires k < |tails|
    ensures TailAt(n, tails, k + 1) == TailAt(n, tails, k) + |tails[k]|
  {
    assert tails[..k + 1][..k] == tails[..k];
  }

  lemma FrameSlot(ws: seq<Word>, tails: seq<Bytes>, post: Bytes, j: nat)
    requires j < |ws|
    ensures ReadWord(Frame(ws, tails) + post, 32 * j) == Some(ws[j])
  {
    FlattenSlot(ws, Concat(tails) + post, j);
    assert Frame(ws, tails) + post == Flatten(ws) + (Concat(tails) + post);
  }

  /** A tail starts where TailAt says, and ends inside the frame. */
  lemma FrameTail(ws: seq<Word>, tails: seq<Bytes>, post: Bytes, k: nat)
    requires k < |tails|
    ensures var o := TailAt(|ws|, tails, k);
      && o + |tails[k]| <= |Frame(ws, tails)|
      && (Frame(ws, tails) + post)[o..] == tails[k] + (Concat(tails[k + 1..]) + post)
  {
    FlattenLength(ws);
    ConcatSplit(tails, k);
    assert Frame(ws, tails) + post
        == (Flatten(ws) + Concat(tails[..k])) + (tails[k] + (Concat(tails[k + 1..]) + post));
  }

  // ----- round trip of one tuple -----

  lemma EncBytesLength(d: Bytes)
    ensures |EncBytes(d)| == 32 + PaddedLen(|d|)
    ensures |EncBytes(d)| % 32 == 0 && |d| <= PaddedLen(|d|) < |d| + 32
  {}

  lemma ReadBytesBack(t: Bytes, o: nat, d: Bytes, rest: Bytes)
    requires o <= |t| && t[o..] == EncBytes(d) + rest && |d| <= MAX_LEN
    ensures ReadBytes(t, o) == Some(d)
  {
    EncBytesSlices(d, rest);
    SliceOfSuffix(t, o, 0, 32);
    SliceOfSuffix(t, o, 32, 32 + |d|);
    LengthWordValue(|d|);
  }

  lemma EncBytesSlices(d: Bytes, rest: Bytes)
    ensures var u := EncBytes(d) + rest;
      |u| >= 32 + |d| && u[0..32] == Word32(|d|) && u[32..32 + |d|] == d
  {
    EncBytesLength(d);
    ThreePartSlices(Word32(|d|), d, Zeros(PaddedLen(|d|) - |d|), rest);
  }

  lemma ThreePartSlices(w: Word, d: Bytes, z: Bytes, rest: Bytes)
    ensures var u := w + d + z + rest; u[0..32] == w && u[32..32 + |d|] == d
  {}

  lemma SliceOfSuffix(t: Bytes, o: nat, a: nat, b: nat)
    requires a <= b && o + b <= |t|
    ensures t[o..][a..b] == t[o + a..o + b]
  {}

  /** A dynamic member whose head slot holds its tail's offset reads back. */
  lemma MemberBack(ws: seq<Word>, tails: seq<Bytes>, post: Bytes, slot: nat, k: nat, d: Bytes)
    requires slot < |ws| && k < |tails| && |Frame(ws, tails)| <= MAX_LEN
    requires ws[slot] == Word32(TailAt(|ws|, tails, k)) && tails[k] == EncBytes(d)
    ensures ReadMember(Frame(ws, tails) + post, slot) == Some(d)
  {
    var o := TailAt(|ws|, tails, k);
    FrameSlot(ws, tails, post, slot);
    FrameTail(ws, tails, post, k);
    EncBytesLength(d);
    LengthWordValue(o);
    ReadBytesBack(Frame(ws, tails) + post, o, d, Concat(tails[k + 1..]) + post);
  }

  lemma FrameMembers(ws: seq<Word>, ds: seq<Bytes>, post: Bytes, i: Bytes, c: Bytes, p: Bytes, g: Bytes)
    requires |ws| == 9 && |Frame(ws, ds)| <= MAX_LEN
    requires ds == [EncBytes(i), EncBytes(c), EncBytes(p), EncBytes(g)]
    requires ws[2] == Word32(TailAt(9, ds, 0)) && ws[3] == Word32(TailAt(9, ds, 1))
    requires ws[7] == Word32(TailAt(9, ds, 2)) && ws[8] == Word32(TailAt(9, ds, 3))
    ensures var t := Frame(ws, ds) + post;
      && ReadMember(t, 2) == Some(i) && ReadMember(t, 3) == Some(c)
      && ReadMember(t, 7) == Some(p) && ReadMember(t, 8) == Some(g)
  {
    MemberBack(ws, ds, post, 2, 0, i);
    MemberBack(ws, ds, post, 3, 1, c);
    MemberBack(ws, ds, post, 7, 2, p);
    MemberBack(ws, ds, post, 8, 3, g);
  }

  lemma FrameStatics(ws: seq<Word>, ds: seq<Bytes>, post: Bytes)
    requires |ws| == 9
    ensures var t := Frame(ws, ds) + post;
      && ReadWord(t, 0) == Some(ws[0]) && ReadWord(t, 32) == Some(ws[1]) && ReadWord(t, 128) == Some(ws[4])
      && ReadWord(t, 160) == Some(ws[5]) && ReadWord(t, 192) == Some(ws[6])
  {
    FrameSlot(ws, ds, post, 0);
    FrameSlot(ws, ds, post, 1);
    FrameSlot(ws, ds, post, 4);
    FrameSlot(ws, ds, post, 5);
    FrameSlot(ws, ds, post, 6);
  }

  lemma AddressBack(a: Address, t: Bytes, o: nat)
    requires ReadWord(t, o) == Some(AddressWord(a))
    ensures ReadAddress(t, o) == Some(a)
  {
    AddressWordValue(a, a);
    assert AddressWord(a)[..12] == Zeros(12);
  }

  lemma TupleOfParts(t: Bytes, op: PackedUserOp)
    requires ReadAddress(t, 0) == Some(op.sender) && ReadNat(t, 32) == Some(Nat(Word32(op.nonce)))
    requires ReadMember(t, 2) == Some(op.initCode) && ReadMember(t, 3) == Some(op.callData)
    requires ReadWord(t, 128) == Some(op.accountGasLimits) && ReadWord(t, 192) == Some(op.gasFees)
    requires ReadNat(t, 160) == Some(Nat(Word32(op.preVerificationGas)))
    requires ReadMember(t, 7) == Some(op.paymasterAndData) && ReadMember(t, 8) == Some(op.signature)
    ensures DecodeTuple(t) == Some(Canonical(op))
  {}

  /** Decoding a tuple encoding, whatever follows it, gives the op with its integers read as words. */
  lemma TupleRoundTrip(op: PackedUserOp, post: Bytes)
    requires |EncTuple(op)| <= MAX_LEN
    ensures DecodeTuple(EncTuple(op) + post) == Some(Canonical(op))
  {
    var ws, ds, t := Head(op), Dynamics(op), EncTuple(op) + post;
    FrameMembers(ws, ds, post, op.initCode, op.callData, op.paymasterAndData, op.signature);
    FrameStatics(ws, ds, post);
    AddressBack(op.sender, t, 0);
    TupleOfParts(t, op);
  }

  // ----- round trip of the array -----

  /** Offset word j points at element j. */
  lemma ElementAt(bs: seq<Bytes>, j: nat)
    requires j < |bs| && |EncArray(bs)| <= MAX_LEN
    ensures var o := TailAt(|bs|, bs, j);
      && ReadNat(EncArray(bs), 32 * j) == Some(o)
      && o + |bs[j]| <= |EncArray(bs)|
      && EncArray(bs)[o..] == bs[j] + Concat(bs[j + 1..])
  {
    var ws := Offsets(bs);
    var o := TailAt(|bs|, bs, j);
    FrameSlot(ws, bs, [], j);
    FrameTail(ws, bs, [], j);
    assert EncArray(bs) + [] == EncArray(bs);
    assert Concat(bs[j + 1..]) + [] == Concat(bs[j + 1..]);
    LengthWordValue(o);
  }

  function Canonicals(ops: seq<PackedUserOp>): seq<PackedUserOp> {
    seq(|ops|, i requires 0 <= i < |ops| => Canonical(ops[i]))
  }

  lemma ElementDecodes(bs: seq<Bytes>, j: nat, op: PackedUserOp)
    requires j < |bs| && |EncArray(bs)| <= MAX_LEN && bs[j] == EncTuple(op)
    ensures DecodeElement(EncArray(bs), j) == Some(Canonical(op))
  {
    ElementAt(bs, j);
    TupleRoundTrip(op, Concat(bs[j + 1..]));
  }

  lemma {:induction false} GatherAll<T>(f: nat -> Option<T>, cs: seq<T>, n: nat)
    requires n <= |cs| && forall i: nat :: i < |cs| ==> f(i) == Some(cs[i])
    ensures Gather(f, n) == Some(cs[..n])
  {
    if n > 0 {
      GatherAll(f, cs, n - 1);
      assert cs[..n] == cs[..n - 1] + [cs[n - 1]];
    }
  }

  lemma ElementsDecode(ops: seq<PackedUserOp>)
    requires |EncArray(EncTuples(ops))| <= MAX_LEN
    ensures DecodeElements(EncArray(EncTuples(ops)), |ops|) == Some(Canonicals(ops))
  {
    var bs, cs := EncTuples(ops), Canonicals(ops);
    var e := EncArray(bs);
    var f := (i: nat) => DecodeElement(e, i);
    forall i: nat | i < |cs| ensures f(i) == Some(cs[i]) {
      ElementDecodes(bs, i, ops[i]);
    }
    GatherAll(f, cs, |cs|);
    assert cs[..|cs|] == cs;
  }

  /** The three words before the array and where the array starts. */
  lemma ArgsLayout(ws: seq<Word>, e: Bytes)
    requires |ws| == 3
    ensures var args := Flatten(ws) + e;
      && |args| == 96 + |e| && args[96..] == e
      && ReadWord(args, 0) == Some(ws[0]) && ReadWord(args, 32) == Some(ws[1]) && ReadWord(args, 64) == Some(ws[2])
  {
    FlattenLength(ws);
    FlattenSlot(ws, e, 0);
    FlattenSlot(ws, e, 1);
    FlattenSlot(ws, e, 2);
  }

  lemma DecodeArgs(selector: Bytes, args: Bytes, e: Bytes, n: nat, ben: Address)
    requires |selector| == 4 && |args| == 96 + |e| && args[96..] == e
    requires ReadNat(args, 0) == Some(64) && ReadAddress(args, 32) == Some(ben) && ReadNat(args, 64) == Some(n)
    ensures var ops := DecodeElements(e, n);
      ops.Some? ==> DecodeHandleOps(selector, selector + args) == Some(Call(ops.value, ben))
  {
    var cd := selector + args;
    assert cd[..4] == selector && cd[4..] == args;
  }

  lemma ArraySize(bs: seq<Bytes>)
    ensures |EncArray(bs)| == 32 * |bs| + |Concat(bs)|
  {
    FrameLength(Offsets(bs), bs);
    assert bs[..|bs|] == bs;
  }

  lemma AfterArgs(selector: Bytes, ws: seq<Word>, e: Bytes)
    requires |selector| == 4 && |ws| == 3
    ensures var cd := selector + (Flatten(ws) + e); |cd| == 100 + |e| && cd[100..] == e
  {
    ArgsLayout(ws, e);
    var args := Flatten(ws) + e;
    assert (selector + args)[100..] == args[96..];
  }

  lemma CalldataSize(selector: Bytes, ops: seq<PackedUserOp>, ben: Address)
    requires |selector| == 4
    ensures |HandleOps(selector, ops, ben)| == 100 + |EncArray(EncTuples(ops))| >= 100 + 32 * |ops|
    ensures HandleOps(selector, ops, ben)[100..] == EncArray(EncTuples(ops))
  {
    ArraySize(EncTuples(ops));
    AfterArgs(selector, ArgWords(|ops|, ben), EncArray(EncTuples(ops)));
  }

  /** ABI round trip: for every list of ops and every beneficiary, the decoder recovers exactly that
      list (integers read as words) and that beneficiary from the calldata. */
  lemma HandleOpsRoundTrip(selector: Bytes, ops: seq<PackedUserOp>, ben: Address)
    requires |selector| == 4 && |HandleOps(selector, ops, ben)| <= MAX_LEN
    ensures DecodeHandleOps(selector, HandleOps(selector, ops, ben)) == Some(Call(Canonicals(ops), ben))
  {
    var ws := ArgWords(|ops|, ben);
    var e := EncArray(EncTuples(ops));
    var args := Flatten(ws) + e;
    CalldataSize(selector, ops, ben);
    ArgsLayout(ws, e);
    LengthWordValue(64);
    LengthWordValue(|ops|);
    AddressBack(ben, args, 32);
    ElementsDecode(ops);
    DecodeArgs(selector, args, e, |ops|, ben);
  }

  /** Hence the encoding is injective up to the word values of the two integers, and injective
      outright on ops whose integers are uint256 values. */
  lemma HandleOpsInjective(selector: Bytes, a: seq<PackedUserOp>, x: Address, b: seq<PackedUserOp>, y: Address)
    requires |selector| == 4 && |HandleOps(selector, a, x)| <= MAX_LEN
    requires HandleOps(selector, a, x) == HandleOps(selector, b, y)
    ensures x == y && Canonicals(a) == Canonicals(b)
    ensures (forall i :: 0 <= i < |a| ==> InRange(a[i])) && (forall i :: 0 <= i < |b| ==> InRange(b[i])) ==> a == b
  {
    HandleOpsRoundTrip(selector, a, x);
    HandleOpsRoundTrip(selector, b, y);
    CanonicalsInRange(a);
    CanonicalsInRange(b);
  }

  lemma CanonicalsInRange(a: seq<PackedUserOp>)
    ensures Canonicals(a) == a <==> forall i :: 0 <= i < |a| ==> InRange(a[i])
  {
    forall i | 0 <= i < |a| ensures Canonicals(a)[i] == a[i] <==> InRange(a[i]) { CanonicalIff(a[i]); }
  }

  lemma DynamicsAligned(op: PackedUserOp, k: nat)
    requires k < 4
    ensures |Dynamics(op)[k]| % 32 == 0 && |Dynamics(op)[k]| >= 32
  {
    EncBytesLength([op.initCode, op.callData, op.paymasterAndData, op.signature][k]);
  }

  lemma FrameAligned(ws: seq<Word>, tails: seq<Bytes>)
    requires forall i :: 0 <= i < |tails| ==> |tails[i]| % 32 == 0
    ensures |Frame(ws, tails)| % 32 == 0 && |Frame(ws, tails)| >= 32 * |ws|
  {
    FrameLength(ws, tails);
    ConcatAligned(tails, |tails|);
  }

  lemma TupleAligned(op: PackedUserOp)
    ensures |EncTuple(op)| % 32 == 0 && |EncTuple(op)| >= 288
  {
    var ws, ds := Head(op), Dynamics(op);
    forall i | 0 <= i < |ds| ensures |ds[i]| % 32 == 0 { DynamicsAligned(op, i); }
    FrameAligned(ws, ds);
  }

  lemma {:induction false} ConcatAligned(bs: seq<Bytes>, k: nat)
    requires k <= |bs| && forall i :: 0 <= i < |bs| ==> |bs[i]| % 32 == 0
    ensures |Concat(bs[..k])| % 32 == 0
  {
    if k > 0 {
      ConcatAligned(bs, k - 1);
      assert bs[..k][..k - 1] == bs[..k - 1];
    }
  }

  /** Layout of the array: element offsets are multiples of 32 and strictly increasing, element j
      starts at its offset word and ends exactly where element j+1 starts, the last one at the end
      of the calldata. */
  lemma ElementLayout(selector: Bytes, ops: seq<PackedUserOp>, ben: Address, j: nat)
    requires |selector| == 4 && |HandleOps(selector, ops, ben)| <= MAX_LEN && j < |ops|
    ensures |HandleOps(selector, ops, ben)| >= 100
    ensures var e := HandleOps(selector, ops, ben)[100..];
      var here := ReadNat(e, 32 * j);
      var end := if j + 1 < |ops| then ReadNat(e, 32 * (j + 1)) else Some(|e|);
      && here.Some? && end.Some?
      && here.value % 32 == 0 && 32 * |ops| <= here.value < end.value <= |e|
      && e[here.value..end.value] == EncTuple(ops[j])
  {
    CalldataSize(selector, ops, ben);
    var bs := EncTuples(ops);
    forall i | 0 <= i < |bs| ensures |bs[i]| % 32 == 0 && |bs[i]| >= 288 { TupleAligned(ops[i]); }
    ArrayLayout(bs, j);
  }

  /** One tail of a frame: aligned, non-empty, and exactly between its offset and the next. */
  lemma TailLayout(ws: seq<Word>, tails: seq<Bytes>, k: nat)
    requires k < |tails| && |tails[k]| > 0
    requires forall i :: 0 <= i < |tails| ==> |tails[i]| % 32 == 0
    ensures var o, o' := TailAt(|ws|, tails, k), TailAt(|ws|, tails, k + 1);
      && o % 32 == 0 && 32 * |ws| <= o < o' <= |Frame(ws, tails)|
      && Frame(ws, tails)[o..o'] == tails[k]
      && (k + 1 == |tails| ==> o' == |Frame(ws, tails)|)
  {
    var f := Frame(ws, tails);
    var o := TailAt(|ws|, tails, k);
    FrameLength(ws, tails);
    FrameTail(ws, tails, [], k);
    TailEnd(|ws|, tails, k);
    ConcatAligned(tails, k);
    assert f + [] == f;
    assert f[o..o + |tails[k]|] == f[o..][..|tails[k]|];
  }

  lemma ArrayLayout(bs: seq<Bytes>, j: nat)
    requires j < |bs| && |EncArray(bs)| <= MAX_LEN && |bs[j]| > 0
    requires forall i :: 0 <= i < |bs| ==> |bs[i]| % 32 == 0
    ensures var e := EncArray(bs);
      var here := ReadNat(e, 32 * j);
      var end := if j + 1 < |bs| then ReadNat(e, 32 * (j + 1)) else Some(|e|);
      && here.Some? && end.Some?
      && here.value % 32 == 0 && 32 * |bs| <= here.value < end.value <= |e|
      && e[here.value..end.value] == bs[j]
  {
    TailLayout(Offsets(bs), bs, j);
    ElementAt(bs, j);
    if j + 1 < |bs| { ElementAt(bs, j + 1); }
  }

  /** Layout of one tuple: the four offset words are multiples of 32, strictly increasing, and each
      dynamic field occupies exactly the bytes up to the next one, the last up to the tuple's end. */
  lemma MemberLayout(op: PackedUserOp, k: nat)
    requires k < 4
    ensures var o, o' := TailAt(9, Dynamics(op), k), TailAt(9, Dynamics(op), k + 1);
      && o % 32 == 0 && 288 <= o < o' <= |EncTuple(op)|
      && EncTuple(op)[o..o'] == Dynamics(op)[k]
      && (k == 3 ==> o' == |EncTuple(op)|)
      && ReadWord(EncTuple(op), 32 * [2, 3, 7, 8][k]) == Some(Word32(o))
  {
    var ws, ds := Head(op), Dynamics(op);
    forall i | 0 <= i < |ds| ensures |ds[i]| % 32 == 0 && |ds[i]| > 0 { DynamicsAligned(op, i); }
    TailLayout(ws, ds, k);
    OffsetWord(op, k);
  }

  lemma OffsetWord(op: PackedUserOp, k: nat)
    requires k < 4
    ensures ReadWord(EncTuple(op), 32 * [2, 3, 7, 8][k]) == Some(Word32(TailAt(9, Dynamics(op), k)))
  {
    var ws, ds, slot := Head(op), Dynamics(op), [2, 3, 7, 8][k];
    FrameSlot(ws, ds, [], slot);
    assert Frame(ws, ds) + [] == Frame(ws, ds);
    assert k == 0 || k == 1 || k == 2 || k == 3;
  }

  /** The shouldSponsor call carries the same tuple bytes as a handleOps element, and decodes to the op. */
  lemma ShouldSponsorRoundTrip(selector: Bytes, op: PackedUserOp)
    requires |selector| == 4 && |ShouldSponsorCall(selector, op)| <= MAX_LEN
    ensures DecodeShouldSponsor(selector, ShouldSponsorCall(selector, op)) == Some(Canonical(op))
    ensures EncTuples([op])[0] == ShouldSponsorCall(selector, op)[36..]
  {
    TupleAligned(op);
    SponsorArgs(selector, Word32(32), EncTuple(op));
    LengthWordValue(32);
    TupleRoundTrip(op, []);
    assert EncTuple(op) + [] == EncTuple(op);
  }

  lemma SponsorArgs(selector: Bytes, w: Word, t: Bytes)
    requires |selector| == 4
    ensures var cd := selector + w + t;
      && |cd| == 36 + |t| && cd[..4] == selector && cd[36..] == t && ReadWord(cd[4..], 0) == Some(w)
      && cd[4..][32..] == t
  {
    var cd := selector + w + t;
    assert cd[4..] == w + t;
    assert cd[4..][0..32] == w;
  }
}
