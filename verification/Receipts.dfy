/** Reading bundle receipts and revert data (internal/bundler/receipt.go). A Go slice-bounds
    panic is modelled as None. */
module Receipts {
  import opened Bytes

  datatype Log = Log(address: Address, topics: seq<Word>, data: Bytes)

  datatype Receipt = Receipt(status: nat, block: nat, logs: seq<Log>)

  datatype Outcome = Outcome(success: bool, gasCost: Option<nat>, reason: Option<Bytes>)

  type Outcomes = map<Word, Outcome>

  /** The entry point watched and the keccak constants it is recognised by. */
  datatype Events = Events(entryPoint: Address, opEvent: Word, revertReason: Word, failedOp: Bytes)

  /** big.Int.Int64 and int arithmetic: the low 64 bits, two's complement. */
  function Int64(n: int): int {
    var m := n % 0x1_0000_0000_0000_0000;
    if m >= 0x8000_0000_0000_0000 then m - 0x1_0000_0000_0000_0000 else m
  }

  /** The text of a UserOperationRevertReason log, clamped to the data present. */
  function ReasonText(data: Bytes): Option<Bytes>
    requires |data| >= 96
  {
    var end := Int64(96 + Int64(Nat(data[64..96])));
    var stop := if end > |data| then |data| else end;
    if stop < 96 then None else Some(data[96..stop])
  }

  predicate Readable(c: Events, log: Log) {
    log.address == c.entryPoint && |log.topics| >= 2 && |log.data| >= 96
  }

  predicate IsEvent(c: Events, log: Log) { Readable(c, log) && log.topics[0] == c.opEvent }

  predicate IsReason(c: Events, log: Log) {
    Readable(c, log) && log.topics[0] == c.revertReason && log.topics[0] != c.opEvent
  }

  function EventOutcome(log: Log): Outcome
    requires |log.data| >= 96
  {
    Outcome(log.data[63] == 1, Some(Nat(log.data[64..96])), None)
  }

  /** One round of the log loop. */
  function ApplyLog(c: Events, m: Outcomes, log: Log): Option<Outcomes> {
    if IsEvent(c, log) then Some(m[log.topics[1] := EventOutcome(log)])
    else if IsReason(c, log) then
      var text := ReasonText(log.data);
      if text.None? then None
      else
        var h := log.topics[1];
        Some(m[h := if h in m then m[h].(reason := text) else Outcome(false, None, text)])
    else Some(m)
  }

  function Parse(c: Events, logs: seq<Log>): Option<Outcomes> {
    if logs == [] then Some(map[])
    else
      var m := Parse(c, logs[..|logs| - 1]);
      if m.None? then None else ApplyLog(c, m.value, logs[|logs| - 1])
  }

  /** The loop. */
  method ParseHandleOpsReceipt(c: Events, r: Receipt) returns (panicked: bool, outcomes: Outcomes)
    ensures if panicked then Parse(c, r.logs).None? else Parse(c, r.logs) == Some(outcomes)
    ensures panicked <==> exists i :: 0 <= i < |r.logs| && OverlongAt(c, r.logs[i])
    ensures !panicked ==> forall h :: Reads(c, r.logs, outcomes, h)
  {
    ParsePanicsIff(c, r.logs);
    outcomes := map[];
    panicked := false;
    for i := 0 to |r.logs|
      invariant !panicked && Parse(c, r.logs[..i]) == Some(outcomes)
    {
      assert r.logs[..i + 1][..i] == r.logs[..i];
      panicked, outcomes := ReadLog(c, outcomes, r.logs[i]);
      if panicked {
        ParsePrefixPanics(c, r.logs, i + 1);
        return;
      }
    }
    assert r.logs[..|r.logs|] == r.logs;
    AllRead(c, r.logs);
  }

  /** Its body, where a `continue` is a return. A log of another contract, of another kind, or too short is
      passed over; an event replaces the op's outcome; a reason only sets its text. */
  method ReadLog(c: Events, m: Outcomes, log: Log) returns (panicked: bool, outcomes: Outcomes)
    ensures panicked == ApplyLog(c, m, log).None?
    ensures !panicked ==> outcomes == ApplyLog(c, m, log).value
    ensures panicked <==> OverlongAt(c, log)
    ensures |log.topics| >= 2 && EventFor(c, log, log.topics[1]) ==>
      outcomes == m[log.topics[1] := Outcome(log.data[63] == 1, Some(Nat(log.data[64..96])), None)]
    ensures |log.topics| >= 2 && ReasonFor(c, log, log.topics[1]) && !panicked ==>
      var h := log.topics[1];
      outcomes == m[h := if h in m then Outcome(m[h].success, m[h].gasCost, Some(Text(log.data)))
                         else Outcome(false, None, Some(Text(log.data)))]
    ensures |log.topics| < 2 || (!EventFor(c, log, log.topics[1]) && !ReasonFor(c, log, log.topics[1])) ==>
      !panicked && outcomes == m
  {
    panicked, outcomes := false, m;
    if log.address != c.entryPoint { return; }
    if |log.topics| == 0 { return; }
    if log.topics[0] == c.opEvent {
      if |log.topics| < 2 { return; }
      if |log.data| < 96 { return; }
      outcomes := outcomes[log.topics[1] := Outcome(log.data[63] == 1, Some(Nat(log.data[64..96])), None)];
    } else if log.topics[0] == c.revertReason {
      if |log.topics| < 2 { return; }
      var h := log.topics[1];
      if |log.data| < 96 { return; }
      var end := Int64(96 + Int64(Nat(log.data[64..96])));
      if end > |log.data| { end := |log.data|; }
      SlicePanicsIff(log.data);
      if end < 96 { return true, m; }
      var reason := log.data[96..end];
      ReasonIsText(log.data);
      if h in outcomes {
        outcomes := outcomes[h := outcomes[h].(reason := Some(reason))];
      } else {
        outcomes := outcomes[h := Outcome(false, None, Some(reason))];
      }
    }
  }

  lemma {:induction false} ParsePrefixPanics(c: Events, logs: seq<Log>, i: nat)
    requires i <= |logs| && Parse(c, logs[..i]).None?
    ensures Parse(c, logs).None?
    decreases |logs| - i
  {
    if i == |logs| {
      assert logs[..i] == logs;
    } else {
      assert logs[..i + 1][..i] == logs[..i];
      ParsePrefixPanics(c, logs, i + 1);
    }
  }

  // ----- what a receipt says, in terms of its logs alone -----

  /** The entry point's UserOperationEvent for op h. */
  predicate EventFor(c: Events, log: Log, h: Word) {
    && log.address == c.entryPoint && |log.data| >= 96
    && |log.topics| >= 2 && log.topics[0] == c.opEvent && log.topics[1] == h
  }

  /** The entry point's UserOperationRevertReason for op h. */
  predicate ReasonFor(c: Events, log: Log, h: Word) {
    && log.address == c.entryPoint && |log.data| >= 96
    && |log.topics| >= 2 && log.topics[0] == c.revertReason && log.topics[0] != c.opEvent && log.topics[1] == h
  }

  /** The low 64 bits of the length field of a log. */
  function LengthField(data: Bytes): nat
    requires |data| >= 96
  {
    Nat(data[64..96]) % 0x1_0000_0000_0000_0000
  }

  /** The text of a reason log: as many bytes as the length field says, or all there are. */
  function Text(data: Bytes): Bytes
    requires |data| >= 96
  {
    if 96 + LengthField(data) <= |data| then data[96..96 + LengthField(data)] else data[96..]
  }

  /** e is the position of the last event log for h, or -1 when there is none. */
  ghost predicate LastEvent(c: Events, logs: seq<Log>, h: Word, e: int) {
    && -1 <= e < |logs|
    && (e >= 0 ==> EventFor(c, logs[e], h))
    && (forall j :: e < j < |logs| ==> !EventFor(c, logs[j], h))
  }

  /** r is the position of the last reason log for h after position e, or e when there is none. */
  ghost predicate LastReason(c: Events, logs: seq<Log>, h: Word, e: int, r: int) {
    && -1 <= e <= r < |logs|
    && (r > e ==> ReasonFor(c, logs[r], h))
    && (forall j :: r < j < |logs| ==> !ReasonFor(c, logs[j], h))
  }

  /** The outcome the last event at e and the last reason after it at r make of an op: success and cost are
      the event's, the text is the reason's. */
  predicate Told(logs: seq<Log>, e: int, r: int, o: Outcome)
    requires -1 <= e <= r < |logs|
    requires (e >= 0 ==> |logs[e].data| >= 96) && (r > e ==> |logs[r].data| >= 96)
  {
    && o.success == (e >= 0 && logs[e].data[63] == 1)
    && o.gasCost == (if e >= 0 then Some(Nat(logs[e].data[64..96])) else None)
    && o.reason == (if r > e then Some(Text(logs[r].data)) else None)
  }

  /** m has an outcome for h exactly when some log of the entry point is about h, and it is the one the last
      event and the last reason after it tell. */
  ghost predicate Reads(c: Events, logs: seq<Log>, m: Outcomes, h: Word) {
    forall e, r :: LastEvent(c, logs, h, e) && LastReason(c, logs, h, e, r) ==>
      if e < 0 && r < 0 then h !in m else h in m && Told(logs, e, r, m[h])
  }

  lemma SameEvents(c: Events, log: Log, h: Word)
    ensures EventFor(c, log, h) <==> IsEvent(c, log) && log.topics[1] == h
    ensures ReasonFor(c, log, h) <==> IsReason(c, log) && log.topics[1] == h
  {}

  /** Every h has a last event position. */
  lemma {:induction false} LastEventExists(c: Events, logs: seq<Log>, h: Word) returns (e: int)
    ensures LastEvent(c, logs, h, e)
  {
    e := |logs| - 1;
    while e >= 0 && !EventFor(c, logs[e], h)
      invariant -1 <= e < |logs|
      invariant forall j :: e < j < |logs| ==> !EventFor(c, logs[j], h)
    {
      e := e - 1;
    }
  }

  lemma {:induction false} LastReasonExists(c: Events, logs: seq<Log>, h: Word, e: int) returns (r: int)
    requires -1 <= e < |logs|
    ensures LastReason(c, logs, h, e, r)
  {
    r := |logs| - 1;
    while r > e && !ReasonFor(c, logs[r], h)
      invariant e <= r < |logs|
      invariant forall j :: r < j < |logs| ==> !ReasonFor(c, logs[j], h)
    {
      r := r - 1;
    }
  }

  lemma ReasonIsText(data: Bytes)
    requires |data| >= 96 && ReasonText(data).Some?
    ensures ReasonText(data).value == Text(data)
  {}

  /** The log loop reads a receipt just so, for every h, wherever its logs stand. */
  lemma {:induction false} ParseMeaning(c: Events, logs: seq<Log>, h: Word, e: int, r: int)
    requires Parse(c, logs).Some?
    requires LastEvent(c, logs, h, e) && LastReason(c, logs, h, e, r)
    ensures h in Parse(c, logs).value <==> e >= 0 || r >= 0
    ensures r >= 0 || e >= 0 ==> Told(logs, e, r, Parse(c, logs).value[h])
  {
    if logs != [] {
      var n := |logs| - 1;
      var init := logs[..n];
      SameEvents(c, logs[n], h);
      assert forall j :: 0 <= j < n ==> init[j] == logs[j];
      if e == n {
        assert r == n;
      } else if r == n {
        var r' := LastReasonExists(c, init, h, e);
        ParseMeaning(c, init, h, e, r');
        ReasonIsText(logs[n].data);
      } else {
        ParseMeaning(c, init, h, e, r);
      }
    }
  }

  lemma ParseReads(c: Events, logs: seq<Log>, h: Word)
    requires Parse(c, logs).Some?
    ensures Reads(c, logs, Parse(c, logs).value, h)
  {
    forall e, r | LastEvent(c, logs, h, e) && LastReason(c, logs, h, e, r)
      ensures if e < 0 && r < 0 then h !in Parse(c, logs).value
              else h in Parse(c, logs).value && Told(logs, e, r, Parse(c, logs).value[h]) {
      ParseMeaning(c, logs, h, e, r);
    }
  }

  lemma AllRead(c: Events, logs: seq<Log>)
    requires Parse(c, logs).Some?
    ensures forall h :: Reads(c, logs, Parse(c, logs).value, h)
  {
    forall h ensures Reads(c, logs, Parse(c, logs).value, h) { ParseReads(c, logs, h); }
  }

  /** The logs of one contract, in order. */
  function LogsOf(a: Address, logs: seq<Log>): seq<Log> {
    if logs == [] then []
    else LogsOf(a, logs[..|logs| - 1]) + (if logs[|logs| - 1].address == a then [logs[|logs| - 1]] else [])
  }

  /** Logs of other contracts make no difference: not to what is read, and not to whether it panics. */
  lemma {:induction false} OtherLogsIgnored(c: Events, logs: seq<Log>)
    ensures Parse(c, logs) == Parse(c, LogsOf(c.entryPoint, logs))
  {
    if logs != [] {
      var n := |logs| - 1;
      OtherLogsIgnored(c, logs[..n]);
      var fs := LogsOf(c.entryPoint, logs[..n]);
      var gs := LogsOf(c.entryPoint, logs);
      if logs[n].address == c.entryPoint {
        assert gs == fs + [logs[n]] && gs[..|gs| - 1] == fs && gs[|gs| - 1] == logs[n];
      } else {
        assert gs == fs;
        assert Parse(c, logs) == Parse(c, logs[..n]);
      }
    }
  }

  /** A successful outcome always carries a gas cost. */
  lemma SuccessHasCost(c: Events, logs: seq<Log>, h: Word)
    requires Parse(c, logs).Some? && h in Parse(c, logs).value && Parse(c, logs).value[h].success
    ensures Parse(c, logs).value[h].gasCost.Some?
  {
    var e := LastEventExists(c, logs, h);
    var r := LastReasonExists(c, logs, h, e);
    ParseMeaning(c, logs, h, e, r);
  }

  // ----- panics and well-formed reasons -----

  /** The low 64 bits of a reason log's length field, plus the 96 bytes before the text, do not fit a
      non-negative int64. */
  predicate Overlong(data: Bytes)
    requires |data| >= 96
  {
    LengthField(data) >= 0x8000_0000_0000_0000 - 96
  }

  lemma SlicePanicsIff(data: Bytes)
    requires |data| >= 96
    ensures ReasonText(data).None? <==> Overlong(data)
  {}

  /** A reason log of the entry point with an overlong length field. */
  predicate OverlongAt(c: Events, log: Log) {
    && log.address == c.entryPoint && |log.data| >= 96
    && |log.topics| >= 2 && log.topics[0] == c.revertReason && log.topics[0] != c.opEvent
    && LengthField(log.data) >= 0x8000_0000_0000_0000 - 96
  }

  /** The parser panics exactly when some reason log's length field is overlong, however much data
      follows it. */
  lemma {:induction false} ParsePanicsIff(c: Events, logs: seq<Log>)
    ensures Parse(c, logs).None? <==>
      exists i :: 0 <= i < |logs| && OverlongAt(c, logs[i])
  {
    if logs != [] {
      if |logs[|logs| - 1].data| >= 96 { SlicePanicsIff(logs[|logs| - 1].data); }
      var n := |logs| - 1;
      var init := logs[..n];
      assert forall j :: 0 <= j < n ==> init[j] == logs[j];
      ParsePanicsIff(c, init);
      assert logs[n] == logs[|logs| - 1];
    }
  }

  /** A reason log whose length field is 2^63. */
  function OverlongLog(c: Events, h: Word): Log {
    Log(c.entryPoint, [c.revertReason, h], Zeros(88) + [128] + Zeros(7))
  }

  /** One such log makes any receipt unreadable, wherever it stands and whatever op it names. */
  lemma OverlongLogPanics(c: Events, h: Word, before: seq<Log>, after: seq<Log>)
    requires c.revertReason != c.opEvent
    ensures Parse(c, before + [OverlongLog(c, h)] + after).None?
  {
    var log, logs := OverlongLog(c, h), before + [OverlongLog(c, h)] + after;
    assert log.data[64..96] == Zeros(24) + ([128] + Zeros(7));
    TwoTo63();
    assert logs[|before|] == log && OverlongAt(c, logs[|before|]);
    ParsePanicsIff(c, logs);
  }

  /** ABI form of UserOperationRevertReason(.., uint256 nonce, bytes revertReason): nonce, offset, length and
      text, without the trailing zero padding. */
  function ReasonData(nonce: Word, reason: Bytes): Bytes { nonce + Word32(64) + Word32(|reason|) + reason }

  /** A well-formed reason log for h, whatever padding follows, is read as the reason it carries: over any
      receipt that ends with it. */
  lemma ReasonRoundTrip(c: Events, logs: seq<Log>, h: Word, more: seq<Word>, nonce: Word, reason: Bytes, padding: Bytes)
    requires c.revertReason != c.opEvent && |ReasonData(nonce, reason) + padding| <= MAX_LEN
    requires Parse(c, logs).Some?
    ensures var log := Log(c.entryPoint, [c.revertReason, h] + more, ReasonData(nonce, reason) + padding);
      && Parse(c, logs + [log]).Some? && h in Parse(c, logs + [log]).value
      && Parse(c, logs + [log]).value[h].reason == Some(reason)
  {
    var data := ReasonData(nonce, reason) + padding;
    var log := Log(c.entryPoint, [c.revertReason, h] + more, data);
    ReasonSlices(nonce, Word32(64), Word32(|reason|), reason, padding);
    LengthWordValue(|reason|);
    assert (logs + [log])[..|logs|] == logs;
    SlicePanicsIff(data);
    ReasonIsText(data);
  }

  lemma ReasonSlices(a: Word, b: Word, n: Word, reason: Bytes, padding: Bytes)
    ensures var d := a + b + n + reason + padding;
      |d| >= 96 && d[64..96] == n && d[96..96 + |reason|] == reason
  {}

  lemma TwoTo63()
    ensures Nat(Zeros(24) + ([128] + Zeros(7))) == 0x8000_0000_0000_0000
  {
    var b: Bytes := [128];
    NatZeros(24, b + Zeros(7));
    NatConcat(b, Zeros(7));
    NatZeros(7, []);
    assert Zeros(7) + [] == Zeros(7);
    assert b[..0] == [] && Nat(b) == 128;
    Pow256Of8();
    assert Pow256(8) == 256 * Pow256(7);
  }

  // ----- FailedOp revert data -----

  const UNKNOWN: Bytes := Ascii("unknown")

  function DecodeFailedOp(data: Bytes): Option<(int, Bytes)> {
    if |data| < 36 then Some((0, UNKNOWN))
    else
      var idx := Int64(Nat(data[4..36]));
      if |data| < 68 then Some((idx, UNKNOWN))
      else
        var start := Int64(4 + Int64(Nat(data[36..68])));
        var body := Int64(start + 32);
        if |data| < body then Some((idx, UNKNOWN))
        else if !(0 <= start <= body) then None
        else
          var end := Int64(body + Int64(Nat(data[start..body])));
          var stop := if end > |data| then |data| else end;
          if stop < body then None else Some((idx, data[body..stop]))
  }

  /** ABI form of FailedOp(uint256 opIndex, string reason), without the trailing zero padding. */
  function FailedOpData(selector: Bytes, i: nat, reason: Bytes): Bytes {
    selector + Word32(i) + Word32(64) + Word32(|reason|) + reason
  }

  lemma FailedOpSlices(selector: Bytes, a: Word, b: Word, gap: Bytes, n: Word, reason: Bytes, padding: Bytes)
    requires |selector| == 4
    ensures var d, o := selector + a + b + gap + n + reason + padding, 68 + |gap|;
      && |d| >= o + 32 + |reason| && d[4..36] == a && d[36..68] == b && d[o..o + 32] == n
      && d[o + 32..o + 32 + |reason|] == reason
  {}

  lemma PlainSlices(selector: Bytes, a: Word, b: Word, n: Word, reason: Bytes, padding: Bytes)
    requires |selector| == 4
    ensures var d := selector + a + b + n + reason + padding;
      && |d| >= 100 + |reason| && d[4..36] == a && d[36..68] == b && d[68..100] == n
      && d[100..100 + |reason|] == reason
  {}

  lemma FailedOpFields(d: Bytes, i: nat, o: nat, reason: Bytes)
    requires o >= 64 && o + 36 + |reason| <= |d| <= MAX_LEN && i <= MAX_LEN
    requires Nat(d[4..36]) == i && Nat(d[36..68]) == o && Nat(d[4 + o..36 + o]) == |reason|
    requires d[36 + o..36 + o + |reason|] == reason
    ensures DecodeFailedOp(d) == Some((i, reason))
  {
    Int64Small(i);
    Int64Small(o);
    Int64Small(4 + o);
    Int64Small(36 + o);
    Int64Small(|reason|);
    Int64Small(36 + o + |reason|);
  }

  lemma Int64Small(n: nat)
    requires n <= MAX_LEN
    ensures Int64(n) == n
  {}

  /** Data too short for an index is read as index 0, and data without room for the reason as reason "unknown". */
  lemma ShortFailedOp(d: Bytes)
    ensures |d| < 36 ==> DecodeFailedOp(d) == Some((0, Ascii("unknown")))
    ensures 36 <= |d| < 68 && Nat(d[4..36]) <= MAX_LEN ==> DecodeFailedOp(d) == Some((Nat(d[4..36]), Ascii("unknown")))
  {}

  /** The decoder follows the offset: wherever the reason stands, index and reason are read back. */
  lemma FailedOpAnywhere(selector: Bytes, i: nat, gap: Bytes, reason: Bytes, padding: Bytes)
    requires |selector| == 4 && i <= MAX_LEN
    requires 100 + |gap| + |reason| + |padding| <= MAX_LEN
    ensures DecodeFailedOp(selector + Word32(i) + Word32(64 + |gap|) + gap + Word32(|reason|) + reason + padding)
         == Some((i, reason))
  {
    var d := selector + Word32(i) + Word32(64 + |gap|) + gap + Word32(|reason|) + reason + padding;
    FailedOpSlices(selector, Word32(i), Word32(64 + |gap|), gap, Word32(|reason|), reason, padding);
    LengthWordValue(i);
    LengthWordValue(64 + |gap|);
    LengthWordValue(|reason|);
    FailedOpFields(d, i, 64 + |gap|, reason);
  }

  /** Decoding well-formed data, whatever padding follows, returns the index and reason encoded. */
  lemma FailedOpRoundTrip(selector: Bytes, i: nat, reason: Bytes, padding: Bytes)
    requires |selector| == 4 && i <= MAX_LEN
    requires |FailedOpData(selector, i, reason) + padding| <= MAX_LEN
    ensures DecodeFailedOp(FailedOpData(selector, i, reason) + padding) == Some((i, reason))
  {
    PlainSlices(selector, Word32(i), Word32(64), Word32(|reason|), reason, padding);
    LengthWordValue(i);
    LengthWordValue(64);
    LengthWordValue(|reason|);
    FailedOpFields(FailedOpData(selector, i, reason) + padding, i, 64, reason);
  }
}
