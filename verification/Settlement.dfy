/** What a receipt makes of a row, column by column: the meaning of the watcher's and Reconcile's writes. */
module Settlement {
  import opened Bytes
  import opened Mempool
  import opened Receipts
  import opened Protocol

  /** A status-1 receipt turns row r of op h into r': untouched when no log of the entry point is about h;
      otherwise confirmed or failed as the last event says, failed without one, with the event's cost,
      the text of the last reason after it, and the receipt's block. Columns it does not give stay. */
  ghost predicate LandedRow(ev: Events, receipt: Receipt, h: Word, r: Row, r': Row, now: int) {
    forall e, q :: LastEvent(ev, receipt.logs, h, e) && LastReason(ev, receipt.logs, h, e, q) ==>
      if e < 0 && q < 0 then r' == r
      else
        r' == r.(status := if e >= 0 && receipt.logs[e].data[63] == 1 then Confirmed else Failed,
                 block := Some(receipt.block),
                 gasCost := if e >= 0 then Some(Nat(receipt.logs[e].data[64..96])) else r.gasCost,
                 reason := if q > e then Some(Text(receipt.logs[q].data)) else r.reason,
                 updatedAt := now)
  }

  /** A receipt with another status: the row at the index that f names fails with f's reason, every other row
      returns to pending. */
  predicate RevertedRow(f: Option<(int, Bytes)>, index: Option<nat>, r: Row, r': Row, now: int) {
    if f.Some? && index.Some? && index.value == f.value.0
    then r' == r.(status := Failed, reason := Some(f.value.1), updatedAt := now)
    else r' == r.(status := Pending, updatedAt := now)
  }

  /** The index and reason that revert data names, if it has the FailedOp selector. */
  function Named(ev: Events, data: Bytes): Option<(int, Bytes)> {
    if |data| >= 4 && data[..4] == ev.failedOp then DecodeFailedOp(data) else None
  }

  ghost predicate SettledRow(ev: Events, receipt: Receipt, data: Bytes, e: Entry, r: Row, r': Row, now: int) {
    if receipt.status == 1 then LandedRow(ev, receipt, e.h, r, r', now)
    else RevertedRow(Named(ev, data), e.index, r, r', now)
  }

  /** What a verdict makes of the row of entry e. */
  ghost predicate VerdictRow(ev: Events, v: Verdict, e: Entry, r: Row, r': Row, now: int) {
    match v
    case Landed(receipt) => LandedRow(ev, receipt, e.h, r, r', now)
    case Reverted(f) => RevertedRow(f, e.index, r, r', now)
  }

  /** No log of the entry point is about h. */
  predicate Unmentioned(ev: Events, receipt: Receipt, h: Word) {
    forall j :: 0 <= j < |receipt.logs| ==> !EventFor(ev, receipt.logs[j], h) && !ReasonFor(ev, receipt.logs[j], h)
  }

  lemma UnmentionedRow(ev: Events, receipt: Receipt, h: Word, r: Row, r': Row, now: int)
    requires Unmentioned(ev, receipt, h) && LandedRow(ev, receipt, h, r, r', now)
    ensures r' == r
  {
    assert LastEvent(ev, receipt.logs, h, -1) && LastReason(ev, receipt.logs, h, -1, -1);
  }

  /** A mentioned row becomes terminal. */
  lemma MentionedRow(ev: Events, receipt: Receipt, h: Word, r: Row, r': Row, now: int)
    requires !Unmentioned(ev, receipt, h) && LandedRow(ev, receipt, h, r, r', now)
    ensures r'.status == Confirmed || r'.status == Failed
  {
    var e := LastEventExists(ev, receipt.logs, h);
    var q := LastReasonExists(ev, receipt.logs, h, e);
  }

  // ----- the decisions of the machine are these -----

  function AfterDecision(r: Row, d: Option<(Status, Extra)>, now: int): Row {
    if d.None? then r else Updated(r, d.value.0, d.value.1, now)
  }

  lemma LandedDecision(ev: Events, receipt: Receipt, e: Entry, r: Row, now: int)
    requires Parse(ev, receipt.logs).Some?
    ensures LandedRow(ev, receipt, e.h, r, AfterDecision(r, Decision(ev, Landed(receipt), e), now), now)
  {
    var r' := AfterDecision(r, Decision(ev, Landed(receipt), e), now);
    ParseReads(ev, receipt.logs, e.h);
    forall j, q | LastEvent(ev, receipt.logs, e.h, j) && LastReason(ev, receipt.logs, e.h, j, q)
      ensures if j < 0 && q < 0 then r' == r
        else
          r' == r.(status := if j >= 0 && receipt.logs[j].data[63] == 1 then Confirmed else Failed,
                   block := Some(receipt.block),
                   gasCost := if j >= 0 then Some(Nat(receipt.logs[j].data[64..96])) else r.gasCost,
                   reason := if q > j then Some(Text(receipt.logs[q].data)) else r.reason,
                   updatedAt := now) {}
  }

  lemma RevertedDecision(ev: Events, f: Option<(int, Bytes)>, e: Entry, r: Row, now: int)
    ensures RevertedRow(f, e.index, r, AfterDecision(r, Decision(ev, Reverted(f), e), now), now)
  {}

  lemma VerdictDecision(ev: Events, v: Verdict, e: Entry, r: Row, now: int)
    requires v.Landed? ==> Parse(ev, v.receipt.logs).Some?
    ensures VerdictRow(ev, v, e, r, AfterDecision(r, Decision(ev, v, e), now), now)
  {
    match v
    case Landed(receipt) => LandedDecision(ev, receipt, e, r, now);
    case Reverted(f) => RevertedDecision(ev, f, e, r, now);
  }

  lemma SettledDecision(ev: Events, receipt: Receipt, data: Bytes, v: Verdict, e: Entry, r: Row, now: int)
    requires VerdictOf(ev, receipt, data) == Some(v)
    ensures SettledRow(ev, receipt, data, e, r, AfterDecision(r, Decision(ev, v, e), now), now)
  {
    VerdictDecision(ev, v, e, r, now);
  }

  /** A row is settled away from submitted, or the same. */
  lemma SettledLeaves(ev: Events, receipt: Receipt, data: Bytes, e: Entry, r: Row, r': Row, now: int)
    requires SettledRow(ev, receipt, data, e, r, r', now)
    ensures r' == r || r'.status == Confirmed || r'.status == Failed || r'.status == Pending
    ensures receipt.status == 1 && r' != r ==> r'.status != Pending
  {
    if receipt.status == 1 {
      var j := LastEventExists(ev, receipt.logs, e.h);
      var q := LastReasonExists(ev, receipt.logs, e.h, j);
    }
  }
}
