/** The protocol's inductive invariant and the proof that every step of every actor keeps it. */
module Invariant {
  import opened Bytes
  import opened UserOps
  import opened Mempool
  import opened Receipts
  import opened Protocol

  /** The rows the loop has claimed and not yet written back. */
  function Held(l: LoopPc): set<Word> {
    match l
    case LClaimed(b) => set i | 0 <= i < |b| :: b[i].h
    case LWriting(b, _, n) => set i | n <= i < |b| :: b[i].h
    case _ => {}
  }

  // ----- rows -----

  /** A status-1 receipt of the row's own transaction, fetched earlier, reports this op a success,
      and the row records that report's gas cost and the receipt's block. */
  ghost predicate Evidence(c: Config, seen: set<(Tx, Receipt)>, h: Word, r: Row) {
    r.bundleTx.Some? && exists p :: p in seen && p.0 == r.bundleTx.value && Reports(c.events, p.1, h, r)
  }

  predicate Reports(c: Events, p: Receipt, h: Word, r: Row) {
    && p.status == 1 && Parse(c, p.logs).Some? && h in Parse(c, p.logs).value
    && Parse(c, p.logs).value[h].success
    && r.gasCost.Some? && r.gasCost == Parse(c, p.logs).value[h].gasCost && r.block == Some(p.block)
  }

  ghost predicate RowOk(c: Config, seen: set<(Tx, Receipt)>, h: Word, r: Row) {
    && (r.status == Submitted || r.status == Confirmed ==>
          r.bundleTx.Some? && r.bundleIndex.Some? && r.submittedAt.Some?)
    && (r.status == Confirmed ==> Evidence(c, seen, h, r))
  }

  ghost predicate RowsOk(c: Config, seen: set<(Tx, Receipt)>, t: Table) {
    forall h :: h in t ==> RowOk(c, seen, h, t[h])
  }

  // ----- ownership -----

  /** Claimed rows are in bundling, and nobody but the loop will move them. */
  ghost predicate LoopOk(s: State) {
    && (s.phase != Up ==> s.loop.LIdle?)
    && (!s.loop.LIdle? ==> s.loop.batch != [] && Distinct(Hashes(s.loop.batch)))
    && (forall h :: h in Held(s.loop) ==> h in s.table && s.table[h].status == Bundling)
    && (s.loop.LWriting? ==> s.loop.next < |s.loop.batch|)
  }

  ghost predicate VisitOk(c: Config, seen: set<(Tx, Receipt)>, t: Table, todo: map<Tx, seq<Entry>>, v: Visit) {
    && v.tx !in todo && v.rest != [] && DistinctEntries(v.rest)
    && (forall i :: 0 <= i < |v.rest| ==> Owned(t, v.tx, v.rest[i]))
    && (v.verdict.Landed? ==>
          (v.tx, v.verdict.receipt) in seen && v.verdict.receipt.status == 1
          && Parse(c.events, v.verdict.receipt.logs).Some?)
  }

  /** Rows in the watcher's snapshot are still submitted, under the transaction they were grouped by. */
  ghost predicate WatchOk(c: Config, s: State) {
    && (s.phase == Down || s.phase == Swept || s.phase == Checked ==> s.watch.WIdle?)
    && (s.watch.WBusy? ==>
          && (forall tx :: tx in s.watch.todo ==> s.watch.todo[tx] != [] && DistinctEntries(s.watch.todo[tx]))
          && (forall tx, i :: tx in s.watch.todo && 0 <= i < |s.watch.todo[tx]| ==>
                Owned(s.table, tx, s.watch.todo[tx][i]))
          && (s.watch.visit.Some? ==> VisitOk(c, s.hist.seen, s.table, s.watch.todo, s.watch.visit.value)))
  }

  /** Unless a loop write was lost, bundling rows are exactly the ones the loop still holds. */
  ghost predicate NotStuck(s: State) {
    s.phase != Down && !s.hist.lost ==>
      forall h :: h in s.table && s.table[h].status == Bundling ==> h in Held(s.loop)
  }

  // ----- carriage and nonces -----

  predicate CarryRow(s: State, h: Word)
    requires h in s.hist.carrier && h in s.table
  {
    var r := s.table[h];
    || Terminal(r.status)
    || (r.status == Submitted && r.bundleTx == Some(s.hist.carrier[h]))
    || (r.status == Bundling && h in Held(s.loop) && s.loop.LWriting? && s.loop.goal.GoSubmit?
        && s.loop.goal.tx == s.hist.carrier[h])
  }

  /** What is left of a visit to a reverted transaction. */
  function RevertedRest(w: WatchPc): seq<Entry> {
    if w.WBusy? && w.visit.Some? && w.visit.value.verdict.Reverted? then w.visit.value.rest else []
  }

  /** An op with an unresolved carrier is not pending and not about to be bundled again. */
  ghost predicate CarryOk(s: State) {
    !s.hist.tainted ==>
      && (forall h :: h in s.hist.carrier && h in s.table ==> CarryRow(s, h))
      && (forall e :: e in RevertedRest(s.watch) ==> e.h !in s.hist.carrier)
  }

  ghost predicate NonceOk(s: State) {
    !s.hist.behind ==>
      && (forall i, j :: 0 <= i < j < |s.hist.sent| ==> s.hist.sent[i].nonce < s.hist.sent[j].nonce)
      && (s.phase == Up ==> forall i :: 0 <= i < |s.hist.sent| ==> s.hist.sent[i].nonce < s.nonce)
  }

  ghost predicate Inv(c: Config, s: State) {
    && UniqueLive(s.table) && RowsOk(c, s.hist.seen, s.table)
    && LoopOk(s) && WatchOk(c, s) && NotStuck(s) && CarryOk(s) && NonceOk(s)
  }

  lemma StartOk(c: Config)
    ensures Inv(c, START)
  {}

  // ----- what a step has to leave alone -----

  /** Rows that are new or changed are neither submitted nor confirmed. */
  lemma RowsFrame(c: Config, seen: set<(Tx, Receipt)>, t: Table, u: Table)
    requires RowsOk(c, seen, t)
    requires forall h :: h in u ==>
      (h in t && u[h] == t[h]) || (u[h].status != Submitted && u[h].status != Confirmed)
    ensures RowsOk(c, seen, u)
  {}

  /** The bundling rows are the same. */
  lemma LoopFrame(s: State, s': State)
    requires LoopOk(s) && NotStuck(s)
    requires s'.loop == s.loop && s'.phase == s.phase && s'.hist.lost == s.hist.lost
    requires forall h :: h in s.table && s.table[h].status == Bundling ==> h in s'.table && s'.table[h] == s.table[h]
    requires forall h :: h in s'.table && s'.table[h].status == Bundling ==> h in s.table && s'.table[h] == s.table[h]
    ensures LoopOk(s') && NotStuck(s')
  {}

  /** The submitted rows are the same. */
  lemma WatchFrame(c: Config, s: State, s': State)
    requires WatchOk(c, s)
    requires s'.watch == s.watch && s'.phase == s.phase && s'.hist.seen == s.hist.seen
    requires forall h :: h in s.table && s.table[h].status == Submitted ==> h in s'.table && s'.table[h] == s.table[h]
    ensures WatchOk(c, s')
  {
    if s.watch.WBusy? {
      forall tx, i | tx in s.watch.todo && 0 <= i < |s.watch.todo[tx]|
        ensures Owned(s'.table, tx, s.watch.todo[tx][i]) {
        assert Owned(s.table, tx, s.watch.todo[tx][i]);
      }
      if s.watch.visit.Some? {
        var v := s.watch.visit.value;
        forall i | 0 <= i < |v.rest| ensures Owned(s'.table, v.tx, v.rest[i]) {
          assert Owned(s.table, v.tx, v.rest[i]);
        }
      }
    }
  }

  /** The loop is writing a broadcast back. */
  predicate Recording(l: LoopPc) { l.LWriting? && l.goal.GoSubmit? }

  /** A carried row is the same, became terminal, or was in a status no carried row is in. */
  predicate CarriedSame(s: State, s': State, h: Word) {
    h in s'.table ==>
      && h in s.table
      && (s'.table[h] == s.table[h] || Terminal(s'.table[h].status) || s.table[h].status == Pending
          || (s.table[h].status == Bundling && !Recording(s.loop)))
  }

  lemma CarryFrame(s: State, s': State)
    requires CarryOk(s) && (s.hist.tainted ==> s'.hist.tainted)
    requires Recording(s.loop) ==> s'.hist.tainted || s'.loop == s.loop
    requires forall h :: h in s'.hist.carrier ==>
      h in s.hist.carrier && s'.hist.carrier[h] == s.hist.carrier[h] && CarriedSame(s, s', h)
    requires forall e :: e in RevertedRest(s'.watch) ==> e in RevertedRest(s.watch)
    ensures CarryOk(s')
  {
    if !s'.hist.tainted {
      forall h | h in s'.hist.carrier && h in s'.table ensures CarryRow(s', h) {
        assert CarriedSame(s, s', h);
        assert CarryRow(s, h);
      }
    }
  }

  // ----- steps that touch no row owned by the loop or the watcher -----

  /** t and u agree on every bundling and submitted row, and u has no new confirmed one. */
  ghost predicate Frames(t: Table, u: Table) {
    && (forall h :: h in t && (t[h].status == Bundling || t[h].status == Submitted) ==> h in u && u[h] == t[h])
    && (forall h :: h in u ==>
          (h in t && u[h] == t[h]) || u[h].status == Pending || u[h].status == Failed || u[h].status == Replaced)
  }

  lemma FrameStep(c: Config, s: State, u: Table, k: map<Word, Tx>)
    requires Inv(c, s) && UniqueLive(u) && Frames(s.table, u)
    requires forall h :: h in k ==> h in s.hist.carrier && k[h] == s.hist.carrier[h]
    requires forall h :: h in k && h in u ==> h in s.table && (u[h] == s.table[h] || Terminal(u[h].status))
    ensures Inv(c, s.(table := u, hist := s.hist.(carrier := k)))
  {
    var s' := s.(table := u, hist := s.hist.(carrier := k));
    RowsFrame(c, s.hist.seen, s.table, u);
    LoopFrame(s, s');
    WatchFrame(c, s, s');
    CarryFrame(s, s');
  }

  lemma KeepIntake(c: Config, s: State, op: PackedUserOp, ep: Address, now: int)
    requires Inv(c, s) && StepIntake(c, s, op, ep, now).Some?
    ensures Inv(c, StepIntake(c, s, op, ep, now).value)
  {
    var h := c.hashOf(op, ep);
    var t := InsertRow(s.table, h, op, now);
    InsertKeepsIndex(s.table, h, op, now);
    if t.Some? { FrameStep(c, s, t.value, s.hist.carrier - {h}); }
  }

  /** A replacement marks one pending row and inserts another. */
  lemma ReplaceFrames(t: Table, prev: Word, h: Word, op: PackedUserOp, now: int)
    requires ReplaceRow(t, prev, h, op, now).Some?
    ensures var u := ReplaceRow(t, prev, h, op, now).value;
      && Frames(t, u)
      && forall g :: g in u && g != h ==> g in t && (u[g] == t[g] || Terminal(u[g].status))
  {}

  lemma KeepReplace(c: Config, s: State, prev: Word, op: PackedUserOp, ep: Address, now: int)
    requires Inv(c, s) && StepReplace(c, s, prev, op, ep, now).Some?
    ensures Inv(c, StepReplace(c, s, prev, op, ep, now).value)
  {
    var h := c.hashOf(op, ep);
    var t := ReplaceRow(s.table, prev, h, op, now);
    ReplaceKeepsIndex(s.table, prev, h, op, now);
    if t.Some? {
      ReplaceFrames(s.table, prev, h, op, now);
      FrameStep(c, s, t.value, s.hist.carrier - {h});
    }
  }

  lemma KeepExpire(c: Config, s: State, cutoff: int, now: int)
    requires Inv(c, s) && StepExpire(s, cutoff, now).Some?
    ensures Inv(c, StepExpire(s, cutoff, now).value)
  {
    var u := ExpireRows(s.table, cutoff, now);
    NoResurrectionKeepsIndex(s.table, u);
    FrameStep(c, s, u, s.hist.carrier);
  }

  lemma KeepPrune(c: Config, s: State, cutoff: int)
    requires Inv(c, s) && StepPrune(s, cutoff).Some?
    ensures Inv(c, StepPrune(s, cutoff).value)
  {
    var u := PruneRows(s.table, cutoff);
    NoResurrectionKeepsIndex(s.table, u);
    FrameStep(c, s, u, s.hist.carrier);
  }

  // ----- the loop -----

  lemma KeepFetchPending(c: Config, s: State, batch: seq<Snap>)
    requires Inv(c, s) && StepFetchPending(c, s, batch).Some?
    ensures Inv(c, StepFetchPending(c, s, batch).value)
  {
    var s' := StepFetchPending(c, s, batch).value;
    assert Held(s'.loop) == Held(s.loop);
    CarryFrame(s, s');
  }

  lemma HeldIsBatch(b: seq<Snap>)
    ensures forall h :: h in Held(LClaimed(b)) <==> h in Hashes(b)
  {
    forall h | h in Hashes(b) ensures h in Held(LClaimed(b)) {
      var i :| 0 <= i < |b| && Hashes(b)[i] == h;
      assert b[i].h == h;
    }
    forall h | h in Held(LClaimed(b)) ensures h in Hashes(b) {
      var i :| 0 <= i < |b| && b[i].h == h;
      assert Hashes(b)[i] == h;
    }
  }

  /** Claiming turns exactly the listed rows, all pending, into bundling rows. */
  lemma ClaimMovesPending(t: Table, hs: seq<Word>, now: int)
    requires Claimable(t, hs)
    ensures forall h :: h in hs ==> PendingIn(t, h) && ClaimRows(t, hs, now)[h].status == Bundling
    ensures forall h :: h in t && h !in hs ==> ClaimRows(t, hs, now)[h] == t[h]
  {
    forall h | h in hs ensures PendingIn(t, h) {
      var i :| 0 <= i < |hs| && hs[i] == h;
    }
  }

  /** After a claim the loop holds the rows it claimed and those it held, which were none. */
  lemma ClaimHolds(s: State, now: int)
    requires LoopOk(s) && NotStuck(s) && s.loop.LFetched? && Claimable(s.table, Hashes(s.loop.batch))
    ensures var s' := StepClaim(s, true, now).value; LoopOk(s') && NotStuck(s')
  {
    HeldIsBatch(s.loop.batch);
    ClaimMovesPending(s.table, Hashes(s.loop.batch), now);
  }

  lemma KeepClaim(c: Config, s: State, ok: bool, now: int)
    requires Inv(c, s) && StepClaim(s, ok, now).Some?
    ensures Inv(c, StepClaim(s, ok, now).value)
  {
    var hs := Hashes(s.loop.batch);
    var s' := StepClaim(s, ok, now).value;
    if ok && Claimable(s.table, hs) {
      ClaimHolds(s, now);
      ClaimMovesPending(s.table, hs, now);
      NoResurrectionKeepsIndex(s.table, s'.table);
      RowsFrame(c, s.hist.seen, s.table, s'.table);
      WatchFrame(c, s, s');
    }
    CarryFrame(s, s');
  }

  lemma KeepEstimateFails(c: Config, s: State, permanent: bool, reason: Bytes)
    requires Inv(c, s) && StepEstimateFails(s, permanent, reason).Some?
    ensures Inv(c, StepEstimateFails(s, permanent, reason).value)
  {
    var s' := StepEstimateFails(s, permanent, reason).value;
    assert Held(s'.loop) == Held(s.loop);
    CarryFrame(s, s');
  }

  lemma KeepSubmitFails(c: Config, s: State, leaked: Option<Tx>, resync: Option<nat>)
    requires Inv(c, s) && StepSubmitFails(c, s, leaked, resync).Some?
    ensures Inv(c, StepSubmitFails(c, s, leaked, resync).value)
  {
    var s' := StepSubmitFails(c, s, leaked, resync).value;
    assert Held(s'.loop) == Held(s.loop);
    if leaked.None? { CarryFrame(s, s'); }
  }

  lemma BroadcastCarry(c: Config, s: State, tx: Tx, at: int)
    requires LoopOk(s) && WatchOk(c, s) && CarryOk(s) && StepBroadcast(c, s, tx, at).Some?
    ensures CarryOk(StepBroadcast(c, s, tx, at).value)
  {
    var s' := StepBroadcast(c, s, tx, at).value;
    var k := CarriedBy(s.loop.batch, tx);
    assert Held(s'.loop) == Held(s.loop);
    assert forall h :: h in k <==> h in Held(s.loop);
    if !s.hist.tainted {
      forall g | g in s'.hist.carrier && g in s'.table ensures CarryRow(s', g) {
        if g !in k { assert CarryRow(s, g); }
      }
      forall e | e in RevertedRest(s'.watch) ensures e.h !in s'.hist.carrier {
        var v := s.watch.visit.value;
        var i :| 0 <= i < |v.rest| && v.rest[i] == e;
        assert Owned(s.table, v.tx, v.rest[i]);
      }
    }
  }

  lemma KeepBroadcast(c: Config, s: State, tx: Tx, at: int)
    requires Inv(c, s) && StepBroadcast(c, s, tx, at).Some?
    ensures Inv(c, StepBroadcast(c, s, tx, at).value)
  {
    var s' := StepBroadcast(c, s, tx, at).value;
    assert Held(s'.loop) == Held(s.loop);
    BroadcastCarry(c, s, tx, at);
  }

  /** Every loop write finds its row in bundling, and the update is accepted. */
  lemma LoopWriteLands(c: Config, s: State, now: int)
    requires Inv(c, s) && s.loop.LWriting?
    ensures var LWriting(b, g, i) := s.loop;
      && b[i].h in s.table && s.table[b[i].h].status == Bundling
      && UpdateRow(s.table, b[i].h, GoalStatus(g), GoalExtra(g, i), now)
           == Some(s.table[b[i].h := Updated(s.table[b[i].h], GoalStatus(g), GoalExtra(g, i), now)])
  {
    var LWriting(b, g, i) := s.loop;
    assert b[i].h in Held(s.loop);
    LiveUpdateSucceeds(s.table, b[i].h, GoalStatus(g), GoalExtra(g, i), now);
  }

  lemma HeldAfterWrite(s: State, ok: bool, now: int)
    requires LoopOk(s) && s.loop.LWriting?
    ensures Held(StepLoopWrite(s, ok, now).value.loop) == Held(s.loop) - {s.loop.batch[s.loop.next].h}
  {
    var LWriting(b, g, i) := s.loop;
    var s' := StepLoopWrite(s, ok, now).value;
    forall h | h in Held(s'.loop) ensures h != b[i].h {
      var j :| i + 1 <= j < |b| && b[j].h == h;
      assert Hashes(b)[j] == h && Hashes(b)[i] == b[i].h;
    }
    forall h | h in Held(s.loop) && h != b[i].h ensures h in Held(s'.loop) {
      var j :| i <= j < |b| && b[j].h == h;
      assert i + 1 <= j;
    }
  }

  /** The table after a loop write: one bundling row changed, or nothing. */
  lemma LoopWriteTable(c: Config, s: State, ok: bool, now: int)
    requires Inv(c, s) && s.loop.LWriting?
    ensures var LWriting(b, g, i) := s.loop;
      var h := b[i].h;
      && h in Held(s.loop) && h in s.table && s.table[h].status == Bundling
      && StepLoopWrite(s, ok, now).value.table ==
           (if ok then s.table[h := Updated(s.table[h], GoalStatus(g), GoalExtra(g, i), now)] else s.table)
      && UniqueLive(StepLoopWrite(s, ok, now).value.table)
  {
    var LWriting(b, g, i) := s.loop;
    assert b[i].h in Held(s.loop);
    LiveUpdateSucceeds(s.table, b[i].h, GoalStatus(g), GoalExtra(g, i), now);
  }

  lemma LoopWriteHolds(s: State, ok: bool, now: int, u: Table)
    requires LoopOk(s) && NotStuck(s) && s.loop.LWriting?
    requires var LWriting(b, g, i) := s.loop;
      && b[i].h in s.table && StepLoopWrite(s, ok, now).value.table == u
      && u == if ok then s.table[b[i].h := Updated(s.table[b[i].h], GoalStatus(g), GoalExtra(g, i), now)] else s.table
    ensures LoopOk(StepLoopWrite(s, ok, now).value) && NotStuck(StepLoopWrite(s, ok, now).value)
  {
    HeldAfterWrite(s, ok, now);
  }

  lemma KeepLoopWrite(c: Config, s: State, ok: bool, now: int)
    requires Inv(c, s) && StepLoopWrite(s, ok, now).Some?
    ensures Inv(c, StepLoopWrite(s, ok, now).value)
  {
    var s' := StepLoopWrite(s, ok, now).value;
    LoopWriteTable(c, s, ok, now);
    LoopWriteHolds(s, ok, now, s'.table);
    WatchFrame(c, s, s');
    LoopWriteCarry(s, ok, now, s'.table);
  }

  lemma LoopWriteCarry(s: State, ok: bool, now: int, u: Table)
    requires LoopOk(s) && CarryOk(s) && s.loop.LWriting?
    requires var LWriting(b, g, i) := s.loop;
      && b[i].h in s.table && s.table[b[i].h].status == Bundling && StepLoopWrite(s, ok, now).value.table == u
      && u == if ok then s.table[b[i].h := Updated(s.table[b[i].h], GoalStatus(g), GoalExtra(g, i), now)] else s.table
    ensures CarryOk(StepLoopWrite(s, ok, now).value)
  {
    var s' := StepLoopWrite(s, ok, now).value;
    HeldAfterWrite(s, ok, now);
    if !s'.hist.tainted {
      forall k | k in s'.hist.carrier && k in s'.table ensures CarryRow(s', k) {
        assert CarryRow(s, k);
      }
    }
  }

  // ----- the watcher, and Reconcile's receipt check -----

  lemma KeepPoll(c: Config, s: State, todo: map<Tx, seq<Entry>>)
    requires Inv(c, s) && StepPoll(s, todo).Some?
    ensures Inv(c, StepPoll(s, todo).value)
  {
    CarryFrame(s, StepPoll(s, todo).value);
  }

  lemma FetchReceiptCarry(c: Config, s: State, tx: Tx, answer: Option<Receipt>, data: Bytes)
    requires WatchOk(c, s) && CarryOk(s) && StepFetchReceipt(c, s, tx, answer, data).Some?
    ensures CarryOk(StepFetchReceipt(c, s, tx, answer, data).value)
  {
    var s' := StepFetchReceipt(c, s, tx, answer, data).value;
    if !s.hist.tainted {
      forall g | g in s'.hist.carrier && g in s'.table ensures CarryRow(s', g) {
        assert CarryRow(s, g);
      }
      var rest := s.watch.todo[tx];
      forall e | e in RevertedRest(s'.watch) ensures e.h !in s'.hist.carrier {
        var i :| 0 <= i < |rest| && rest[i] == e;
        assert Owned(s.table, tx, rest[i]);
        if e.h in s.hist.carrier { assert CarryRow(s, e.h); }
      }
    }
  }

  lemma KeepFetchReceipt(c: Config, s: State, tx: Tx, answer: Option<Receipt>, data: Bytes)
    requires Inv(c, s) && StepFetchReceipt(c, s, tx, answer, data).Some?
    ensures Inv(c, StepFetchReceipt(c, s, tx, answer, data).value)
  {
    var s' := StepFetchReceipt(c, s, tx, answer, data).value;
    assert forall u :: u in s'.watch.todo ==> s'.watch.todo[u] == s.watch.todo[u];
    EvidenceGrows(c, s.hist.seen, s'.hist.seen, s.table);
    FetchReceiptCarry(c, s, tx, answer, data);
  }

  lemma EvidenceGrows(c: Config, a: set<(Tx, Receipt)>, b: set<(Tx, Receipt)>, t: Table)
    requires RowsOk(c, a, t) && a <= b
    ensures RowsOk(c, b, t)
  {
    forall h | h in t ensures RowOk(c, b, h, t[h]) {
      var r := t[h];
      assert RowOk(c, a, h, r);
      if r.status == Confirmed {
        var p :| p in a && p.0 == r.bundleTx.value && Reports(c.events, p.1, h, r);
        assert p in b;
      }
    }
  }

  /** Every watcher or Reconcile write finds its row submitted under the visited transaction, and
      the update is accepted. */
  lemma WatchWriteLands(c: Config, s: State, st: Status, x: Extra, now: int)
    requires Inv(c, s) && s.watch.WBusy? && s.watch.visit.Some?
    ensures var e := s.watch.visit.value.rest[0];
      && Owned(s.table, s.watch.visit.value.tx, e)
      && UpdateRow(s.table, e.h, st, x, now) == Some(s.table[e.h := Updated(s.table[e.h], st, x, now)])
      && UniqueLive(s.table[e.h := Updated(s.table[e.h], st, x, now)])
  {
    var v := s.watch.visit.value;
    assert Owned(s.table, v.tx, v.rest[0]);
    LiveUpdateSucceeds(s.table, v.rest[0].h, st, x, now);
  }

  /** The table after a watcher write: the decided row, or nothing. */
  lemma WatchWriteTable(c: Config, s: State, ok: bool, now: int)
    requires Inv(c, s) && StepWatchWrite(c, s, ok, now).Some?
    ensures var v := s.watch.visit.value;
      var e := v.rest[0];
      var d := Decision(c.events, v.verdict, e);
      var t := StepWatchWrite(c, s, ok, now).value.table;
      && Owned(s.table, v.tx, e) && UniqueLive(t)
      && t == if ok && d.Some? then s.table[e.h := Updated(s.table[e.h], d.value.0, d.value.1, now)] else s.table
  {
    var v := s.watch.visit.value;
    var d := Decision(c.events, v.verdict, v.rest[0]);
    WatchWriteLands(c, s, Pending, NO_EXTRA, now);
    if d.Some? { WatchWriteLands(c, s, d.value.0, d.value.1, now); }
  }

  /** The row a decision produces satisfies the row invariant. */
  lemma DecidedRowOk(c: Config, seen: set<(Tx, Receipt)>, tx: Tx, v: Verdict, e: Entry, r: Row, now: int)
    requires RowOk(c, seen, e.h, r) && r.status == Submitted && r.bundleTx == Some(tx)
    requires v.Landed? ==> (tx, v.receipt) in seen && v.receipt.status == 1
    requires Decision(c.events, v, e).Some?
    ensures var d := Decision(c.events, v, e).value; RowOk(c, seen, e.h, Updated(r, d.0, d.1, now))
    ensures var d := Decision(c.events, v, e).value; d.0 == Confirmed || d.0 == Failed || d.0 == Pending
    ensures Decision(c.events, v, e).value.0 == Pending ==> v.Reverted?
  {
    var d := Decision(c.events, v, e).value;
    var u := Updated(r, d.0, d.1, now);
    if d.0 == Confirmed {
      SuccessHasCost(c.events, v.receipt.logs, e.h);
      var p := (tx, v.receipt);
      assert p in seen && p.0 == u.bundleTx.value && Reports(c.events, p.1, e.h, u);
    }
  }

  /** Only the row of the visit's first entry changed. */
  predicate OnlyFirst(s: State, u: Table)
    requires s.watch.WBusy? && s.watch.visit.Some? && s.watch.visit.value.rest != []
  {
    u.Keys == s.table.Keys && forall h :: h in u && h != s.watch.visit.value.rest[0].h ==> u[h] == s.table[h]
  }

  lemma WatchAfterWrite(c: Config, s: State, s': State)
    requires WatchOk(c, s) && s.watch.WBusy? && s.watch.visit.Some? && OnlyFirst(s, s'.table)
    requires s'.phase == s.phase && s'.hist.seen == s.hist.seen
    requires var v := s.watch.visit.value;
      s'.watch == WBusy(s.watch.todo, if |v.rest| == 1 then None else Some(v.(rest := v.rest[1..])))
    ensures WatchOk(c, s')
  {
    var v := s.watch.visit.value;
    assert Owned(s.table, v.tx, v.rest[0]);
    forall tx, i | tx in s.watch.todo && 0 <= i < |s.watch.todo[tx]|
      ensures Owned(s'.table, tx, s.watch.todo[tx][i]) {
      assert Owned(s.table, tx, s.watch.todo[tx][i]);
    }
    forall i | 1 <= i < |v.rest| ensures Owned(s'.table, v.tx, v.rest[i]) {
      assert Owned(s.table, v.tx, v.rest[i]);
    }
  }

  lemma WatchWriteCarry(c: Config, s: State, s': State)
    requires CarryOk(s) && s.watch.WBusy? && s.watch.visit.Some? && s.watch.visit.value.rest != []
    requires OnlyFirst(s, s'.table) && s'.loop == s.loop && s'.hist == s.hist
    requires var v := s.watch.visit.value;
      && s'.watch == WBusy(s.watch.todo, if |v.rest| == 1 then None else Some(v.(rest := v.rest[1..])))
      && v.rest[0].h in s.table
      && (s'.table[v.rest[0].h] == s.table[v.rest[0].h] || Terminal(s'.table[v.rest[0].h].status)
          || v.verdict.Reverted?)
    ensures CarryOk(s')
  {
    var v := s.watch.visit.value;
    assert v.verdict.Reverted? ==> v.rest[0] in RevertedRest(s.watch);
    if !s.hist.tainted {
      forall h | h in s'.hist.carrier && h in s'.table ensures CarryRow(s', h) {
        assert CarryRow(s, h);
      }
      forall e | e in RevertedRest(s'.watch) ensures e in RevertedRest(s.watch) {}
    }
  }

  lemma WatchWriteRows(c: Config, s: State, s': State, v: Visit, now: int)
    requires s.watch.WBusy? && RowsOk(c, s.hist.seen, s.table) && VisitOk(c, s.hist.seen, s.table, s.watch.todo, v)
    requires Decision(c.events, v.verdict, v.rest[0]).Some? && v.rest[0].h in s.table
    requires var e := v.rest[0];
      var d := Decision(c.events, v.verdict, e).value;
      s'.table == s.table[e.h := Updated(s.table[e.h], d.0, d.1, now)]
    ensures RowsOk(c, s.hist.seen, s'.table)
    ensures var st := s'.table[v.rest[0].h].status; Terminal(st) || (st == Pending && v.verdict.Reverted?)
  {
    var e := v.rest[0];
    assert Owned(s.table, v.tx, e);
    assert RowOk(c, s.hist.seen, e.h, s.table[e.h]);
    DecidedRowOk(c, s.hist.seen, v.tx, v.verdict, e, s.table[e.h], now);
    forall h | h in s'.table ensures RowOk(c, s.hist.seen, h, s'.table[h]) {
      if h != e.h { assert RowOk(c, s.hist.seen, h, s.table[h]); }
    }
  }

  lemma KeepWatchWrite(c: Config, s: State, ok: bool, now: int)
    requires Inv(c, s) && StepWatchWrite(c, s, ok, now).Some?
    ensures Inv(c, StepWatchWrite(c, s, ok, now).value)
  {
    var s' := StepWatchWrite(c, s, ok, now).value;
    var v := s.watch.visit.value;
    WatchWriteTable(c, s, ok, now);
    WatchAfterWrite(c, s, s');
    if ok && Decision(c.events, v.verdict, v.rest[0]).Some? {
      WatchWriteRows(c, s, s', v, now);
    }
    WatchWriteCarry(c, s, s');
    LoopFrame(s, s');
  }

  lemma KeepPollDone(c: Config, s: State)
    requires Inv(c, s) && StepPollDone(s).Some?
    ensures Inv(c, StepPollDone(s).value)
  {
    CarryFrame(s, StepPollDone(s).value);
  }

  // ----- crash and start-up -----

  lemma KeepCrash(c: Config, s: State)
    requires Inv(c, s)
    ensures Inv(c, StepCrash(s))
  {
    CarryFrame(s, StepCrash(s));
  }

  lemma KeepBootReset(c: Config, s: State, now: int)
    requires Inv(c, s) && StepBootReset(s, now).Some?
    ensures Inv(c, StepBootReset(s, now).value)
  {
    var s' := StepBootReset(s, now).value;
    NoResurrectionKeepsIndex(s.table, s'.table);
    RowsFrame(c, s.hist.seen, s.table, s'.table);
    CarryFrame(s, s');
  }

  lemma KeepInitNonce(c: Config, s: State, n: nat)
    requires Inv(c, s) && StepInitNonce(s, n).Some?
    ensures Inv(c, StepInitNonce(s, n).value)
  {
    CarryFrame(s, StepInitNonce(s, n).value);
  }

  /** Every step of every actor, enabled in a state of the invariant, keeps it. */
  lemma KeepAny(c: Config, s: State, l: Label)
    requires Inv(c, s) && Next(c, s, l).Some?
    ensures Inv(c, Next(c, s, l).value)
  {
    match l
    case Intake(op, ep, now) => KeepIntake(c, s, op, ep, now);
    case ReplaceOp(prev, op, ep, now) => KeepReplace(c, s, prev, op, ep, now);
    case Expire(cutoff, now) => KeepExpire(c, s, cutoff, now);
    case Prune(cutoff) => KeepPrune(c, s, cutoff);
    case FetchPending(batch) => KeepFetchPending(c, s, batch);
    case Claim(ok, now) => KeepClaim(c, s, ok, now);
    case EstimateFails(permanent, reason) => KeepEstimateFails(c, s, permanent, reason);
    case SubmitFails(leaked, resync) => KeepSubmitFails(c, s, leaked, resync);
    case Broadcast(tx, at) => KeepBroadcast(c, s, tx, at);
    case LoopWrite(ok, now) => KeepLoopWrite(c, s, ok, now);
    case Poll(todo) => KeepPoll(c, s, todo);
    case FetchReceipt(tx, answer, data) => KeepFetchReceipt(c, s, tx, answer, data);
    case WatchWrite(ok, now) => KeepWatchWrite(c, s, ok, now);
    case PollDone => KeepPollDone(c, s);
    case Crash => KeepCrash(c, s);
    case BootReset(now) => KeepBootReset(c, s, now);
    case InitNonce(n) => KeepInitNonce(c, s, n);
  }
}
