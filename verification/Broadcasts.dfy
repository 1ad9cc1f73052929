/** Which broadcast put a row where its columns say, for any number of entry points and any encoder: every
    recorded position was a position of the batch, and every position of the batch is recorded. */
module Broadcasts {
  import opened Bytes
  import opened Mempool
  import opened Protocol
  import opened Invariant
  import opened Runs
  import opened Routing

  // ----- from a recorded row to its broadcast -----

  /** The step broadcasts tx, with key h at position i of the batch. */
  predicate Sends(s: State, l: Label, tx: Tx, i: nat, h: Word) {
    l.Broadcast? && l.tx == tx && s.loop.LClaimed? && i < |s.loop.batch| && s.loop.batch[i].h == h
  }

  predicate SentAt(ss: seq<State>, ls: seq<Label>, q: nat, n: nat, tx: Tx, i: nat, h: Word) {
    q < n < |ss| <= |ls| + 1 && Sends(ss[q], ls[q], tx, i, h)
  }

  ghost predicate Sent(ss: seq<State>, ls: seq<Label>, n: nat, tx: Tx, i: nat, h: Word) {
    exists q: nat :: SentAt(ss, ls, q, n, tx, i, h)
  }

  lemma SentStays(ss: seq<State>, ls: seq<Label>, n: nat, tx: Tx, i: nat, h: Word)
    requires Sent(ss, ls, n, tx, i, h) && n + 1 < |ss|
    ensures Sent(ss, ls, n + 1, tx, i, h)
  {
    var q: nat :| SentAt(ss, ls, q, n, tx, i, h);
    assert SentAt(ss, ls, q, n + 1, tx, i, h);
  }

  /** While the loop records a broadcast, its batch is the one that was broadcast. */
  lemma {:induction false} RecordingWasSent(c: Config, ss: seq<State>, ls: seq<Label>, n: nat, i: nat)
    requires Run(c, ss, ls) && n < |ss| && Recording(ss[n].loop) && i < |ss[n].loop.batch|
    ensures Sent(ss, ls, n, ss[n].loop.goal.tx, i, ss[n].loop.batch[i].h)
  {
    var l := ss[n].loop;
    assert StepAt(c, ss, ls, n - 1);
    if ls[n - 1].Broadcast? {
      assert SentAt(ss, ls, n - 1, n, l.goal.tx, i, l.batch[i].h);
    } else {
      RecordingWas(c, ss[n - 1], ls[n - 1]);
      RecordingWasSent(c, ss, ls, n - 1, i);
      SentStays(ss, ls, n - 1, l.goal.tx, i, l.batch[i].h);
    }
  }

  lemma RecordingWas(c: Config, s: State, l: Label)
    requires Next(c, s, l).Some? && Recording(Next(c, s, l).value.loop) && !l.Broadcast?
    ensures var s' := Next(c, s, l).value;
      Recording(s.loop) && s.loop.batch == s'.loop.batch && s.loop.goal == s'.loop.goal
  {}

  predicate SameColumns(r: Row, r': Row) { r.bundleTx == r'.bundleTx && r.bundleIndex == r'.bundleIndex }

  /** The row was submitted or confirmed with the same columns before. */
  predicate WasOnChain(t: Table, h: Word, r: Row) { h in t && OnChain(t[h]) && SameColumns(t[h], r) }

  /** The loop was about to record the row where it now stands. */
  predicate WasRecorded(l: LoopPc, h: Word, r: Row) {
    && Recording(l) && l.next < |l.batch| && l.batch[l.next].h == h
    && r.bundleTx == Some(l.goal.tx) && r.bundleIndex == Some(l.next)
  }

  lemma OnChainByLoop(c: Config, s: State, ok: bool, now: int, h: Word)
    requires Inv(c, s) && StepLoopWrite(s, ok, now).Some? && h in s.table
    requires OnChain(StepLoopWrite(s, ok, now).value.table[h])
    ensures var r := StepLoopWrite(s, ok, now).value.table[h]; WasOnChain(s.table, h, r) || WasRecorded(s.loop, h, r)
  {
    LoopWriteTable(c, s, ok, now);
  }

  lemma OnChainByWatch(c: Config, s: State, ok: bool, now: int, h: Word)
    requires Inv(c, s) && StepWatchWrite(c, s, ok, now).Some? && h in s.table
    requires OnChain(StepWatchWrite(c, s, ok, now).value.table[h])
    ensures WasOnChain(s.table, h, StepWatchWrite(c, s, ok, now).value.table[h])
  {
    WatchWriteTable(c, s, ok, now);
  }

  /** A row is submitted or confirmed by the record of a broadcast, or was so before. */
  lemma OnChainStep(c: Config, s: State, l: Label, h: Word)
    requires Inv(c, s) && Next(c, s, l).Some?
    requires var t := Next(c, s, l).value.table; h in t && OnChain(t[h])
    ensures var r := Next(c, s, l).value.table[h]; WasOnChain(s.table, h, r) || WasRecorded(s.loop, h, r)
  {
    if h !in s.table {
      NewRow(c, s, l, h);
    } else {
      match l
      case LoopWrite(ok, now) => OnChainByLoop(c, s, ok, now, h);
      case WatchWrite(ok, now) => OnChainByWatch(c, s, ok, now, h);
      case _ => OwnedRowSame(c, s, l, h);
    }
  }

  /** In every reachable state: a submitted or confirmed row's transaction was broadcast, and the row's key
      was in the batch at the row's bundle_index. */
  lemma {:induction false} RowWasSent(c: Config, ss: seq<State>, ls: seq<Label>, n: nat, h: Word)
    requires Run(c, ss, ls) && n < |ss| && h in ss[n].table && OnChain(ss[n].table[h])
    ensures var r := ss[n].table[h];
      r.bundleTx.Some? && r.bundleIndex.Some? && Sent(ss, ls, n, r.bundleTx.value, r.bundleIndex.value, h)
  {
    var r := ss[n].table[h];
    RunInv(c, ss, ls, n);
    if n > 0 {
      assert StepAt(c, ss, ls, n - 1);
      RunInv(c, ss, ls, n - 1);
      OnChainStep(c, ss[n - 1], ls[n - 1], h);
      if WasOnChain(ss[n - 1].table, h, r) {
        RowWasSent(c, ss, ls, n - 1, h);
      } else {
        RecordingWasSent(c, ss, ls, n - 1, ss[n - 1].loop.next);
      }
      SentStays(ss, ls, n - 1, r.bundleTx.value, r.bundleIndex.value, h);
    }
  }

  // ----- broadcasts differ -----

  lemma SentStep(c: Config, s: State, l: Label)
    requires Next(c, s, l).Some?
    ensures s.hist.sent <= Next(c, s, l).value.hist.sent
    ensures l.Broadcast? ==> Next(c, s, l).value.hist.sent == s.hist.sent + [l.tx]
  {}

  lemma {:induction false} SentGrows(c: Config, ss: seq<State>, ls: seq<Label>, a: nat, b: nat)
    requires Run(c, ss, ls) && a <= b < |ss|
    ensures ss[a].hist.sent <= ss[b].hist.sent
    decreases b
  {
    if a < b {
      SentGrows(c, ss, ls, a, b - 1);
      assert StepAt(c, ss, ls, b - 1);
      SentStep(c, ss[b - 1], ls[b - 1]);
    }
  }

  /** Where the transaction broadcast at q stands among the accepted ones. */
  lemma SentPosition(c: Config, ss: seq<State>, ls: seq<Label>, q: nat, n: nat)
    requires Run(c, ss, ls) && q < n < |ss| && ls[q].Broadcast?
    ensures |ss[q].hist.sent| < |ss[n].hist.sent| && ss[n].hist.sent[|ss[q].hist.sent|] == ls[q].tx
  {
    assert StepAt(c, ss, ls, q);
    SentStep(c, ss[q], ls[q]);
    SentGrows(c, ss, ls, q + 1, n);
  }

  /** While the node was never behind, a later broadcast has a greater nonce, so no transaction is
      broadcast twice. */
  lemma BroadcastsDiffer(c: Config, ss: seq<State>, ls: seq<Label>, n: nat, p: nat, q: nat)
    requires Run(c, ss, ls) && NodeAhead(ss, ls, n) && p < q < n && ls[p].Broadcast? && ls[q].Broadcast?
    ensures ls[p].tx.nonce < ls[q].tx.nonce
  {
    SentPosition(c, ss, ls, p, n);
    SentPosition(c, ss, ls, q, n);
    SentPosition(c, ss, ls, p, q);
    NoncesIncrease(c, ss, ls, n, |ss[p].hist.sent|, |ss[q].hist.sent|);
  }

  /** Hence a transaction determines its broadcast. */
  lemma OneBroadcast(c: Config, ss: seq<State>, ls: seq<Label>, n: nat, p: nat, q: nat)
    requires Run(c, ss, ls) && NodeAhead(ss, ls, n) && p < n && q < n && ls[p].Broadcast? && ls[q].Broadcast?
    requires ls[p].tx == ls[q].tx
    ensures p == q
  {
    if p < q { BroadcastsDiffer(c, ss, ls, n, p, q); }
    if q < p { BroadcastsDiffer(c, ss, ls, n, q, p); }
  }

  // ----- from a broadcast to its rows -----

  /** What failOps, resetToPending or the submitted loop make of the row of the op at position i. */
  function GoalRow(g: Goal, i: nat, r: Row, now: int): Row {
    match g
    case GoFail(reason) => r.(status := Failed, reason := Some(reason), updatedAt := now)
    case GoReset => r.(status := Pending, updatedAt := now)
    case GoSubmit(tx, at) =>
      r.(status := Submitted, bundleTx := Some(tx), bundleIndex := Some(i), submittedAt := Some(at), updatedAt := now)
  }

  /** The step is the loop's write for op h at position i: the row was in bundling, and it alone changed. */
  predicate WroteBack(s: State, l: Label, s': State, h: Word, g: Goal, i: nat, ok: bool) {
    && l.LoopWrite? && l.ok == ok && h in s.table && s.table[h].status == Bundling
    && s'.table == (if ok then s.table[h := GoalRow(g, i, s.table[h], l.now)] else s.table)
  }

  predicate WroteBackAt(ss: seq<State>, ls: seq<Label>, a: nat, q: nat, b: nat, h: Word, g: Goal, i: nat, ok: bool) {
    a <= q < b < |ss| <= |ls| + 1 && WroteBack(ss[q], ls[q], ss[q + 1], h, g, i, ok)
  }

  ghost predicate WrittenBack(ss: seq<State>, ls: seq<Label>, a: nat, b: nat, h: Word, g: Goal, i: nat, ok: bool) {
    exists q: nat :: WroteBackAt(ss, ls, a, q, b, h, g, i, ok)
  }

  lemma WrittenBackStays(ss: seq<State>, ls: seq<Label>, ss': seq<State>, ls': seq<Label>,
                         a: nat, b: nat, a': nat, b': nat, h: Word, g: Goal, i: nat, ok: bool)
    requires WrittenBack(ss, ls, a, b, h, g, i, ok) && a' <= a
    requires ss <= ss' && ls <= ls' && b <= b' < |ss'| <= |ls'| + 1
    ensures WrittenBack(ss', ls', a', b', h, g, i, ok)
  {
    var q: nat :| WroteBackAt(ss, ls, a, q, b, h, g, i, ok);
    assert WroteBackAt(ss', ls', a', q, b', h, g, i, ok);
  }

  /** Every op of the batch had its write; the j-th succeeded if ok(j). */
  ghost predicate AllWrittenBack(ss: seq<State>, ls: seq<Label>, a: nat, b: nat,
                                 batch: seq<Snap>, g: Goal, ok: nat -> bool) {
    forall j :: 0 <= j < |batch| ==> WrittenBack(ss, ls, a, b, batch[j].h, g, j, ok(j))
  }

  /** From a, where the loop starts to write a batch back, to b, where it first is idle, without a crash:
      other actors may do anything in between. */
  ghost predicate WriteBackSpan(ss: seq<State>, ls: seq<Label>, a: nat, b: nat) {
    && a < b < |ss| <= |ls| + 1 && ss[a].loop.LWriting? && ss[a].loop.next == 0 && ss[b].loop.LIdle?
    && forall k :: a <= k < b ==> !ss[k].loop.LIdle? && !ls[k].Crash? && (ls[k].LoopWrite? ==> ls[k].ok)
  }

  /** The next position is written, or the loop stays where it is. */
  lemma WriteBackStep(c: Config, s: State, l: Label)
    requires Inv(c, s) && Next(c, s, l).Some? && s.loop.LWriting? && !l.Crash?
    ensures var LWriting(b, g, i) := s.loop;
      var s' := Next(c, s, l).value;
      if l.LoopWrite? then
        s'.loop == (if i + 1 < |b| then LWriting(b, g, i + 1) else LIdle) && WroteBack(s, l, s', b[i].h, g, i, l.ok)
      else s'.loop == s.loop
  {
    if l.LoopWrite? { LoopWriteTable(c, s, l.ok, l.now); }
  }

  /** Between a and k the first m positions were written. */
  ghost predicate WroteUpTo(ss: seq<State>, ls: seq<Label>, a: nat, k: nat, b: seq<Snap>, g: Goal, m: nat) {
    m <= |b| && forall j :: 0 <= j < m ==> WrittenBack(ss, ls, a, k, b[j].h, g, j, true)
  }

  function After(b: seq<Snap>, g: Goal, m: nat): LoopPc { if m < |b| then LWriting(b, g, m) else LIdle }

  lemma WroteOneMore(ss: seq<State>, ls: seq<Label>, a: nat, k: nat, b: seq<Snap>, g: Goal, m: nat, wrote: bool)
    requires WroteUpTo(ss, ls, a, k, b, g, m) && a <= k < |ls| && k + 1 < |ss| <= |ls| + 1
    requires wrote ==> m < |b| && WroteBack(ss[k], ls[k], ss[k + 1], b[m].h, g, m, true)
    ensures WroteUpTo(ss, ls, a, k + 1, b, g, if wrote then m + 1 else m)
  {
    if wrote { assert WroteBackAt(ss, ls, a, k, k + 1, b[m].h, g, m, true); }
    forall j | 0 <= j < m ensures WrittenBack(ss, ls, a, k + 1, b[j].h, g, j, true) {
      WrittenBackStays(ss, ls, ss, ls, a, k, a, k + 1, b[j].h, g, j, true);
    }
  }

  lemma {:induction false} WriteBackProgress(c: Config, ss: seq<State>, ls: seq<Label>, a: nat, b: nat, k: nat)
    returns (m: nat)
    requires Run(c, ss, ls) && WriteBackSpan(ss, ls, a, b) && a <= k <= b
    ensures var LWriting(batch, g, _) := ss[a].loop;
      ss[k].loop == After(batch, g, m) && WroteUpTo(ss, ls, a, k, batch, g, m)
  {
    if k == a {
      m := 0;
      RunInv(c, ss, ls, a);
    } else {
      m := WriteBackProgress(c, ss, ls, a, b, k - 1);
      var LWriting(batch, g, _) := ss[a].loop;
      WriteBackNext(c, ss, ls, k - 1, batch, g, m);
      WroteOneMore(ss, ls, a, k - 1, batch, g, m, ls[k - 1].LoopWrite?);
      m := if ls[k - 1].LoopWrite? then m + 1 else m;
    }
  }

  lemma WriteBackNext(c: Config, ss: seq<State>, ls: seq<Label>, k: nat, b: seq<Snap>, g: Goal, m: nat)
    requires Run(c, ss, ls) && k < |ls| && m < |b| && ss[k].loop == LWriting(b, g, m)
    requires !ls[k].Crash? && (ls[k].LoopWrite? ==> ls[k].ok)
    ensures ss[k + 1].loop == After(b, g, if ls[k].LoopWrite? then m + 1 else m)
    ensures ls[k].LoopWrite? ==> WroteBack(ss[k], ls[k], ss[k + 1], b[m].h, g, m, true)
  {
    assert StepAt(c, ss, ls, k);
    RunInv(c, ss, ls, k);
    WriteBackStep(c, ss[k], ls[k]);
  }

  /** The row is submitted under tx at index i. */
  predicate RecordedAs(t: Table, h: Word, tx: Tx, i: nat) {
    h in t && t[h].status == Submitted && t[h].bundleTx == Some(tx) && t[h].bundleIndex == Some(i)
  }

  lemma SubmittedStep(c: Config, s: State, l: Label, h: Word)
    requires Inv(c, s) && Next(c, s, l).Some? && !l.WatchWrite? && h in s.table && s.table[h].status == Submitted
    ensures h in Next(c, s, l).value.table && Next(c, s, l).value.table[h] == s.table[h]
  {
    StepLifecycle(c, s, l, h);
    if l.LoopWrite? { LoopWriteTable(c, s, l.ok, l.now); } else { OwnedRowSame(c, s, l, h); }
  }

  /** A submitted row stays as it is until the watcher writes it. */
  lemma {:induction false} SubmittedStays(c: Config, ss: seq<State>, ls: seq<Label>, q: nat, b: nat, h: Word)
    requires Run(c, ss, ls) && q <= b < |ss| && h in ss[q].table && ss[q].table[h].status == Submitted
    requires forall k :: q <= k < b ==> !ls[k].WatchWrite?
    ensures h in ss[b].table && ss[b].table[h] == ss[q].table[h]
    decreases b
  {
    if q < b {
      SubmittedStays(c, ss, ls, q, b - 1, h);
      RunInv(c, ss, ls, b - 1);
      assert StepAt(c, ss, ls, b - 1);
      SubmittedStep(c, ss[b - 1], ls[b - 1], h);
    }
  }

  /** There is a moment from a to b at which the row of h is submitted under tx at index j, and it still is
      at b unless the watcher has written meanwhile. */
  ghost predicate Recorded(ss: seq<State>, ls: seq<Label>, a: nat, b: nat, h: Word, tx: Tx, j: nat) {
    && a < b < |ss| <= |ls| + 1
    && (exists q :: a < q <= b && RecordedAs(ss[q].table, h, tx, j))
    && ((forall k :: a < k < b ==> !ls[k].WatchWrite?) ==> RecordedAs(ss[b].table, h, tx, j))
  }

  lemma WrittenIsRecorded(c: Config, ss: seq<State>, ls: seq<Label>, a: nat, b: nat, h: Word, tx: Tx, at: int, j: nat)
    requires Run(c, ss, ls) && a < b && WrittenBack(ss, ls, a + 1, b, h, GoSubmit(tx, at), j, true)
    ensures Recorded(ss, ls, a, b, h, tx, j)
  {
    var q: nat :| WroteBackAt(ss, ls, a + 1, q, b, h, GoSubmit(tx, at), j, true);
    assert RecordedAs(ss[q + 1].table, h, tx, j);
    if forall k :: a < k < b ==> !ls[k].WatchWrite? { SubmittedStays(c, ss, ls, q + 1, b, h); }
  }

  /** From a broadcast at a to the loop idle at b, with its writes succeeding and no crash: every position
      j of the batch is recorded, the row of op j under the transaction at index j. */
  lemma BroadcastIsRecorded(c: Config, ss: seq<State>, ls: seq<Label>, a: nat, b: nat, j: nat)
    requires Run(c, ss, ls) && a < |ls| && ls[a].Broadcast? && WriteBackSpan(ss, ls, a + 1, b)
    ensures ss[a].loop.LClaimed?
    ensures var batch := ss[a].loop.batch;
      j < |batch| ==> Recorded(ss, ls, a, b, batch[j].h, ls[a].tx, j)
  {
    assert StepAt(c, ss, ls, a);
    var batch := ss[a].loop.batch;
    if j < |batch| {
      var m := WriteBackProgress(c, ss, ls, a + 1, b, b);
      WrittenIsRecorded(c, ss, ls, a, b, batch[j].h, ls[a].tx, ls[a].at, j);
    }
  }
}
