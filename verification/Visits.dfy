/** A visit of the watcher to a transaction whose receipt it fetched: one write per op of the transaction,
    whatever the other actors do meanwhile. */
module Visits {
  import opened Bytes
  import opened Mempool
  import opened Receipts
  import opened Protocol
  import opened Invariant
  import opened Runs
  import opened Broadcasts
  import opened Settlement

  /** Well-formed FailedOp(i, reason) data is read as just that. */
  lemma FailedOpVerdict(ev: Events, i: nat, reason: Bytes, padding: Bytes)
    requires |ev.failedOp| == 4 && i <= MAX_LEN && |FailedOpData(ev.failedOp, i, reason) + padding| <= MAX_LEN
    ensures RevertVerdict(ev, FailedOpData(ev.failedOp, i, reason) + padding) == Some(Reverted(Some((i, reason))))
  {
    var data := FailedOpData(ev.failedOp, i, reason) + padding;
    FailedOpRoundTrip(ev.failedOp, i, reason, padding);
    assert data[..4] == ev.failedOp;
  }

  predicate InVisit(s: State) { s.watch.WBusy? && s.watch.visit.Some? }

  /** From the fetch of a receipt at a to the end of the visit at b: every write succeeds and the process does
      not die. Other actors may do anything in between. */
  ghost predicate FullVisit(ss: seq<State>, ls: seq<Label>, a: nat, b: nat) {
    && a < b < |ss| <= |ls| + 1
    && ls[a].FetchReceipt? && ls[a].answer.Some?
    && (forall k :: a < k < b ==> !ls[k].Crash? && (ls[k].WatchWrite? ==> ls[k].ok) && InVisit(ss[k]))
    && !InVisit(ss[b])
  }

  /** The step is the write for entry e of tx: its row was submitted under tx, and it alone changed, if the
      engine took the write, to what the verdict makes of it. */
  ghost predicate WrittenAt(c: Config, s: State, l: Label, s': State, tx: Tx, e: Entry, v: Verdict, ok: bool) {
    && l.WatchWrite? && l.ok == ok && Owned(s.table, tx, e)
    && e.h in s'.table && s'.table == s.table[e.h := s'.table[e.h]]
    && if ok then VerdictRow(c.events, v, e, s.table[e.h], s'.table[e.h], l.now) else s'.table == s.table
  }

  ghost predicate WroteAt(c: Config, ss: seq<State>, ls: seq<Label>, a: nat, q: nat, k: nat,
                    tx: Tx, e: Entry, v: Verdict, ok: bool) {
    a <= q < k < |ss| <= |ls| + 1 && WrittenAt(c, ss[q], ls[q], ss[q + 1], tx, e, v, ok)
  }

  ghost predicate WrittenIn(c: Config, ss: seq<State>, ls: seq<Label>, a: nat, k: nat,
                            tx: Tx, e: Entry, v: Verdict, ok: bool) {
    exists q: nat :: WroteAt(c, ss, ls, a, q, k, tx, e, v, ok)
  }

  lemma WrittenStays(c: Config, ss: seq<State>, ls: seq<Label>, ss': seq<State>, ls': seq<Label>, a: nat,
                     k: nat, k': nat,
                     tx: Tx, e: Entry, v: Verdict, ok: bool)
    requires WrittenIn(c, ss, ls, a, k, tx, e, v, ok)
    requires ss <= ss' && ls <= ls' && k <= k' < |ss'| <= |ls'| + 1
    ensures WrittenIn(c, ss', ls', a, k', tx, e, v, ok)
  {
    var q: nat :| WroteAt(c, ss, ls, a, q, k, tx, e, v, ok);
    assert WroteAt(c, ss', ls', a, q, k', tx, e, v, ok);
  }

  /** Nobody but the watcher moves a visit. */
  lemma VisitUntouched(c: Config, s: State, l: Label)
    requires Next(c, s, l).Some? && InVisit(s) && !l.Crash? && !l.WatchWrite?
    ensures Next(c, s, l).value.watch == s.watch
  {}

  lemma VisitWrites(c: Config, s: State, l: Label)
    requires Inv(c, s) && Next(c, s, l).Some? && InVisit(s) && l.WatchWrite?
    ensures var Visit(tx, rest, v) := s.watch.visit.value;
      && rest != [] && WrittenAt(c, s, l, Next(c, s, l).value, tx, rest[0], v, l.ok)
      && Next(c, s, l).value.watch == WBusy(s.watch.todo, if |rest| == 1 then None else Some(Visit(tx, rest[1..], v)))
  {
    WatchWriteTable(c, s, l.ok, l.now);
    var Visit(tx, rest, v) := s.watch.visit.value;
    VerdictDecision(c.events, v, rest[0], s.table[rest[0].h], l.now);
  }

  lemma VisitWriteAt(c: Config, ss: seq<State>, ls: seq<Label>, n: nat)
    requires Run(c, ss, ls) && n < |ls| && ls[n].WatchWrite? && InVisit(ss[n])
    ensures var Visit(tx, rest, v) := ss[n].watch.visit.value;
      rest != [] && WrittenAt(c, ss[n], ls[n], ss[n + 1], tx, rest[0], v, ls[n].ok)
  {
    RunInv(c, ss, ls, n);
    assert StepAt(c, ss, ls, n);
    VisitWrites(c, ss[n], ls[n]);
  }

  /** In state k of a visit opened at a the first m entries have been written, and the rest is to come. */
  ghost predicate Progress(c: Config, ss: seq<State>, ls: seq<Label>, a: nat, k: nat,
                           tx: Tx, es: seq<Entry>, v: Verdict, m: nat) {
    && a < k < |ss| <= |ls| + 1 && m <= |es| && ss[k].watch.WBusy?
    && ss[k].watch.visit == (if m < |es| then Some(Visit(tx, es[m..], v)) else None)
    && (forall j :: 0 <= j < m ==> WrittenIn(c, ss, ls, a + 1, k, tx, es[j], v, true))
  }

  /** The m-th entry of the visit is written, or nothing of the visit changes. */
  lemma VisitAdvances(c: Config, s: State, l: Label, tx: Tx, es: seq<Entry>, v: Verdict, m: nat)
    requires Inv(c, s) && Next(c, s, l).Some? && !l.Crash? && (l.WatchWrite? ==> l.ok)
    requires m < |es| && s.watch.WBusy? && s.watch.visit == Some(Visit(tx, es[m..], v))
    ensures var s' := Next(c, s, l).value;
      var m' := if l.WatchWrite? then m + 1 else m;
      && s'.watch.WBusy?
      && s'.watch.visit == (if m' < |es| then Some(Visit(tx, es[m'..], v)) else None)
      && (l.WatchWrite? ==> WrittenAt(c, s, l, s', tx, es[m], v, true))
  {
    if l.WatchWrite? {
      VisitWrites(c, s, l);
      assert es[m..][1..] == es[m + 1..] && es[m..][0] == es[m];
    } else {
      VisitUntouched(c, s, l);
    }
  }

  lemma ProgressStep(c: Config, ss: seq<State>, ls: seq<Label>, a: nat, k: nat,
                     tx: Tx, es: seq<Entry>, v: Verdict, m: nat) returns (m': nat)
    requires Run(c, ss, ls) && k < |ls|
    requires Progress(c, ss, ls, a, k, tx, es, v, m) && m < |es|
    requires !ls[k].Crash? && (ls[k].WatchWrite? ==> ls[k].ok)
    ensures Progress(c, ss, ls, a, k + 1, tx, es, v, m')
  {
    StepAdvances(c, ss, ls, k, tx, es, v, m);
    m' := if ls[k].WatchWrite? then m + 1 else m;
    forall j | 0 <= j < m' ensures WrittenIn(c, ss, ls, a + 1, k + 1, tx, es[j], v, true) {
      if j < m {
        WrittenStays(c, ss, ls, ss, ls, a + 1, k, k + 1, tx, es[j], v, true);
      } else {
        assert WroteAt(c, ss, ls, a + 1, k, k + 1, tx, es[m], v, true);
      }
    }
  }

  lemma StepAdvances(c: Config, ss: seq<State>, ls: seq<Label>, k: nat, tx: Tx, es: seq<Entry>, v: Verdict, m: nat)
    requires Run(c, ss, ls) && k < |ls| && !ls[k].Crash? && (ls[k].WatchWrite? ==> ls[k].ok)
    requires m < |es| && ss[k].watch.WBusy? && ss[k].watch.visit == Some(Visit(tx, es[m..], v))
    ensures var m' := if ls[k].WatchWrite? then m + 1 else m;
      && ss[k + 1].watch.WBusy?
      && ss[k + 1].watch.visit == (if m' < |es| then Some(Visit(tx, es[m'..], v)) else None)
      && (ls[k].WatchWrite? ==> WrittenAt(c, ss[k], ls[k], ss[k + 1], tx, es[m], v, true))
  {
    assert StepAt(c, ss, ls, k);
    RunInv(c, ss, ls, k);
    VisitAdvances(c, ss[k], ls[k], tx, es, v, m);
  }

  lemma {:induction false} VisitProgress(c: Config, ss: seq<State>, ls: seq<Label>, a: nat, b: nat, k: nat, v: Verdict)
    returns (m: nat)
    requires Run(c, ss, ls) && FullVisit(ss, ls, a, b) && a < k <= b
    requires VerdictOf(c.events, ls[a].answer.value, ls[a].revertData) == Some(v)
    ensures ss[a].watch.WBusy? && ls[a].tx in ss[a].watch.todo
    ensures Progress(c, ss, ls, a, k, ls[a].tx, ss[a].watch.todo[ls[a].tx], v, m)
  {
    assert StepAt(c, ss, ls, a);
    if k == a + 1 {
      m := 0;
      RunInv(c, ss, ls, a);
      var es := ss[a].watch.todo[ls[a].tx];
      assert es[0..] == es;
    } else {
      m := VisitProgress(c, ss, ls, a, b, k - 1, v);
      assert InVisit(ss[k - 1]) && m < |ss[a].watch.todo[ls[a].tx]|;
      m := ProgressStep(c, ss, ls, a, k - 1, ls[a].tx, ss[a].watch.todo[ls[a].tx], v, m);
    }
  }

  /** A pending row stays pending while nobody claims, expires or replaces it. */
  lemma {:induction false} PendingStays(c: Config, ss: seq<State>, ls: seq<Label>, q: nat, b: nat, h: Word)
    requires Run(c, ss, ls) && q <= b < |ss| && PendingIn(ss[q].table, h)
    requires forall k :: q <= k < b ==> !ls[k].Claim? && !ls[k].Expire? && !ls[k].ReplaceOp?
    ensures PendingIn(ss[b].table, h)
    decreases b
  {
    if q < b {
      PendingStays(c, ss, ls, q, b - 1, h);
      RunInv(c, ss, ls, b - 1);
      assert StepAt(c, ss, ls, b - 1);
      StepLifecycle(c, ss[b - 1], ls[b - 1], h);
    }
  }

  /** What a visit from a to b does to entry e of tx. If e is the one named, its row is failed with the reason,
      and still is at b unless it was pruned; otherwise it returns to pending, and still is pending at b
      unless someone claimed, expired or replaced it meanwhile. */
  ghost predicate Settled(ss: seq<State>, ls: seq<Label>, a: nat, b: nat, tx: Tx, e: Entry, named: bool,
                          reason: Bytes) {
    && a < b < |ss| <= |ls| + 1
    && if named then
         && (exists q :: a < q < b && FailedAt(ss[q], ls[q], ss[q + 1], tx, e, reason))
         && ((forall q :: a < q <= b ==> e.h in ss[q].table) ==>
               ss[b].table[e.h].status == Failed && ss[b].table[e.h].reason == Some(reason))
       else
         && (exists q :: a < q < b && ResetAt(ss[q], ls[q], ss[q + 1], tx, e))
         && ((forall q :: a < q < b ==> !ls[q].Claim? && !ls[q].Expire? && !ls[q].ReplaceOp?) ==>
               PendingIn(ss[b].table, e.h))
  }

  predicate FailedAt(s: State, l: Label, s': State, tx: Tx, e: Entry, reason: Bytes) {
    && l.WatchWrite? && Owned(s.table, tx, e)
    && s'.table ==
         s.table[e.h := s.table[e.h].(status := Failed, reason := Some(reason), updatedAt := l.now)]
  }

  predicate ResetAt(s: State, l: Label, s': State, tx: Tx, e: Entry) {
    && l.WatchWrite? && Owned(s.table, tx, e)
    && s'.table == s.table[e.h := s.table[e.h].(status := Pending, updatedAt := l.now)]
  }

  /** The step carries out what HandleBundleRevert decides for entry e on the index and reason f that the
      revert data names, if any. */
  predicate RevertedAt(s: State, l: Label, s': State, tx: Tx, e: Entry, f: Option<(int, Bytes)>) {
    if f.Some? && e.index.Some? && e.index.value == f.value.0 then FailedAt(s, l, s', tx, e, f.value.1)
    else ResetAt(s, l, s', tx, e)
  }

  lemma WrittenIsReverted(c: Config, ss: seq<State>, ls: seq<Label>, a: nat, b: nat, tx: Tx, e: Entry,
                          f: Option<(int, Bytes)>)
    requires a <= b < |ss| <= |ls| + 1 && WrittenIn(c, ss, ls, a, b, tx, e, Reverted(f), true)
    ensures exists q :: a <= q < b && RevertedAt(ss[q], ls[q], ss[q + 1], tx, e, f)
  {
    var q := Writing(c, ss, ls, a, b, tx, e, Reverted(f), true);
    assert RevertedAt(ss[q], ls[q], ss[q + 1], tx, e, f);
  }

  /** What is visited at a: the rows submitted under the transaction of the receipt. */
  lemma VisitOpens(c: Config, ss: seq<State>, ls: seq<Label>, a: nat, b: nat)
    requires Run(c, ss, ls) && FullVisit(ss, ls, a, b)
    ensures ss[a].watch.WBusy? && ls[a].tx in ss[a].watch.todo && ss[a].watch.todo[ls[a].tx] != []
    ensures forall j :: 0 <= j < |ss[a].watch.todo[ls[a].tx]| ==>
      Owned(ss[a].table, ls[a].tx, ss[a].watch.todo[ls[a].tx][j])
  {
    assert StepAt(c, ss, ls, a);
    RunInv(c, ss, ls, a);
  }

  /** Over a whole visit, in every run: a transaction read as FailedOp(i, reason) fails exactly the row whose
      bundle_index is i, with that reason, and returns every other row of the transaction to pending. */
  lemma VisitSettles(c: Config, ss: seq<State>, ls: seq<Label>, a: nat, b: nat, j: nat, i: nat, reason: Bytes)
    requires Run(c, ss, ls) && FullVisit(ss, ls, a, b) && ls[a].answer.value.status != 1
    requires RevertVerdict(c.events, ls[a].revertData) == Some(Reverted(Some((i, reason))))
    ensures ss[a].watch.WBusy? && ls[a].tx in ss[a].watch.todo
    ensures var es := ss[a].watch.todo[ls[a].tx];
      j < |es| ==> Settled(ss, ls, a, b, ls[a].tx, es[j], es[j].index == Some(i), reason)
  {
    assert StepAt(c, ss, ls, a);
    VisitOpens(c, ss, ls, a, b);
    var tx, es, v := ls[a].tx, ss[a].watch.todo[ls[a].tx], Reverted(Some((i, reason)));
    if j < |es| {
      var m := VisitProgress(c, ss, ls, a, b, b, v);
      var q := Writing(c, ss, ls, a + 1, b, tx, es[j], v, true);
      SettledFrom(c, ss, ls, a, b, q, tx, es[j], es[j].index == Some(i), reason);
    }
  }

  lemma Writing(c: Config, ss: seq<State>, ls: seq<Label>, a: nat, b: nat, tx: Tx, e: Entry, v: Verdict, ok: bool)
    returns (q: nat)
    requires a <= b < |ss| <= |ls| + 1 && WrittenIn(c, ss, ls, a, b, tx, e, v, ok)
    ensures a <= q < b && WrittenAt(c, ss[q], ls[q], ss[q + 1], tx, e, v, ok)
  {
    q :| WroteAt(c, ss, ls, a, q, b, tx, e, v, ok);
  }

  lemma SettledFrom(c: Config, ss: seq<State>, ls: seq<Label>, a: nat, b: nat, q: nat, tx: Tx, e: Entry,
                    named: bool, reason: Bytes)
    requires Run(c, ss, ls) && a < q < b < |ss|
    requires if named then FailedAt(ss[q], ls[q], ss[q + 1], tx, e, reason)
             else ResetAt(ss[q], ls[q], ss[q + 1], tx, e)
    ensures Settled(ss, ls, a, b, tx, e, named, reason)
  {
    if named {
      if forall k :: a < k <= b ==> e.h in ss[k].table { TerminalIsFinal(c, ss, ls, q + 1, b, e.h); }
    } else if forall k :: a < k < b ==> !ls[k].Claim? && !ls[k].Expire? && !ls[k].ReplaceOp? {
      PendingStays(c, ss, ls, q + 1, b, e.h);
    }
  }

  // ----- a transaction that landed -----

  /** Entry e of the visit opened at a was written before k, from the row it had at a. */
  ghost predicate WrittenFrom(c: Config, ss: seq<State>, ls: seq<Label>, a: nat, k: nat, tx: Tx, e: Entry, v: Verdict) {
    exists q: nat :: WroteFrom(c, ss, ls, a, q, k, tx, e, v)
  }

  ghost predicate WroteFrom(c: Config, ss: seq<State>, ls: seq<Label>, a: nat, q: nat, k: nat,
                            tx: Tx, e: Entry, v: Verdict) {
    && a < q < k < |ss| <= |ls| + 1 && WrittenAt(c, ss[q], ls[q], ss[q + 1], tx, e, v, true)
    && e.h in ss[a].table && ss[q].table[e.h] == ss[a].table[e.h]
  }

  /** The row is as it was at a. */
  predicate Unchanged(ss: seq<State>, a: nat, k: nat, h: Word)
    requires a < |ss| && k < |ss|
  {
    h in ss[a].table && h in ss[k].table && ss[k].table[h] == ss[a].table[h]
  }

  /** A step of a visit spares the rows of other entries. */
  lemma StepSpares(c: Config, s: State, l: Label, tx: Tx, es: seq<Entry>, v: Verdict, m: nat, j: nat)
    requires Inv(c, s) && Next(c, s, l).Some? && !l.Crash? && m < |es| && j < |es| && j != m && DistinctEntries(es)
    requires s.watch.WBusy? && s.watch.visit == Some(Visit(tx, es[m..], v))
    requires es[j].h in s.table && s.table[es[j].h].status == Submitted
    ensures es[j].h in Next(c, s, l).value.table && Next(c, s, l).value.table[es[j].h] == s.table[es[j].h]
  {
    if l.WatchWrite? {
      WatchWriteTable(c, s, l.ok, l.now);
    } else {
      SubmittedStep(c, s, l, es[j].h);
    }
  }

  /** Up to the write of entry j its row is as the visit found it; so it stays when no log is about the op. */
  lemma {:induction false} EntryProgress(c: Config, ss: seq<State>, ls: seq<Label>, a: nat, b: nat, k: nat, j: nat)
    returns (m: nat)
    requires Run(c, ss, ls) && FullVisit(ss, ls, a, b) && a < k <= b && ls[a].answer.value.status == 1
    ensures ss[a].watch.WBusy? && ls[a].tx in ss[a].watch.todo
    ensures var tx, es, v := ls[a].tx, ss[a].watch.todo[ls[a].tx], Landed(ls[a].answer.value);
      && m <= |es| && ss[k].watch.WBusy?
      && ss[k].watch.visit == (if m < |es| then Some(Visit(tx, es[m..], v)) else None)
      && (j < |es| ==>
           && (m <= j || Unmentioned(c.events, v.receipt, es[j].h) ==> Unchanged(ss, a, k, es[j].h))
           && (m > j ==> WrittenFrom(c, ss, ls, a, k, tx, es[j], v)))
  {
    VisitOpens(c, ss, ls, a, b);
    assert StepAt(c, ss, ls, a);
    RunInv(c, ss, ls, a);
    var tx, es, v := ls[a].tx, ss[a].watch.todo[ls[a].tx], Landed(ls[a].answer.value);
    if k == a + 1 {
      m := 0;
      assert es[0..] == es;
    } else {
      m := EntryProgress(c, ss, ls, a, b, k - 1, j);
      assert InVisit(ss[k - 1]);
      StepAdvances(c, ss, ls, k - 1, tx, es, v, m);
      if j < |es| { EntryStep(c, ss, ls, a, k - 1, tx, es, v, m, j); }
      m := if ls[k - 1].WatchWrite? then m + 1 else m;
    }
  }

  lemma EntryStep(c: Config, ss: seq<State>, ls: seq<Label>, a: nat, k: nat,
                  tx: Tx, es: seq<Entry>, v: Verdict, m: nat, j: nat)
    requires Run(c, ss, ls) && a < k < |ls| && m < |es| && j < |es| && DistinctEntries(es) && v.Landed?
    requires !ls[k].Crash? && (ls[k].WatchWrite? ==> ls[k].ok) && Owned(ss[a].table, tx, es[j])
    requires ss[k].watch.WBusy? && ss[k].watch.visit == Some(Visit(tx, es[m..], v))
    requires ls[k].WatchWrite? ==> WrittenAt(c, ss[k], ls[k], ss[k + 1], tx, es[m], v, true)
    requires m <= j || Unmentioned(c.events, v.receipt, es[j].h) ==> Unchanged(ss, a, k, es[j].h)
    requires m > j ==> WrittenFrom(c, ss, ls, a, k, tx, es[j], v)
    ensures var m' := if ls[k].WatchWrite? then m + 1 else m;
      && (m' <= j || Unmentioned(c.events, v.receipt, es[j].h) ==> Unchanged(ss, a, k + 1, es[j].h))
      && (m' > j ==> WrittenFrom(c, ss, ls, a, k + 1, tx, es[j], v))
  {
    assert StepAt(c, ss, ls, k);
    RunInv(c, ss, ls, k);
    var h := es[j].h;
    if m > j {
      var q: nat :| WroteFrom(c, ss, ls, a, q, k, tx, es[j], v);
      assert WroteFrom(c, ss, ls, a, q, k + 1, tx, es[j], v);
    }
    if m != j {
      if Unchanged(ss, a, k, h) { StepSpares(c, ss[k], ls[k], tx, es, v, m, j); }
    } else if ls[k].WatchWrite? {
      assert WroteFrom(c, ss, ls, a, k, k + 1, tx, es[j], v);
      if Unmentioned(c.events, v.receipt, h) {
        UnmentionedRow(c.events, v.receipt, h, ss[k].table[h], ss[k + 1].table[h], ls[k].now);
      }
    } else {
      SubmittedStep(c, ss[k], ls[k], h);
    }
  }

  /** Over a whole visit to a transaction that landed with status 1, in every run and whatever the others do:
      the row of every entry becomes at b what the receipt makes of the row it had at a, unless it was
      pruned meanwhile; a row no log of the entry point is about is exactly as it was. */
  lemma LandedSettles(c: Config, ss: seq<State>, ls: seq<Label>, a: nat, b: nat, e: Entry)
    requires Run(c, ss, ls) && FullVisit(ss, ls, a, b) && ls[a].answer.value.status == 1
    requires ss[a].watch.WBusy? && ls[a].tx in ss[a].watch.todo && e in ss[a].watch.todo[ls[a].tx]
    ensures Owned(ss[a].table, ls[a].tx, e)
    ensures Unmentioned(c.events, ls[a].answer.value, e.h) ==>
      e.h in ss[b].table && ss[b].table[e.h] == ss[a].table[e.h]
    ensures (forall k :: a <= k <= b ==> e.h in ss[k].table) ==>
      LandedRow(c.events, ls[a].answer.value, e.h, ss[a].table[e.h], ss[b].table[e.h], ss[b].table[e.h].updatedAt)
  {
    VisitOpens(c, ss, ls, a, b);
    var tx, es, v := ls[a].tx, ss[a].watch.todo[ls[a].tx], Landed(ls[a].answer.value);
    var j :| 0 <= j < |es| && es[j] == e;
    var m := EntryProgress(c, ss, ls, a, b, b, j);
    var q: nat :| WroteFrom(c, ss, ls, a, q, b, tx, e, v);
    var r, r1, r2 := ss[a].table[e.h], ss[q + 1].table[e.h], ls[q].now;
    if forall k :: a <= k <= b ==> e.h in ss[k].table {
      if Unmentioned(c.events, v.receipt, e.h) {
        UnmentionedRow(c.events, v.receipt, e.h, r, r1, r2);
        RestampLanded(c.events, v.receipt, e.h, r, r1, r2);
      } else {
        MentionedRow(c.events, v.receipt, e.h, r, r1, r2);
        TerminalIsFinal(c, ss, ls, q + 1, b, e.h);
        RestampLanded(c.events, v.receipt, e.h, r, r1, r2);
      }
    }
  }

  lemma RestampLanded(ev: Events, receipt: Receipt, h: Word, r: Row, r': Row, now: int)
    requires LandedRow(ev, receipt, h, r, r', now)
    ensures LandedRow(ev, receipt, h, r, r', r'.updatedAt)
  {}
}
