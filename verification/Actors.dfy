/** The actors as code: Tick, Poll, Reconcile, the intake and the signer
    (internal/bundler/loop.go, watcher.go, receipt.go, reconcile.go, internal/signer/keystore.go,
    internal/rpc/methods.go), working on the repository with other actors running between their
    atomic calls. Each is proved to follow the machine of Protocol step by step. */
module Actors {
  import opened Bytes
  import opened UserOps
  import opened Mempool
  import opened Receipts
  import opened Protocol
  import opened Invariant
  import opened Runs
  import opened Broadcasts
  import opened Visits
  import opened Settlement
  import opened Polls
  import opened Repository

  /** What the node answers to SignAndSubmit. rest: the quoted fees and the signature. Unsent: no quote or
      signature. Refused: the send returned an error; leaked: the transaction, with these fees, reached
      the network all the same. */
  datatype Submission =
    | Accepted(rest: nat)
    | Unsent
    | Refused(nonceTooLow: bool, pending: Option<nat>, leaked: Option<nat>)

  datatype Estimate = GasKnown | GasError(permanent: bool, reason: Bytes)

  /** Everything a tick gets from outside: answers, clock readings, engine errors and, per gap, what
      the other actors try to do. */
  datatype World = World(
    funded: bool,
    readable: bool,
    claimOk: bool,
    estimate: Estimate,
    submit: Submission,
    writeOk: nat -> bool,
    clock: nat -> int,
    gap: nat -> seq<Label>)

  /** The same for a poll: whether the submitted rows can be read, the answers by round, the engine errors
      and clock by round and op. */
  datatype Answers = Answers(
    readable: bool,
    receipt: (nat, Tx) -> Option<Receipt>,
    writeOk: (nat, nat) -> bool,
    clock: (nat, nat) -> int,
    gap: (nat, nat) -> seq<Label>)

  function OkIn(w: Answers, round: nat): nat -> bool { (i: nat) => w.writeOk(round, i) }

  /** The rows after a start-up sweep: those in bundling are pending, the others as they were. */
  function SweptRows(t: Table, now: int): Table {
    map h | h in t :: if t[h].status == Bundling then t[h].(status := Pending, updatedAt := now) else t[h]
  }

  lemma SweptLists(t: Table, now: int, todo: map<Tx, seq<Entry>>)
    requires Lists(SweptRows(t, now), todo)
    ensures Lists(t, todo)
  {
    var u := SweptRows(t, now);
    forall tx, i | tx in todo && 0 <= i < |todo[tx]| ensures IsListed(t, tx, todo[tx][i]) {
      assert IsListed(u, tx, todo[tx][i]);
    }
    forall h | h in t && t[h].status == Submitted && t[h].bundleTx.Some?
      ensures t[h].bundleTx.value in todo && Entry(h, t[h].bundleIndex) in todo[t[h].bundleTx.value] {
      assert h in u && u[h] == t[h];
    }
  }

  /** Every row listed under an answered transaction had its write between a and b, as the answer says. */
  ghost predicate AllAnswered(c: Config, ss: seq<State>, ls: seq<Label>, a: nat, b: nat,
                           todo: map<Tx, seq<Entry>>, order: seq<Tx>, w: Answers)
  {
    forall i :: 0 <= i < |order| && order[i] in todo && w.receipt(i, order[i]).Some? ==>
      AllWritten(c, ss, ls, a, b, order[i], todo[order[i]], VerdictFor(w.receipt(i, order[i]).value), OkIn(w, i))
  }

  lemma AnswersMore(c: Config, ss: seq<State>, ls: seq<Label>, ss': seq<State>, ls': seq<Label>, a: nat,
                    todo: map<Tx, seq<Entry>>, order: seq<Tx>, tx: Tx, w: Answers)
    requires AllAnswered(c, ss, ls, a, |ls|, todo, order, w) && a <= |ls| && tx in todo
    requires ss <= ss' && ls <= ls' && |ss'| == |ls'| + 1
    requires w.receipt(|order|, tx).Some? ==>
      AllWritten(c, ss', ls', |ls|, |ls'|, tx, todo[tx], VerdictFor(w.receipt(|order|, tx).value), OkIn(w, |order|))
    ensures AllAnswered(c, ss', ls', a, |ls'|, todo, order + [tx], w)
  {
    var more := order + [tx];
    forall i | 0 <= i < |more| && more[i] in todo && w.receipt(i, more[i]).Some?
      ensures AllWritten(c, ss', ls', a, |ls'|, more[i], todo[more[i]],
                         VerdictFor(w.receipt(i, more[i]).value), OkIn(w, i)) {
      var es, v, ok := todo[more[i]], VerdictFor(w.receipt(i, more[i]).value), OkIn(w, i);
      if i < |order| {
        forall j | 0 <= j < |es| ensures WrittenIn(c, ss', ls', a, |ls'|, more[i], es[j], v, ok(j)) {
          assert AllWritten(c, ss, ls, a, |ls|, order[i], todo[order[i]], v, ok);
          WrittenStays(c, ss, ls, ss', ls', a, |ls|, |ls'|, more[i], es[j], v, ok(j));
        }
      } else {
        AllWrittenSince(c, ss', ls', a, |ls|, tx, es, v, ok);
      }
    }
  }

  lemma HandledMore(c: Config, ss: seq<State>, ls: seq<Label>, ss': seq<State>, ls': seq<Label>, from: nat,
                    fetched: seq<(Tx, Option<Receipt>)>, todo: map<Tx, seq<Entry>>, order: seq<Tx>,
                    byTx: map<Tx, seq<Entry>>, tx: Tx, w: Answers)
    requires Handled(c, ss, ls, from, fetched, todo, order, w) && Asking(todo, order, byTx) && tx in byTx
    requires ss <= ss' && ls <= ls' && |ss'| == |ls'| + 1 && from <= |ls|
    requires Fetches(ls') == Fetches(ls) + [(tx, w.receipt(|order|, tx))]
    requires w.receipt(|order|, tx).Some? ==>
      AllWritten(c, ss', ls', |ls|, |ls'|, tx, byTx[tx], VerdictFor(w.receipt(|order|, tx).value), OkIn(w, |order|))
    ensures Asking(todo, order + [tx], byTx - {tx}) && Handled(c, ss', ls', from, fetched, todo, order + [tx], w)
  {
    AskedMore(order, tx, w.receipt);
    AnswersMore(c, ss, ls, ss', ls', from, todo, order, tx, w);
  }

  lemma AnsweredSince(c: Config, ss: seq<State>, ls: seq<Label>, ss': seq<State>, ls': seq<Label>, a: nat, from: nat,
                      todo: map<Tx, seq<Entry>>, order: seq<Tx>, w: Answers)
    requires AllAnswered(c, ss, ls, from, |ls|, todo, order, w) && a <= from
    requires ss <= ss' && ls <= ls' && |ss'| == |ls'| + 1 && |ss| == |ls| + 1
    ensures AllAnswered(c, ss', ls', a, |ls'|, todo, order, w)
  {
    forall i | 0 <= i < |order| && order[i] in todo && w.receipt(i, order[i]).Some?
      ensures AllWritten(c, ss', ls', a, |ls'|, order[i], todo[order[i]],
                         VerdictFor(w.receipt(i, order[i]).value), OkIn(w, i)) {
      var es, v, ok := todo[order[i]], VerdictFor(w.receipt(i, order[i]).value), OkIn(w, i);
      AllWrittenSince(c, ss, ls, a, from, order[i], es, v, ok);
      forall j | 0 <= j < |es| ensures WrittenIn(c, ss', ls', a, |ls'|, order[i], es[j], v, ok(j)) {
        WrittenStays(c, ss, ls, ss', ls', a, |ls|, |ls'|, order[i], es[j], v, ok(j));
      }
    }
  }

  /** The order has every transaction of the map, once. */
  ghost predicate AskedOnce(todo: map<Tx, seq<Entry>>, order: seq<Tx>) {
    (forall tx :: tx in order <==> tx in todo) && (forall i, j :: 0 <= i < j < |order| ==> order[i] != order[j])
  }

  ghost predicate SomeUnreadable(ev: Events, todo: map<Tx, seq<Entry>>, w: Answers) {
    exists i: nat, tx :: tx in todo && Unreadable(ev, w.receipt(i, tx))
  }

  /** The transactions of the order were asked for since the first fetches, and their rows written since from. */
  ghost predicate Handled(c: Config, ss: seq<State>, ls: seq<Label>, from: nat, fetched: seq<(Tx, Option<Receipt>)>,
                          todo: map<Tx, seq<Entry>>, order: seq<Tx>, w: Answers)
  {
    Fetches(ls) == fetched + Asked(order, w.receipt) && AllAnswered(c, ss, ls, from, |ls|, todo, order, w)
  }

  /** What is left of the map after the transactions asked for. */
  ghost predicate Asking(todo: map<Tx, seq<Entry>>, order: seq<Tx>, byTx: map<Tx, seq<Entry>>) {
    && (forall i, j :: 0 <= i < j < |order| ==> order[i] != order[j])
    && (forall tx :: tx in byTx ==> tx in todo && byTx[tx] == todo[tx])
    && (forall tx :: tx in todo <==> tx in byTx || tx in order) && (forall tx :: tx in order ==> tx !in byTx)
  }

  /** What a tick did: nothing, or the batch it claimed and what it wrote back for it. */
  datatype Ticked = Skipped | Done(batch: seq<Snap>, goal: Goal) | Died

  /** What is to be written back, by the estimate and the submission of this calldata with this nonce. */
  function GoalFor(w: World, calldata: Bytes, nonce: nat): Goal {
    match w.estimate
    case GasError(permanent, reason) => if permanent then GoFail(reason) else GoReset
    case GasKnown =>
      if w.submit.Accepted? then GoSubmit(Tx(nonce, calldata, w.submit.rest), w.clock(1)) else GoReset
  }

  function NonceAfter(w: World, r: Ticked, nonce: nat): nat {
    if !r.Done? || w.estimate.GasError? then nonce
    else if w.submit.Accepted? then nonce + 1
    else Or(Resync(w.submit), Some(nonce)).value
  }

  /** The transactions a tick adds to the accepted ones. */
  function SentBy(r: Ticked): seq<Tx> { if r.Done? && r.goal.GoSubmit? then [r.goal.tx] else [] }

  predicate NotLoop(l: Label) {
    l.Intake? || l.ReplaceOp? || l.Expire? || l.Prune? || l.Poll? || l.FetchReceipt? || l.WatchWrite? || l.PollDone?
  }

  predicate NotWatch(l: Label) {
    || l.Intake? || l.ReplaceOp? || l.Expire? || l.Prune? || l.FetchPending? || l.Claim?
    || l.EstimateFails? || l.SubmitFails? || l.Broadcast? || l.LoopWrite?
  }

  predicate NotPruner(l: Label) { (NotLoop(l) || NotWatch(l)) && !l.Expire? && !l.Prune? }

  /** The state after some actors' script; steps that are not theirs or not enabled are dropped. */
  function Played(c: Config, s: State, script: seq<Label>, who: Label -> bool): State {
    if script == [] then s
    else
      var t := Played(c, s, script[..|script| - 1], who);
      var l := script[|script| - 1];
      if who(l) && Next(c, t, l).Some? then Next(c, t, l).value else t
  }

  /** The batch is a prefix of t's pending rows by arrival, each once and with its op: all of them, or as many as
      a limit that is not negative allows. */
  ghost predicate Picked(t: Table, limit: int, batch: seq<Snap>) {
    && (forall i, j :: 0 <= i < j < |batch| ==> batch[i].h != batch[j].h)
    && (forall i :: 0 <= i < |batch| ==>
          batch[i].h in t && t[batch[i].h].status == Pending && t[batch[i].h].op == batch[i].op)
    && (limit >= 0 ==> |batch| <= limit)
    && (forall i, j :: 0 <= i < j < |batch| ==> t[batch[i].h].receivedAt <= t[batch[j].h].receivedAt)
    && (forall h :: h in t && t[h].status == Pending && (forall i :: 0 <= i < |batch| ==> batch[i].h != h) ==>
          |batch| == limit && forall i :: 0 <= i < |batch| ==> t[batch[i].h].receivedAt <= t[h].receivedAt)
  }

  lemma PickedBatch(t: Table, limit: int, batch: seq<Snap>, hs: seq<Word>)
    requires hs == Hashes(batch) && FirstPending(t, limit, hs)
    requires forall i :: 0 <= i < |batch| ==> hs[i] in t && t[hs[i]].op == batch[i].op
    ensures Picked(t, limit, batch)
  {
    assert forall i :: 0 <= i < |batch| ==> hs[i] == batch[i].h;
    forall h | h in t && t[h].status == Pending && (forall i :: 0 <= i < |batch| ==> batch[i].h != h)
      ensures |batch| == limit && forall i :: 0 <= i < |batch| ==> t[batch[i].h].receivedAt <= t[h].receivedAt {
      assert h !in hs;
    }
  }

  lemma ClaimableIff(t: Table, batch: seq<Snap>)
    requires Distinct(Hashes(batch))
    ensures Claimable(t, Hashes(batch)) <==> StillPending(t, batch)
  {
    var hs := Hashes(batch);
    assert forall i :: 0 <= i < |batch| ==> hs[i] == batch[i].h;
  }

  /** Every row of the batch is still pending. */
  predicate StillPending(t: Table, batch: seq<Snap>) {
    forall i :: 0 <= i < |batch| ==> batch[i].h in t && t[batch[i].h].status == Pending
  }

  /** No row of t is missing from u, and terminal rows are the same. */
  predicate Kept(t: Table, u: Table) {
    forall h :: h in t ==> h in u && (Terminal(t[h].status) ==> u[h] == t[h])
  }

  lemma KeptTransitive(t: Table, u: Table, v: Table)
    requires Kept(t, u) && Kept(u, v)
    ensures Kept(t, v)
  {}

  lemma OthersKeep(c: Config, s: State, l: Label)
    requires Inv(c, s) && s.phase == Up && NotPruner(l) && Next(c, s, l).Some?
    ensures Next(c, s, l).value.phase == Up && Kept(s.table, Next(c, s, l).value.table)
  {
    var u := Next(c, s, l).value.table;
    forall h | h in s.table ensures h in u && (Terminal(s.table[h].status) ==> u[h] == s.table[h]) {
      StepLifecycle(c, s, l, h);
    }
  }

  /** From t over mid to u only terminal rows of mid were deleted, and rows terminal in t are the same
      or gone. */
  predicate Pruned(t: Table, mid: Table, u: Table) {
    && Missing(mid, u) && t.Keys <= mid.Keys
    && forall h :: h in t && h in u && Terminal(t[h].status) ==> u[h] == t[h]
  }

  /** Rows of mid that u lacks are terminal, the others are the same. */
  predicate Missing(mid: Table, u: Table) {
    && u.Keys <= mid.Keys
    && forall h :: h in mid ==> if h in u then u[h] == mid[h] else Terminal(mid[h].status)
  }

  /** Every row pending and too old in t is failed with ttl_expired in u, or gone. */
  predicate OverdueGone(t: Table, u: Table, cutoff: int, now: int) {
    forall h :: h in t && t[h].status == Pending && t[h].receivedAt < cutoff && h in u ==>
      u[h] == t[h].(status := Failed, reason := Some(Ascii("ttl_expired")), updatedAt := now)
  }

  lemma PrunedInTwo(t: Table, t1: Table, mid: Table, u: Table, cutoff: int, now: int, io: bool)
    requires t1.Keys == t.Keys && forall h :: h in t1 ==>
      t1[h] == if io && t[h].status == Pending && t[h].receivedAt < cutoff
               then t[h].(status := Failed, reason := Some(Ascii("ttl_expired")), updatedAt := now) else t[h]
    requires Kept(t1, mid)
    requires forall h :: h in u ==> h in mid && u[h] == mid[h]
    requires forall h :: h in mid && h !in u ==> Terminal(mid[h].status)
    ensures Pruned(t, mid, u) && (io ==> OverdueGone(t, u, cutoff, now))
  {
    forall h | h in t && h in u && Terminal(t[h].status) ensures u[h] == t[h] { assert h in t1; }
  }

  lemma PlayOne(c: Config, s: State, script: seq<Label>, i: nat, who: Label -> bool)
    requires i < |script|
    ensures var t := Played(c, s, script[..i], who);
      Played(c, s, script[..i + 1], who) ==
        if who(script[i]) && Next(c, t, script[i]).Some? then Next(c, t, script[i]).value else t
  {
    assert script[..i + 1][..i] == script[..i];
  }

  lemma OthersSpareLoop(c: Config, s: State, l: Label)
    requires s.phase == Up && NotLoop(l) && Next(c, s, l).Some?
    ensures var s' := Next(c, s, l).value;
      && s'.phase == Up && s'.loop == s.loop && s'.nonce == s.nonce
      && s'.hist.lost == s.hist.lost && s'.hist.sent == s.hist.sent
  {}

  lemma OthersSpareWatch(c: Config, s: State, l: Label)
    requires s.phase == Up && NotWatch(l) && Next(c, s, l).Some?
    ensures Next(c, s, l).value.phase == Up && Next(c, s, l).value.watch == s.watch
  {}

  /** A step that ends in start-up continues the start-up under way, or begins it. */
  lemma ExtendBoot(c: Config, ss: seq<State>, ls: seq<Label>, boot: nat, l: Label, s: State)
    requires Run(c, ss, ls) && Next(c, ss[|ls|], l) == Some(s) && boot <= |ls|
    requires InStartUp(s.phase)
    requires ss[|ls|].phase == Down || ss[|ls|].phase == Up || StartingUp(ss, boot, |ls|)
    requires l.BootReset? ==> boot == |ls|
    ensures StartingUp(ss + [s], boot, |ls| + 1)
  {
    RunInv(c, ss, ls, |ls|);
  }

  predicate InStartUp(p: Phase) { p == Swept || p == Checking || p == Checked }

  lemma LogExtends(c: Config, ss: seq<State>, ls: seq<Label>, boot: nat, l: Label, s: State)
    requires Run(c, ss, ls) && Next(c, ss[|ls|], l) == Some(s) && boot <= |ls|
    requires InStartUp(ss[|ls|].phase) ==> StartingUp(ss, boot, |ls|)
    requires l.BootReset? ==> boot == |ls|
    ensures Run(c, ss + [s], ls + [l])
    ensures InStartUp(s.phase) ==> StartingUp(ss + [s], boot, |ls| + 1)
  {
    ExtendRun(c, ss, ls, l, s);
    if InStartUp(s.phase) { ExtendBoot(c, ss, ls, boot, l, s); }
  }

  /** The first k of the submitted rows are grouped, those with a transaction. */
  ghost predicate Grouped(t: Table, subs: seq<Word>, k: nat, byTx: map<Tx, seq<Entry>>)
    requires k <= |subs| && forall h :: h in subs ==> h in t
  {
    && (forall tx :: tx in byTx ==> byTx[tx] != [] && DistinctEntries(byTx[tx]))
    && (forall tx, i :: tx in byTx && 0 <= i < |byTx[tx]| ==> Owned(t, tx, byTx[tx][i]) && byTx[tx][i].h in subs[..k])
    && (forall j :: 0 <= j < k ==> Listed(t[subs[j]], subs[j], byTx))
  }

  predicate Listed(r: Row, h: Word, byTx: map<Tx, seq<Entry>>) {
    r.bundleTx.Some? ==> r.bundleTx.value in byTx && Entry(h, r.bundleIndex) in byTx[r.bundleTx.value]
  }

  function AddEntry(byTx: map<Tx, seq<Entry>>, tx: Tx, e: Entry): map<Tx, seq<Entry>> {
    byTx[tx := (if tx in byTx then byTx[tx] else []) + [e]]
  }

  lemma GroupOne(t: Table, subs: seq<Word>, k: nat, byTx: map<Tx, seq<Entry>>)
    requires Distinct(subs) && k < |subs| && (forall h :: h in subs ==> h in t && t[h].status == Submitted)
    requires Grouped(t, subs, k, byTx) && t[subs[k]].bundleTx.Some?
    ensures var r := t[subs[k]];
      Grouped(t, subs, k + 1, AddEntry(byTx, r.bundleTx.value, Entry(subs[k], r.bundleIndex)))
  {
    var h, r := subs[k], t[subs[k]];
    var u := AddEntry(byTx, r.bundleTx.value, Entry(h, r.bundleIndex));
    assert h !in subs[..k];
    assert subs[..k + 1] == subs[..k] + [h];
    forall tx | tx in u ensures u[tx] != [] && DistinctEntries(u[tx]) {
      assert tx in byTx ==> DistinctEntries(byTx[tx]);
    }
    forall j | 0 <= j < k + 1 ensures Listed(t[subs[j]], subs[j], u) {
      if j < k { assert Listed(t[subs[j]], subs[j], byTx); }
    }
  }

  lemma GroupNone(t: Table, subs: seq<Word>, k: nat, byTx: map<Tx, seq<Entry>>)
    requires k < |subs| && (forall h :: h in subs ==> h in t)
    requires Grouped(t, subs, k, byTx) && t[subs[k]].bundleTx.None?
    ensures Grouped(t, subs, k + 1, byTx)
  {
    assert subs[..k + 1] == subs[..k] + [subs[k]];
  }

  /** The byTx loop of Poll and Reconcile: every submitted row, once, under its transaction. */
  method GroupByTx(t: Table, subs: seq<Word>) returns (byTx: map<Tx, seq<Entry>>)
    requires Distinct(subs) && forall h :: h in subs <==> h in t && t[h].status == Submitted
    ensures Groups(t, byTx)
    ensures Lists(t, byTx)
  {
    byTx := map[];
    for k := 0 to |subs|
      invariant Grouped(t, subs, k, byTx)
    {
      var h := subs[k];
      if t[h].bundleTx.None? {
        GroupNone(t, subs, k, byTx);
        continue;
      }
      GroupOne(t, subs, k, byTx);
      var tx := t[h].bundleTx.value;
      byTx := byTx[tx := (if tx in byTx then byTx[tx] else []) + [Entry(h, t[h].bundleIndex)]];
    }
    forall h | h in t && t[h].status == Submitted && t[h].bundleTx.Some? ensures Listed(t[h], h, byTx) {
      var j :| 0 <= j < |subs| && subs[j] == h;
    }
    GroupsList(t, byTx);
  }

  /** One more position of the batch is written back. */
  lemma OneMoreBack(ss: seq<State>, ls: seq<Label>, ss': seq<State>, ls': seq<Label>, a: nat,
                    b: seq<Snap>, g: Goal, ok: nat -> bool, i: nat)
    requires i < |b| && AllWrittenBack(ss, ls, a, |ls|, b[..i], g, ok)
    requires ss <= ss' && ls <= ls' && |ss'| == |ls'| + 1 && a <= |ls| < |ls'|
    requires WroteBack(ss'[|ls'| - 1], ls'[|ls'| - 1], ss'[|ls'|], b[i].h, g, i, ok(i))
    ensures AllWrittenBack(ss', ls', a, |ls'|, b[..i + 1], g, ok)
  {
    assert WroteBackAt(ss', ls', a, |ls'| - 1, |ls'|, b[i].h, g, i, ok(i));
    forall j | 0 <= j < i ensures WrittenBack(ss', ls', a, |ls'|, b[j].h, g, j, ok(j)) {
      assert b[..i][j] == b[j];
      WrittenBackStays(ss, ls, ss', ls', a, |ls|, a, |ls'|, b[j].h, g, j, ok(j));
    }
  }

  /** Every entry of a visit had its write; the j-th succeeded if ok(j). */
  ghost predicate AllWritten(c: Config, ss: seq<State>, ls: seq<Label>, a: nat, b: nat,
                             tx: Tx, es: seq<Entry>, v: Verdict, ok: nat -> bool) {
    WrittenTo(c, ss, ls, a, b, tx, es, |es|, v, ok)
  }

  /** The first n of them had. */
  ghost predicate WrittenTo(c: Config, ss: seq<State>, ls: seq<Label>, a: nat, b: nat,
                            tx: Tx, es: seq<Entry>, n: nat, v: Verdict, ok: nat -> bool)
    requires n <= |es|
  {
    forall j :: 0 <= j < n ==> WrittenIn(c, ss, ls, a, b, tx, es[j], v, ok(j))
  }

  lemma OneMoreWritten(c: Config, ss: seq<State>, ls: seq<Label>, ss': seq<State>, ls': seq<Label>, a: nat,
                       tx: Tx, es: seq<Entry>, v: Verdict, ok: nat -> bool, i: nat)
    requires i < |es| && WrittenTo(c, ss, ls, a, |ls|, tx, es, i, v, ok)
    requires ss <= ss' && ls <= ls' && |ss'| == |ls'| + 1 && a <= |ls| < |ls'|
    requires WrittenAt(c, ss'[|ls'| - 1], ls'[|ls'| - 1], ss'[|ls'|], tx, es[i], v, ok(i))
    ensures WrittenTo(c, ss', ls', a, |ls'|, tx, es, i + 1, v, ok)
  {
    assert WroteAt(c, ss', ls', a, |ls'| - 1, |ls'|, tx, es[i], v, ok(i));
    forall j | 0 <= j < i ensures WrittenIn(c, ss', ls', a, |ls'|, tx, es[j], v, ok(j)) {
      WrittenStays(c, ss, ls, ss', ls', a, |ls|, |ls'|, tx, es[j], v, ok(j));
    }
  }

  /** Entry i was the last to be written; alone: nobody else ran before it. */
  lemma EntryDone(c: Config, ss: seq<State>, ls: seq<Label>, ss': seq<State>, ls': seq<Label>, a: nat, t: Table,
                  tx: Tx, es: seq<Entry>, v: Verdict, ok: nat -> bool, i: nat, alone: bool)
    requires i < |es| && DistinctEntries(es) && WrittenTo(c, ss, ls, a, |ls|, tx, es, i, v, ok)
    requires ss <= ss' && ls <= ls' && |ss| == |ls| + 1 && |ss'| == |ls'| + 1 && a <= |ls| < |ls'|
    requires WrittenAt(c, ss'[|ls'| - 1], ls'[|ls'| - 1], ss'[|ls'|], tx, es[i], v, ok(i))
    requires alone ==>
      ss'[|ls'| - 1].table == ss[|ls|].table && OpsWritten(c.events, v, es, i, t, ss[|ls|].table, ok)
    ensures WrittenTo(c, ss', ls', a, |ls'|, tx, es, i + 1, v, ok)
    ensures alone ==> OpsWritten(c.events, v, es, i + 1, t, ss'[|ls'|].table, ok)
  {
    OneMoreWritten(c, ss, ls, ss', ls', a, tx, es, v, ok, i);
    if alone {
      OpsOneMore(c.events, v, es, i, t, ss[|ls|].table, ss'[|ls'|].table, ok, ls'[|ls'| - 1].now);
    }
  }

  lemma AllWrittenSince(c: Config, ss: seq<State>, ls: seq<Label>, a: nat, from: nat,
                        tx: Tx, es: seq<Entry>, v: Verdict, ok: nat -> bool)
    requires AllWritten(c, ss, ls, from, |ls|, tx, es, v, ok) && a <= from && |ss| == |ls| + 1
    ensures AllWritten(c, ss, ls, a, |ls|, tx, es, v, ok)
  {
    forall j | 0 <= j < |es| ensures WrittenIn(c, ss, ls, a, |ls|, tx, es[j], v, ok(j)) {
      var q: nat :| WroteAt(c, ss, ls, from, q, |ls|, tx, es[j], v, ok(j));
      assert WroteAt(c, ss, ls, a, q, |ls|, tx, es[j], v, ok(j));
    }
  }

  lemma WrittenSince(ss: seq<State>, ls: seq<Label>, a: nat, from: nat, b: seq<Snap>, g: Goal, ok: nat -> bool)
    requires AllWrittenBack(ss, ls, from, |ls|, b, g, ok) && a <= from && |ss| == |ls| + 1
    ensures AllWrittenBack(ss, ls, a, |ls|, b, g, ok)
  {
    forall j | 0 <= j < |b| ensures WrittenBack(ss, ls, a, |ls|, b[j].h, g, j, ok(j)) {
      WrittenBackStays(ss, ls, ss, ls, from, |ls|, a, |ls|, b[j].h, g, j, ok(j));
    }
  }

  class Signer {
    var pendingNonce: nat

    constructor ()
      ensures pendingNonce == 0
    {
      pendingNonce := 0;
    }

    method InitNonce(n: nat)
      modifies this
      ensures pendingNonce == n
    {
      pendingNonce := n;
    }

    /** A nonce is used up by an accepted transaction only; "nonce too low" resynchronises it. */
    method SignAndSubmit(data: Bytes, answer: Submission) returns (tx: Option<Tx>)
      modifies this
      ensures tx.Some? <==> answer.Accepted?
      ensures tx.Some? ==>
        tx.value == Tx(old(pendingNonce), data, answer.rest) && pendingNonce == tx.value.nonce + 1
      ensures answer.Refused? && answer.nonceTooLow && answer.pending.Some? ==> pendingNonce == answer.pending.value
      ensures answer.Unsent? || (answer.Refused? && !(answer.nonceTooLow && answer.pending.Some?)) ==>
        pendingNonce == old(pendingNonce)
      ensures tx.None? ==> pendingNonce == Or(Resync(answer), Some(old(pendingNonce))).value
    {
      match answer
      case Unsent => return None;
      case Refused(nonceTooLow, pending, _) =>
        if nonceTooLow && pending.Some? { pendingNonce := pending.value; }
        return None;
      case Accepted(rest) =>
        var signed := Tx(pendingNonce, data, rest);
        pendingNonce := pendingNonce + 1;
        return Some(signed);
    }
  }

  function Resync(a: Submission): Option<nat> {
    if a.Refused? && a.nonceTooLow then a.pending else None
  }

  function Leaked(a: Submission, nonce: nat, data: Bytes): Option<Tx> {
    if a.Refused? && a.leaked.Some? then Some(Tx(nonce, data, a.leaked.value)) else None
  }

  /** The bundler process. repo and signer are what the actors work on. phase, loop, watch and hist
      locate each actor in the machine; an actor never reads its own. ss and ls are the run of the
      machine so far, boot is where the current start-up began. */
  class Node {
    const c: Config
    const repo: Repo
    const signer: Signer
    var phase: Phase
    var loop: LoopPc
    var watch: WatchPc
    var hist: Hist
    ghost var ss: seq<State>
    ghost var ls: seq<Label>
    ghost var boot: nat

    function St(): State
      reads this, repo, signer
    {
      State(repo.rows, phase, loop, watch, signer.pendingNonce, hist)
    }

    predicate Booting()
      reads this
    {
      InStartUp(phase)
    }

    /** The run so far is kept and extended. */
    twostate predicate Grew()
      reads this
    {
      old(ss) <= ss && old(ls) <= ls && boot == old(boot)
    }

    ghost predicate Valid()
      reads this, repo, signer
    {
      Run(c, ss, ls) && ss[|ls|] == St() && boot <= |ls| && (Booting() ==> StartingUp(ss, boot, |ls|))
    }

    constructor (c: Config)
      ensures Valid() && St() == START && this.c == c && fresh(repo) && fresh(signer)
    {
      this.c := c;
      repo := new Repo();
      signer := new Signer();
      phase, loop, watch := START.phase, START.loop, START.watch;
      hist := START.hist;
      ss, ls, boot := [START], [], 0;
    }

    /** The calls since the last Log are one step of the machine. */
    method Log(l: Label, s: State)
      requires Run(c, ss, ls) && Next(c, ss[|ls|], l) == Some(s) && ss[|ls|].phase == phase
      requires boot <= |ls| && (Booting() ==> StartingUp(ss, boot, |ls|))
      requires l.BootReset? ==> boot == |ls|
      requires s.table == repo.rows && s.nonce == signer.pendingNonce
      modifies this
      ensures Valid() && St() == s
      ensures ss == old(ss) + [s] && ls == old(ls) + [l] && boot == old(boot)
      ensures Fetches(ls) == Fetches(old(ls)) + FetchOf(l)
    {
      FetchesMore(ls, l);
      LogExtends(c, ss, ls, boot, l, s);
      phase, loop, watch, hist := s.phase, s.loop, s.watch, s.hist;
      ss, ls := ss + [s], ls + [l];
    }

    /** Others run between two atomic calls of the loop; steps that are not enabled are dropped. */
    method OthersThanLoop(script: seq<Label>)
      requires Valid() && phase == Up
      modifies this, repo, signer
      ensures Valid() && Grew() && phase == Up
      ensures loop == old(loop) && hist.lost == old(hist.lost) && hist.sent == old(hist.sent)
      ensures signer.pendingNonce == old(signer.pendingNonce)
      ensures St() == Played(c, old(St()), script, NotLoop)
    {
      for i := 0 to |script|
        invariant Valid() && Grew() && phase == Up
        invariant loop == old(loop) && hist.lost == old(hist.lost) && hist.sent == old(hist.sent)
        invariant signer.pendingNonce == old(signer.pendingNonce)
        invariant St() == Played(c, old(St()), script[..i], NotLoop)
      {
        PlayOne(c, old(St()), script, i, NotLoop);
        if NotLoop(script[i]) {
          var s := Next(c, St(), script[i]);
          if s.Some? {
            OthersSpareLoop(c, St(), script[i]);
            repo.rows := s.value.table;
            Log(script[i], s.value);
          }
        }
      }
      assert script[..|script|] == script;
    }

    method OthersThanWatcher(script: seq<Label>)
      requires Valid() && phase == Up
      modifies this, repo, signer
      ensures Valid() && Grew() && phase == Up && watch == old(watch) && Fetches(ls) == Fetches(old(ls))
    {
      for i := 0 to |script|
        invariant Valid() && Grew() && phase == Up && watch == old(watch) && Fetches(ls) == Fetches(old(ls))
      {
        if NotWatch(script[i]) {
          var s := Next(c, St(), script[i]);
          if s.Some? {
            OthersSpareWatch(c, St(), script[i]);
            repo.rows := s.value.table;
            signer.pendingNonce := s.value.nonce;
            Log(script[i], s.value);
          }
        }
      }
    }

    // ----- intake -----

    /** eth_sendUserOperation's tail: the op is stored under its own hash. */
    method SendUserOperation(op: PackedUserOp, entryPoint: Address, io: bool, now: int) returns (h: Option<Word>)
      requires Valid() && phase == Up
      modifies this, repo
      ensures Valid() && phase == Up && loop == old(loop) && watch == old(watch)
      ensures Grew()
      ensures h.Some? <==>
        && entryPoint in c.entryPoints && io && c.hashOf(op, entryPoint) !in old(repo.rows)
        && forall g :: g in old(repo.rows) ==> !Occupies(old(repo.rows)[g], op)
      ensures h.Some? ==>
        && h.value == c.hashOf(op, entryPoint)
        && repo.rows == old(repo.rows)[h.value := Row(op, Pending, None, None, None, None, None, None, now, now)]
      ensures h.None? ==> repo.rows == old(repo.rows)
    {
      if entryPoint !in c.entryPoints { return None; }
      var s := St();
      var key := c.hashOf(op, entryPoint);
      var ok := repo.Insert(op, key, io, now);
      if io { Log(Intake(op, entryPoint, now), StepIntake(c, s, op, entryPoint, now).value); }
      return if ok then Some(key) else None;
    }

    // ----- the pruner -----

    /** Others run between the pruner's two statements: they delete nothing and touch no terminal row. */
    method OthersThanPruner(script: seq<Label>)
      requires Valid() && phase == Up
      modifies this, repo, signer
      ensures Valid() && Grew() && phase == Up && Kept(old(repo.rows), repo.rows)
      ensures St() == Played(c, old(St()), script, NotPruner)
    {
      for i := 0 to |script|
        invariant Valid() && Grew() && phase == Up && Kept(old(repo.rows), repo.rows)
        invariant St() == Played(c, old(St()), script[..i], NotPruner)
      {
        PlayOne(c, old(St()), script, i, NotPruner);
        if NotPruner(script[i]) {
          var s := Next(c, St(), script[i]);
          if s.Some? {
            InvHolds();
            OthersKeep(c, St(), script[i]);
            KeptTransitive(old(repo.rows), repo.rows, s.value.table);
            repo.rows := s.value.table;
            signer.pendingNonce := s.value.nonce;
            Log(script[i], s.value);
          }
        }
      }
      assert script[..|script|] == script;
    }

    /** One pruner tick, with engine errors and the other actors between its statements: first is the table
        the first one leaves, mid the one the second finds. The first fails exactly the pending rows
        received before now1 - ttl, the second deletes exactly the terminal rows updated before
        now2 - retention, and neither touches another row. So a row that was pending and overdue is
        failed with ttl_expired or gone, and rows terminal before are the same or gone. */
    method PrunerTick(now1: int, now2: int, ttl: int, retention: int, io1: bool, io2: bool, gap: seq<Label>)
      returns (ghost first: Table, ghost mid: Table)
      requires Valid() && phase == Up
      modifies this, repo, signer
      ensures Valid() && Grew() && phase == Up
      ensures first.Keys == old(repo.rows).Keys && forall h :: h in first ==>
        var r := old(repo.rows)[h];
        first[h] == if io1 && r.status == Pending && r.receivedAt < now1 - ttl
                    then r.(status := Failed, reason := Some(Ascii("ttl_expired")), updatedAt := now1) else r
      ensures mid == Played(c, old(St()).(table := first), gap, NotPruner).table
      ensures forall h :: h in repo.rows <==> h in mid && !(io2 && Old(mid[h], now2 - retention))
      ensures forall h :: h in repo.rows ==> h in mid && repo.rows[h] == mid[h]
      ensures Pruned(old(repo.rows), mid, repo.rows)
      ensures io1 ==> OverdueGone(old(repo.rows), repo.rows, now1 - ttl, now1)
    {
      ghost var t := repo.rows;
      ExpirePending(now1 - ttl, io1, now1);
      first := repo.rows;
      OthersThanPruner(gap);
      mid := repo.rows;
      PruneTerminal(now2 - retention, io2);
      PrunedInTwo(t, first, mid, repo.rows, now1 - ttl, now1, io1);
    }

    method ExpirePending(cutoff: int, io: bool, now: int)
      requires Valid() && phase == Up
      modifies this, repo
      ensures Valid() && Grew() && phase == Up && St() == old(St()).(table := repo.rows)
      ensures repo.rows.Keys == old(repo.rows).Keys && forall h :: h in repo.rows ==>
        var r := old(repo.rows)[h];
        repo.rows[h] == if io && r.status == Pending && r.receivedAt < cutoff
                        then r.(status := Failed, reason := Some(Ascii("ttl_expired")), updatedAt := now) else r
    {
      var s := St();
      var ok, expired := repo.MarkTtlExpired(cutoff, io, now);
      if ok { Log(Expire(cutoff, now), StepExpire(s, cutoff, now).value); }
    }

    method PruneTerminal(cutoff: int, io: bool)
      requires Valid() && phase == Up
      modifies this, repo
      ensures Valid() && Grew() && phase == Up
      ensures forall h :: h in repo.rows <==> h in old(repo.rows) && !(io && Old(old(repo.rows)[h], cutoff))
      ensures forall h :: h in repo.rows ==> h in old(repo.rows) && repo.rows[h] == old(repo.rows)[h]
    {
      var s := St();
      var ok, deleted := repo.PruneHistory(cutoff, io);
      if ok { Log(Prune(cutoff), StepPrune(s, cutoff).value); }
    }

    // ----- the bundling loop -----

    /** failOps, resetToPending and the submitted loop: one unguarded write per claimed op, which finds
        its row in bundling and changes it alone, with the position as bundle_index. */
    method WriteBack(ops: seq<Snap>, goal: Goal, w: World)
      requires Valid() && phase == Up && loop == LWriting(ops, goal, 0)
      modifies this, repo, signer
      ensures Valid() && Grew() && phase == Up && loop.LIdle?
      ensures AllWrittenBack(ss, ls, |old(ls)|, |ls|, ops, goal, w.writeOk)
      ensures hist.sent == old(hist.sent) && signer.pendingNonce == old(signer.pendingNonce)
      ensures (forall i :: 0 <= i < |ops| ==> w.writeOk(i)) ==> hist.lost == old(hist.lost)
    {
      InvHolds();
      var i := 0;
      while i < |ops|
        invariant 0 <= i <= |ops|
        invariant Valid() && Grew() && phase == Up
        invariant loop == if i < |ops| then LWriting(ops, goal, i) else LIdle
        invariant AllWrittenBack(ss, ls, |old(ls)|, |ls|, ops[..i], goal, w.writeOk)
        invariant hist.sent == old(hist.sent) && signer.pendingNonce == old(signer.pendingNonce)
        invariant (forall k :: 0 <= k < i ==> w.writeOk(k)) ==> hist.lost == old(hist.lost)
      {
        WriteNext(ops, goal, i, w, |old(ls)|);
        i := i + 1;
      }
      assert ops[..|ops|] == ops;
    }

    /** The write for position i, with the other actors running before it. */
    method WriteNext(ops: seq<Snap>, goal: Goal, i: nat, w: World, ghost from: nat)
      requires Valid() && phase == Up && i < |ops| && loop == LWriting(ops, goal, i) && from <= |ls|
      requires AllWrittenBack(ss, ls, from, |ls|, ops[..i], goal, w.writeOk)
      modifies this, repo, signer
      ensures Valid() && Grew() && phase == Up
      ensures loop == if i + 1 < |ops| then LWriting(ops, goal, i + 1) else LIdle
      ensures AllWrittenBack(ss, ls, from, |ls|, ops[..i + 1], goal, w.writeOk)
      ensures hist.sent == old(hist.sent) && signer.pendingNonce == old(signer.pendingNonce)
      ensures w.writeOk(i) ==> hist.lost == old(hist.lost)
    {
      OthersThanLoop(w.gap(3 + i));
      WriteOp(ops, goal, i, w.writeOk(i), w.clock(2 + i));
      OneMoreBack(old(ss), old(ls), ss, ls, from, ops, goal, w.writeOk, i);
    }

    method WriteOp(ops: seq<Snap>, goal: Goal, i: nat, io: bool, now: int)
      requires Valid() && phase == Up && i < |ops| && loop == LWriting(ops, goal, i)
      modifies this, repo
      ensures Valid() && Grew() && phase == Up
      ensures loop == if i + 1 < |ops| then LWriting(ops, goal, i + 1) else LIdle
      ensures |ls| == |old(ls)| + 1 && WroteBack(ss[|ls| - 1], ls[|ls| - 1], ss[|ls|], ops[i].h, goal, i, io)
      ensures hist.sent == old(hist.sent) && (io ==> hist.lost == old(hist.lost))
    {
      var s := St();
      var ok := repo.UpdateStatus(ops[i].h, GoalStatus(goal), GoalExtra(goal, i), io, now);
      Log(LoopWrite(io, now), StepLoopWrite(s, io, now).value);
      LastWriteBack();
    }

    /** The last step of the run was a write of the loop. */
    lemma LastWriteBack()
      requires Valid() && |ls| > 0 && ls[|ls| - 1].LoopWrite? && ss[|ls| - 1].loop.LWriting?
      ensures var LWriting(b, g, i) := ss[|ls| - 1].loop;
        i < |b| && WroteBack(ss[|ls| - 1], ls[|ls| - 1], ss[|ls|], b[i].h, g, i, ls[|ls| - 1].ok)
    {
      RunInv(c, ss, ls, |ls| - 1);
      assert StepAt(c, ss, ls, |ls| - 1);
      WriteBackStep(c, ss[|ls| - 1], ls[|ls| - 1]);
    }

    method Snapshots(hs: seq<Word>) returns (ops: seq<Snap>)
      requires forall i :: 0 <= i < |hs| ==> hs[i] in repo.rows
      ensures Hashes(ops) == hs
      ensures forall i :: 0 <= i < |ops| ==> hs[i] == ops[i].h && repo.rows[hs[i]].op == ops[i].op
    {
      ops := seq(|hs|, i requires 0 <= i < |hs| && hs[i] in repo.rows reads repo => Snap(hs[i], repo.rows[hs[i]].op));
    }

    method Fetch() returns (ops: seq<Snap>)
      requires Valid() && phase == Up && loop.LIdle?
      modifies this
      ensures Valid() && Grew() && phase == Up
      ensures St() == old(St()).(loop := if ops == [] then LIdle else LFetched(ops))
      ensures Picked(repo.rows, c.maxBundle, ops)
    {
      var hs := repo.GetPending(c.maxBundle);
      if hs == [] { return []; }
      ops := Snapshots(hs);
      assert Hashes(ops) == hs;
      PickedBatch(repo.rows, c.maxBundle, ops, hs);
      Log(FetchPending(ops), StepFetchPending(c, St(), ops).value);
    }

    method ClaimBatch(ops: seq<Snap>, io: bool, now: int) returns (claimed: bool)
      requires Valid() && phase == Up && loop == LFetched(ops) && ops != []
      modifies this, repo
      ensures Valid() && Grew() && phase == Up
      ensures loop == if claimed then LClaimed(ops) else LIdle
      ensures hist == old(hist)
      ensures claimed <==> io && StillPending(old(repo.rows), ops)
    {
      InvHolds();
      ClaimableIff(repo.rows, ops);
      var s := St();
      claimed := repo.ClaimForBundling(Hashes(ops), io, now);
      Log(Claim(io, now), StepClaim(s, io, now).value);
    }

    /** GetPending and ClaimForBundling. claimed: the batch is ours. */
    method FetchAndClaim(w: World) returns (claimed: bool, ops: seq<Snap>)
      requires Valid() && phase == Up && loop.LIdle?
      modifies this, repo, signer
      ensures Valid() && Grew() && phase == Up
      ensures loop == if claimed then LClaimed(ops) else LIdle
      ensures hist.lost == old(hist.lost) && hist.sent == old(hist.sent)
      ensures signer.pendingNonce == old(signer.pendingNonce)
      ensures !w.readable ==> !claimed && ls == old(ls) && repo.rows == old(repo.rows)
      ensures w.readable ==>
        var found := Played(c, old(St()), w.gap(0), NotLoop);
        var later := Played(c, found.(loop := LFetched(ops)), w.gap(1), NotLoop);
        && Picked(found.table, c.maxBundle, ops)
        && (claimed <==> ops != [] && w.claimOk && StillPending(later.table, ops))
    {
      claimed, ops := false, [];
      if !w.readable { return; }
      OthersThanLoop(w.gap(0));
      ops := Fetch();
      if ops == [] { return; }
      OthersThanLoop(w.gap(1));
      claimed := ClaimBatch(ops, w.claimOk, w.clock(0));
    }

    /** One tick, whatever the outside answers and whatever the other actors do meanwhile, is a stretch of the
        machine that ends with the loop idle. Unfunded, or when the query fails, it does nothing. Otherwise
        it fetches the first pending rows, and skips them exactly when there are none, the claim fails or
        one of them is no longer pending by then; it dies exactly when the calldata would exceed a Go
        slice. The estimate and the submission of the batch's calldata, with the nonce found, decide what
        is written back, and each op of the batch is written back at its own position. If the writes
        succeed and none was lost before, no row is left in bundling. */
    method Tick(w: World) returns (r: Ticked, ghost batch: seq<Snap>)
      requires Valid() && phase == Up && loop.LIdle?
      modifies this, repo, signer
      ensures Valid() && Grew() && loop.LIdle?
      ensures phase == if r.Died? then Down else Up
      ensures !w.funded || !w.readable ==> r.Skipped? && ls == old(ls) && repo.rows == old(repo.rows)
      ensures w.funded && w.readable ==>
        var found := Played(c, old(St()), w.gap(0), NotLoop);
        var later := Played(c, found.(loop := LFetched(batch)), w.gap(1), NotLoop);
        && Picked(found.table, c.maxBundle, batch)
        && (r.Skipped? <==> batch == [] || !w.claimOk || !StillPending(later.table, batch))
      ensures r.Died? <==> !r.Skipped? && |c.build(OpsOf(batch))| > MAX_LEN
      ensures r.Done? ==> r.batch == batch && batch != []
      ensures r.Done? && w.estimate.GasError? ==>
        r.goal == if w.estimate.permanent then GoFail(w.estimate.reason) else GoReset
      ensures r.Done? && w.estimate.GasKnown? && w.submit.Accepted? ==>
        r.goal == GoSubmit(Tx(old(signer.pendingNonce), c.build(OpsOf(batch)), w.submit.rest), w.clock(1))
      ensures r.Done? && w.estimate.GasKnown? && !w.submit.Accepted? ==> r.goal == GoReset
      ensures r.Done? ==> AllWrittenBack(ss, ls, |old(ls)|, |ls|, batch, r.goal, w.writeOk)
      ensures hist.sent == if r.Done? && r.goal.GoSubmit? then old(hist.sent) + [r.goal.tx] else old(hist.sent)
      ensures r.Done? && r.goal.GoSubmit? ==> signer.pendingNonce == old(signer.pendingNonce) + 1
      ensures r.Done? && w.estimate.GasKnown? && w.submit.Refused? && w.submit.nonceTooLow && w.submit.pending.Some? ==>
        signer.pendingNonce == w.submit.pending.value
      ensures !r.Died? && !old(hist.lost) && (forall i :: w.writeOk(i)) ==>
        forall h :: h in repo.rows ==> repo.rows[h].status != Bundling
    {
      r, batch := BundleOnce(w);
      InvHolds();
    }

    method BundleOnce(w: World) returns (r: Ticked, ghost batch: seq<Snap>)
      requires Valid() && phase == Up && loop.LIdle?
      modifies this, repo, signer
      ensures Valid() && Grew() && loop.LIdle?
      ensures phase == if r.Died? then Down else Up
      ensures !w.funded || !w.readable ==> r.Skipped? && ls == old(ls) && repo.rows == old(repo.rows)
      ensures w.funded && w.readable ==>
        var found := Played(c, old(St()), w.gap(0), NotLoop);
        var later := Played(c, found.(loop := LFetched(batch)), w.gap(1), NotLoop);
        && Picked(found.table, c.maxBundle, batch)
        && (r.Skipped? <==> batch == [] || !w.claimOk || !StillPending(later.table, batch))
      ensures r.Died? <==> !r.Skipped? && |c.build(OpsOf(batch))| > MAX_LEN
      ensures r.Done? ==>
        && r.batch == batch && batch != []
        && r.goal == GoalFor(w, c.build(OpsOf(batch)), old(signer.pendingNonce))
        && AllWrittenBack(ss, ls, |old(ls)|, |ls|, batch, r.goal, w.writeOk)
      ensures hist.sent == old(hist.sent) + SentBy(r)
      ensures signer.pendingNonce == NonceAfter(w, r, old(signer.pendingNonce))
      ensures !r.Died? && (forall i :: w.writeOk(i)) ==> hist.lost == old(hist.lost)
    {
      batch := [];
      if !w.funded { return Skipped, []; }
      var claimed, ops := FetchAndClaim(w);
      batch := ops;
      if !claimed { return Skipped, ops; }
      OthersThanLoop(w.gap(2));
      r := Bundle(ops, w, |old(ls)|);
    }

    /** From the claim on. */
    method Bundle(ops: seq<Snap>, w: World, ghost from: nat) returns (r: Ticked)
      requires Valid() && phase == Up && loop == LClaimed(ops) && ops != [] && from <= |ls|
      modifies this, repo, signer
      ensures Valid() && Grew() && loop.LIdle? && !r.Skipped?
      ensures phase == if r.Died? then Down else Up
      ensures r.Died? <==> |c.build(OpsOf(ops))| > MAX_LEN
      ensures r.Done? ==>
        && r.batch == ops && r.goal == GoalFor(w, c.build(OpsOf(ops)), old(signer.pendingNonce))
        && AllWrittenBack(ss, ls, from, |ls|, ops, r.goal, w.writeOk)
      ensures hist.sent == old(hist.sent) + SentBy(r)
      ensures signer.pendingNonce == NonceAfter(w, r, old(signer.pendingNonce))
      ensures !r.Died? && (forall i :: w.writeOk(i)) ==> hist.lost == old(hist.lost)
    {
      r := Decide(ops, w);
      if r.Done? {
        ghost var at := |ls|;
        WriteBack(ops, r.goal, w);
        WrittenSince(ss, ls, from, at, ops, r.goal, w.writeOk);
      }
    }

    /** Build, estimate and submit: what is to be written back for the claimed ops. */
    method Decide(ops: seq<Snap>, w: World) returns (r: Ticked)
      requires Valid() && phase == Up && loop == LClaimed(ops) && ops != []
      modifies this, signer
      ensures Valid() && Grew() && !r.Skipped? && (r.Died? <==> |c.build(OpsOf(ops))| > MAX_LEN)
      ensures r.Died? ==> phase == Down && loop.LIdle?
      ensures r.Done? ==> phase == Up && loop == LWriting(ops, r.goal, 0) && r.batch == ops
      ensures r.Done? ==> r.goal == GoalFor(w, c.build(OpsOf(ops)), old(signer.pendingNonce))
      ensures signer.pendingNonce == NonceAfter(w, r, old(signer.pendingNonce))
      ensures hist.sent == old(hist.sent) + SentBy(r)
      ensures hist.lost == old(hist.lost)
    {
      var s := St();
      var calldata := c.build(OpsOf(ops));
      if |calldata| > MAX_LEN {
        Log(Crash, StepCrash(s));
        r := Died;
      } else if w.estimate.GasError? {
        var goal := GoReset;
        if w.estimate.permanent { goal := GoFail(w.estimate.reason); }
        Log(EstimateFails(w.estimate.permanent, w.estimate.reason),
            StepEstimateFails(s, w.estimate.permanent, w.estimate.reason).value);
        r := Done(ops, goal);
      } else {
        r := Submit(ops, calldata, w);
      }
    }

    method Submit(ops: seq<Snap>, calldata: Bytes, w: World) returns (r: Ticked)
      requires Valid() && phase == Up && loop == LClaimed(ops) && ops != [] && w.estimate.GasKnown?
      requires calldata == c.build(OpsOf(ops)) && |calldata| <= MAX_LEN
      modifies this, signer
      ensures Valid() && Grew() && phase == Up && r == Done(ops, GoalFor(w, calldata, old(signer.pendingNonce)))
      ensures loop == LWriting(ops, r.goal, 0)
      ensures signer.pendingNonce == NonceAfter(w, r, old(signer.pendingNonce))
      ensures hist.sent == old(hist.sent) + SentBy(r)
      ensures hist.lost == old(hist.lost)
    {
      var s := St();
      var tx := signer.SignAndSubmit(calldata, w.submit);
      if tx.None? {
        LogFailure(s, calldata, w.submit);
        r := Done(ops, GoReset);
      } else {
        Log(Broadcast(tx.value, w.clock(1)), StepBroadcast(c, s, tx.value, w.clock(1)).value);
        r := Done(ops, GoSubmit(tx.value, w.clock(1)));
      }
    }

    /** The submit returned an error, or there was none. */
    method LogFailure(s: State, calldata: Bytes, a: Submission)
      requires Run(c, ss, ls) && ss[|ls|] == s && s.phase == phase == Up && boot <= |ls| && s.table == repo.rows
      requires s.loop.LClaimed? && calldata == c.build(OpsOf(s.loop.batch)) && |calldata| <= MAX_LEN && !a.Accepted?
      requires signer.pendingNonce == Or(Resync(a), Some(s.nonce)).value
      modifies this
      ensures Valid() && Grew() && phase == Up && loop == LWriting(s.loop.batch, GoReset, 0)
      ensures hist.sent == s.hist.sent && hist.lost == s.hist.lost
    {
      var leaked := Leaked(a, s.nonce, calldata);
      Log(SubmitFails(leaked, Resync(a)), StepSubmitFails(c, s, leaked, Resync(a)).value);
    }

    // ----- the receipt watcher -----

    ghost predicate Visiting(todo: map<Tx, seq<Entry>>, v: Option<Visit>)
      reads this, repo, signer
    {
      Valid() && watch == WBusy(todo, v)
    }

    method Meanwhile(script: seq<Label>)
      requires Valid() && (phase == Up || phase == Checking)
      modifies this, repo, signer
      ensures Valid() && Grew() && watch == old(watch) && phase == old(phase) && Fetches(ls) == Fetches(old(ls))
      ensures phase == Checking ==> repo.rows == old(repo.rows)
    {
      if phase == Up { OthersThanWatcher(script); }
    }

    /** The last step of the run was a write of the watcher. */
    lemma LastWrites()
      requires Valid() && |ls| > 0 && ls[|ls| - 1].WatchWrite? && InVisit(ss[|ls| - 1])
      ensures ss[|ls| - 1].watch.visit.value.rest != []
      ensures var Visit(tx, rest, v) := ss[|ls| - 1].watch.visit.value;
        WrittenAt(c, ss[|ls| - 1], ls[|ls| - 1], ss[|ls|], tx, rest[0], v, ls[|ls| - 1].ok)
    {
      VisitWriteAt(c, ss, ls, |ls| - 1);
    }

    /** A write of the visit, or its failure, has been carried out on the table. */
    method LogVisitWrite(s: State, ok: bool, now: int)
      requires Run(c, ss, ls) && ss[|ls|] == s && s.phase == phase && boot <= |ls|
      requires Booting() ==> StartingUp(ss, boot, |ls|)
      requires InVisit(s) && StepWatchWrite(c, s, ok, now).Some?
      requires var s' := StepWatchWrite(c, s, ok, now).value;
        s'.table == repo.rows && s'.nonce == signer.pendingNonce
      modifies this
      ensures Valid() && Grew() && St() == StepWatchWrite(c, s, ok, now).value && |ls| == |old(ls)| + 1
      ensures Fetches(ls) == Fetches(old(ls))
      ensures var Visit(tx, rest, v) := s.watch.visit.value;
        rest != [] && WrittenAt(c, ss[|ls| - 1], ls[|ls| - 1], ss[|ls|], tx, rest[0], v, ok)
    {
      Log(WatchWrite(ok, now), StepWatchWrite(c, s, ok, now).value);
      LastWrites();
    }

    /** One op of a landed bundle: confirmed or failed as the logs say, untouched when absent. */
    method WriteOutcome(tx: Tx, ops: seq<Entry>, receipt: Receipt, outcomes: Outcomes, ok: bool, now: int)
      requires watch.WBusy? && Visiting(watch.todo, Some(Visit(tx, ops, Landed(receipt))))
      requires ops != [] && Parse(c.events, receipt.logs) == Some(outcomes) && (phase == Up || phase == Checking)
      modifies this, repo
      ensures Valid() && Grew() && phase == old(phase)
      ensures watch == WBusy(old(watch.todo), if |ops| == 1 then None else Some(Visit(tx, ops[1..], Landed(receipt))))
      ensures |ls| == |old(ls)| + 1 && Fetches(ls) == Fetches(old(ls))
      ensures WrittenAt(c, ss[|ls| - 1], ls[|ls| - 1], ss[|ls|], tx, ops[0], Landed(receipt), ok)
    {
      var s := St();
      if ops[0].h in outcomes {
        var o := outcomes[ops[0].h];
        var status := Confirmed;
        if !o.success { status := Failed; }
        var written := repo.UpdateStatus(ops[0].h, status,
          NO_EXTRA.(block := Some(receipt.block), reason := o.reason, gasCost := o.gasCost), ok, now);
      }
      LogVisitWrite(s, ok, now);
    }

    /** One op of a reverted bundle: failed when FailedOp names it, returned to pending otherwise. */
    method WriteReverted(tx: Tx, ops: seq<Entry>, failed: Option<(int, Bytes)>, ok: bool, now: int)
      requires watch.WBusy? && Visiting(watch.todo, Some(Visit(tx, ops, Reverted(failed))))
      requires ops != [] && (phase == Up || phase == Checking)
      modifies this, repo
      ensures Valid() && Grew() && phase == old(phase)
      ensures watch == WBusy(old(watch.todo), if |ops| == 1 then None else Some(Visit(tx, ops[1..], Reverted(failed))))
      ensures |ls| == |old(ls)| + 1 && Fetches(ls) == Fetches(old(ls))
      ensures WrittenAt(c, ss[|ls| - 1], ls[|ls| - 1], ss[|ls|], tx, ops[0], Reverted(failed), ok)
    {
      var s := St();
      var written;
      if failed.Some? && ops[0].index.Some? && ops[0].index.value == failed.value.0 {
        written := repo.UpdateStatus(ops[0].h, Failed, NO_EXTRA.(reason := Some(failed.value.1)), ok, now);
      } else {
        written := repo.UpdateStatus(ops[0].h, Pending, NO_EXTRA, ok, now);
      }
      LogVisitWrite(s, ok, now);
    }

    method WriteEntry(tx: Tx, ops: seq<Entry>, v: Verdict, outcomes: Outcomes, ok: bool, now: int)
      requires watch.WBusy? && Visiting(watch.todo, Some(Visit(tx, ops, v)))
      requires ops != [] && (v.Landed? ==> Parse(c.events, v.receipt.logs) == Some(outcomes))
      requires phase == Up || phase == Checking
      modifies this, repo
      ensures Valid() && Grew() && phase == old(phase)
      ensures watch == WBusy(old(watch.todo), if |ops| == 1 then None else Some(Visit(tx, ops[1..], v)))
      ensures |ls| == |old(ls)| + 1 && Fetches(ls) == Fetches(old(ls))
      ensures WrittenAt(c, ss[|ls| - 1], ls[|ls| - 1], ss[|ls|], tx, ops[0], v, ok)
    {
      match v {
        case Landed(receipt) => WriteOutcome(tx, ops, receipt, outcomes, ok, now);
        case Reverted(failed) => WriteReverted(tx, ops, failed, ok, now);
      }
    }

    /** The per-op loops of Poll, Reconcile and HandleBundleRevert. outcomes is the parsed receipt of
        a landed bundle. */
    method WriteAll(tx: Tx, ops: seq<Entry>, v: Verdict, outcomes: Outcomes, w: Answers, round: nat)
      requires watch.WBusy? && Visiting(watch.todo, Some(Visit(tx, ops, v)))
      requires ops != [] && (v.Landed? ==> Parse(c.events, v.receipt.logs) == Some(outcomes))
      requires phase == Up || phase == Checking
      modifies this, repo, signer
      ensures Visiting(old(watch.todo), None) && Grew() && phase == old(phase)
      ensures AllWritten(c, ss, ls, |old(ls)|, |ls|, tx, ops, v, OkIn(w, round)) && Fetches(ls) == Fetches(old(ls))
      ensures phase == Checking ==> OpsWritten(c.events, v, ops, |ops|, old(repo.rows), repo.rows, OkIn(w, round))
    {
      InvHolds();
      var i := 0;
      while i < |ops|
        invariant 0 <= i <= |ops| && Grew() && phase == old(phase)
        invariant MidVisit(old(watch.todo), tx, ops, v, i, w, round, |old(ls)|, Fetches(old(ls)), old(repo.rows))
      {
        WriteNextEntry(old(watch.todo), tx, ops, v, outcomes, w, round, i, |old(ls)|, Fetches(old(ls)), old(repo.rows));
        i := i + 1;
      }
    }

    /** The first i entries of the visit have been written. */
    ghost predicate MidVisit(todo: map<Tx, seq<Entry>>, tx: Tx, ops: seq<Entry>, v: Verdict, i: nat, w: Answers,
                             round: nat, from: nat, fetched: seq<(Tx, Option<Receipt>)>, t: Table)
      requires i <= |ops|
      reads this, repo, signer
    {
      && Visiting(todo, if i < |ops| then Some(Visit(tx, ops[i..], v)) else None) && Fetches(ls) == fetched
      && from <= |ls| && WrittenTo(c, ss, ls, from, |ls|, tx, ops, i, v, OkIn(w, round))
      && (phase == Checking ==> OpsWritten(c.events, v, ops, i, t, repo.rows, OkIn(w, round)))
    }

    method WriteNextEntry(ghost todo: map<Tx, seq<Entry>>, tx: Tx, ops: seq<Entry>, v: Verdict, outcomes: Outcomes,
                          w: Answers, round: nat, i: nat,
                          ghost from: nat, ghost fetched: seq<(Tx, Option<Receipt>)>, ghost t: Table)
      requires i < |ops| && MidVisit(todo, tx, ops, v, i, w, round, from, fetched, t)
      requires v.Landed? ==> Parse(c.events, v.receipt.logs) == Some(outcomes)
      requires (phase == Up || phase == Checking) && DistinctEntries(ops)
      modifies this, repo, signer
      ensures Grew() && phase == old(phase) && MidVisit(todo, tx, ops, v, i + 1, w, round, from, fetched, t)
    {
      ghost var ss0, ls0, alone := ss, ls, phase == Checking;
      EntryAfterGap(tx, ops, v, outcomes, w, round, i);
      EntryDone(c, ss0, ls0, ss, ls, from, t, tx, ops, v, OkIn(w, round), i, alone);
    }

    /** The other actors run, then entry i is written. */
    method EntryAfterGap(tx: Tx, ops: seq<Entry>, v: Verdict, outcomes: Outcomes, w: Answers, round: nat, i: nat)
      requires i < |ops| && watch.WBusy? && Visiting(watch.todo, Some(Visit(tx, ops[i..], v)))
      requires v.Landed? ==> Parse(c.events, v.receipt.logs) == Some(outcomes)
      requires phase == Up || phase == Checking
      modifies this, repo, signer
      ensures Visiting(old(watch.todo), if i + 1 < |ops| then Some(Visit(tx, ops[i + 1..], v)) else None)
      ensures Grew() && phase == old(phase) && Fetches(ls) == Fetches(old(ls)) && |ls| > |old(ls)|
      ensures WrittenAt(c, ss[|ls| - 1], ls[|ls| - 1], ss[|ls|], tx, ops[i], v, w.writeOk(round, i))
      ensures phase == Checking ==> ss[|ls| - 1].table == old(repo.rows)
    {
      Meanwhile(w.gap(round, 1 + i));
      assert ops[i..][1..] == ops[i + 1..] && ops[i..][0] == ops[i];
      WriteEntry(tx, ops[i..], v, outcomes, w.writeOk(round, i), w.clock(round, i));
    }

    /** HandleBundleRevert, for any revert data that does not make the decoder panic: each op whose write
        succeeds is failed with the decoded reason if its bundle_index is the decoded index, and
        returned to pending otherwise. */
    method HandleBundleRevert(data: Bytes, tx: Tx, ops: seq<Entry>, w: Answers, round: nat)
      requires RevertVerdict(c.events, data).Some?
      requires watch.WBusy? && Visiting(watch.todo, Some(Visit(tx, ops, RevertVerdict(c.events, data).value)))
      requires ops != [] && (phase == Up || phase == Checking)
      modifies this, repo, signer
      ensures Visiting(old(watch.todo), None) && Grew() && phase == old(phase) && Fetches(ls) == Fetches(old(ls))
      ensures AllWritten(c, ss, ls, |old(ls)|, |ls|, tx, ops, Reverted(Named(c.events, data)), OkIn(w, round))
      ensures phase == Checking ==>
        OpsWritten(c.events, Reverted(Named(c.events, data)), ops, |ops|, old(repo.rows), repo.rows, OkIn(w, round))
      ensures forall j :: 0 <= j < |ops| && w.writeOk(round, j) ==>
        exists q :: |old(ls)| <= q < |ls| && RevertedAt(ss[q], ls[q], ss[q + 1], tx, ops[j], Named(c.events, data))
    {
      if |data| >= 4 && data[..4] == c.events.failedOp {
        WriteAll(tx, ops, Reverted(DecodeFailedOp(data)), map[], w, round);
      } else {
        WriteAll(tx, ops, Reverted(None), map[], w, round);
      }
      forall j | 0 <= j < |ops| && w.writeOk(round, j)
        ensures exists q ::
          |old(ls)| <= q < |ls| && RevertedAt(ss[q], ls[q], ss[q + 1], tx, ops[j], Named(c.events, data)) {
        WrittenIsReverted(c, ss, ls, |old(ls)|, |ls|, tx, ops[j], Named(c.events, data));
      }
    }

    /** One round of the byTx loop. died: reading the receipt panicked. */
    method VisitTx(tx: Tx, ops: seq<Entry>, w: Answers, round: nat) returns (died: bool)
      requires watch.WBusy? && Visiting(watch.todo, None) && tx in watch.todo && ops == watch.todo[tx]
      requires phase == Up || phase == Checking
      modifies this, repo, signer
      ensures Valid() && Grew()
      ensures died ==> phase == Down && watch.WIdle?
      ensures died <==> Unreadable(c.events, w.receipt(round, tx))
      ensures !died ==> phase == old(phase) && watch == WBusy(old(watch.todo) - {tx}, None)
      ensures !died ==> Fetches(ls) == Fetches(old(ls)) + [(tx, w.receipt(round, tx))]
      ensures !died && w.receipt(round, tx).Some? ==>
        AllWritten(c, ss, ls, |old(ls)|, |ls|, tx, ops, VerdictFor(w.receipt(round, tx).value), OkIn(w, round))
      ensures !died && phase == Checking ==>
        OpsAnswered(c.events, w.receipt(round, tx), ops, old(repo.rows), repo.rows, OkIn(w, round))
    {
      var answer := w.receipt(round, tx);
      var outcomes;
      died, outcomes := ReadAnswer(answer);
      if died {
        Die();
        return;
      }
      InvHolds();
      LogReceipt(tx, ops, answer);
      if answer.Some? {
        WriteAnswer(tx, ops, answer.value, outcomes, w, round, |old(ls)|);
      } else {
        NotAnswered(c.events, ops, repo.rows, OkIn(w, round));
      }
    }

    method ReadAnswer(answer: Option<Receipt>) returns (died: bool, outcomes: Outcomes)
      ensures died <==> Unreadable(c.events, answer)
      ensures !died && answer.Some? && answer.value.status == 1 ==>
        Parse(c.events, answer.value.logs) == Some(outcomes)
    {
      died, outcomes := false, map[];
      if answer.Some? && answer.value.status == 1 {
        died, outcomes := ParseHandleOpsReceipt(c.events, answer.value);
      }
    }

    /** The writes for a receipt. */
    method WriteAnswer(tx: Tx, ops: seq<Entry>, receipt: Receipt, outcomes: Outcomes, w: Answers, round: nat,
                       ghost from: nat)
      requires watch.WBusy? && Visiting(watch.todo, Some(Visit(tx, ops, VerdictFor(receipt)))) && from <= |ls|
      requires ops != [] && (receipt.status == 1 ==> Parse(c.events, receipt.logs) == Some(outcomes))
      requires phase == Up || phase == Checking
      modifies this, repo, signer
      ensures Visiting(old(watch.todo), None) && Grew() && phase == old(phase) && Fetches(ls) == Fetches(old(ls))
      ensures AllWritten(c, ss, ls, from, |ls|, tx, ops, VerdictFor(receipt), OkIn(w, round))
      ensures phase == Checking ==>
        OpsAnswered(c.events, Some(receipt), ops, old(repo.rows), repo.rows, OkIn(w, round))
    {
      ghost var at := |ls|;
      if receipt.status == 1 {
        WriteAll(tx, ops, Landed(receipt), outcomes, w, round);
      } else {
        HandleBundleRevert([], tx, ops, w, round);
      }
      AllWrittenSince(c, ss, ls, from, at, tx, ops, VerdictFor(receipt), OkIn(w, round));
      WrittenAnswers(c.events, receipt, ops, old(repo.rows), repo.rows, OkIn(w, round));
    }

    /** The receipt, or its absence, is taken note of. */
    method LogReceipt(tx: Tx, ops: seq<Entry>, answer: Option<Receipt>)
      requires watch.WBusy? && Visiting(watch.todo, None) && tx in watch.todo && ops == watch.todo[tx]
      requires answer.Some? && answer.value.status == 1 ==> Parse(c.events, answer.value.logs).Some?
      requires phase == Up || phase == Checking
      modifies this
      ensures Valid() && Grew() && phase == old(phase) && ops != []
      ensures Fetches(ls) == Fetches(old(ls)) + [(tx, answer)]
      ensures watch == WBusy(old(watch.todo) - {tx},
        if answer.None? then None
        else Some(Visit(tx, ops, if answer.value.status == 1 then Landed(answer.value) else Reverted(None))))
    {
      InvHolds();
      Log(FetchReceipt(tx, answer, []), StepFetchReceipt(c, St(), tx, answer, []).value);
    }

    /** The next transaction of the map, in any order. */
    method Round(byTx: map<Tx, seq<Entry>>, w: Answers, round: nat)
      returns (died: bool, rest: map<Tx, seq<Entry>>, ghost tx: Tx)
      requires byTx != map[] && Visiting(byTx, None) && (phase == Up || phase == Checking)
      modifies this, repo, signer
      ensures Valid() && Grew() && tx in byTx && rest == byTx - {tx} && |rest| < |byTx|
      ensures died ==> phase == Down && watch.WIdle?
      ensures died <==> Unreadable(c.events, w.receipt(round, tx))
      ensures !died ==> phase == old(phase) && watch == WBusy(rest, None)
      ensures !died ==> Fetches(ls) == Fetches(old(ls)) + [(tx, w.receipt(round, tx))]
      ensures !died && w.receipt(round, tx).Some? ==>
        AllWritten(c, ss, ls, |old(ls)|, |ls|, tx, byTx[tx], VerdictFor(w.receipt(round, tx).value), OkIn(w, round))
      ensures !died && phase == Checking ==>
        OpsAnswered(c.events, w.receipt(round, tx), byTx[tx], old(repo.rows), repo.rows, OkIn(w, round))
    {
      var next :| next in byTx;
      tx := next;
      rest := byTx - {next};
      assert rest.Keys == byTx.Keys - {next};
      assert |rest.Keys| == |rest| && |byTx.Keys| == |byTx|;
      Meanwhile(w.gap(round, 0));
      ghost var from := |ls|;
      died := VisitTx(next, byTx[next], w, round);
      if !died && w.receipt(round, next).Some? {
        AllWrittenSince(c, ss, ls, |old(ls)|, from, next, byTx[next],
                        VerdictFor(w.receipt(round, next).value), OkIn(w, round));
      }
    }

    method Snapshot() returns (byTx: map<Tx, seq<Entry>>)
      requires Valid() && watch.WIdle? && (phase == Up || phase == Swept)
      modifies this
      ensures Visiting(byTx, None) && Grew() && Lists(repo.rows, byTx) && Fetches(ls) == Fetches(old(ls))
      ensures phase == if old(phase) == Up then Up else Checking
    {
      var subs := repo.Query(Submitted, -1);
      byTx := GroupByTx(repo.rows, subs);
      Log(Label.Poll(byTx), StepPoll(St(), byTx).value);
    }

    /** One poll is a stretch of the machine that ends with the watcher idle, or dies on a receipt that cannot be
        read. A query error ends it at once, and a start-up with it. Otherwise todo lists the submitted rows
        it found, order the transactions in the order asked for: each of them once; and every row listed
        gets one write, as the answer for its transaction says, whatever the other actors do meanwhile. In a
        start-up, where nobody else runs, the rows end just so. */
    method Poll(w: Answers) returns (died: bool, ghost order: seq<Tx>, ghost todo: map<Tx, seq<Entry>>)
      requires Valid() && watch.WIdle? && (phase == Up || phase == Swept)
      modifies this, repo, signer
      ensures Valid() && Grew() && watch.WIdle?
      ensures phase == if died then Down else if old(phase) == Up then Up else Checked
      ensures !w.readable ==> died == (old(phase) == Swept) && repo.rows == old(repo.rows)
      ensures w.readable ==> Lists(old(repo.rows), todo)
      ensures w.readable && died ==> SomeUnreadable(c.events, todo, w)
      ensures w.readable && !died ==>
        && AskedOnce(todo, order) && Fetches(ls) == Fetches(old(ls)) + Asked(order, w.receipt)
        && AllAnswered(c, ss, ls, |old(ls)|, |ls|, todo, order, w)
      ensures w.readable && !died && old(phase) == Swept ==>
        TxsAnswered(c.events, todo, order, w.receipt, w.writeOk, old(repo.rows), repo.rows)
    {
      order, todo := [], map[];
      if !w.readable {
        if phase == Up { return false, order, todo; }
        Die();
        return true, order, todo;
      }
      died, order, todo := PollRows(w);
    }

    /** A poll whose query succeeds. */
    method PollRows(w: Answers) returns (died: bool, ghost order: seq<Tx>, ghost todo: map<Tx, seq<Entry>>)
      requires Valid() && watch.WIdle? && (phase == Up || phase == Swept)
      modifies this, repo, signer
      ensures Valid() && Grew() && watch.WIdle? && Lists(old(repo.rows), todo)
      ensures phase == if died then Down else if old(phase) == Up then Up else Checked
      ensures died ==> SomeUnreadable(c.events, todo, w)
      ensures !died ==> AskedOnce(todo, order) && Handled(c, ss, ls, |old(ls)|, Fetches(old(ls)), todo, order, w)
      ensures !died && old(phase) == Swept ==>
        TxsAnswered(c.events, todo, order, w.receipt, w.writeOk, old(repo.rows), repo.rows)
    {
      died, order, todo := AskAll(w);
      if !died {
        ghost var ss0, ls0 := ss, ls;
        Log(PollDone, StepPollDone(St()).value);
        AnsweredSince(c, ss0, ls0, ss, ls, |old(ls)|, |old(ls)|, todo, order, w);
      }
    }

    /** The snapshot and its rounds. */
    method AskAll(w: Answers) returns (died: bool, ghost order: seq<Tx>, ghost todo: map<Tx, seq<Entry>>)
      requires Valid() && watch.WIdle? && (phase == Up || phase == Swept)
      modifies this, repo, signer
      ensures Valid() && Grew() && Lists(old(repo.rows), todo)
      ensures died ==> phase == Down && watch.WIdle? && SomeUnreadable(c.events, todo, w)
      ensures !died ==> phase == (if old(phase) == Up then Up else Checking) && watch == WBusy(map[], None)
      ensures !died ==> AskedOnce(todo, order) && Handled(c, ss, ls, |old(ls)|, Fetches(old(ls)), todo, order, w)
      ensures !died && old(phase) == Swept ==>
        TxsAnswered(c.events, todo, order, w.receipt, w.writeOk, old(repo.rows), repo.rows)
    {
      var byTx := Snapshot();
      todo := byTx;
      ghost var from := |ls|;
      died, order := Rounds(byTx, w);
      if !died { AnsweredSince(c, ss, ls, ss, ls, |old(ls)|, from, todo, order, w); }
    }

    /** The byTx loop. */
    method Rounds(todo: map<Tx, seq<Entry>>, w: Answers) returns (died: bool, ghost order: seq<Tx>)
      requires Visiting(todo, None) && Lists(repo.rows, todo) && (phase == Up || phase == Checking)
      modifies this, repo, signer
      ensures Valid() && Grew()
      ensures died ==> phase == Down && watch.WIdle? && SomeUnreadable(c.events, todo, w)
      ensures !died ==> phase == old(phase) && watch == WBusy(map[], None) && Asking(todo, order, map[])
      ensures !died ==> Handled(c, ss, ls, |old(ls)|, Fetches(old(ls)), todo, order, w)
      ensures !died && phase == Checking ==>
        TxsAnswered(c.events, todo, order, w.receipt, w.writeOk, old(repo.rows), repo.rows)
    {
      var byTx := todo;
      var round := 0;
      died, order := false, [];
      while byTx != map[]
        invariant Visiting(byTx, None) && Grew() && phase == old(phase) && round == |order|
        invariant Asking(todo, order, byTx) && Handled(c, ss, ls, |old(ls)|, Fetches(old(ls)), todo, order, w)
        invariant phase == Checking ==>
          TxsAnswered(c.events, todo, order, w.receipt, w.writeOk, old(repo.rows), repo.rows)
        decreases |byTx|
      {
        died, byTx, order := NextRound(todo, byTx, w, round, order, |old(ls)|, Fetches(old(ls)), old(repo.rows));
        if died { return; }
        round := round + 1;
      }
    }

    method NextRound(todo: map<Tx, seq<Entry>>, byTx: map<Tx, seq<Entry>>, w: Answers, round: nat, ghost order: seq<Tx>,
                     ghost from: nat, ghost fetched: seq<(Tx, Option<Receipt>)>, ghost t: Table)
      returns (died: bool, rest: map<Tx, seq<Entry>>, ghost more: seq<Tx>)
      requires byTx != map[] && Visiting(byTx, None) && (phase == Up || phase == Checking) && round == |order|
      requires Asking(todo, order, byTx) && from <= |ls| && Handled(c, ss, ls, from, fetched, todo, order, w)
      requires Lists(t, todo)
      requires phase == Checking ==> TxsAnswered(c.events, todo, order, w.receipt, w.writeOk, t, repo.rows)
      modifies this, repo, signer
      ensures Valid() && Grew() && |rest| < |byTx|
      ensures died ==> phase == Down && watch.WIdle? && SomeUnreadable(c.events, todo, w)
      ensures !died ==> phase == old(phase) && watch == WBusy(rest, None) && |more| == |order| + 1
      ensures !died ==> Asking(todo, more, rest) && Handled(c, ss, ls, from, fetched, todo, more, w)
      ensures !died && phase == Checking ==>
        TxsAnswered(c.events, todo, more, w.receipt, w.writeOk, t, repo.rows)
    {
      ghost var tx;
      ghost var u := repo.rows;
      died, rest, tx := Round(byTx, w, round);
      more := order + [tx];
      if died { return; }
      HandledMore(c, old(ss), old(ls), ss, ls, from, fetched, todo, order, byTx, tx, w);
      if phase == Checking {
        TxsOneMore(c.events, todo, order, tx, w.receipt, w.writeOk, OkIn(w, round), t, u, repo.rows);
      }
    }

    /** Start-up from any crashed state of the invariant. Reconcile alone: no row is left in bundling,
        no row is added or deleted, and each row moved only as its own transaction's receipt decides. An
        engine error in the sweep or the query ends the start-up; io is the sweep's. */
    method Reconcile(w: Answers, io: bool, now: int)
      returns (died: bool, ghost order: seq<Tx>, ghost todo: map<Tx, seq<Entry>>)
      requires Valid() && phase == Down
      modifies this, repo, signer
      ensures Valid() && old(ss) <= ss && old(ls) <= ls && Inv(c, St())
      ensures phase == if died then Down else Checked
      ensures !died ==>
        Recovered(c, ls[|old(ls)|..], |ls| - |old(ls)|, old(repo.rows), repo.rows)
      ensures (!io ==> died && repo.rows == old(repo.rows)) && (!w.readable ==> died)
      ensures !died ==>
        && Lists(old(repo.rows), todo)
        && AskedOnce(todo, order) && Fetches(ls) == Fetches(old(ls)) + Asked(order, w.receipt)
        && TxsAnswered(c.events, todo, order, w.receipt, w.writeOk, SweptRows(old(repo.rows), now), repo.rows)
    {
      died, order, todo := SweepAndCheck(w, io, now);
      InvHolds();
      if !died { Settled(); }
    }

    lemma InvHolds()
      requires Valid()
      ensures Inv(c, St())
    {
      RunInv(c, ss, ls, |ls|);
    }

    method SweepAndCheck(w: Answers, io: bool, now: int)
      returns (died: bool, ghost order: seq<Tx>, ghost todo: map<Tx, seq<Entry>>)
      requires Valid() && phase == Down
      modifies this, repo, signer
      ensures Valid() && old(ss) <= ss && old(ls) <= ls
      ensures phase == if died then Down else Checked
      ensures !died ==> boot == |old(ls)| < |ls| && ss[boot].table == old(repo.rows)
      ensures (!io ==> died && repo.rows == old(repo.rows)) && (!w.readable ==> died)
      ensures !died ==>
        && Lists(old(repo.rows), todo)
        && AskedOnce(todo, order) && Fetches(ls) == Fetches(old(ls)) + Asked(order, w.receipt)
        && TxsAnswered(c.events, todo, order, w.receipt, w.writeOk, SweptRows(old(repo.rows), now), repo.rows)
    {
      var swept := Sweep(io, now);
      if !swept { return true, [], map[]; }
      died, order, todo := Poll(w);
      if !died { SweptLists(old(repo.rows), now, todo); }
    }

    /** What the run so far says of the table once the receipts are checked. */
    lemma Settled()
      requires Valid() && phase == Checked && boot < |ls|
      ensures Recovered(c, ls[boot..], |ls| - boot, ss[boot].table, repo.rows)
    {
      RunReconciles(c, ss, ls, boot, repo.rows);
    }

    method Sweep(io: bool, now: int) returns (ok: bool)
      requires Valid() && phase == Down
      modifies this, repo
      ensures Valid() && ok == io && old(ss) <= ss && old(ls) <= ls
      ensures ok ==> phase == Swept && watch.WIdle? && |ls| == |old(ls)| + 1
      ensures ok ==> boot == |old(ls)| && ss[boot].table == old(repo.rows)
      ensures ok ==> repo.rows == SweptRows(old(repo.rows), now) && Fetches(ls) == Fetches(old(ls))
      ensures !ok ==> phase == Down && repo.rows == old(repo.rows)
    {
      InvHolds();
      var s := St();
      var n;
      ok, n := repo.ResetBundlingToPending(io, now);
      if !ok { return; }
      boot := |ls|;
      Log(BootReset(now), StepBootReset(s, now).value);
    }

    /** The process dies between two atomic calls. */
    method Die()
      requires Valid()
      modifies this
      ensures Valid() && Grew() && phase == Down && watch.WIdle? && repo.rows == old(repo.rows)
    {
      Log(Crash, StepCrash(St()));
    }

    /** InitNonce after Reconcile, then the actors start. */
    method Start(n: nat)
      requires Valid() && phase == Checked
      modifies this, signer
      ensures Valid() && phase == Up && loop.LIdle? && watch.WIdle? && signer.pendingNonce == n
      ensures repo.rows == old(repo.rows) && Grew()
    {
      InvHolds();
      var s := St();
      signer.InitNonce(n);
      Log(Label.InitNonce(n), StepInitNonce(s, n).value);
    }
  }
}
