/** Why NoDoubleCarriage allows for a row that was inserted anew: the pruner forgets terminal rows,
    and intake checks only the table. For every op there is a run without any leaked or lost
    broadcast that carries it in two transactions, the first of which landed with status 1. */
module Resubmission {
  import opened Bytes
  import opened UserOps
  import opened Mempool
  import opened Receipts
  import opened Protocol
  import opened Invariant
  import opened Runs

  /** Any configuration that takes the op for this entry point and can bundle it alone. */
  predicate Able(c: Config, op: PackedUserOp, ep: Address) {
    ep in c.entryPoints && c.maxBundle != 0 && |c.build([op])| <= MAX_LEN
  }

  function Key(c: Config, op: PackedUserOp, ep: Address): Word
    requires Able(c, op, ep)
  {
    c.hashOf(op, ep)
  }

  /** Everything up, nothing in the table, nothing under way. */
  function Empty(n: nat, hist: Hist): State { State(map[], Up, LIdle, WIdle, n, hist) }

  function BundleTx(c: Config, op: PackedUserOp, n: nat): Tx { Tx(n, c.build([op]), 0) }

  /** The op's event log with every data byte zero: it ran and failed, at no cost. */
  function FailedLog(c: Events, h: Word): Log { Log(c.entryPoint, [c.opEvent, h], Zeros(96)) }

  function FailedReceipt(c: Events, h: Word): Receipt { Receipt(1, 7, [FailedLog(c, h)]) }

  lemma FailedReceiptMeaning(c: Events, h: Word)
    ensures Parse(c, FailedReceipt(c, h).logs).Some?
    ensures h in Parse(c, FailedReceipt(c, h).logs).value
    ensures !Parse(c, FailedReceipt(c, h).logs).value[h].success
  {
    var logs := FailedReceipt(c, h).logs;
    assert logs[..0] == [];
    assert Parse(c, logs[..|logs| - 1]) == Some(map[]);
  }

  /** The state just before and after the broadcast that carries op as the only one. */
  function BeforeSend(c: Config, op: PackedUserOp, ep: Address, n: nat, hist: Hist): State
    requires Able(c, op, ep)
  {
    var h := Key(c, op, ep);
    State(map[h := Fresh(op, 0).(status := Bundling)], Up, LClaimed([Snap(h, op)]), WIdle, n,
          hist.(carrier := hist.carrier - {h}))
  }

  function AfterSend(c: Config, op: PackedUserOp, ep: Address, n: nat, hist: Hist): State
    requires Able(c, op, ep)
  {
    var h := Key(c, op, ep);
    var tx := BundleTx(c, op, n);
    State(map[h := Fresh(op, 0).(status := Bundling)], Up, LWriting([Snap(h, op)], GoSubmit(tx, 0), 0), WIdle, n + 1,
          hist.(carrier := hist.carrier - {h} + map[h := tx], sent := hist.sent + [tx]))
  }

  lemma Fetches(c: Config, op: PackedUserOp, ep: Address, n: nat, hist: Hist)
    requires Able(c, op, ep)
    ensures var h := Key(c, op, ep);
      var s := State(map[h := Fresh(op, 0)], Up, LIdle, WIdle, n, hist);
      StepFetchPending(c, s, [Snap(h, op)]) == Some(s.(loop := LFetched([Snap(h, op)])))
  {
    var h := Key(c, op, ep);
    var hs := Hashes([Snap(h, op)]);
    assert hs == [h];
  }

  lemma Claims(op: PackedUserOp, h: Word, n: nat, hist: Hist)
    ensures var s := State(map[h := Fresh(op, 0)], Up, LFetched([Snap(h, op)]), WIdle, n, hist);
      StepClaim(s, true, 0) ==
        Some(s.(table := map[h := Fresh(op, 0).(status := Bundling)], loop := LClaimed([Snap(h, op)])))
  {
    var hs := Hashes([Snap(h, op)]);
    assert hs == [h];
    assert PendingIn(map[h := Fresh(op, 0)], hs[0]);
    assert ClaimRows(map[h := Fresh(op, 0)], hs, 0) == map[h := Fresh(op, 0).(status := Bundling)];
  }

  lemma Sends(c: Config, op: PackedUserOp, ep: Address, n: nat, hist: Hist)
    requires Able(c, op, ep)
    ensures StepBroadcast(c, BeforeSend(c, op, ep, n, hist), BundleTx(c, op, n), 0)
         == Some(AfterSend(c, op, ep, n, hist))
  {
    var h := Key(c, op, ep);
    assert OpsOf([Snap(h, op)]) == [op];
    var b := [Snap(h, op)];
    assert b[0].h == h;
    assert CarriedBy(b, BundleTx(c, op, n)) == map[h := BundleTx(c, op, n)];
  }

  /** No leak, no lost write, no crash, and no receipt with a status other than 1. */
  predicate Clean(l: Label) {
    && !l.SubmitFails? && !l.Crash? && (l.LoopWrite? ==> l.ok)
    && (l.FetchReceipt? && l.answer.Some? ==> l.answer.value.status == 1)
  }

  /** And no insert. */
  predicate Quiet(l: Label) { Clean(l) && !l.Intake? && !l.ReplaceOp? }

  /** The run (ss0, ls0) was extended to (ss, ls) by clean steps. */
  ghost predicate Adds(c: Config, ss0: seq<State>, ls0: seq<Label>, ss: seq<State>, ls: seq<Label>) {
    && Run(c, ss0, ls0) && Run(c, ss, ls) && ss0 <= ss && ls0 <= ls
    && forall k :: |ls0| <= k < |ls| ==> Clean(ls[k])
  }

  /** By quiet steps. */
  ghost predicate AddsQuiet(c: Config, ss0: seq<State>, ls0: seq<Label>, ss: seq<State>, ls: seq<Label>) {
    Adds(c, ss0, ls0, ss, ls) && forall k :: |ls0| <= k < |ls| ==> Quiet(ls[k])
  }

  lemma Extend(c: Config, ss: seq<State>, ls: seq<Label>, l: Label, s: State)
    requires Run(c, ss, ls) && Next(c, ss[|ls|], l) == Some(s)
    ensures Run(c, ss + [s], ls + [l]) && (Clean(l) ==> Adds(c, ss, ls, ss + [s], ls + [l]))
    ensures Quiet(l) ==> AddsQuiet(c, ss, ls, ss + [s], ls + [l])
  {
    ExtendRun(c, ss, ls, l, s);
  }

  /** A first start on an empty database. */
  lemma StartsUp(c: Config) returns (ss: seq<State>, ls: seq<Label>)
    ensures Adds(c, [START], [], ss, ls) && ss[|ls|] == Empty(0, START.hist)
  {
    assert ResetRows(map[], 0) == map[];
    ss, ls := Restarts(c, map[], 0, [START], []);
  }

  /** A start-up on a table without submitted rows. */
  lemma Restarts(c: Config, u: Table, n: nat, ss0: seq<State>, ls0: seq<Label>)
    returns (ss: seq<State>, ls: seq<Label>)
    requires Run(c, ss0, ls0) && ResetRows(ss0[|ls0|].table, 0) == u
    requires ss0[|ls0|].phase == Down && ss0[|ls0|].loop.LIdle? && ss0[|ls0|].watch.WIdle?
    requires forall h :: h in u ==> u[h].status != Submitted
    ensures AddsQuiet(c, ss0, ls0, ss, ls)
    ensures ss[|ls|] == State(u, Up, LIdle, WIdle, n, ss[|ls|].hist)
    ensures var hist := ss0[|ls0|].hist;
      ss[|ls|].hist == hist.(lost := false, behind := hist.behind || Behind(hist, n))
  {
    ss, ls := Sweeps(c, u, ss0, ls0);
    var s3 := ss[|ls|].(phase := Checked, watch := WIdle);
    Extend(c, ss, ls, PollDone, s3);
    ss, ls := ss + [s3], ls + [PollDone];
    var s4 := StepInitNonce(s3, n).value;
    Extend(c, ss, ls, InitNonce(n), s4);
    ss, ls := ss + [s4], ls + [InitNonce(n)];
  }

  lemma Sweeps(c: Config, u: Table, ss0: seq<State>, ls0: seq<Label>) returns (ss: seq<State>, ls: seq<Label>)
    requires Run(c, ss0, ls0) && ResetRows(ss0[|ls0|].table, 0) == u
    requires ss0[|ls0|].phase == Down && ss0[|ls0|].loop.LIdle? && ss0[|ls0|].watch.WIdle?
    requires forall h :: h in u ==> u[h].status != Submitted
    ensures AddsQuiet(c, ss0, ls0, ss, ls)
    ensures var s := ss0[|ls0|];
      ss[|ls|] == State(u, Checking, LIdle, WBusy(map[], None), s.nonce, s.hist.(lost := false))
  {
    var s1 := StepBootReset(ss0[|ls0|], 0).value;
    Extend(c, ss0, ls0, BootReset(0), s1);
    ss, ls := ss0 + [s1], ls0 + [BootReset(0)];
    var s2 := s1.(phase := Checking, watch := WBusy(map[], None));
    Extend(c, ss, ls, Poll(map[]), s2);
    ss, ls := ss + [s2], ls + [Poll(map[])];
  }

  /** From an empty table the op is admitted, fetched and claimed. */
  lemma Readies(c: Config, op: PackedUserOp, ep: Address, n: nat, hist: Hist, ss0: seq<State>, ls0: seq<Label>)
    returns (ss: seq<State>, ls: seq<Label>)
    requires Able(c, op, ep) && Run(c, ss0, ls0) && ss0[|ls0|] == Empty(n, hist)
    ensures Adds(c, ss0, ls0, ss, ls) && |ls| == |ls0| + 3 && ss[|ls|] == BeforeSend(c, op, ep, n, hist)
  {
    var h := Key(c, op, ep);
    var hist' := hist.(carrier := hist.carrier - {h});
    var s1 := State(map[h := Fresh(op, 0)], Up, LIdle, WIdle, n, hist');
    var l1 := Intake(op, ep, 0);
    Extend(c, ss0, ls0, l1, s1);
    ss, ls := ss0 + [s1], ls0 + [l1];
    ss, ls := ClaimsOne(c, op, ep, n, hist', ss, ls);
  }

  /** And broadcast. */
  lemma Carries(c: Config, op: PackedUserOp, ep: Address, n: nat, hist: Hist, ss0: seq<State>, ls0: seq<Label>)
    returns (ss: seq<State>, ls: seq<Label>)
    requires Able(c, op, ep) && Run(c, ss0, ls0) && ss0[|ls0|] == Empty(n, hist)
    ensures Adds(c, ss0, ls0, ss, ls) && |ls| == |ls0| + 4
    ensures ls[|ls0| + 3] == Broadcast(BundleTx(c, op, n), 0)
    ensures ss[|ls0| + 3] == BeforeSend(c, op, ep, n, hist) && ss[|ls|] == AfterSend(c, op, ep, n, hist)
  {
    ss, ls := Readies(c, op, ep, n, hist, ss0, ls0);
    Sends(c, op, ep, n, hist);
    Extend(c, ss, ls, Broadcast(BundleTx(c, op, n), 0), AfterSend(c, op, ep, n, hist));
    ss, ls := ss + [AfterSend(c, op, ep, n, hist)], ls + [Broadcast(BundleTx(c, op, n), 0)];
  }

  lemma ClaimsOne(c: Config, op: PackedUserOp, ep: Address, n: nat, hist: Hist, ss0: seq<State>, ls0: seq<Label>)
    returns (ss: seq<State>, ls: seq<Label>)
    requires Able(c, op, ep) && Run(c, ss0, ls0)
    requires ss0[|ls0|] == State(map[Key(c, op, ep) := Fresh(op, 0)], Up, LIdle, WIdle, n, hist)
    ensures AddsQuiet(c, ss0, ls0, ss, ls) && |ls| == |ls0| + 2
    ensures var h := Key(c, op, ep);
      ss[|ls|] == State(map[h := Fresh(op, 0).(status := Bundling)], Up, LClaimed([Snap(h, op)]), WIdle, n, hist)
  {
    var h := Key(c, op, ep);
    var s1 := ss0[|ls0|].(loop := LFetched([Snap(h, op)]));
    var l1 := FetchPending([Snap(h, op)]);
    Fetches(c, op, ep, n, hist);
    Extend(c, ss0, ls0, l1, s1);
    ss, ls := ss0 + [s1], ls0 + [l1];
    Claims(op, h, n, hist);
    var s2 := StepClaim(s1, true, 0).value;
    Extend(c, ss, ls, Claim(true, 0), s2);
    ss, ls := ss + [s2], ls + [Claim(true, 0)];
  }

  function SubmittedRow(op: PackedUserOp, tx: Tx): Row {
    Fresh(op, 0).(status := Submitted, bundleTx := Some(tx), bundleIndex := Some(0), submittedAt := Some(0))
  }

  /** The broadcast is recorded. */
  lemma Records(c: Config, op: PackedUserOp, ep: Address, n: nat, hist: Hist, ss0: seq<State>, ls0: seq<Label>)
    returns (ss: seq<State>, ls: seq<Label>)
    requires Able(c, op, ep) && Run(c, ss0, ls0) && ss0[|ls0|] == AfterSend(c, op, ep, n, hist)
    ensures Adds(c, ss0, ls0, ss, ls)
    ensures var t := ss[|ls|].table; t == map[Key(c, op, ep) := SubmittedRow(op, BundleTx(c, op, n))]
    ensures ss[|ls|] == Empty(n + 1, ss[|ls|].hist).(table := ss[|ls|].table)
  {
    var h, tx := Key(c, op, ep), BundleTx(c, op, n);
    var s0 := ss0[|ls0|];
    RunInv(c, ss0, ls0, |ls0|);
    LoopWriteLands(c, s0, 0);
    var s1 := StepLoopWrite(s0, true, 0).value;
    assert s1.table == map[h := SubmittedRow(op, tx)];
    Extend(c, ss0, ls0, LoopWrite(true, 0), s1);
    ss, ls := ss0 + [s1], ls0 + [LoopWrite(true, 0)];
  }

  lemma Polls(c: Config, op: PackedUserOp, h: Word, tx: Tx, s: State)
    requires s.phase == Up && s.watch.WIdle? && s.table == map[h := SubmittedRow(op, tx)]
    ensures StepPoll(s, map[tx := [Entry(h, Some(0))]])
      == Some(s.(watch := WBusy(map[tx := [Entry(h, Some(0))]], None)))
  {}

  /** The broadcast is recorded, the failure is read from its receipt, and the row is pruned. */
  lemma Forgets(c: Config, op: PackedUserOp, ep: Address, n: nat, hist: Hist, ss0: seq<State>, ls0: seq<Label>)
    returns (ss: seq<State>, ls: seq<Label>, hist': Hist)
    requires Able(c, op, ep) && Run(c, ss0, ls0) && ss0[|ls0|] == AfterSend(c, op, ep, n, hist)
    ensures Adds(c, ss0, ls0, ss, ls) && ss[|ls|] == Empty(n + 1, hist')
  {
    var h, tx := Key(c, op, ep), BundleTx(c, op, n);
    ss, ls := Records(c, op, ep, n, hist, ss0, ls0);
    var s1 := ss[|ls|];
    var todo := map[tx := [Entry(h, Some(0))]];
    var s2 := s1.(watch := WBusy(todo, None));
    Polls(c, op, h, tx, s1);
    Extend(c, ss, ls, Poll(todo), s2);
    ss, ls := Reads(c, op, h, tx, s2, ss + [s2], ls + [Poll(todo)]);
    ss, ls, hist' := Prunes(c, h, n + 1, ss, ls);
  }

  lemma Prunes(c: Config, h: Word, n: nat, ss0: seq<State>, ls0: seq<Label>)
    returns (ss: seq<State>, ls: seq<Label>, hist: Hist)
    requires Run(c, ss0, ls0)
    requires var s := ss0[|ls0|];
      && s == Empty(n, s.hist).(table := s.table, watch := WBusy(map[], None))
      && s.table.Keys == {h} && s.table[h].status == Failed && s.table[h].updatedAt == 0
    ensures Adds(c, ss0, ls0, ss, ls) && ss[|ls|] == Empty(n, hist)
  {
    var s1 := ss0[|ls0|].(watch := WIdle);
    Extend(c, ss0, ls0, PollDone, s1);
    ss, ls := ss0 + [s1], ls0 + [PollDone];
    var s2 := s1.(table := map[]);
    assert PruneRows(s1.table, 1) == map[];
    Extend(c, ss, ls, Prune(1), s2);
    ss, ls := ss + [s2], ls + [Prune(1)];
    hist := s2.hist;
  }

  lemma Reads(c: Config, op: PackedUserOp, h: Word, tx: Tx, s: State, ss0: seq<State>, ls0: seq<Label>)
    returns (ss: seq<State>, ls: seq<Label>)
    requires Run(c, ss0, ls0) && ss0[|ls0|] == s
    requires s.table == map[h := SubmittedRow(op, tx)] && s.watch == WBusy(map[tx := [Entry(h, Some(0))]], None)
    ensures Adds(c, ss0, ls0, ss, ls)
    ensures var s' := ss[|ls|];
      && s'.watch == WBusy(map[], None) && s'.phase == s.phase && s'.loop == s.loop && s'.nonce == s.nonce
      && s'.table.Keys == {h} && s'.table[h].status == Failed && s'.table[h].updatedAt == 0
  {
    var r := FailedReceipt(c.events, h);
    FailedReceiptMeaning(c.events, h);
    var l1 := FetchReceipt(tx, Some(r), []);
    var s1 := s.(watch := WBusy(map[], Some(Visit(tx, [Entry(h, Some(0))], Landed(r)))),
                 hist := s.hist.(seen := s.hist.seen + {(tx, r)}));
    assert map[tx := [Entry(h, Some(0))]] - {tx} == map[];
    Extend(c, ss0, ls0, l1, s1);
    ss, ls := ss0 + [s1], ls0 + [l1];
    var s2 := Fails(c, op, h, tx, s1, r);
    Extend(c, ss, ls, WatchWrite(true, 0), s2);
    ss, ls := ss + [s2], ls + [WatchWrite(true, 0)];
  }

  /** The write the failure is recorded with. */
  lemma Fails(c: Config, op: PackedUserOp, h: Word, tx: Tx, s: State, r: Receipt) returns (s': State)
    requires s.table == map[h := SubmittedRow(op, tx)] && r == FailedReceipt(c.events, h)
    requires s.watch == WBusy(map[], Some(Visit(tx, [Entry(h, Some(0))], Landed(r))))
    ensures Next(c, s, WatchWrite(true, 0)) == Some(s')
    ensures s'.watch == WBusy(map[], None) && s'.phase == s.phase && s'.loop == s.loop && s'.nonce == s.nonce
    ensures s'.table.Keys == {h} && s'.table[h].status == Failed && s'.table[h].updatedAt == 0
  {
    FailedReceiptMeaning(c.events, h);
    s' := StepWatchWrite(c, s, true, 0).value;
  }

  /** For every op: a clean run that carries it twice although its first transaction was never seen
      with a status other than 1. */
  lemma CarriedTwiceAfterPruning(c: Config, op: PackedUserOp, ep: Address)
    returns (ss: seq<State>, ls: seq<Label>, i: nat, j: nat)
    requires Able(c, op, ep)
    ensures Run(c, ss, ls) && i < j < |ls|
    ensures Puts(ss[i], ls[i], Key(c, op, ep), BundleTx(c, op, 0))
    ensures Puts(ss[j], ls[j], Key(c, op, ep), BundleTx(c, op, 1))
    ensures forall k :: 0 <= k < |ls| ==> !Loses(ss[k], ls[k]) && !FailsTx(ls[k], BundleTx(c, op, 0))
  {
    ss, ls := StartsUp(c);
    i := |ls| + 3;
    ss, ls := Carries(c, op, ep, 0, START.hist, ss, ls);
    var hist: Hist;
    HoldsOne(c, op, ep, 0, START.hist);
    var l1, s1 := ls[i], ss[i];
    ss, ls, hist := Forgets(c, op, ep, 0, START.hist, ss, ls);
    assert ls[i] == l1 && ss[i] == s1;
    j := |ls| + 3;
    ss, ls := Carries(c, op, ep, 1, hist, ss, ls);
    HoldsOne(c, op, ep, 1, hist);
    assert ls[i] == l1 && ss[i] == s1;
    assert forall k :: 0 <= k < |ls| ==> Clean(ls[k]) ==> !Loses(ss[k], ls[k]) && !FailsTx(ls[k], BundleTx(c, op, 0));
  }

  lemma HoldsOne(c: Config, op: PackedUserOp, ep: Address, n: nat, hist: Hist)
    requires Able(c, op, ep)
    ensures Key(c, op, ep) in Held(BeforeSend(c, op, ep, n, hist).loop)
  {
    assert [Snap(Key(c, op, ep), op)][0].h == Key(c, op, ep);
  }
}
