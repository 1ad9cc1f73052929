/** Why NoDoubleCarriage asks that no broadcast is lost: each of the three ways to lose one is enough, by
    itself, to carry any op twice while nothing was observed of its first transaction. */
module LostBroadcasts {
  import opened Bytes
  import opened UserOps
  import opened Mempool
  import opened Protocol
  import opened Invariant
  import opened Runs
  import opened Resubmission

  /** The run puts op h into tx at i and into the later transaction tx' at j. Only the step at m loses a
      broadcast, and in between tx was not seen to fail and the op's row was not inserted anew. */
  ghost predicate CarriedTwice(c: Config, ss: seq<State>, ls: seq<Label>, i: nat, j: nat, m: nat, h: Word,
                               tx: Tx, tx': Tx) {
    && Run(c, ss, ls) && i <= m < j < |ls| && tx.nonce < tx'.nonce
    && Puts(ss[i], ls[i], h, tx) && Puts(ss[j], ls[j], h, tx')
    && (forall k :: 0 <= k < |ls| ==> (Loses(ss[k], ls[k]) <==> k == m))
    && (forall k :: i < k < j ==> !FailsTx(ls[k], tx) && !Inserts(ss[k], ss[k + 1], h))
  }

  /** A row the loop holds when the process dies, or that it put back. */
  function ClaimedRow(op: PackedUserOp): Row { Fresh(op, 0).(status := Bundling) }

  /** The step neither loses a broadcast, nor sees tx fail, nor inserts h. */
  predicate Harmless(s: State, l: Label, s': State, h: Word, tx: Tx) {
    !Loses(s, l) && !FailsTx(l, tx) && !Inserts(s, s', h)
  }

  lemma QuietIsHarmless(c: Config, ss: seq<State>, ls: seq<Label>, k: nat, h: Word, tx: Tx)
    requires Run(c, ss, ls) && k < |ls| && Quiet(ls[k])
    ensures Harmless(ss[k], ls[k], ss[k + 1], h, tx)
  {
    assert StepAt(c, ss, ls, k);
    RunInv(c, ss, ls, k);
    if Inserts(ss[k], ss[k + 1], h) { NewRowIsStamped(c, ss[k], ls[k], h); }
  }

  /** The op, pending again, is claimed and broadcast again. */
  lemma SendsAgain(c: Config, op: PackedUserOp, ep: Address, n: nat, ss0: seq<State>, ls0: seq<Label>)
    returns (ss: seq<State>, ls: seq<Label>)
    requires Able(c, op, ep) && Run(c, ss0, ls0)
    requires ss0[|ls0|] == State(map[Key(c, op, ep) := Fresh(op, 0)], Up, LIdle, WIdle, n, ss0[|ls0|].hist)
    ensures AddsQuiet(c, ss0, ls0, ss, ls) && |ls| > |ls0|
    ensures Puts(ss[|ls| - 1], ls[|ls| - 1], Key(c, op, ep), BundleTx(c, op, n))
  {
    var h, tx := Key(c, op, ep), BundleTx(c, op, n);
    ss, ls := ClaimsOne(c, op, ep, n, ss0[|ls0|].hist, ss0, ls0);
    var s := ss[|ls|];
    assert OpsOf([Snap(h, op)]) == [op];
    assert s.loop.batch[0].h == h;
    var s' := StepBroadcast(c, s, tx, 0).value;
    Extend(c, ss, ls, Broadcast(tx, 0), s');
    ss, ls := ss + [s'], ls + [Broadcast(tx, 0)];
  }

  /** The process died with the op in bundling: the start-up sweep returns it to the queue. */
  lemma RestartsAndSends(c: Config, op: PackedUserOp, ep: Address, n: nat, ss0: seq<State>, ls0: seq<Label>)
    returns (ss: seq<State>, ls: seq<Label>)
    requires Able(c, op, ep) && Run(c, ss0, ls0)
    requires ss0[|ls0|] == State(map[Key(c, op, ep) := ClaimedRow(op)], Down, LIdle, WIdle, n, ss0[|ls0|].hist)
    ensures AddsQuiet(c, ss0, ls0, ss, ls) && |ls| > |ls0|
    ensures Puts(ss[|ls| - 1], ls[|ls| - 1], Key(c, op, ep), BundleTx(c, op, n))
  {
    var u := map[Key(c, op, ep) := Fresh(op, 0)];
    assert ResetRows(ss0[|ls0|].table, 0) == u;
    ss, ls := Restarts(c, u, n, ss0, ls0);
    ss, ls := SendsAgain(c, op, ep, n, ss, ls);
  }

  /** Clean steps up to i, harmless or losing ones to m, and quiet ones from there on. */
  lemma Assembles(c: Config, ss: seq<State>, ls: seq<Label>, i: nat, m: nat, h: Word, tx: Tx, tx': Tx)
    requires Run(c, ss, ls) && i <= m < |ls| - 1 && tx.nonce < tx'.nonce
    requires forall k :: 0 <= k < i ==> Clean(ls[k])
    requires Puts(ss[i], ls[i], h, tx) && Puts(ss[|ls| - 1], ls[|ls| - 1], h, tx')
    requires Loses(ss[m], ls[m]) && !Inserts(ss[m], ss[m + 1], h) && !FailsTx(ls[m], tx)
    requires forall k :: i <= k < |ls| && k != m ==>
      Quiet(ls[k]) || (ls[k].Crash? && ss[k].loop.LIdle? && ss[k].table.Keys == {h})
    ensures CarriedTwice(c, ss, ls, i, |ls| - 1, m, h, tx, tx')
  {
    forall k | i <= k < |ls| && k != m ensures Harmless(ss[k], ls[k], ss[k + 1], h, tx) {
      if Quiet(ls[k]) { QuietIsHarmless(c, ss, ls, k, h, tx); }
    }
    assert forall k :: 0 <= k < i ==> Clean(ls[k]) ==> !Loses(ss[k], ls[k]);
  }

  /** A crash between the broadcast and its record. */
  lemma CrashCarriesTwice(c: Config, op: PackedUserOp, ep: Address)
    returns (ss: seq<State>, ls: seq<Label>, i: nat, j: nat)
    requires Able(c, op, ep)
    ensures CarriedTwice(c, ss, ls, i, j, i + 1, Key(c, op, ep), BundleTx(c, op, 0), BundleTx(c, op, 1))
    ensures ls[i + 1].Crash?
  {
    var h := Key(c, op, ep);
    ss, ls := StartsUp(c);
    i := |ls| + 3;
    ss, ls := Carries(c, op, ep, 0, START.hist, ss, ls);
    HoldsOne(c, op, ep, 0, START.hist);
    var s := StepCrash(ss[|ls|]);
    Extend(c, ss, ls, Crash, s);
    var ss1, ls1 := ss + [s], ls + [Crash];
    ss, ls := RestartsAndSends(c, op, ep, 1, ss1, ls1);
    assert forall k :: 0 <= k < |ls1| ==> ls[k] == ls1[k] && ss[k] == ss1[k];
    j := |ls| - 1;
    Assembles(c, ss, ls, i, i + 1, h, BundleTx(c, op, 0), BundleTx(c, op, 1));
  }

  /** A status write of the broadcast that failed: the row stays in bundling until the next restart. */
  lemma LostWriteCarriesTwice(c: Config, op: PackedUserOp, ep: Address)
    returns (ss: seq<State>, ls: seq<Label>, i: nat, j: nat)
    requires Able(c, op, ep)
    ensures CarriedTwice(c, ss, ls, i, j, i + 1, Key(c, op, ep), BundleTx(c, op, 0), BundleTx(c, op, 1))
    ensures ls[i + 1].LoopWrite? && !ls[i + 1].ok
  {
    var h := Key(c, op, ep);
    ss, ls := StartsUp(c);
    i := |ls| + 3;
    ss, ls := Carries(c, op, ep, 0, START.hist, ss, ls);
    HoldsOne(c, op, ep, 0, START.hist);
    var ss1, ls1 := LosesWrite(c, ss, ls);
    ss, ls := RestartsAndSends(c, op, ep, 1, ss1, ls1);
    assert forall k :: 0 <= k < |ls1| ==> ls[k] == ls1[k] && ss[k] == ss1[k];
    j := |ls| - 1;
    Assembles(c, ss, ls, i, i + 1, h, BundleTx(c, op, 0), BundleTx(c, op, 1));
  }

  lemma LosesWrite(c: Config, ss0: seq<State>, ls0: seq<Label>) returns (ss: seq<State>, ls: seq<Label>)
    requires Run(c, ss0, ls0) && ss0[|ls0|].loop.LWriting? && |ss0[|ls0|].loop.batch| == 1 && ss0[|ls0|].loop.next == 0
    ensures var s := ss0[|ls0|];
      && Run(c, ss, ls) && ss0 <= ss && ls == ls0 + [LoopWrite(false, 0), Crash]
      && ss[|ls0| + 1].loop.LIdle? && ss[|ls0| + 1].table == s.table
      && ss[|ls|] == State(s.table, Down, LIdle, WIdle, s.nonce, ss[|ls|].hist)
  {
    var s1 := StepLoopWrite(ss0[|ls0|], false, 0).value;
    ExtendRun(c, ss0, ls0, LoopWrite(false, 0), s1);
    ss, ls := ss0 + [s1], ls0 + [LoopWrite(false, 0)];
    ExtendRun(c, ss, ls, Crash, StepCrash(s1));
    ss, ls := ss + [StepCrash(s1)], ls + [Crash];
  }

  /** A submit that returned an error although the transaction reached the network; the node then counts it. */
  lemma LeakCarriesTwice(c: Config, op: PackedUserOp, ep: Address)
    returns (ss: seq<State>, ls: seq<Label>, i: nat, j: nat)
    requires Able(c, op, ep)
    ensures CarriedTwice(c, ss, ls, i, j, i, Key(c, op, ep), BundleTx(c, op, 0), BundleTx(c, op, 1))
    ensures ls[i] == SubmitFails(Some(BundleTx(c, op, 0)), Some(1))
  {
    var h := Key(c, op, ep);
    ss, ls := StartsUp(c);
    i := |ls| + 3;
    ss, ls := Readies(c, op, ep, 0, START.hist, ss, ls);
    HoldsOne(c, op, ep, 0, START.hist);
    var ss1, ls1 := Leaks(c, op, ep, ss, ls);
    ss, ls := SendsAgain(c, op, ep, 1, ss1, ls1);
    assert forall k :: 0 <= k < |ls1| ==> ls[k] == ls1[k] && ss[k] == ss1[k];
    j := |ls| - 1;
    Assembles(c, ss, ls, i, i, h, BundleTx(c, op, 0), BundleTx(c, op, 1));
  }

  lemma Leaks(c: Config, op: PackedUserOp, ep: Address, ss0: seq<State>, ls0: seq<Label>)
    returns (ss: seq<State>, ls: seq<Label>)
    requires Able(c, op, ep) && Run(c, ss0, ls0) && ss0[|ls0|] == BeforeSend(c, op, ep, 0, START.hist)
    ensures Run(c, ss, ls) && ss0 <= ss
    ensures ls == ls0 + [SubmitFails(Some(BundleTx(c, op, 0)), Some(1)), LoopWrite(true, 0)]
    ensures ss[|ls0| + 1].table == ss0[|ls0|].table
    ensures ss[|ls|] == State(map[Key(c, op, ep) := Fresh(op, 0)], Up, LIdle, WIdle, 1, ss[|ls|].hist)
  {
    var h, tx := Key(c, op, ep), BundleTx(c, op, 0);
    assert OpsOf([Snap(h, op)]) == [op];
    var l1 := SubmitFails(Some(tx), Some(1));
    var s1 := StepSubmitFails(c, ss0[|ls0|], Some(tx), Some(1)).value;
    ExtendRun(c, ss0, ls0, l1, s1);
    ss, ls := ss0 + [s1], ls0 + [l1];
    RunInv(c, ss, ls, |ls|);
    LoopWriteLands(c, s1, 0);
    var s2 := StepLoopWrite(s1, true, 0).value;
    assert s2.table == map[h := Fresh(op, 0)];
    ExtendRun(c, ss, ls, LoopWrite(true, 0), s2);
    ss, ls := ss + [s2], ls + [LoopWrite(true, 0)];
  }
}
