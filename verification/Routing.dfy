/** Which ops a bundle transaction carries, for any number of configured entry points: intake hashes an
    op for the entry point it was sent for, the loop bundles it whatever that was. */
module Routing {
  import opened Bytes
  import opened UserOps
  import opened Mempool
  import opened Protocol
  import opened Invariant
  import opened Runs

  /** The op hashes to h for one of the configured entry points. */
  ghost predicate Admitted(c: Config, h: Word, op: PackedUserOp) {
    exists ep :: ep in c.entryPoints && c.hashOf(op, ep) == h
  }

  /** Different keys, each with an op that was admitted under it. */
  ghost predicate Batch(c: Config, b: seq<Snap>) {
    Distinct(Hashes(b)) && forall i :: 0 <= i < |b| ==> Admitted(c, b[i].h, b[i].op)
  }

  /** tx encodes the ops of batch b, and the one at k has key h. */
  ghost predicate Carries(c: Config, tx: Tx, b: seq<Snap>, k: nat, h: Word) {
    tx.calldata == c.build(OpsOf(b)) && |tx.calldata| <= MAX_LEN && Batch(c, b) && k < |b| && b[k].h == h
  }

  /** The row's transaction carries, at the row's bundle_index, an op admitted under the row's key. */
  ghost predicate Routed(c: Config, h: Word, r: Row) {
    && r.bundleTx.Some? && r.bundleIndex.Some?
    && exists b :: Carries(c, r.bundleTx.value, b, r.bundleIndex.value, h)
  }

  predicate OnChain(r: Row) { r.status == Submitted || r.status == Confirmed }

  ghost predicate RouteRow(c: Config, h: Word, r: Row) { Admitted(c, h, r.op) && (OnChain(r) ==> Routed(c, h, r)) }

  ghost predicate RouteLoop(c: Config, l: LoopPc) {
    && (!l.LIdle? ==> Batch(c, l.batch))
    && (l.LWriting? && l.goal.GoSubmit? ==>
          l.goal.tx.calldata == c.build(OpsOf(l.batch)) && |l.goal.tx.calldata| <= MAX_LEN)
  }

  ghost predicate RouteInv(c: Config, s: State) {
    (forall h :: h in s.table ==> RouteRow(c, h, s.table[h])) && RouteLoop(c, s.loop)
  }

  // ----- every step keeps it -----

  /** A row that appears is a pending one, stored under its op's hash for an entry point. */
  lemma NewRow(c: Config, s: State, l: Label, h: Word)
    requires Next(c, s, l).Some? && h !in s.table && h in Next(c, s, l).value.table
    ensures var r := Next(c, s, l).value.table[h]; r.status == Pending && Admitted(c, h, r.op)
  {}

  /** Outside the two writers a submitted or confirmed row is exactly as it was. */
  lemma OwnedRowSame(c: Config, s: State, l: Label, h: Word)
    requires Next(c, s, l).Some? && !l.LoopWrite? && !l.WatchWrite?
    requires h in s.table && h in Next(c, s, l).value.table && OnChain(Next(c, s, l).value.table[h])
    ensures Next(c, s, l).value.table[h] == s.table[h]
  {}

  lemma RoutedByLoop(c: Config, s: State, ok: bool, now: int, h: Word)
    requires Inv(c, s) && RouteInv(c, s) && StepLoopWrite(s, ok, now).Some? && h in s.table
    requires OnChain(StepLoopWrite(s, ok, now).value.table[h])
    ensures Routed(c, h, StepLoopWrite(s, ok, now).value.table[h])
  {
    var LWriting(b, g, i) := s.loop;
    LoopWriteTable(c, s, ok, now);
    assert RouteRow(c, h, s.table[h]);
    if ok && h == b[i].h && g.GoSubmit? { assert Carries(c, g.tx, b, i, h); }
  }

  lemma RoutedByWatch(c: Config, s: State, ok: bool, now: int, h: Word)
    requires Inv(c, s) && RouteInv(c, s) && StepWatchWrite(c, s, ok, now).Some? && h in s.table
    requires OnChain(StepWatchWrite(c, s, ok, now).value.table[h])
    ensures Routed(c, h, StepWatchWrite(c, s, ok, now).value.table[h])
  {
    WatchWriteTable(c, s, ok, now);
    assert RouteRow(c, h, s.table[h]);
    var b :| Carries(c, s.table[h].bundleTx.value, b, s.table[h].bundleIndex.value, h);
  }

  lemma RowStaysRouted(c: Config, s: State, l: Label, h: Word)
    requires Inv(c, s) && RouteInv(c, s) && Next(c, s, l).Some? && h in Next(c, s, l).value.table
    ensures RouteRow(c, h, Next(c, s, l).value.table[h])
  {
    var r := Next(c, s, l).value.table[h];
    if h !in s.table {
      NewRow(c, s, l, h);
    } else {
      assert RouteRow(c, h, s.table[h]);
      StepLifecycle(c, s, l, h);
      if OnChain(r) {
        match l
        case LoopWrite(ok, now) => RoutedByLoop(c, s, ok, now, h);
        case WatchWrite(ok, now) => RoutedByWatch(c, s, ok, now, h);
        case _ => OwnedRowSame(c, s, l, h);
      }
    }
  }

  lemma FetchedBatch(c: Config, s: State, b: seq<Snap>)
    requires RouteInv(c, s) && StepFetchPending(c, s, b).Some?
    ensures Batch(c, b)
  {
    forall i | 0 <= i < |b| ensures Admitted(c, b[i].h, b[i].op) {
      assert PendingIn(s.table, Hashes(b)[i]) && Hashes(b)[i] == b[i].h;
      assert RouteRow(c, b[i].h, s.table[b[i].h]);
    }
  }

  lemma LoopStaysRouted(c: Config, s: State, l: Label)
    requires RouteInv(c, s) && Next(c, s, l).Some?
    ensures RouteLoop(c, Next(c, s, l).value.loop)
  {
    if l.FetchPending? { FetchedBatch(c, s, l.batch); }
  }

  lemma KeepRoutes(c: Config, s: State, l: Label)
    requires Inv(c, s) && RouteInv(c, s) && Next(c, s, l).Some?
    ensures RouteInv(c, Next(c, s, l).value)
  {
    var t := Next(c, s, l).value.table;
    forall h | h in t ensures RouteRow(c, h, t[h]) { RowStaysRouted(c, s, l, h); }
    LoopStaysRouted(c, s, l);
  }

  lemma {:induction false} RunRoutes(c: Config, ss: seq<State>, ls: seq<Label>, n: nat)
    requires Run(c, ss, ls) && n < |ss|
    ensures RouteInv(c, ss[n])
  {
    if n > 0 {
      RunRoutes(c, ss, ls, n - 1);
      RunInv(c, ss, ls, n - 1);
      assert StepAt(c, ss, ls, n - 1);
      KeepRoutes(c, ss[n - 1], ls[n - 1]);
    }
  }

  /** In every reachable state, with any number of entry points: the row's op was admitted under its key,
      and if the row is submitted or confirmed its transaction encodes, at the row's bundle_index, an
      op admitted under the same key. */
  lemma RowIsRouted(c: Config, ss: seq<State>, ls: seq<Label>, n: nat, h: Word)
    requires Run(c, ss, ls) && n < |ss| && h in ss[n].table
    ensures Admitted(c, h, ss[n].table[h].op)
    ensures OnChain(ss[n].table[h]) ==> Routed(c, h, ss[n].table[h])
  {
    RunRoutes(c, ss, ls, n);
    assert RouteRow(c, h, ss[n].table[h]);
  }
}
