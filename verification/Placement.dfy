/** (bundle_tx_hash, bundle_index) is where the op is in the transaction, and names one row. For any number of
    entry points this rests on the nonces of the broadcasts; with one entry point and an encoder that
    decodes (Coherent) also on the calldata alone. */
module Placement {
  import opened Bytes
  import opened UserOps
  import opened Mempool
  import opened Receipts
  import opened Protocol
  import opened Runs
  import opened Routing
  import opened Broadcasts
  import opened Visits

  /** The row's transaction encodes, at the row's index, an op that hashes to the row's key. */
  predicate Placed(c: Config, h: Word, r: Row) {
    r.bundleTx.Some? && r.bundleIndex.Some? && c.hashAt(r.bundleTx.value.calldata, r.bundleIndex.value) == Some(h)
  }

  /** No op hash occurs at two positions. */
  ghost predicate Once(c: Config, calldata: Bytes) {
    forall i: nat, j: nat :: i < j && c.hashAt(calldata, i).Some? ==> c.hashAt(calldata, i) != c.hashAt(calldata, j)
  }

  lemma AdmittedToOne(c: Config, h: Word, op: PackedUserOp)
    requires |c.entryPoints| == 1 && Admitted(c, h, op)
    ensures c.hashOf(op, c.entryPoints[0]) == h
  {}

  /** With one entry point position k of a batch's calldata hashes to the k-th key, and there is nothing
      past the last. */
  lemma BatchHashes(c: Config, b: seq<Snap>, k: nat)
    requires Coherent(c) && Batch(c, b) && |c.build(OpsOf(b))| <= MAX_LEN
    ensures c.hashAt(c.build(OpsOf(b)), k) == if k < |b| then Some(b[k].h) else None
  {
    if k < |b| { AdmittedToOne(c, b[k].h, b[k].op); }
  }

  lemma CarriedIsPlaced(c: Config, tx: Tx, b: seq<Snap>, k: nat, h: Word)
    requires Coherent(c) && Carries(c, tx, b, k, h)
    ensures c.hashAt(tx.calldata, k) == Some(h) && Once(c, tx.calldata)
  {
    BatchHashes(c, b, k);
    forall i: nat, j: nat | i < j && c.hashAt(tx.calldata, i).Some?
      ensures c.hashAt(tx.calldata, i) != c.hashAt(tx.calldata, j) {
      BatchHashes(c, b, i);
      BatchHashes(c, b, j);
      assert j < |b| ==> Hashes(b)[i] == b[i].h && Hashes(b)[j] == b[j].h;
    }
  }

  // ----- any number of entry points -----

  /** In every reachable state: the transaction of a submitted or confirmed row was broadcast at q, for a batch
      of different keys; the row's key stands in it at the row's bundle_index; and there the entry
      point that is called finds the op of that position and hashes it for itself. */
  lemma RecordedIndexIsTheOp(c: Config, ss: seq<State>, ls: seq<Label>, n: nat, h: Word) returns (q: nat)
    requires Decodes(c) && Run(c, ss, ls) && n < |ss| && h in ss[n].table && OnChain(ss[n].table[h])
    ensures var r := ss[n].table[h];
      && r.bundleTx.Some? && r.bundleIndex.Some?
      && SentAt(ss, ls, q, n, r.bundleTx.value, r.bundleIndex.value, h)
      && Distinct(Hashes(ss[q].loop.batch))
      && c.hashAt(r.bundleTx.value.calldata, r.bundleIndex.value)
           == Some(c.hashOf(ss[q].loop.batch[r.bundleIndex.value].op, c.entryPoints[0]))
  {
    var r := ss[n].table[h];
    RowWasSent(c, ss, ls, n, h);
    q :| SentAt(ss, ls, q, n, r.bundleTx.value, r.bundleIndex.value, h);
    assert StepAt(c, ss, ls, q);
    RunInv(c, ss, ls, q);
  }

  lemma SameBatchSameKey(c: Config, ss: seq<State>, ls: seq<Label>, n: nat, p: nat, q: nat, tx: Tx, i: nat,
                         j: nat, g: Word, h: Word)
    requires Run(c, ss, ls) && NodeAhead(ss, ls, n) && SentAt(ss, ls, p, n, tx, i, g) && SentAt(ss, ls, q, n, tx, j, h)
    ensures p == q && (g == h <==> i == j)
  {
    OneBroadcast(c, ss, ls, n, p, q);
    RunInv(c, ss, ls, p);
    var b := ss[p].loop.batch;
    assert Hashes(b)[i] == g && Hashes(b)[j] == h;
  }

  /** While the node was never behind, (bundle_tx_hash, bundle_index) names at most one submitted or
      confirmed row, for any number of entry points. */
  lemma IndexNamesOneRow(c: Config, ss: seq<State>, ls: seq<Label>, n: nat, g: Word, h: Word)
    requires Run(c, ss, ls) && NodeAhead(ss, ls, n) && g in ss[n].table && h in ss[n].table
    requires OnChain(ss[n].table[g]) && OnChain(ss[n].table[h])
    requires ss[n].table[g].bundleTx == ss[n].table[h].bundleTx
    requires ss[n].table[g].bundleIndex == ss[n].table[h].bundleIndex
    ensures g == h
  {
    RowWasSent(c, ss, ls, n, g);
    RowWasSent(c, ss, ls, n, h);
    var tx, i := ss[n].table[g].bundleTx.value, ss[n].table[g].bundleIndex.value;
    var p: nat :| SentAt(ss, ls, p, n, tx, i, g);
    var q: nat :| SentAt(ss, ls, q, n, tx, i, h);
    SameBatchSameKey(c, ss, ls, n, p, q, tx, i, i, g, h);
  }

  /** The key that the broadcast at q put at position i. */
  function KeyAt(s: State, i: nat): Option<Word> {
    if s.loop.LClaimed? && i < |s.loop.batch| then Some(s.loop.batch[i].h) else None
  }

  /** An entry of a visit has index i exactly when its key is the one broadcast at position i. */
  lemma IndexIsKeyAt(c: Config, ss: seq<State>, ls: seq<Label>, a: nat, q: nat, tx: Tx, e: Entry, i: nat)
    requires Run(c, ss, ls) && NodeAhead(ss, ls, a) && q < a && ls[q].Broadcast? && ls[q].tx == tx
    requires Owned(ss[a].table, tx, e)
    ensures e.index == Some(i) <==> KeyAt(ss[q], i) == Some(e.h)
  {
    RowWasSent(c, ss, ls, a, e.h);
    var k := ss[a].table[e.h].bundleIndex.value;
    var p: nat :| SentAt(ss, ls, p, a, tx, k, e.h);
    assert StepAt(c, ss, ls, q);
    if i < |ss[q].loop.batch| {
      assert SentAt(ss, ls, q, a, tx, i, ss[q].loop.batch[i].h);
      SameBatchSameKey(c, ss, ls, a, p, q, tx, k, i, e.h, ss[q].loop.batch[i].h);
    } else {
      OneBroadcast(c, ss, ls, a, p, q);
    }
  }

  /** Over a whole visit, in every run in which the node was never behind, with any number of entry points:
      the transaction was broadcast once, at q, and well-formed FailedOp(i, reason) data fails exactly
      the row that this broadcast put at position i, with that reason, and returns every other row
      submitted under the transaction to pending. */
  lemma FailedOpSettles(c: Config, ss: seq<State>, ls: seq<Label>, a: nat, b: nat, i: nat, reason: Bytes,
                        padding: Bytes)
    returns (q: nat)
    requires Run(c, ss, ls) && FullVisit(ss, ls, a, b) && ls[a].answer.value.status != 1
    requires NodeAhead(ss, ls, a) && |c.events.failedOp| == 4
    requires i <= MAX_LEN && |FailedOpData(c.events.failedOp, i, reason) + padding| <= MAX_LEN
    requires ls[a].revertData == FailedOpData(c.events.failedOp, i, reason) + padding
    ensures ss[a].watch.WBusy? && ls[a].tx in ss[a].watch.todo
    ensures q < a && ls[q].Broadcast? && ls[q].tx == ls[a].tx
    ensures forall p :: 0 <= p < a && ls[p].Broadcast? && ls[p].tx == ls[a].tx ==> p == q
    ensures forall e :: e in ss[a].watch.todo[ls[a].tx] ==>
      Settled(ss, ls, a, b, ls[a].tx, e, KeyAt(ss[q], i) == Some(e.h), reason)
  {
    VisitOpens(c, ss, ls, a, b);
    var tx, es := ls[a].tx, ss[a].watch.todo[ls[a].tx];
    assert Owned(ss[a].table, tx, es[0]);
    RowWasSent(c, ss, ls, a, es[0].h);
    q :| SentAt(ss, ls, q, a, tx, ss[a].table[es[0].h].bundleIndex.value, es[0].h);
    forall p | 0 <= p < a && ls[p].Broadcast? && ls[p].tx == tx ensures p == q { OneBroadcast(c, ss, ls, a, p, q); }
    FailedOpVerdict(c.events, i, reason, padding);
    forall e | e in es ensures Settled(ss, ls, a, b, tx, e, KeyAt(ss[q], i) == Some(e.h), reason) {
      var j :| 0 <= j < |es| && es[j] == e;
      VisitSettles(c, ss, ls, a, b, j, i, reason);
      IndexIsKeyAt(c, ss, ls, a, q, tx, e, i);
    }
  }

  // ----- one entry point -----

  /** With one entry point, in every reachable state: a submitted or confirmed row's transaction, decoded as
      the entry point does, holds at the row's bundle_index an op whose userOpHash is the row's key,
      and no hash occurs twice in it. */
  lemma IndexHashesToKey(c: Config, ss: seq<State>, ls: seq<Label>, n: nat, h: Word)
    requires Coherent(c) && Run(c, ss, ls) && n < |ss| && h in ss[n].table && OnChain(ss[n].table[h])
    ensures Placed(c, h, ss[n].table[h]) && Once(c, ss[n].table[h].bundleTx.value.calldata)
  {
    RowIsRouted(c, ss, ls, n, h);
    var r := ss[n].table[h];
    var b :| Carries(c, r.bundleTx.value, b, r.bundleIndex.value, h);
    CarriedIsPlaced(c, r.bundleTx.value, b, r.bundleIndex.value, h);
  }

  /** Then (bundle_tx_hash, bundle_index) names one row whatever the node answers. */
  lemma IndexNamesOneHash(c: Config, ss: seq<State>, ls: seq<Label>, n: nat, g: Word, h: Word)
    requires Coherent(c) && Run(c, ss, ls) && n < |ss| && g in ss[n].table && h in ss[n].table
    requires OnChain(ss[n].table[g]) && OnChain(ss[n].table[h])
    requires ss[n].table[g].bundleTx == ss[n].table[h].bundleTx
    requires ss[n].table[g].bundleIndex == ss[n].table[h].bundleIndex
    ensures g == h
  {
    IndexHashesToKey(c, ss, ls, n, g);
    IndexHashesToKey(c, ss, ls, n, h);
  }

  /** And an entry of a visit has index i exactly when the op encoded at position i hashes to its key. */
  lemma IndexIsHashAt(c: Config, ss: seq<State>, ls: seq<Label>, a: nat, tx: Tx, e: Entry, i: nat)
    requires Coherent(c) && Run(c, ss, ls) && a < |ss| && Owned(ss[a].table, tx, e)
    ensures e.index == Some(i) <==> c.hashAt(tx.calldata, i) == Some(e.h)
  {
    IndexHashesToKey(c, ss, ls, a, e.h);
    var k := e.index.value;
    assert k < i ==> c.hashAt(tx.calldata, k) != c.hashAt(tx.calldata, i);
    assert i < k ==> c.hashAt(tx.calldata, i) != c.hashAt(tx.calldata, k);
  }

  /** So with one entry point, whatever the node answers, FailedOp(i, reason) fails exactly the row of the op
      encoded at position i. */
  lemma FailedOpSettlesHash(c: Config, ss: seq<State>, ls: seq<Label>, a: nat, b: nat, i: nat, reason: Bytes,
                            padding: Bytes)
    requires Coherent(c) && Run(c, ss, ls) && FullVisit(ss, ls, a, b) && ls[a].answer.value.status != 1
    requires |c.events.failedOp| == 4
    requires i <= MAX_LEN && |FailedOpData(c.events.failedOp, i, reason) + padding| <= MAX_LEN
    requires ls[a].revertData == FailedOpData(c.events.failedOp, i, reason) + padding
    ensures ss[a].watch.WBusy? && ls[a].tx in ss[a].watch.todo
    ensures forall e :: e in ss[a].watch.todo[ls[a].tx] ==>
      Settled(ss, ls, a, b, ls[a].tx, e, c.hashAt(ls[a].tx.calldata, i) == Some(e.h), reason)
  {
    VisitOpens(c, ss, ls, a, b);
    FailedOpVerdict(c.events, i, reason, padding);
    var tx, es := ls[a].tx, ss[a].watch.todo[ls[a].tx];
    forall e | e in es ensures Settled(ss, ls, a, b, tx, e, c.hashAt(tx.calldata, i) == Some(e.h), reason) {
      var j :| 0 <= j < |es| && es[j] == e;
      VisitSettles(c, ss, ls, a, b, j, i, reason);
      IndexIsHashAt(c, ss, ls, a, tx, e, i);
    }
  }
}
