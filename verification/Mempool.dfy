/** The user_operations table and its repository (internal/mempool/types.go, db.go).
    SQL text and hex columns are abstracted: a row holds the decoded op (see Wire for the codec). */
module Mempool {
  import opened Bytes
  import opened UserOps

  datatype Status = Pending | Bundling | Submitted | Confirmed | Failed | Replaced

  predicate Terminal(s: Status) { s == Confirmed || s == Failed || s == Replaced }

  /** A signed bundle transaction. The chain names it by a hash of its whole contents; the model
      uses the contents as the name. `rest` stands for gas, fee and signature fields. */
  datatype Tx = Tx(nonce: nat, calldata: Bytes, rest: nat)

  datatype Row = Row(
    op: PackedUserOp,
    status: Status,
    bundleTx: Option<Tx>,
    bundleIndex: Option<nat>,
    submittedAt: Option<int>,
    block: Option<nat>,
    reason: Option<Bytes>,
    gasCost: Option<nat>,
    receivedAt: int,
    updatedAt: int)

  /** Optional columns of a status update; None leaves the column as it is. */
  datatype Extra = Extra(
    bundleTx: Option<Tx>,
    bundleIndex: Option<nat>,
    submittedAt: Option<int>,
    block: Option<nat>,
    reason: Option<Bytes>,
    gasCost: Option<nat>)

  const NO_EXTRA := Extra(None, None, None, None, None, None)

  const TTL_EXPIRED: Bytes := Ascii("ttl_expired")

  type Table = map<Word, Row>

  function Or<T>(a: Option<T>, b: Option<T>): Option<T> { if a.Some? then a else b }

  function Fresh(op: PackedUserOp, now: int): Row {
    Row(op, Pending, None, None, None, None, None, None, now, now)
  }

  function Updated(r: Row, s: Status, x: Extra, now: int): Row {
    Row(r.op, s, Or(x.bundleTx, r.bundleTx), Or(x.bundleIndex, r.bundleIndex),
        Or(x.submittedAt, r.submittedAt), Or(x.block, r.block), Or(x.reason, r.reason),
        Or(x.gasCost, r.gasCost), r.receivedAt, now)
  }

  predicate SameKey(a: PackedUserOp, b: PackedUserOp) { a.sender == b.sender && a.nonce == b.nonce }

  predicate LiveIn(t: Table, h: Word) { h in t && !Terminal(t[h].status) }

  /** The partial unique index on (sender, nonce) over non-terminal rows. */
  ghost predicate UniqueLive(t: Table) {
    forall g, h :: LiveIn(t, g) && LiveIn(t, h) && SameKey(t[g].op, t[h].op) ==> g == h
  }

  /** A live row other than `except` holds this op's (sender, nonce). */
  predicate KeyTaken(t: Table, op: PackedUserOp, except: Option<Word>) {
    exists g :: g in t && LiveIn(t, g) && SameKey(t[g].op, op) && Some(g) != except
  }

  // ----- atomic statements as functions of the table; None is an error that changes nothing -----

  function InsertRow(t: Table, h: Word, op: PackedUserOp, now: int): Option<Table> {
    if h in t || KeyTaken(t, op, None) then None else Some(t[h := Fresh(op, now)])
  }

  function ReplaceRow(t: Table, prev: Word, h: Word, op: PackedUserOp, now: int): Option<Table> {
    if prev !in t || t[prev].status != Pending then None
    else InsertRow(t[prev := t[prev].(status := Replaced, updatedAt := now)], h, op, now)
  }

  predicate Distinct(hs: seq<Word>) { forall i, j :: 0 <= i < j < |hs| ==> hs[i] != hs[j] }

  predicate PendingIn(t: Table, h: Word) { h in t && t[h].status == Pending }

  /** ClaimForBundling commits exactly when every hash is a pending row and none is repeated. */
  predicate Claimable(t: Table, hs: seq<Word>) {
    Distinct(hs) && forall i :: 0 <= i < |hs| ==> PendingIn(t, hs[i])
  }

  function ClaimRows(t: Table, hs: seq<Word>, now: int): Table {
    map h | h in t :: if h in hs then t[h].(status := Bundling, updatedAt := now) else t[h]
  }

  /** UPDATE ... WHERE hash = ?: not guarded by the current status. The engine refuses it only when
      the row is missing or the partial index would be violated. */
  function UpdateRow(t: Table, h: Word, s: Status, x: Extra, now: int): Option<Table> {
    if h !in t then None
    else if !Terminal(s) && KeyTaken(t, t[h].op, Some(h)) then None
    else Some(t[h := Updated(t[h], s, x, now)])
  }

  function ResetRows(t: Table, now: int): Table {
    map h | h in t :: if t[h].status == Bundling then t[h].(status := Pending, updatedAt := now) else t[h]
  }

  predicate Expires(r: Row, cutoff: int) { r.status == Pending && r.receivedAt < cutoff }

  function ExpireRows(t: Table, cutoff: int, now: int): Table {
    map h | h in t ::
      if Expires(t[h], cutoff) then t[h].(status := Failed, reason := Some(TTL_EXPIRED), updatedAt := now)
      else t[h]
  }

  function PruneRows(t: Table, cutoff: int): Table {
    map h | h in t && !(Terminal(t[h].status) && t[h].updatedAt < cutoff) :: t[h]
  }

  /** What ORDER BY received_at LIMIT ? may return: ties in any order, a negative limit is no limit. */
  predicate FirstPending(t: Table, limit: int, hs: seq<Word>) {
    && Distinct(hs)
    && (forall i :: 0 <= i < |hs| ==> PendingIn(t, hs[i]))
    && (limit >= 0 ==> |hs| <= limit)
    && (forall i, j :: 0 <= i < j < |hs| ==> t[hs[i]].receivedAt <= t[hs[j]].receivedAt)
    && (forall h :: h in t && PendingIn(t, h) && h !in hs ==>
          |hs| == limit && forall i :: 0 <= i < |hs| ==> t[hs[i]].receivedAt <= t[h].receivedAt)
  }

  // ----- what the statements keep -----

  lemma InsertKeepsIndex(t: Table, h: Word, op: PackedUserOp, now: int)
    requires UniqueLive(t)
    ensures InsertRow(t, h, op, now).Some? ==> UniqueLive(InsertRow(t, h, op, now).value)
  {
    if InsertRow(t, h, op, now).Some? {
      var u := t[h := Fresh(op, now)];
      forall a, b | LiveIn(u, a) && LiveIn(u, b) && SameKey(u[a].op, u[b].op) ensures a == b {
        assert a != h ==> LiveIn(t, a);
        assert b != h ==> LiveIn(t, b);
      }
    }
  }

  /** Any change of statuses that never makes a terminal row live keeps the index. */
  lemma NoResurrectionKeepsIndex(t: Table, u: Table)
    requires UniqueLive(t)
    requires forall h :: LiveIn(u, h) ==> LiveIn(t, h) && t[h].op == u[h].op
    ensures UniqueLive(u)
  {
    forall a, b | LiveIn(u, a) && LiveIn(u, b) && SameKey(u[a].op, u[b].op) ensures a == b {
      assert LiveIn(t, a) && LiveIn(t, b);
    }
  }

  lemma ReplaceKeepsIndex(t: Table, prev: Word, h: Word, op: PackedUserOp, now: int)
    requires UniqueLive(t)
    ensures ReplaceRow(t, prev, h, op, now).Some? ==> UniqueLive(ReplaceRow(t, prev, h, op, now).value)
  {
    if prev in t {
      var u := t[prev := t[prev].(status := Replaced, updatedAt := now)];
      NoResurrectionKeepsIndex(t, u);
      InsertKeepsIndex(u, h, op, now);
    }
  }

  /** An update of a live row can never be refused by the index. */
  lemma LiveUpdateSucceeds(t: Table, h: Word, s: Status, x: Extra, now: int)
    requires UniqueLive(t) && LiveIn(t, h)
    ensures UpdateRow(t, h, s, x, now) == Some(t[h := Updated(t[h], s, x, now)])
    ensures UniqueLive(t[h := Updated(t[h], s, x, now)])
  {
    NoResurrectionKeepsIndex(t, t[h := Updated(t[h], s, x, now)]);
  }

  /** FIFO: a pending op with fewer than `limit` other pending ops received no later than it is in
      the next batch. */
  lemma NextBatchHolds(t: Table, limit: int, hs: seq<Word>, h: Word)
    requires FirstPending(t, limit, hs) && PendingIn(t, h)
    requires limit < 0 || |set g | g in t && g != h && PendingIn(t, g) && t[g].receivedAt <= t[h].receivedAt| < limit
    ensures h in hs
  {
    if h !in hs {
      var ahead := set g | g in t && g != h && PendingIn(t, g) && t[g].receivedAt <= t[h].receivedAt;
      var batch := set i | 0 <= i < |hs| :: hs[i];
      forall g | g in batch ensures g in ahead {
        var i :| 0 <= i < |hs| && hs[i] == g;
        assert PendingIn(t, hs[i]);
      }
      DistinctSize(hs);
      SubsetSize(batch, ahead);
    }
  }

  lemma {:induction false} DistinctSize(hs: seq<Word>)
    requires Distinct(hs)
    ensures |set i | 0 <= i < |hs| :: hs[i]| == |hs|
  {
    if hs != [] {
      var n := |hs| - 1;
      var init := hs[..n];
      DistinctSize(init);
      var s := set i | 0 <= i < |init| :: init[i];
      assert forall i :: 0 <= i < n ==> init[i] == hs[i];
      assert (set i | 0 <= i < |hs| :: hs[i]) == s + {hs[n]};
    }
  }

  lemma {:induction false} SubsetSize<T>(a: set<T>, b: set<T>)
    requires a <= b
    ensures |a| <= |b|
  {
    if x :| x in a {
      SubsetSize(a - {x}, b - {x});
    }
  }
}
