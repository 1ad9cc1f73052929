/** SQLiteRepo's methods (internal/mempool/db.go), each proved against the table functions of
    Mempool. `io` stands for the engine's own errors. */
module Repository {
  import opened Bytes
  import opened UserOps
  import opened Mempool

  // ----- what the methods promise, column by column -----

  /** A row that is pending, bundling or submitted holds its op's sender and nonce. */
  predicate Occupies(r: Row, op: PackedUserOp) {
    && (r.status == Pending || r.status == Bundling || r.status == Submitted)
    && r.op.sender == op.sender && r.op.nonce == op.nonce
  }

  predicate Old(r: Row, cutoff: int) {
    (r.status == Confirmed || r.status == Failed || r.status == Replaced) && r.updatedAt < cutoff
  }

  /** r' has the given columns where they are given, and r's elsewhere. */
  predicate Sets(r: Row, r': Row, st: Status, x: Extra, now: int) {
    && r'.op == r.op && r'.receivedAt == r.receivedAt && r'.status == st && r'.updatedAt == now
    && r'.bundleTx == (if x.bundleTx.Some? then x.bundleTx else r.bundleTx)
    && r'.bundleIndex == (if x.bundleIndex.Some? then x.bundleIndex else r.bundleIndex)
    && r'.submittedAt == (if x.submittedAt.Some? then x.submittedAt else r.submittedAt)
    && r'.block == (if x.block.Some? then x.block else r.block)
    && r'.reason == (if x.reason.Some? then x.reason else r.reason)
    && r'.gasCost == (if x.gasCost.Some? then x.gasCost else r.gasCost)
  }

  class Repo {
    var rows: Table

    constructor ()
      ensures rows == map[]
    {
      rows := map[];
    }

    /** Refused exactly for an engine error, a known hash or an occupied sender and nonce. */
    method Insert(op: PackedUserOp, h: Word, io: bool, now: int) returns (ok: bool)
      modifies this
      ensures ok <==> io && h !in old(rows) && forall g :: g in old(rows) ==> !Occupies(old(rows)[g], op)
      ensures ok ==> rows == old(rows)[h := Row(op, Pending, None, None, None, None, None, None, now, now)]
      ensures ok == (io && InsertRow(old(rows), h, op, now).Some?)
      ensures rows == if ok then InsertRow(old(rows), h, op, now).value else old(rows)
      ensures old(UniqueLive(rows)) ==> UniqueLive(rows)
    {
      if UniqueLive(rows) { InsertKeepsIndex(rows, h, op, now); }
      if !io || h in rows || KeyTaken(rows, op, None) { return false; }
      rows := rows[h := Fresh(op, now)];
      return true;
    }

    /** Two statements in a transaction: a failed insert rolls the replaced mark back. */
    method Replace(prev: Word, op: PackedUserOp, h: Word, io: bool, now: int) returns (ok: bool)
      modifies this
      ensures ok <==>
        && io && prev in old(rows) && old(rows)[prev].status == Pending && h !in old(rows)
        && forall g :: g in old(rows) && g != prev ==> !Occupies(old(rows)[g], op)
      ensures ok ==>
        rows == old(rows)[prev := old(rows)[prev].(status := Replaced, updatedAt := now)]
                         [h := Row(op, Pending, None, None, None, None, None, None, now, now)]
      ensures ok == (io && ReplaceRow(old(rows), prev, h, op, now).Some?)
      ensures rows == if ok then ReplaceRow(old(rows), prev, h, op, now).value else old(rows)
      ensures old(UniqueLive(rows)) ==> UniqueLive(rows)
    {
      if UniqueLive(rows) { ReplaceKeepsIndex(rows, prev, h, op, now); }
      ReplaceIff(rows, prev, h, op, now);
      if prev !in rows || rows[prev].status != Pending { return false; }
      var saved := rows;
      rows := rows[prev := rows[prev].(status := Replaced, updatedAt := now)];
      ok := Insert(op, h, io, now);
      if !ok { rows := saved; }
    }

    /** SELECT ... WHERE status = ? ORDER BY received_at LIMIT ?. */
    method Query(st: Status, limit: int) returns (hs: seq<Word>)
      ensures Distinct(hs) && forall i :: 0 <= i < |hs| ==> hs[i] in rows && rows[hs[i]].status == st
      ensures limit >= 0 ==> |hs| <= limit
      ensures forall i, j :: 0 <= i < j < |hs| ==> rows[hs[i]].receivedAt <= rows[hs[j]].receivedAt
      ensures forall h :: h in rows && rows[h].status == st && h !in hs ==>
        |hs| == limit && forall i :: 0 <= i < |hs| ==> rows[hs[i]].receivedAt <= rows[h].receivedAt
    {
      hs := [];
      var left := set h | h in rows && rows[h].status == st;
      while left != {} && |hs| != limit
        invariant forall h :: h in rows && rows[h].status == st <==> h in left || h in hs
        invariant Distinct(hs) && InOrder(rows, hs, left)
        invariant limit >= 0 ==> |hs| <= limit
      {
        EarliestExists(rows, left);
        var h :| h in left && forall g :: g in left ==> rows[h].receivedAt <= rows[g].receivedAt;
        PickKeepsOrder(rows, hs, left, h);
        hs := hs + [h];
        left := left - {h};
      }
    }

    /** Pending rows, each once, earliest first, at most limit if it is not negative; a pending row is missing
        only if the limit is reached by rows that arrived no later. */
    method GetPending(limit: int) returns (hs: seq<Word>)
      ensures FirstPending(rows, limit, hs)
      ensures forall i, j :: 0 <= i < j < |hs| ==> hs[i] != hs[j]
      ensures forall i :: 0 <= i < |hs| ==> hs[i] in rows && rows[hs[i]].status == Pending
      ensures limit >= 0 ==> |hs| <= limit
      ensures forall i, j :: 0 <= i < j < |hs| ==> rows[hs[i]].receivedAt <= rows[hs[j]].receivedAt
      ensures forall h :: h in rows && rows[h].status == Pending && h !in hs ==>
        |hs| == limit && forall i :: 0 <= i < |hs| ==> rows[hs[i]].receivedAt <= rows[h].receivedAt
    {
      hs := Query(Pending, limit);
    }

    /** A guarded update per hash in one transaction; the first miss or error rolls all of them back. */
    method ClaimForBundling(hs: seq<Word>, io: bool, now: int) returns (ok: bool)
      modifies this
      ensures hs != [] ==> ok == (io && Claimable(old(rows), hs))
      ensures hs == [] ==> ok
      ensures hs != [] ==> (ok <==>
        && io && (forall i, j :: 0 <= i < j < |hs| ==> hs[i] != hs[j])
        && (forall i :: 0 <= i < |hs| ==> hs[i] in old(rows) && old(rows)[hs[i]].status == Pending))
      ensures rows == if ok then ClaimRows(old(rows), hs, now) else old(rows)
      ensures ok ==> rows.Keys == old(rows).Keys && forall h :: h in rows ==>
        rows[h] == if h in hs then old(rows)[h].(status := Bundling, updatedAt := now) else old(rows)[h]
    {
      if hs == [] { return true; }
      var saved := rows;
      for i := 0 to |hs|
        invariant Claimable(saved, hs[..i]) && rows == ClaimRows(saved, hs[..i], now)
      {
        assert hs[i] in hs[..i] ==> exists j :: 0 <= j < i && hs[j] == hs[i];
        if hs[i] !in rows || rows[hs[i]].status != Pending {
          assert !PendingIn(saved, hs[i]) || !Distinct(hs);
          rows := saved;
          return false;
        }
        rows := rows[hs[i] := rows[hs[i]].(status := Bundling, updatedAt := now)];
        assert hs[..i + 1] == hs[..i] + [hs[i]];
        assert PendingIn(saved, hs[i]);
      }
      assert hs[..|hs|] == hs;
      if !io {
        rows := saved;
        return false;
      }
      return true;
    }

    /** The SET clauses: status and updated_at always, the other columns only where given. */
    static method SetColumns(row: Row, st: Status, x: Extra, now: int) returns (r: Row)
      ensures r == Updated(row, st, x, now)
    {
      r := row.(status := st, updatedAt := now);
      if x.bundleTx.Some? { r := r.(bundleTx := x.bundleTx); }
      if x.bundleIndex.Some? { r := r.(bundleIndex := x.bundleIndex); }
      if x.submittedAt.Some? { r := r.(submittedAt := x.submittedAt); }
      if x.block.Some? { r := r.(block := x.block); }
      if x.reason.Some? { r := r.(reason := x.reason); }
      if x.gasCost.Some? { r := r.(gasCost := x.gasCost); }
    }

    method UpdateStatus(h: Word, st: Status, x: Extra, io: bool, now: int) returns (ok: bool)
      modifies this
      ensures ok == (io && UpdateRow(old(rows), h, st, x, now).Some?)
      ensures ok <==>
        && io && h in old(rows)
        && (st == Pending || st == Bundling || st == Submitted ==>
              forall g :: g in old(rows) && g != h ==> !Occupies(old(rows)[g], old(rows)[h].op))
      ensures ok ==> h in rows && rows == old(rows)[h := rows[h]] && Sets(old(rows)[h], rows[h], st, x, now)
      ensures rows == if ok then UpdateRow(old(rows), h, st, x, now).value else old(rows)
    {
      if !io || h !in rows || (!Terminal(st) && KeyTaken(rows, rows[h].op, Some(h))) { return false; }
      var r := SetColumns(rows[h], st, x, now);
      rows := rows[h := r];
      return true;
    }

    /** Never refused by the index, since a bundling row already holds its key. */
    method ResetBundlingToPending(io: bool, now: int) returns (ok: bool, n: nat)
      modifies this
      ensures ok == io && rows == if ok then ResetRows(old(rows), now) else old(rows)
      ensures ok ==> n == |set h | h in old(rows) && old(rows)[h].status == Bundling|
      ensures ok ==> rows.Keys == old(rows).Keys && forall h :: h in rows ==>
        rows[h] == if old(rows)[h].status == Bundling then old(rows)[h].(status := Pending, updatedAt := now)
                   else old(rows)[h]
      ensures ok ==> forall h :: h in rows ==> rows[h].status != Bundling
      ensures old(UniqueLive(rows)) ==> UniqueLive(rows)
    {
      if !io { return false, 0; }
      ok, n := true, |set h | h in rows && rows[h].status == Bundling|;
      if UniqueLive(rows) { NoResurrectionKeepsIndex(rows, ResetRows(rows, now)); }
      rows := ResetRows(rows, now);
    }

    /** Exactly the pending rows received before the cutoff change, to failed with ttl_expired; the number
        returned is theirs, and by how much the live rows became fewer. The index holds. */
    method MarkTtlExpired(cutoff: int, io: bool, now: int) returns (ok: bool, n: nat)
      modifies this
      ensures ok == io && rows == if ok then ExpireRows(old(rows), cutoff, now) else old(rows)
      ensures |LiveKeys(old(rows))| == |LiveKeys(rows)| + n && rows.Keys == old(rows).Keys
      ensures ok ==> forall h :: h in rows ==>
        (rows[h] != old(rows)[h] <==> old(rows)[h].status == Pending && old(rows)[h].receivedAt < cutoff)
      ensures ok ==> forall h :: h in rows && old(rows)[h].status == Pending && old(rows)[h].receivedAt < cutoff ==>
        rows[h] == old(rows)[h].(status := Failed, reason := Some(Ascii("ttl_expired")), updatedAt := now)
      ensures ok ==>
        n == |set h | h in old(rows) && old(rows)[h].status == Pending && old(rows)[h].receivedAt < cutoff|
      ensures old(UniqueLive(rows)) ==> UniqueLive(rows)
    {
      if !io { return false, 0; }
      n := |Due(rows, cutoff)|;
      assert Due(rows, cutoff) == set h | h in rows && rows[h].status == Pending && rows[h].receivedAt < cutoff;
      ExpiryCounts(rows, cutoff, now);
      if UniqueLive(rows) { ExpiryKeepsIndex(rows, cutoff, now); }
      rows := ExpireRows(rows, cutoff, now);
      ok := true;
    }

    method PruneHistory(cutoff: int, io: bool) returns (ok: bool, n: nat)
      modifies this
      ensures ok == io && rows == if ok then PruneRows(old(rows), cutoff) else old(rows)
      ensures |old(rows)| == |rows| + n
      ensures ok ==> forall h :: h in rows <==> h in old(rows) && !Old(old(rows)[h], cutoff)
      ensures forall h :: h in rows ==> h in old(rows) && rows[h] == old(rows)[h]
    {
      if !io { return false, 0; }
      ok := true;
      var gone := set h | h in rows && Terminal(rows[h].status) && rows[h].updatedAt < cutoff;
      n := |gone|;
      var kept := PruneRows(rows, cutoff);
      assert rows.Keys == kept.Keys + gone;
      assert |rows.Keys| == |kept.Keys| + |gone|;
      assert |rows| == |rows.Keys| && |kept| == |kept.Keys|;
      rows := kept;
    }
  }

  lemma InsertIff(t: Table, h: Word, op: PackedUserOp, now: int)
    ensures InsertRow(t, h, op, now).Some? <==> h !in t && forall g :: g in t ==> !Occupies(t[g], op)
    ensures InsertRow(t, h, op, now).Some? ==>
      InsertRow(t, h, op, now).value == t[h := Row(op, Pending, None, None, None, None, None, None, now, now)]
  {
    if h !in t && KeyTaken(t, op, None) {
      var g :| g in t && LiveIn(t, g) && SameKey(t[g].op, op);
      assert Occupies(t[g], op);
    }
    if g :| g in t && Occupies(t[g], op) { assert LiveIn(t, g) && SameKey(t[g].op, op); }
  }

  lemma ReplaceIff(t: Table, prev: Word, h: Word, op: PackedUserOp, now: int)
    ensures ReplaceRow(t, prev, h, op, now).Some? <==>
      && prev in t && t[prev].status == Pending && h !in t && forall g :: g in t && g != prev ==> !Occupies(t[g], op)
    ensures ReplaceRow(t, prev, h, op, now).Some? ==>
      ReplaceRow(t, prev, h, op, now).value ==
        t[prev := t[prev].(status := Replaced, updatedAt := now)]
         [h := Row(op, Pending, None, None, None, None, None, None, now, now)]
  {
    if prev in t && t[prev].status == Pending {
      var u := t[prev := t[prev].(status := Replaced, updatedAt := now)];
      InsertIff(u, h, op, now);
      assert forall g :: g in t && g != prev ==> u[g] == t[g];
      assert !Occupies(u[prev], op);
      if forall g :: g in u ==> !Occupies(u[g], op) {
        forall g | g in t && g != prev ensures !Occupies(t[g], op) { assert g in u; }
      }
    }
  }

  function LiveKeys(t: Table): set<Word> { set h | h in t && LiveIn(t, h) }

  function Due(t: Table, cutoff: int): set<Word> { set h | h in t && Expires(t[h], cutoff) }

  /** Expiry takes exactly the overdue rows out of the live ones. */
  lemma ExpiryCounts(t: Table, cutoff: int, now: int)
    ensures |LiveKeys(t)| == |LiveKeys(ExpireRows(t, cutoff, now))| + |Due(t, cutoff)|
  {
    var u := ExpireRows(t, cutoff, now);
    var a, b, d := LiveKeys(t), LiveKeys(u), Due(t, cutoff);
    forall h | h in a ensures h in b + d {
      assert h in u;
      if h !in d { assert u[h] == t[h]; }
    }
    forall h | h in b ensures h in a && h !in d { assert LiveIn(u, h) && h in t; }
    forall h | h in d ensures h in a { assert LiveIn(t, h); }
    assert a == b + d;
  }

  lemma ExpiryKeepsIndex(t: Table, cutoff: int, now: int)
    requires UniqueLive(t)
    ensures UniqueLive(ExpireRows(t, cutoff, now))
  {
    NoResurrectionKeepsIndex(t, ExpireRows(t, cutoff, now));
  }

  /** hs is ordered by arrival and comes before everything still left. */
  ghost predicate InOrder(t: Table, hs: seq<Word>, left: set<Word>) {
    && (forall i :: 0 <= i < |hs| ==> hs[i] in t && hs[i] !in left)
    && (forall h :: h in left ==> h in t)
    && (forall i, j :: 0 <= i < j < |hs| ==> t[hs[i]].receivedAt <= t[hs[j]].receivedAt)
    && (forall i, h :: 0 <= i < |hs| && h in left ==> t[hs[i]].receivedAt <= t[h].receivedAt)
  }

  lemma PickKeepsOrder(t: Table, hs: seq<Word>, left: set<Word>, h: Word)
    requires InOrder(t, hs, left) && Distinct(hs) && h in left
    requires forall g :: g in left ==> t[h].receivedAt <= t[g].receivedAt
    ensures InOrder(t, hs + [h], left - {h}) && Distinct(hs + [h])
  {}

  lemma {:induction false} EarliestExists(t: Table, hs: set<Word>)
    requires hs != {} && forall h :: h in hs ==> h in t
    ensures exists h :: h in hs && forall g :: g in hs ==> t[h].receivedAt <= t[g].receivedAt
    decreases |hs|
  {
    var x :| x in hs;
    var rest := hs - {x};
    if rest == {} {
      assert hs == {x};
    } else {
      EarliestExists(t, rest);
      var y :| y in rest && forall g :: g in rest ==> t[y].receivedAt <= t[g].receivedAt;
      var z := if t[x].receivedAt <= t[y].receivedAt then x else y;
      assert z in hs && forall g :: g in hs ==> t[z].receivedAt <= t[g].receivedAt;
    }
  }
}
