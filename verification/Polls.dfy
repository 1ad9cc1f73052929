/** What one poll does, said of the table it finds and the answers it gets: each transaction of the submitted
    rows is asked for once, and each of its rows is written as the answer says. */
module Polls {
  import opened Bytes
  import opened Mempool
  import opened Receipts
  import opened Protocol
  import opened Settlement

  // ----- the receipts fetched -----

  function FetchOf(l: Label): seq<(Tx, Option<Receipt>)> { if l.FetchReceipt? then [(l.tx, l.answer)] else [] }

  /** The transactions asked for, and the answers, in order. */
  function Fetches(ls: seq<Label>): seq<(Tx, Option<Receipt>)> {
    if ls == [] then [] else Fetches(ls[..|ls| - 1]) + FetchOf(ls[|ls| - 1])
  }

  lemma FetchesMore(ls: seq<Label>, l: Label)
    ensures Fetches(ls + [l]) == Fetches(ls) + FetchOf(l)
  {
    assert (ls + [l])[..|ls|] == ls;
  }

  /** The first n questions of an order of transactions. */
  function Asked(order: seq<Tx>, receipt: (nat, Tx) -> Option<Receipt>): seq<(Tx, Option<Receipt>)> {
    seq(|order|, i requires 0 <= i < |order| => (order[i], receipt(i, order[i])))
  }

  lemma AskedMore(order: seq<Tx>, tx: Tx, receipt: (nat, Tx) -> Option<Receipt>)
    ensures Asked(order + [tx], receipt) == Asked(order, receipt) + [(tx, receipt(|order|, tx))]
  {}

  // ----- the rows -----

  /** The map lists every submitted row that has a transaction once, under that transaction and with its
      bundle_index, and nothing else. */
  ghost predicate Lists(t: Table, todo: map<Tx, seq<Entry>>) {
    && (forall tx, i :: tx in todo && 0 <= i < |todo[tx]| ==> IsListed(t, tx, todo[tx][i]))
    && (forall h :: h in t && t[h].status == Submitted && t[h].bundleTx.Some? ==>
          t[h].bundleTx.value in todo && Entry(h, t[h].bundleIndex) in todo[t[h].bundleTx.value])
    && (forall tx :: tx in todo ==>
          todo[tx] != [] && forall i, j :: 0 <= i < j < |todo[tx]| ==> todo[tx][i].h != todo[tx][j].h)
  }

  predicate IsListed(t: Table, tx: Tx, e: Entry) {
    e.h in t && t[e.h].status == Submitted && t[e.h].bundleTx == Some(tx) && t[e.h].bundleIndex == e.index
  }

  lemma GroupsList(t: Table, todo: map<Tx, seq<Entry>>)
    requires Groups(t, todo)
    ensures Lists(t, todo)
  {
    forall tx, i | tx in todo && 0 <= i < |todo[tx]| ensures IsListed(t, tx, todo[tx][i]) {
      assert Owned(t, tx, todo[tx][i]);
    }
  }

  /** What a receipt fetched without revert data leads to. */
  function VerdictFor(r: Receipt): Verdict { if r.status == 1 then Landed(r) else Reverted(None) }

  /** The row after the answer for its transaction; ok: the engine took the write. */
  ghost predicate RowAnswered(ev: Events, answer: Option<Receipt>, e: Entry, r: Row, r': Row, ok: bool) {
    if answer.None? || !ok then r' == r else SettledRow(ev, answer.value, [], e, r, r', r'.updatedAt)
  }

  lemma AnsweredByWrite(ev: Events, receipt: Receipt, e: Entry, r: Row, r': Row, now: int)
    requires VerdictRow(ev, VerdictFor(receipt), e, r, r', now)
    ensures RowAnswered(ev, Some(receipt), e, r, r', true)
  {}

  /** From t to u each entry's row is answered, and no other row changed. */
  ghost predicate OpsAnswered(ev: Events, answer: Option<Receipt>, es: seq<Entry>, t: Table, u: Table,
                              ok: nat -> bool) {
    && u.Keys == t.Keys
    && (forall h :: h in t && (forall j :: 0 <= j < |es| ==> es[j].h != h) ==> u[h] == t[h])
    && (forall j :: 0 <= j < |es| ==> AnsweredIn(ev, answer, es[j], t, u, ok(j)))
  }

  ghost predicate AnsweredIn(ev: Events, answer: Option<Receipt>, e: Entry, t: Table, u: Table, ok: bool) {
    e.h in t && e.h in u && RowAnswered(ev, answer, e, t[e.h], u[e.h], ok)
  }

  /** The same of the first n entries written for a verdict. */
  ghost predicate OpsWritten(ev: Events, v: Verdict, es: seq<Entry>, n: nat, t: Table, u: Table, ok: nat -> bool)
    requires n <= |es|
  {
    && u.Keys == t.Keys
    && (forall h :: h in t && (forall j :: 0 <= j < n ==> es[j].h != h) ==> u[h] == t[h])
    && (forall j :: 0 <= j < n ==> OpWritten(ev, v, es[j], t, u, ok(j)))
  }

  ghost predicate OpWritten(ev: Events, v: Verdict, e: Entry, t: Table, u: Table, ok: bool) {
    e.h in t && e.h in u
    && if ok then VerdictRow(ev, v, e, t[e.h], u[e.h], u[e.h].updatedAt) else u[e.h] == t[e.h]
  }

  lemma Restamp(ev: Events, v: Verdict, e: Entry, r: Row, r': Row, now: int)
    requires VerdictRow(ev, v, e, r, r', now)
    ensures VerdictRow(ev, v, e, r, r', r'.updatedAt)
  {}

  lemma OpsOneMore(ev: Events, v: Verdict, es: seq<Entry>, i: nat, t: Table, u: Table, u': Table, ok: nat -> bool,
                   now: int)
    requires i < |es| && DistinctEntries(es) && OpsWritten(ev, v, es, i, t, u, ok)
    requires es[i].h in u && es[i].h in u' && u' == u[es[i].h := u'[es[i].h]]
    requires if ok(i) then VerdictRow(ev, v, es[i], u[es[i].h], u'[es[i].h], now) else u' == u
    ensures OpsWritten(ev, v, es, i + 1, t, u', ok)
  {
    var h := es[i].h;
    assert u[h] == t[h];
    if ok(i) { Restamp(ev, v, es[i], u[h], u'[h], now); }
    forall j | 0 <= j < i + 1 ensures OpWritten(ev, v, es[j], t, u', ok(j)) {
      if j < i { assert OpWritten(ev, v, es[j], t, u, ok(j)); }
    }
  }

  lemma WrittenAnswers(ev: Events, receipt: Receipt, es: seq<Entry>, t: Table, u: Table, ok: nat -> bool)
    ensures OpsWritten(ev, VerdictFor(receipt), es, |es|, t, u, ok) ==> OpsAnswered(ev, Some(receipt), es, t, u, ok)
  {
    if OpsWritten(ev, VerdictFor(receipt), es, |es|, t, u, ok) {
      forall j | 0 <= j < |es| ensures AnsweredIn(ev, Some(receipt), es[j], t, u, ok(j)) {
        assert OpWritten(ev, VerdictFor(receipt), es[j], t, u, ok(j));
        if ok(j) { AnsweredByWrite(ev, receipt, es[j], t[es[j].h], u[es[j].h], u[es[j].h].updatedAt); }
      }
    }
  }

  lemma NotAnswered(ev: Events, es: seq<Entry>, t: Table, ok: nat -> bool)
    ensures (forall j :: 0 <= j < |es| ==> es[j].h in t) ==> OpsAnswered(ev, None, es, t, t, ok)
  {}

  /** A status-1 receipt that the log loop cannot slice. */
  ghost predicate Unreadable(ev: Events, answer: Option<Receipt>) {
    && answer.Some? && answer.value.status == 1
    && exists i :: 0 <= i < |answer.value.logs| && OverlongAt(ev, answer.value.logs[i])
  }

  /** From t to u the rows of the first transactions of the order are answered, and no other row changed. */
  ghost predicate TxsAnswered(ev: Events, todo: map<Tx, seq<Entry>>, order: seq<Tx>,
                              receipt: (nat, Tx) -> Option<Receipt>,
                              ok: (nat, nat) -> bool, t: Table, u: Table)
    requires forall tx :: tx in order ==> tx in todo
  {
    && u.Keys == t.Keys
    && (forall h :: h in t && (forall i :: 0 <= i < |order| ==> !InEntries(todo[order[i]], h)) ==> u[h] == t[h])
    && (forall i, j :: 0 <= i < |order| && 0 <= j < |todo[order[i]]| ==>
          AnsweredIn(ev, receipt(i, order[i]), todo[order[i]][j], t, u, ok(i, j)))
  }

  predicate InEntries(es: seq<Entry>, h: Word) { exists j :: 0 <= j < |es| && es[j].h == h }

  lemma TxsOneMore(ev: Events, todo: map<Tx, seq<Entry>>, order: seq<Tx>, tx: Tx,
                     receipt: (nat, Tx) -> Option<Receipt>,
                   ok: (nat, nat) -> bool, oki: nat -> bool, t: Table, u: Table, u': Table)
    requires Lists(t, todo) && (forall x :: x in order ==> x in todo) && tx in todo && tx !in order
    requires TxsAnswered(ev, todo, order, receipt, ok, t, u)
    requires OpsAnswered(ev, receipt(|order|, tx), todo[tx], u, u', oki) && forall j: nat :: oki(j) == ok(|order|, j)
    ensures TxsAnswered(ev, todo, order + [tx], receipt, ok, t, u')
  {
    var more := order + [tx];
    forall i, j | 0 <= i < |more| && 0 <= j < |todo[more[i]]|
      ensures AnsweredIn(ev, receipt(i, more[i]), todo[more[i]][j], t, u', ok(i, j)) {
      if i < |order| {
        EarlierStays(ev, todo, order, tx, receipt, ok, t, u, u', oki, i, j);
      } else {
        LaterFound(ev, todo, order, tx, receipt, ok, t, u, j);
        assert AnsweredIn(ev, receipt(|order|, tx), todo[tx][j], u, u', oki(j));
      }
    }
    forall h | h in t && (forall i :: 0 <= i < |more| ==> !InEntries(todo[more[i]], h)) ensures u'[h] == t[h] {
      assert !InEntries(todo[more[|order|]], h);
      forall i | 0 <= i < |order| ensures !InEntries(todo[order[i]], h) { assert more[i] == order[i]; }
    }
  }

  /** Rows of different transactions are different rows. */
  lemma OtherTx(t: Table, todo: map<Tx, seq<Entry>>, a: Tx, b: Tx, i: nat, j: nat)
    requires Lists(t, todo) && a in todo && b in todo && a != b && i < |todo[a]| && j < |todo[b]|
    ensures todo[a][i].h != todo[b][j].h
  {
    assert IsListed(t, a, todo[a][i]) && IsListed(t, b, todo[b][j]);
  }

  lemma EarlierStays(ev: Events, todo: map<Tx, seq<Entry>>, order: seq<Tx>, tx: Tx,
                     receipt: (nat, Tx) -> Option<Receipt>,
                     ok: (nat, nat) -> bool, t: Table, u: Table, u': Table, oki: nat -> bool, i: nat, j: nat)
    requires Lists(t, todo) && (forall x :: x in order ==> x in todo) && tx in todo && tx !in order
    requires TxsAnswered(ev, todo, order, receipt, ok, t, u)
    requires OpsAnswered(ev, receipt(|order|, tx), todo[tx], u, u', oki)
    requires i < |order| && j < |todo[order[i]]|
    ensures AnsweredIn(ev, receipt(i, order[i]), todo[order[i]][j], t, u', ok(i, j))
  {
    var e := todo[order[i]][j];
    assert AnsweredIn(ev, receipt(i, order[i]), e, t, u, ok(i, j));
    forall k | 0 <= k < |todo[tx]| ensures todo[tx][k].h != e.h { OtherTx(t, todo, tx, order[i], k, j); }
    assert u'[e.h] == u[e.h];
  }

  /** A row of a transaction not yet answered is as the poll found it. */
  lemma LaterFound(ev: Events, todo: map<Tx, seq<Entry>>, order: seq<Tx>, tx: Tx,
                     receipt: (nat, Tx) -> Option<Receipt>,
                   ok: (nat, nat) -> bool, t: Table, u: Table, j: nat)
    requires Lists(t, todo) && (forall x :: x in order ==> x in todo) && tx in todo && tx !in order
    requires TxsAnswered(ev, todo, order, receipt, ok, t, u) && j < |todo[tx]|
    ensures todo[tx][j].h in t && u[todo[tx][j].h] == t[todo[tx][j].h]
  {
    var h := todo[tx][j].h;
    assert IsListed(t, tx, todo[tx][j]);
    forall i | 0 <= i < |order| ensures !InEntries(todo[order[i]], h) {
      forall k | 0 <= k < |todo[order[i]]| ensures todo[order[i]][k].h != h { OtherTx(t, todo, order[i], tx, k, j); }
    }
  }
}
