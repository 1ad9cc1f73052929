/** The user_operations table as SQLite stores it: the op in text columns, the unique keys on text
    (internal/mempool/db.go). It is the image of the table of decoded rows under the row codec, and
    the statements that compare text do on the image what they do on the values. */
module TextTable {
  import opened Bytes
  import opened Hex
  import opened UserOps
  import opened Mempool
  import opened Wire

  /** The columns that are not part of the op. */
  datatype Meta = Meta(
    status: Status,
    bundleTx: Option<Tx>,
    bundleIndex: Option<nat>,
    submittedAt: Option<int>,
    block: Option<nat>,
    reason: Option<Bytes>,
    gasCost: Option<nat>,
    receivedAt: int,
    updatedAt: int)

  datatype Stored = Stored(cols: TextRow, meta: Meta)

  /** Keyed by the hash column. */
  type Text = map<string, Stored>

  function MetaOf(r: Row): Meta {
    Meta(r.status, r.bundleTx, r.bundleIndex, r.submittedAt, r.block, r.reason, r.gasCost, r.receivedAt, r.updatedAt)
  }

  function StoredRow(h: Word, r: Row): Stored { Stored(StoreRow(r.op, h), MetaOf(r)) }

  lemma HashText(g: Word, h: Word)
    ensures LowerHex(g) == LowerHex(h) <==> g == h
  {
    LowerHexRoundTrip(g);
    LowerHexRoundTrip(h);
  }

  lemma HashTexts()
    ensures forall g: Word, h: Word :: LowerHex(g) == LowerHex(h) ==> g == h
  {
    forall g: Word, h: Word | LowerHex(g) == LowerHex(h) ensures g == h { HashText(g, h); }
  }

  /** The text of a table. */
  function Texts(t: Table): Text {
    HashTexts();
    map h | h in t :: LowerHex(h) := StoredRow(h, t[h])
  }

  lemma TextOf(t: Table, h: Word)
    ensures LowerHex(h) in Texts(t) <==> h in t
    ensures h in t ==> Texts(t)[LowerHex(h)] == StoredRow(h, t[h])
  {
    HashTexts();
  }

  /** Every stored row is the text of one row of the table. */
  lemma RowOfText(t: Table, x: string) returns (h: Word)
    requires x in Texts(t)
    ensures h in t && x == LowerHex(h) && Texts(t)[x] == StoredRow(h, t[h])
  {
    h :| h in t && x == LowerHex(h);
    TextOf(t, h);
  }

  /** Reading a stored row gives back the op and the hash it was stored with. */
  lemma Hydrates(h: Word, r: Row)
    ensures HydrateRow(StoredRow(h, r).cols) == Ok((r.op, h))
  {
    RowRoundTrip(r.op, h);
  }

  // ----- the statements on text -----

  /** A live stored row other than `except` has this text in its sender and nonce columns. */
  predicate TextTaken(x: Text, sender: string, nonce: string, except: Option<string>) {
    exists k :: k in x && !Terminal(x[k].meta.status) && x[k].cols.sender == sender && x[k].cols.nonce == nonce
                && Some(k) != except
  }

  /** INSERT of the ten text columns, under the primary key and the partial index. */
  function TextInsert(x: Text, op: PackedUserOp, h: Word, now: int): Option<Text> {
    var cols := StoreRow(op, h);
    if cols.hash in x || TextTaken(x, cols.sender, cols.nonce, None) then None
    else Some(x[cols.hash := Stored(cols, MetaOf(Fresh(op, now)))])
  }

  /** UPDATE ... WHERE hash = ?. */
  function TextUpdate(x: Text, hash: string, st: Status, e: Extra, now: int): Option<Text> {
    if hash !in x then None
    else
      var Stored(cols, m) := x[hash];
      if !Terminal(st) && TextTaken(x, cols.sender, cols.nonce, Some(hash)) then None
      else
        Some(x[hash := Stored(cols, Meta(st, Or(e.bundleTx, m.bundleTx), Or(e.bundleIndex, m.bundleIndex),
                                         Or(e.submittedAt, m.submittedAt), Or(e.block, m.block), Or(e.reason, m.reason),
                                         Or(e.gasCost, m.gasCost), m.receivedAt, now))])
  }

  /** Replace: both statements of the transaction, or neither. */
  function TextReplace(x: Text, prev: string, op: PackedUserOp, h: Word, now: int): Option<Text> {
    if prev !in x || x[prev].meta.status != Pending then None
    else TextInsert(x[prev := x[prev].(meta := x[prev].meta.(status := Replaced, updatedAt := now))], op, h, now)
  }

  function TextsOf(t: Option<Table>): Option<Text> { if t.None? then None else Some(Texts(t.value)) }

  function TextOfKey(h: Option<Word>): Option<string> { if h.None? then None else Some(LowerHex(h.value)) }

  lemma SameException(g: Word, except: Option<Word>)
    ensures Some(g) == except <==> Some(LowerHex(g)) == TextOfKey(except)
  {
    if except.Some? { HashText(g, except.value); }
  }

  lemma TakenInText(t: Table, op: PackedUserOp, h: Word, except: Option<Word>)
    requires KeyTaken(t, op, except)
    ensures TextTaken(Texts(t), StoreRow(op, h).sender, StoreRow(op, h).nonce, TextOfKey(except))
  {
    var g :| g in t && LiveIn(t, g) && SameKey(t[g].op, op) && Some(g) != except;
    var k := LowerHex(g);
    TextOf(t, g);
    TextKeyIsKey(t[g].op, g, op, h);
    SameException(g, except);
    assert k in Texts(t) && Some(k) != TextOfKey(except);
  }

  lemma TakenInValues(t: Table, op: PackedUserOp, h: Word, except: Option<Word>)
    requires TextTaken(Texts(t), StoreRow(op, h).sender, StoreRow(op, h).nonce, TextOfKey(except))
    ensures KeyTaken(t, op, except)
  {
    var x, cols := Texts(t), StoreRow(op, h);
    var k :| k in x && !Terminal(x[k].meta.status) && x[k].cols.sender == cols.sender && x[k].cols.nonce == cols.nonce
             && Some(k) != TextOfKey(except);
    var g := RowOfText(t, k);
    TextKeyIsKey(t[g].op, g, op, h);
    SameException(g, except);
    assert LiveIn(t, g);
  }

  /** The partial index on text forbids exactly what the index on values forbids. */
  lemma TakenAlike(t: Table, op: PackedUserOp, h: Word, except: Option<Word>)
    ensures KeyTaken(t, op, except) <==>
      TextTaken(Texts(t), StoreRow(op, h).sender, StoreRow(op, h).nonce, TextOfKey(except))
  {
    if KeyTaken(t, op, except) { TakenInText(t, op, h, except); }
    if TextTaken(Texts(t), StoreRow(op, h).sender, StoreRow(op, h).nonce, TextOfKey(except)) {
      TakenInValues(t, op, h, except);
    }
  }

  lemma TextsOfUpdate(t: Table, h: Word, r: Row)
    ensures Texts(t[h := r]) == Texts(t)[LowerHex(h) := StoredRow(h, r)]
  {
    var a, b := Texts(t[h := r]), Texts(t)[LowerHex(h) := StoredRow(h, r)];
    forall k | k in a || k in b ensures k in a && k in b && a[k] == b[k] {
      if k in a {
        var g := RowOfText(t[h := r], k);
        TextOf(t, g);
        HashText(g, h);
      } else if k != LowerHex(h) {
        var g := RowOfText(t, k);
        TextOf(t[h := r], g);
      } else {
        TextOf(t[h := r], h);
      }
    }
    assert a.Keys == b.Keys;
  }

  /** Inserting the text columns into the text of a table succeeds exactly when the insert of values does,
      and yields the text of the result. */
  lemma InsertAlike(t: Table, h: Word, op: PackedUserOp, now: int)
    ensures TextInsert(Texts(t), op, h, now) == TextsOf(InsertRow(t, h, op, now))
  {
    TextOf(t, h);
    TakenAlike(t, op, h, None);
    TextsOfUpdate(t, h, Fresh(op, now));
  }

  /** The same for the unguarded update by hash text. */
  lemma UpdateAlike(t: Table, h: Word, st: Status, e: Extra, now: int)
    ensures TextUpdate(Texts(t), LowerHex(h), st, e, now) == TextsOf(UpdateRow(t, h, st, e, now))
  {
    TextOf(t, h);
    if h in t {
      TakenAlike(t, t[h].op, h, Some(h));
      TextsOfUpdate(t, h, Updated(t[h], st, e, now));
    }
  }

  /** And for the replacement of one op by another. */
  lemma ReplaceAlike(t: Table, prev: Word, h: Word, op: PackedUserOp, now: int)
    ensures TextReplace(Texts(t), LowerHex(prev), op, h, now) == TextsOf(ReplaceRow(t, prev, h, op, now))
  {
    TextOf(t, prev);
    if prev in t {
      var r := t[prev].(status := Replaced, updatedAt := now);
      TextsOfUpdate(t, prev, r);
      InsertAlike(t[prev := r], h, op, now);
    }
  }
}
