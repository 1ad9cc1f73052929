/** The machine of Protocol on the stored table: every statement works on text keys and columns, and what an
    actor learns of an op it reads back from them. A run of it is, step by step, the text of a run on
    decoded rows. */
module TextMachine {
  import opened Bytes
  import opened Hex
  import opened UserOps
  import opened Mempool
  import opened Protocol
  import opened Runs
  import opened Wire
  import opened TextTable

  // ----- the statements that compare hashes, statuses and times -----

  function Keys(hs: seq<Word>): seq<string> { seq(|hs|, i requires 0 <= i < |hs| => LowerHex(hs[i])) }

  predicate TextPending(x: Text, k: string) { k in x && x[k].meta.status == Pending }

  predicate Different(ks: seq<string>) { forall i, j :: 0 <= i < j < |ks| ==> ks[i] != ks[j] }

  predicate TextClaimable(x: Text, ks: seq<string>) {
    Different(ks) && forall i :: 0 <= i < |ks| ==> TextPending(x, ks[i])
  }

  function TextClaim(x: Text, ks: seq<string>, now: int): Text {
    map k | k in x ::
      if k in ks then x[k].(meta := x[k].meta.(status := Bundling, updatedAt := now)) else x[k]
  }

  function TextReset(x: Text, now: int): Text {
    map k | k in x ::
      if x[k].meta.status == Bundling then x[k].(meta := x[k].meta.(status := Pending, updatedAt := now)) else x[k]
  }

  function TextExpire(x: Text, cutoff: int, now: int): Text {
    map k | k in x ::
      if x[k].meta.status == Pending && x[k].meta.receivedAt < cutoff
      then x[k].(meta := x[k].meta.(status := Failed, reason := Some(TTL_EXPIRED), updatedAt := now)) else x[k]
  }

  function TextPrune(x: Text, cutoff: int): Text {
    map k | k in x && !(Terminal(x[k].meta.status) && x[k].meta.updatedAt < cutoff) :: x[k]
  }

  predicate TextFirstPending(x: Text, limit: int, ks: seq<string>) {
    && Different(ks)
    && (forall i :: 0 <= i < |ks| ==> TextPending(x, ks[i]))
    && (limit >= 0 ==> |ks| <= limit)
    && (forall i, j :: 0 <= i < j < |ks| ==> x[ks[i]].meta.receivedAt <= x[ks[j]].meta.receivedAt)
    && (forall k :: k in x && TextPending(x, k) && k !in ks ==>
          |ks| == limit && forall i :: 0 <= i < |ks| ==> x[ks[i]].meta.receivedAt <= x[k].meta.receivedAt)
  }

  /** The stored row under this key reads back to this op and hash. */
  predicate ReadsAs(x: Text, k: string, op: PackedUserOp, h: Word) {
    k in x && HydrateRow(x[k].cols) == Ok((op, h))
  }

  predicate TextOwned(x: Text, tx: Tx, e: Entry) {
    var k := LowerHex(e.h);
    k in x && x[k].meta.status == Submitted && x[k].meta.bundleTx == Some(tx) && x[k].meta.bundleIndex == e.index
  }

  /** If submitted, the row is in the map, under its transaction and with the hash read back. */
  predicate TextComplete(x: Text, todo: map<Tx, seq<Entry>>, k: string)
    requires k in x
  {
    x[k].meta.status == Submitted && x[k].meta.bundleTx.Some? ==>
      && HydrateRow(x[k].cols).Ok? && x[k].meta.bundleTx.value in todo
      && Entry(HydrateRow(x[k].cols).value.1, x[k].meta.bundleIndex) in todo[x[k].meta.bundleTx.value]
  }

  predicate TextGroups(x: Text, todo: map<Tx, seq<Entry>>) {
    && (forall tx :: tx in todo ==> todo[tx] != [] && DistinctEntries(todo[tx]))
    && (forall tx, i :: tx in todo && 0 <= i < |todo[tx]| ==> TextOwned(x, tx, todo[tx][i]))
    && (forall k :: k in x ==> TextComplete(x, todo, k))
  }

  function TextWritten(x: Text, k: string, st: Status, e: Extra, ok: bool, now: int): Text {
    var u := TextUpdate(x, k, st, e, now);
    if ok && u.Some? then u.value else x
  }

  function TextDecided(x: Text, k: string, d: Option<(Status, Extra)>, ok: bool, now: int): Text {
    if d.None? then x else TextWritten(x, k, d.value.0, d.value.1, ok, now)
  }

  // ----- the machine -----

  datatype TextState = TextState(rows: Text, phase: Phase, loop: LoopPc, watch: WatchPc, nonce: nat, hist: Hist)

  /** A state as it is stored. */
  function Image(s: State): TextState { TextState(Texts(s.table), s.phase, s.loop, s.watch, s.nonce, s.hist) }

  function ImageOf(s: Option<State>): Option<TextState> { if s.None? then None else Some(Image(s.value)) }

  /** What the process holds besides the table. */
  function Memory(s: TextState): State { State(map[], s.phase, s.loop, s.watch, s.nonce, s.hist) }

  function With(s: State, rows: Text): TextState { TextState(rows, s.phase, s.loop, s.watch, s.nonce, s.hist) }

  function TextAdmit(s: TextState, x: Option<Text>, h: Word): TextState {
    if x.None? then s else s.(rows := x.value, hist := s.hist.(carrier := s.hist.carrier - {h}))
  }

  function TextFetch(c: Config, s: TextState, batch: seq<Snap>): Option<TextState> {
    if s.phase == Up && s.loop.LIdle? && batch != []
       && TextFirstPending(s.rows, c.maxBundle, Keys(Hashes(batch)))
       && forall i :: 0 <= i < |batch| ==> ReadsAs(s.rows, LowerHex(batch[i].h), batch[i].op, batch[i].h)
    then Some(s.(loop := LFetched(batch))) else None
  }

  function TextClaimStep(s: TextState, ok: bool, now: int): Option<TextState> {
    if !s.loop.LFetched? then None
    else
      var ks := Keys(Hashes(s.loop.batch));
      if ok && TextClaimable(s.rows, ks)
      then Some(s.(rows := TextClaim(s.rows, ks, now), loop := LClaimed(s.loop.batch)))
      else Some(s.(loop := LIdle))
  }

  function TextPoll(s: TextState, todo: map<Tx, seq<Entry>>): Option<TextState> {
    if (s.phase == Up || s.phase == Swept) && s.watch.WIdle? && TextGroups(s.rows, todo)
    then Some(s.(watch := WBusy(todo, None), phase := if s.phase == Up then Up else Checking))
    else None
  }

  /** The statement of a step whose effect on the process does not depend on the table. */
  function TextStatement(c: Config, s: TextState, l: Label): Text {
    match l
    case Expire(cutoff, now) => TextExpire(s.rows, cutoff, now)
    case Prune(cutoff) => TextPrune(s.rows, cutoff)
    case BootReset(now) => TextReset(s.rows, now)
    case LoopWrite(ok, now) =>
      if !s.loop.LWriting? || s.loop.next >= |s.loop.batch| then s.rows
      else
        var LWriting(b, g, i) := s.loop;
        TextWritten(s.rows, LowerHex(b[i].h), GoalStatus(g), GoalExtra(g, i), ok, now)
    case WatchWrite(ok, now) =>
      if !s.watch.WBusy? || s.watch.visit.None? || s.watch.visit.value.rest == [] then s.rows
      else
        var Visit(tx, rest, v) := s.watch.visit.value;
        TextDecided(s.rows, LowerHex(rest[0].h), Decision(c.events, v, rest[0]), ok, now)
    case _ => s.rows
  }

  function TextNext(c: Config, s: TextState, l: Label): Option<TextState> {
    match l
    case Intake(op, ep, now) =>
      if s.phase != Up || ep !in c.entryPoints then None
      else Some(TextAdmit(s, TextInsert(s.rows, op, c.hashOf(op, ep), now), c.hashOf(op, ep)))
    case ReplaceOp(prev, op, ep, now) =>
      if s.phase != Up || ep !in c.entryPoints then None
      else Some(TextAdmit(s, TextReplace(s.rows, LowerHex(prev), op, c.hashOf(op, ep), now), c.hashOf(op, ep)))
    case FetchPending(batch) => TextFetch(c, s, batch)
    case Claim(ok, now) => TextClaimStep(s, ok, now)
    case Poll(todo) => TextPoll(s, todo)
    case _ =>
      var m := Next(c, Memory(s), l);
      if m.None? then None else Some(With(m.value, TextStatement(c, s, l)))
  }

  // ----- each statement does on text what it does on rows -----

  /** x holds the row of h under its key. */
  predicate HoldsRow(t: Table, x: Text, h: Word)
    requires h in t
  {
    LowerHex(h) in x && x[LowerHex(h)] == StoredRow(h, t[h])
  }

  predicate KeyOfRow(t: Table, k: string, h: Word) { h in t && k == LowerHex(h) }

  lemma SameTextAt(t: Table, x: Text, k: string)
    requires forall h :: h in t ==> HoldsRow(t, x, h)
    requires k in x ==> exists h :: KeyOfRow(t, k, h)
    ensures k in Texts(t) <==> k in x
    ensures k in x ==> Texts(t)[k] == x[k]
  {
    if k in Texts(t) {
      var h := RowOfText(t, k);
      assert HoldsRow(t, x, h);
    }
    if k in x {
      var h :| KeyOfRow(t, k, h);
      TextOf(t, h);
    }
  }

  lemma SameMaps(x: Text, y: Text)
    requires forall k :: (k in x <==> k in y) && (k in x ==> x[k] == y[k])
    ensures x == y
  {
    assert x.Keys == y.Keys;
  }

  /** x is the text of t when it holds the rows of t and nothing else. */
  lemma SameTexts(t: Table, x: Text)
    requires forall h :: h in t ==> HoldsRow(t, x, h)
    requires forall k :: k in x ==> exists h :: KeyOfRow(t, k, h)
    ensures Texts(t) == x
  {
    var y := Texts(t);
    forall k ensures (k in y <==> k in x) && (k in y ==> y[k] == x[k]) { SameTextAt(t, x, k); }
    SameMaps(y, x);
  }

  lemma ResetAlike(t: Table, now: int)
    ensures TextReset(Texts(t), now) == Texts(ResetRows(t, now))
  {
    var x, u := TextReset(Texts(t), now), ResetRows(t, now);
    forall h | h in u ensures HoldsRow(u, x, h) {
      TextOf(t, h);
    }
    forall k | k in x ensures exists h :: KeyOfRow(u, k, h) {
      var h := RowOfText(t, k);
      assert KeyOfRow(u, k, h);
    }
    SameTexts(u, x);
  }

  lemma ExpireAlike(t: Table, cutoff: int, now: int)
    ensures TextExpire(Texts(t), cutoff, now) == Texts(ExpireRows(t, cutoff, now))
  {
    var x, u := TextExpire(Texts(t), cutoff, now), ExpireRows(t, cutoff, now);
    forall h | h in u ensures HoldsRow(u, x, h) {
      TextOf(t, h);
    }
    forall k | k in x ensures exists h :: KeyOfRow(u, k, h) {
      var h := RowOfText(t, k);
      assert KeyOfRow(u, k, h);
    }
    SameTexts(u, x);
  }

  lemma PruneAlike(t: Table, cutoff: int)
    ensures TextPrune(Texts(t), cutoff) == Texts(PruneRows(t, cutoff))
  {
    var x, u := TextPrune(Texts(t), cutoff), PruneRows(t, cutoff);
    forall h | h in u ensures HoldsRow(u, x, h) {
      TextOf(t, h);
    }
    forall k | k in x ensures exists h :: KeyOfRow(u, k, h) {
      var h := RowOfText(t, k);
      assert KeyOfRow(u, k, h);
    }
    SameTexts(u, x);
  }

  lemma KeysOf(hs: seq<Word>, h: Word)
    ensures LowerHex(h) in Keys(hs) <==> h in hs
  {
    HashTexts();
    if h in hs {
      var i :| 0 <= i < |hs| && hs[i] == h;
      assert Keys(hs)[i] == LowerHex(h);
    }
    if LowerHex(h) in Keys(hs) {
      var i :| 0 <= i < |hs| && Keys(hs)[i] == LowerHex(h);
      assert hs[i] == h;
    }
  }

  lemma DifferentKeys(hs: seq<Word>)
    ensures Different(Keys(hs)) <==> Distinct(hs)
  {
    HashTexts();
    var ks := Keys(hs);
    if Distinct(hs) {
      forall i, j | 0 <= i < j < |ks| ensures ks[i] != ks[j] { assert hs[i] != hs[j]; }
    }
    if Different(ks) {
      forall i, j | 0 <= i < j < |hs| ensures hs[i] != hs[j] { assert ks[i] != ks[j]; }
    }
  }

  lemma PendingAlike(t: Table, h: Word)
    ensures TextPending(Texts(t), LowerHex(h)) <==> PendingIn(t, h)
  {
    TextOf(t, h);
  }

  lemma ClaimableAlike(t: Table, hs: seq<Word>)
    ensures TextClaimable(Texts(t), Keys(hs)) <==> Claimable(t, hs)
  {
    DifferentKeys(hs);
    var ks := Keys(hs);
    forall i | 0 <= i < |hs| ensures TextPending(Texts(t), ks[i]) <==> PendingIn(t, hs[i]) { PendingAlike(t, hs[i]); }
  }

  lemma ClaimAlike(t: Table, hs: seq<Word>, now: int)
    ensures TextClaim(Texts(t), Keys(hs), now) == Texts(ClaimRows(t, hs, now))
  {
    var x, u := TextClaim(Texts(t), Keys(hs), now), ClaimRows(t, hs, now);
    forall h | h in u ensures HoldsRow(u, x, h) {
      TextOf(t, h);
      KeysOf(hs, h);
    }
    forall k | k in x ensures exists h :: KeyOfRow(u, k, h) {
      var h := RowOfText(t, k);
      assert KeyOfRow(u, k, h);
    }
    SameTexts(u, x);
  }

  /** The query on text may return exactly the keys of what the query on rows may return. */
  lemma FirstPendingAlike(t: Table, limit: int, hs: seq<Word>)
    ensures TextFirstPending(Texts(t), limit, Keys(hs)) <==> FirstPending(t, limit, hs)
  {
    var x, ks := Texts(t), Keys(hs);
    DifferentKeys(hs);
    forall i | 0 <= i < |hs| ensures TextPending(x, ks[i]) <==> PendingIn(t, hs[i])
      ensures hs[i] in t ==> x[ks[i]].meta.receivedAt == t[hs[i]].receivedAt { TextOf(t, hs[i]); }
    if TextFirstPending(x, limit, ks) { FirstPendingFrom(t, limit, hs); }
    if FirstPending(t, limit, hs) { FirstPendingTo(t, limit, hs); }
  }

  lemma ArrivesAfter(t: Table, hs: seq<Word>, i: nat, h: Word)
    requires i < |hs| && hs[i] in t && h in t && LowerHex(hs[i]) in Texts(t) && LowerHex(h) in Texts(t)
    ensures Texts(t)[LowerHex(hs[i])].meta.receivedAt <= Texts(t)[LowerHex(h)].meta.receivedAt
       <==> t[hs[i]].receivedAt <= t[h].receivedAt
  {
    TextOf(t, hs[i]);
    TextOf(t, h);
  }

  lemma FirstPendingFrom(t: Table, limit: int, hs: seq<Word>)
    requires TextFirstPending(Texts(t), limit, Keys(hs)) && Distinct(hs)
    requires forall i :: 0 <= i < |hs| ==> PendingIn(t, hs[i])
    ensures FirstPending(t, limit, hs)
  {
    forall i, j | 0 <= i < j < |hs| ensures t[hs[i]].receivedAt <= t[hs[j]].receivedAt
    { InOrderFrom(t, limit, hs, i, j); }
    forall h | h in t && PendingIn(t, h) && h !in hs
      ensures |hs| == limit && forall i :: 0 <= i < |hs| ==> t[hs[i]].receivedAt <= t[h].receivedAt {
      NoneLeftFrom(t, limit, hs, h);
    }
  }

  lemma InOrderFrom(t: Table, limit: int, hs: seq<Word>, i: nat, j: nat)
    requires TextFirstPending(Texts(t), limit, Keys(hs)) && i < j < |hs| && hs[i] in t && hs[j] in t
    ensures t[hs[i]].receivedAt <= t[hs[j]].receivedAt
  {
    var ks := Keys(hs);
    assert TextPending(Texts(t), ks[i]) && TextPending(Texts(t), ks[j]);
    ArrivesAfter(t, hs, i, hs[j]);
  }

  lemma NoneLeftFrom(t: Table, limit: int, hs: seq<Word>, h: Word)
    requires TextFirstPending(Texts(t), limit, Keys(hs)) && PendingIn(t, h) && h !in hs
    requires forall i :: 0 <= i < |hs| ==> hs[i] in t
    ensures |hs| == limit && forall i :: 0 <= i < |hs| ==> t[hs[i]].receivedAt <= t[h].receivedAt
  {
    var ks := Keys(hs);
    PendingAlike(t, h);
    KeysOf(hs, h);
    forall i | 0 <= i < |hs| ensures t[hs[i]].receivedAt <= t[h].receivedAt {
      assert TextPending(Texts(t), ks[i]);
      ArrivesAfter(t, hs, i, h);
    }
  }

  lemma FirstPendingTo(t: Table, limit: int, hs: seq<Word>)
    requires FirstPending(t, limit, hs) && Different(Keys(hs))
    requires forall i :: 0 <= i < |hs| ==>
      TextPending(Texts(t), Keys(hs)[i]) && Texts(t)[Keys(hs)[i]].meta.receivedAt == t[hs[i]].receivedAt
    ensures TextFirstPending(Texts(t), limit, Keys(hs))
  {
    var x, ks := Texts(t), Keys(hs);
    forall k | k in x && TextPending(x, k) && k !in ks
      ensures |ks| == limit && forall i :: 0 <= i < |ks| ==> x[ks[i]].meta.receivedAt <= x[k].meta.receivedAt {
      var h := RowOfText(t, k);
      KeysOf(hs, h);
      assert PendingIn(t, h) && h !in hs;
    }
  }

  lemma FetchAlike(c: Config, s: State, batch: seq<Snap>)
    ensures TextFetch(c, Image(s), batch) == ImageOf(StepFetchPending(c, s, batch))
  {
    var t, hs := s.table, Hashes(batch);
    FirstPendingAlike(t, c.maxBundle, hs);
    forall i | 0 <= i < |batch|
      ensures ReadsAs(Texts(t), LowerHex(batch[i].h), batch[i].op, batch[i].h)
         <==> batch[i].h in t && t[batch[i].h].op == batch[i].op {
      TextOf(t, batch[i].h);
      if batch[i].h in t { Hydrates(batch[i].h, t[batch[i].h]); }
    }
    if FirstPending(t, c.maxBundle, hs) {
      assert forall i :: 0 <= i < |batch| ==> hs[i] == batch[i].h && PendingIn(t, hs[i]);
    }
  }

  lemma OwnedAlike(t: Table, tx: Tx, e: Entry)
    ensures TextOwned(Texts(t), tx, e) <==> Owned(t, tx, e)
  {
    TextOf(t, e.h);
  }

  predicate Complete(t: Table, todo: map<Tx, seq<Entry>>, h: Word)
    requires h in t
  {
    t[h].status == Submitted && t[h].bundleTx.Some? ==>
      t[h].bundleTx.value in todo && Entry(h, t[h].bundleIndex) in todo[t[h].bundleTx.value]
  }

  lemma CompleteAlike(t: Table, todo: map<Tx, seq<Entry>>, h: Word)
    requires h in t
    ensures LowerHex(h) in Texts(t)
    ensures TextComplete(Texts(t), todo, LowerHex(h)) <==> Complete(t, todo, h)
  {
    TextOf(t, h);
    Hydrates(h, t[h]);
  }

  lemma GroupsAlike(t: Table, todo: map<Tx, seq<Entry>>)
    ensures TextGroups(Texts(t), todo) <==> Groups(t, todo)
  {
    if Groups(t, todo) { GroupsToText(t, Texts(t), todo); }
    if TextGroups(Texts(t), todo) { GroupsFromText(t, Texts(t), todo); }
  }

  lemma GroupsToText(t: Table, x: Text, todo: map<Tx, seq<Entry>>)
    requires Groups(t, todo) && x == Texts(t)
    ensures TextGroups(x, todo)
  {
    forall tx, i | tx in todo && 0 <= i < |todo[tx]| ensures TextOwned(x, tx, todo[tx][i]) {
      OwnedAlike(t, tx, todo[tx][i]);
    }
    forall h | h in t ensures Complete(t, todo, h) {}
    AllComplete(t, todo);
  }

  lemma GroupsFromText(t: Table, x: Text, todo: map<Tx, seq<Entry>>)
    requires TextGroups(x, todo) && x == Texts(t)
    ensures Groups(t, todo)
  {
    forall tx, i | tx in todo && 0 <= i < |todo[tx]| ensures Owned(t, tx, todo[tx][i]) {
      OwnedAlike(t, tx, todo[tx][i]);
    }
    AllTextComplete(t, todo);
    forall h | h in t && t[h].status == Submitted && t[h].bundleTx.Some?
      ensures t[h].bundleTx.value in todo && Entry(h, t[h].bundleIndex) in todo[t[h].bundleTx.value] {
      assert Complete(t, todo, h);
    }
  }

  lemma AllComplete(t: Table, todo: map<Tx, seq<Entry>>)
    requires forall h :: h in t ==> Complete(t, todo, h)
    ensures forall k :: k in Texts(t) ==> TextComplete(Texts(t), todo, k)
  {
    forall k | k in Texts(t) ensures TextComplete(Texts(t), todo, k) {
      var h := RowOfText(t, k);
      CompleteAlike(t, todo, h);
    }
  }

  lemma AllTextComplete(t: Table, todo: map<Tx, seq<Entry>>)
    requires forall k :: k in Texts(t) ==> TextComplete(Texts(t), todo, k)
    ensures forall h :: h in t ==> Complete(t, todo, h)
  {
    forall h | h in t ensures Complete(t, todo, h) { CompleteAlike(t, todo, h); }
  }

  lemma WrittenAlike(t: Table, h: Word, st: Status, e: Extra, ok: bool, now: int)
    ensures TextWritten(Texts(t), LowerHex(h), st, e, ok, now) == Texts(Written(t, h, st, e, ok, now))
  {
    UpdateAlike(t, h, st, e, now);
    EitherAlike(t, UpdateRow(t, h, st, e, now), Texts(t), TextUpdate(Texts(t), LowerHex(h), st, e, now), ok);
  }

  lemma EitherAlike(t: Table, u: Option<Table>, x: Text, y: Option<Text>, ok: bool)
    requires x == Texts(t) && y == TextsOf(u)
    ensures (if ok && y.Some? then y.value else x) == Texts(if ok && u.Some? then u.value else t)
  {}

  // ----- each step, and each run -----

  /** Steps that read the table only in their statement. */
  predicate Blind(l: Label) { !l.Intake? && !l.ReplaceOp? && !l.FetchPending? && !l.Claim? && !l.Poll? }

  /** The process moves the same way whatever the table. */
  lemma BlindStep(c: Config, s: State, l: Label)
    requires Blind(l)
    ensures Next(c, s, l).Some? <==> Next(c, s.(table := map[]), l).Some?
    ensures Next(c, s, l).Some? ==>
      Next(c, s, l).value.(table := map[]) == Next(c, s.(table := map[]), l).value.(table := map[])
  {}

  lemma LoopTable(s: State, ok: bool, now: int, b: seq<Snap>, g: Goal, i: nat)
    requires s.loop == LWriting(b, g, i) && i < |b|
    ensures StepLoopWrite(s, ok, now).value.table == Written(s.table, b[i].h, GoalStatus(g), GoalExtra(g, i), ok, now)
  {}

  lemma LoopText(c: Config, x: TextState, ok: bool, now: int, b: seq<Snap>, g: Goal, i: nat)
    requires x.loop == LWriting(b, g, i) && i < |b|
    ensures TextStatement(c, x, LoopWrite(ok, now))
         == TextWritten(x.rows, LowerHex(b[i].h), GoalStatus(g), GoalExtra(g, i), ok, now)
  {}

  lemma LoopWriteAlike(c: Config, s: State, ok: bool, now: int)
    requires StepLoopWrite(s, ok, now).Some?
    ensures TextStatement(c, Image(s), LoopWrite(ok, now)) == Texts(StepLoopWrite(s, ok, now).value.table)
  {
    var LWriting(b, g, i) := s.loop;
    LoopTable(s, ok, now, b, g, i);
    LoopText(c, Image(s), ok, now, b, g, i);
    WrittenAlike(s.table, b[i].h, GoalStatus(g), GoalExtra(g, i), ok, now);
  }

  lemma DecidedAlike(t: Table, h: Word, d: Option<(Status, Extra)>, ok: bool, now: int)
    ensures TextDecided(Texts(t), LowerHex(h), d, ok, now) == Texts(Decided(t, h, d, ok, now))
  {
    if d.Some? { WrittenAlike(t, h, d.value.0, d.value.1, ok, now); }
  }

  lemma WatchTable(c: Config, s: State, ok: bool, now: int, v: Visit, e: Entry, d: Option<(Status, Extra)>)
    requires s.watch.WBusy? && s.watch.visit == Some(v) && v.rest != [] && v.rest[0] == e
    requires d == Decision(c.events, v.verdict, e)
    ensures StepWatchWrite(c, s, ok, now).value.table == Decided(s.table, e.h, d, ok, now)
  {}

  lemma WatchText(c: Config, x: TextState, ok: bool, now: int, v: Visit, e: Entry, d: Option<(Status, Extra)>)
    requires x.watch.WBusy? && x.watch.visit == Some(v) && v.rest != [] && v.rest[0] == e
    requires d == Decision(c.events, v.verdict, e)
    ensures TextStatement(c, x, WatchWrite(ok, now)) == TextDecided(x.rows, LowerHex(e.h), d, ok, now)
  {}

  lemma WatchWriteAlike(c: Config, s: State, ok: bool, now: int)
    requires StepWatchWrite(c, s, ok, now).Some?
    ensures TextStatement(c, Image(s), WatchWrite(ok, now)) == Texts(StepWatchWrite(c, s, ok, now).value.table)
  {
    var v := s.watch.visit.value;
    var d := Decision(c.events, v.verdict, v.rest[0]);
    WatchTable(c, s, ok, now, v, v.rest[0], d);
    WatchText(c, Image(s), ok, now, v, v.rest[0], d);
    DecidedAlike(s.table, v.rest[0].h, d, ok, now);
  }

  /** Steps without a statement. */
  predicate Mute(l: Label) {
    Blind(l) && !l.Expire? && !l.Prune? && !l.BootReset? && !l.LoopWrite? && !l.WatchWrite?
  }

  lemma MuteTable(c: Config, s: State, l: Label)
    requires Mute(l) && Next(c, s, l).Some?
    ensures Next(c, s, l).value.table == s.table
  {}

  lemma MuteText(c: Config, x: TextState, l: Label)
    requires Mute(l)
    ensures TextStatement(c, x, l) == x.rows
  {}

  lemma StatementAlike(c: Config, s: State, l: Label)
    requires Blind(l) && Next(c, s, l).Some?
    ensures TextStatement(c, Image(s), l) == Texts(Next(c, s, l).value.table)
  {
    match l
    case Expire(cutoff, now) => ExpireAlike(s.table, cutoff, now);
    case Prune(cutoff) => PruneAlike(s.table, cutoff);
    case BootReset(now) => ResetAlike(s.table, now);
    case LoopWrite(ok, now) => LoopWriteAlike(c, s, ok, now);
    case WatchWrite(ok, now) => WatchWriteAlike(c, s, ok, now);
    case _ =>
      MuteTable(c, s, l);
      MuteText(c, Image(s), l);
  }

  lemma IntakeAlike(c: Config, s: State, op: PackedUserOp, ep: Address, now: int)
    ensures TextNext(c, Image(s), Intake(op, ep, now)) == ImageOf(StepIntake(c, s, op, ep, now))
  {
    InsertAlike(s.table, c.hashOf(op, ep), op, now);
  }

  lemma ReplaceStepAlike(c: Config, s: State, prev: Word, op: PackedUserOp, ep: Address, now: int)
    ensures TextNext(c, Image(s), ReplaceOp(prev, op, ep, now)) == ImageOf(StepReplace(c, s, prev, op, ep, now))
  {
    ReplaceAlike(s.table, prev, c.hashOf(op, ep), op, now);
  }

  lemma ClaimStepAlike(s: State, ok: bool, now: int)
    ensures TextClaimStep(Image(s), ok, now) == ImageOf(StepClaim(s, ok, now))
  {
    if s.loop.LFetched? {
      ClaimableAlike(s.table, Hashes(s.loop.batch));
      ClaimAlike(s.table, Hashes(s.loop.batch), now);
    }
  }

  lemma PollAlike(s: State, todo: map<Tx, seq<Entry>>)
    ensures TextPoll(Image(s), todo) == ImageOf(StepPoll(s, todo))
  {
    GroupsAlike(s.table, todo);
  }

  lemma BlindAlike(c: Config, s: State, l: Label)
    requires Blind(l)
    ensures TextNext(c, Image(s), l) == ImageOf(Next(c, s, l))
  {
    assert Memory(Image(s)) == s.(table := map[]);
    BlindStep(c, s, l);
    if Next(c, s, l).Some? {
      StatementAlike(c, s, l);
      SameMemory(Next(c, s, l).value, Next(c, Memory(Image(s)), l).value);
    }
  }

  lemma SameMemory(s: State, m: State)
    requires s.(table := map[]) == m.(table := map[])
    ensures With(m, Texts(s.table)) == Image(s)
  {}

  /** Every step on the text of a state is the text of the step, and is enabled exactly when it is. */
  lemma StepAlike(c: Config, s: State, l: Label)
    ensures TextNext(c, Image(s), l) == ImageOf(Next(c, s, l))
  {
    match l
    case Intake(op, ep, now) => IntakeAlike(c, s, op, ep, now);
    case ReplaceOp(prev, op, ep, now) => ReplaceStepAlike(c, s, prev, op, ep, now);
    case FetchPending(batch) => FetchAlike(c, s, batch);
    case Claim(ok, now) => ClaimStepAlike(s, ok, now);
    case Poll(todo) => PollAlike(s, todo);
    case _ => BlindAlike(c, s, l);
  }

  ghost predicate TextStepAt(c: Config, xs: seq<TextState>, ls: seq<Label>, i: int) {
    0 <= i < |ls| && i + 1 < |xs| && TextNext(c, xs[i], ls[i]) == Some(xs[i + 1])
  }

  /** A run of the bundler on its stored table, from an empty one. */
  ghost predicate TextRun(c: Config, xs: seq<TextState>, ls: seq<Label>) {
    && |xs| == |ls| + 1 && xs[0] == With(START, map[])
    && forall i :: 0 <= i < |ls| ==> TextStepAt(c, xs, ls, i)
  }

  function Images(ss: seq<State>): seq<TextState> { seq(|ss|, i requires 0 <= i < |ss| => Image(ss[i])) }

  lemma StartAlike()
    ensures Image(START) == With(START, map[])
  {
    SameTexts(map[], map[]);
  }

  lemma StepToText(c: Config, ss: seq<State>, ls: seq<Label>, i: nat, xs: seq<TextState>)
    requires Run(c, ss, ls) && i < |ls| && |xs| == |ss|
    requires xs[i] == Image(ss[i]) && xs[i + 1] == Image(ss[i + 1])
    ensures TextStepAt(c, xs, ls, i)
  {
    assert StepAt(c, ss, ls, i);
    StepAlike(c, ss[i], ls[i]);
  }

  /** The text of every run is a run on text. */
  lemma RunToText(c: Config, ss: seq<State>, ls: seq<Label>)
    requires Run(c, ss, ls)
    ensures TextRun(c, Images(ss), ls)
  {
    StartAlike();
    forall i | 0 <= i < |ls| ensures TextStepAt(c, Images(ss), ls, i) { StepToText(c, ss, ls, i, Images(ss)); }
  }

  /** A step on text is the text of a step. */
  lemma StepOfText(c: Config, xs: seq<TextState>, ls: seq<Label>, i: nat, s: State) returns (s': State)
    requires TextRun(c, xs, ls) && i < |ls| && Image(s) == xs[i]
    ensures Next(c, s, ls[i]) == Some(s') && Image(s') == xs[i + 1]
  {
    assert TextStepAt(c, xs, ls, i);
    StepAlike(c, s, ls[i]);
    s' := Next(c, s, ls[i]).value;
  }

  /** The states show the first texts. */
  predicate Shows(ss: seq<State>, xs: seq<TextState>) {
    |ss| <= |xs| && forall i :: 0 <= i < |ss| ==> Image(ss[i]) == xs[i]
  }

  lemma ShowsMore(ss: seq<State>, xs: seq<TextState>, s: State)
    requires Shows(ss, xs) && |ss| < |xs| && Image(s) == xs[|ss|]
    ensures Shows(ss + [s], xs)
  {}

  lemma ShowsStart(c: Config, xs: seq<TextState>, ls: seq<Label>)
    requires TextRun(c, xs, ls)
    ensures Run(c, [START], []) && Shows([START], xs)
  {
    StartAlike();
  }

  lemma OneMoreStep(c: Config, ls: seq<Label>, n: nat, ss: seq<State>, s: State)
    requires n < |ls| && Run(c, ss, ls[..n]) && Next(c, ss[n], ls[n]) == Some(s)
    ensures Run(c, ss + [s], ls[..n + 1])
  {
    ExtendRun(c, ss, ls[..n], ls[n], s);
    assert ls[..n] + [ls[n]] == ls[..n + 1];
  }

  /** The first n steps of a run on text are the text of a run. */
  lemma {:induction false} TextOfSteps(c: Config, xs: seq<TextState>, ls: seq<Label>, n: nat) returns (ss: seq<State>)
    requires TextRun(c, xs, ls) && n <= |ls|
    ensures Run(c, ss, ls[..n]) && Shows(ss, xs)
  {
    if n == 0 {
      ss := [START];
      ShowsStart(c, xs, ls);
      assert ls[..0] == [];
    } else {
      var ss0 := TextOfSteps(c, xs, ls, n - 1);
      var s := StepOfText(c, xs, ls, n - 1, ss0[n - 1]);
      OneMoreStep(c, ls, n - 1, ss0, s);
      ShowsMore(ss0, xs, s);
      ss := ss0 + [s];
    }
  }

  /** Every run on text is the text of a run. */
  lemma RunOfText(c: Config, xs: seq<TextState>, ls: seq<Label>) returns (ss: seq<State>)
    requires TextRun(c, xs, ls)
    ensures Run(c, ss, ls) && Images(ss) == xs
  {
    ss := TextOfSteps(c, xs, ls, |ls|);
    assert ls[..|ls|] == ls;
  }
}
