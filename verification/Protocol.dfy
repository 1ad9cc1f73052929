/** The bundling protocol: intake, bundling loop, receipt watcher, pruner and crash recovery as
    one state machine over the shared table. Every SQL statement or transaction is one atomic step;
    the loop's and the watcher's local variables are their program counters
    (internal/bundler/loop.go, watcher.go, reconcile.go, internal/mempool/db.go, prune.go). */
module Protocol {
  import opened Bytes
  import opened UserOps
  import opened Mempool
  import opened Receipts

  /** hashOf: ComputeUserOpHash for an entry point; build: BuildHandleOpsCalldata for the signer;
      hashAt: what the entry point itself computes, by decoding calldata and hashing element i. */
  datatype Config = Config(
    entryPoints: seq<Address>,
    hashOf: (PackedUserOp, Address) -> Word,
    build: seq<PackedUserOp> -> Bytes,
    hashAt: (Bytes, nat) -> Option<Word>,
    events: Events,
    maxBundle: int)

  /** The entry point the loop submits to, the first one, decodes the encoder's output to the ops encoded
      and hashes them for itself. Lengths are Go lengths. */
  ghost predicate Decodes(c: Config) {
    && c.entryPoints != []
    && forall ops: seq<PackedUserOp>, i: nat :: |c.build(ops)| <= MAX_LEN ==>
         c.hashAt(c.build(ops), i) == if i < |ops| then Some(c.hashOf(ops[i], c.entryPoints[0])) else None
  }

  /** The same, and that entry point is the only one. */
  ghost predicate Coherent(c: Config) { Decodes(c) && |c.entryPoints| == 1 }

  // ----- state -----

  datatype Snap = Snap(h: Word, op: PackedUserOp)

  datatype Goal = GoFail(reason: Bytes) | GoReset | GoSubmit(tx: Tx, at: int)

  datatype LoopPc =
    | LIdle
    | LFetched(batch: seq<Snap>)
    | LClaimed(batch: seq<Snap>)
    | LWriting(batch: seq<Snap>, goal: Goal, next: nat)

  datatype Entry = Entry(h: Word, index: Option<nat>)

  datatype Verdict = Landed(receipt: Receipt) | Reverted(failed: Option<(int, Bytes)>)

  datatype Visit = Visit(tx: Tx, rest: seq<Entry>, verdict: Verdict)

  datatype WatchPc = WIdle | WBusy(todo: map<Tx, seq<Entry>>, visit: Option<Visit>)

  /** Down, then Reconcile's sweep and receipt check, then InitNonce, then all actors run. */
  datatype Phase = Down | Swept | Checking | Checked | Up

  /** Auxiliary history. seen: receipts fetched. carrier: the last bundle transaction that carried
      an op and has not been observed to fail since the op's row was inserted. sent: accepted
      transactions. tainted: a leaked or unrecorded broadcast happened. behind: the node once
      answered a nonce already used. lost: a loop status write failed since the last sweep. */
  datatype Hist = Hist(
    seen: set<(Tx, Receipt)>,
    carrier: map<Word, Tx>,
    sent: seq<Tx>,
    tainted: bool,
    behind: bool,
    lost: bool)

  datatype State = State(
    table: Table, phase: Phase, loop: LoopPc, watch: WatchPc, nonce: nat, hist: Hist)

  datatype Label =
    | Intake(op: PackedUserOp, entryPoint: Address, now: int)
    | ReplaceOp(prev: Word, op: PackedUserOp, entryPoint: Address, now: int)
    | Expire(cutoff: int, now: int)
    | Prune(cutoff: int)
    | FetchPending(batch: seq<Snap>)
    | Claim(ok: bool, now: int)
    | EstimateFails(permanent: bool, reason: Bytes)
    | SubmitFails(leaked: Option<Tx>, resync: Option<nat>)
    | Broadcast(tx: Tx, at: int)
    | LoopWrite(ok: bool, now: int)
    | Poll(todo: map<Tx, seq<Entry>>)
    | FetchReceipt(tx: Tx, answer: Option<Receipt>, revertData: Bytes)
    | WatchWrite(ok: bool, now: int)
    | PollDone
    | Crash
    | BootReset(now: int)
    | InitNonce(n: nat)

  // ----- steps; None: not enabled -----

  function Admit(s: State, t: Option<Table>, h: Word): State {
    if t.None? then s
    else s.(table := t.value, hist := s.hist.(carrier := s.hist.carrier - {h}))
  }

  /** handleSendUserOperation's insert. */
  function StepIntake(c: Config, s: State, op: PackedUserOp, ep: Address, now: int): Option<State> {
    if s.phase != Up || ep !in c.entryPoints then None
    else Some(Admit(s, InsertRow(s.table, c.hashOf(op, ep), op, now), c.hashOf(op, ep)))
  }

  function StepReplace(c: Config, s: State, prev: Word, op: PackedUserOp, ep: Address, now: int): Option<State> {
    if s.phase != Up || ep !in c.entryPoints then None
    else Some(Admit(s, ReplaceRow(s.table, prev, c.hashOf(op, ep), op, now), c.hashOf(op, ep)))
  }

  function StepExpire(s: State, cutoff: int, now: int): Option<State> {
    if s.phase != Up then None else Some(s.(table := ExpireRows(s.table, cutoff, now)))
  }

  function StepPrune(s: State, cutoff: int): Option<State> {
    if s.phase != Up then None else Some(s.(table := PruneRows(s.table, cutoff)))
  }

  function Hashes(batch: seq<Snap>): seq<Word> { seq(|batch|, i requires 0 <= i < |batch| => batch[i].h) }

  function OpsOf(batch: seq<Snap>): seq<PackedUserOp> {
    seq(|batch|, i requires 0 <= i < |batch| => batch[i].op)
  }

  /** GetPending returned these rows. An empty result ends the tick. */
  function StepFetchPending(c: Config, s: State, batch: seq<Snap>): Option<State> {
    if s.phase == Up && s.loop.LIdle? && batch != [] && FirstPending(s.table, c.maxBundle, Hashes(batch))
       && forall i :: 0 <= i < |batch| ==> s.table[Hashes(batch)[i]].op == batch[i].op
    then Some(s.(loop := LFetched(batch))) else None
  }

  function StepClaim(s: State, ok: bool, now: int): Option<State> {
    if !s.loop.LFetched? then None
    else
      var b := s.loop.batch;
      if ok && Claimable(s.table, Hashes(b))
      then Some(s.(table := ClaimRows(s.table, Hashes(b), now), loop := LClaimed(b)))
      else Some(s.(loop := LIdle))
  }

  function StepEstimateFails(s: State, permanent: bool, reason: Bytes): Option<State> {
    if !s.loop.LClaimed? then None
    else Some(s.(loop := LWriting(s.loop.batch, if permanent then GoFail(reason) else GoReset, 0)))
  }

  function Behind(h: Hist, n: nat): bool { exists i :: 0 <= i < |h.sent| && h.sent[i].nonce >= n }

  function CarriedBy(b: seq<Snap>, tx: Tx): map<Word, Tx> {
    map i | 0 <= i < |b| :: b[i].h := tx
  }

  /** What the signer signs for the claimed batch. */
  predicate Signs(c: Config, s: State, tx: Tx) {
    && s.loop.LClaimed? && tx.nonce == s.nonce
    && tx.calldata == c.build(OpsOf(s.loop.batch)) && |tx.calldata| <= MAX_LEN
  }

  /** SignAndSubmit returned an error; leaked is the signed transaction if it reached the network all the
      same. It then carries the batch, although nobody records it. */
  function StepSubmitFails(c: Config, s: State, leaked: Option<Tx>, resync: Option<nat>): Option<State> {
    if !s.loop.LClaimed? || (leaked.Some? && !Signs(c, s, leaked.value)) then None
    else
      Some(s.(loop := LWriting(s.loop.batch, GoReset, 0),
              nonce := if resync.Some? then resync.value else s.nonce,
              hist := s.hist.(carrier := if leaked.None? then s.hist.carrier
                                         else s.hist.carrier + CarriedBy(s.loop.batch, leaked.value),
                              tainted := s.hist.tainted || leaked.Some?,
                              behind := s.hist.behind || (resync.Some? && Behind(s.hist, resync.value)))))
  }

  /** SignAndSubmit succeeded: the node accepted tx. */
  function StepBroadcast(c: Config, s: State, tx: Tx, at: int): Option<State> {
    if Signs(c, s, tx)
    then Some(s.(loop := LWriting(s.loop.batch, GoSubmit(tx, at), 0), nonce := s.nonce + 1,
                 hist := s.hist.(carrier := s.hist.carrier + CarriedBy(s.loop.batch, tx),
                                 sent := s.hist.sent + [tx])))
    else None
  }

  function GoalStatus(g: Goal): Status {
    match g case GoFail(_) => Failed case GoReset => Pending case GoSubmit(_, _) => Submitted
  }

  function GoalExtra(g: Goal, i: nat): Extra {
    match g
    case GoFail(r) => NO_EXTRA.(reason := Some(r))
    case GoReset => NO_EXTRA
    case GoSubmit(tx, at) => NO_EXTRA.(bundleTx := Some(tx), bundleIndex := Some(i), submittedAt := Some(at))
  }

  function Written(t: Table, h: Word, st: Status, x: Extra, ok: bool, now: int): Table {
    var u := UpdateRow(t, h, st, x, now);
    if ok && u.Some? then u.value else t
  }

  /** One UpdateStatus call of failOps, resetToPending or the submitted loop; errors are only logged. */
  function StepLoopWrite(s: State, ok: bool, now: int): Option<State> {
    if !s.loop.LWriting? || s.loop.next >= |s.loop.batch| then None
    else
      var LWriting(b, g, i) := s.loop;
      Some(s.(table := Written(s.table, b[i].h, GoalStatus(g), GoalExtra(g, i), ok, now),
              loop := if i + 1 == |b| then LIdle else LWriting(b, g, i + 1),
              hist := s.hist.(lost := s.hist.lost || !ok,
                              tainted := s.hist.tainted || (!ok && g.GoSubmit?))))
  }

  predicate Owned(t: Table, tx: Tx, e: Entry) {
    && e.h in t && t[e.h].status == Submitted
    && t[e.h].bundleTx == Some(tx) && t[e.h].bundleIndex == e.index
  }

  predicate DistinctEntries(es: seq<Entry>) { forall i, j :: 0 <= i < j < |es| ==> es[i].h != es[j].h }

  /** The byTx map of the submitted rows. */
  predicate Groups(t: Table, todo: map<Tx, seq<Entry>>) {
    && (forall tx :: tx in todo ==> todo[tx] != [] && DistinctEntries(todo[tx]))
    && (forall tx, i :: tx in todo && 0 <= i < |todo[tx]| ==> Owned(t, tx, todo[tx][i]))
    && (forall h :: h in t && t[h].status == Submitted && t[h].bundleTx.Some? ==>
          t[h].bundleTx.value in todo && Entry(h, t[h].bundleIndex) in todo[t[h].bundleTx.value])
  }

  function StepPoll(s: State, todo: map<Tx, seq<Entry>>): Option<State> {
    if (s.phase == Up || s.phase == Swept) && s.watch.WIdle? && Groups(s.table, todo)
    then Some(s.(watch := WBusy(todo, None), phase := if s.phase == Up then Up else Checking))
    else None
  }

  /** HandleBundleRevert's reading of the revert data; None: a panic. */
  function RevertVerdict(c: Events, data: Bytes): Option<Verdict> {
    if |data| >= 4 && data[..4] == c.failedOp then
      var f := DecodeFailedOp(data);
      if f.None? then None else Some(Reverted(f))
    else Some(Reverted(None))
  }

  /** None: parsing the receipt or the revert data panics (the process dies, see Crash). */
  function VerdictOf(c: Events, r: Receipt, revertData: Bytes): Option<Verdict> {
    if r.status == 1 then (if Parse(c, r.logs).None? then None else Some(Landed(r)))
    else RevertVerdict(c, revertData)
  }

  function DropCarrier(m: map<Word, Tx>, tx: Tx): map<Word, Tx> { map h | h in m && m[h] != tx :: m[h] }

  /** One round of the byTx loop: fetch a receipt and decide. Today both callers hand
      HandleBundleRevert empty revert data; the step admits any. */
  function StepFetchReceipt(c: Config, s: State, tx: Tx, answer: Option<Receipt>, revertData: Bytes): Option<State> {
    if !s.watch.WBusy? || s.watch.visit.Some? || tx !in s.watch.todo then None
    else
      var todo := s.watch.todo - {tx};
      if answer.None? then Some(s.(watch := WBusy(todo, None)))
      else
        var v := VerdictOf(c.events, answer.value, revertData);
        if v.None? then None
        else Some(s.(watch := WBusy(todo, Some(Visit(tx, s.watch.todo[tx], v.value))),
                     hist := s.hist.(seen := s.hist.seen + {(tx, answer.value)},
                                     carrier := if answer.value.status == 1 then s.hist.carrier
                                                else DropCarrier(s.hist.carrier, tx))))
  }

  /** The status write decided for one op, if any. */
  function Decision(c: Events, v: Verdict, e: Entry): Option<(Status, Extra)> {
    match v
    case Landed(r) =>
      var m := Parse(c, r.logs);
      if m.Some? && e.h in m.value then
        var o := m.value[e.h];
        Some((if o.success then Confirmed else Failed,
              NO_EXTRA.(block := Some(r.block), reason := o.reason, gasCost := o.gasCost)))
      else None
    case Reverted(f) =>
      if f.Some? && e.index.Some? && e.index.value == f.value.0
      then Some((Failed, NO_EXTRA.(reason := Some(f.value.1))))
      else Some((Pending, NO_EXTRA))
  }

  /** The write carried out for a decision. */
  function Decided(t: Table, h: Word, d: Option<(Status, Extra)>, ok: bool, now: int): Table {
    if d.None? then t else Written(t, h, d.value.0, d.value.1, ok, now)
  }

  function StepWatchWrite(c: Config, s: State, ok: bool, now: int): Option<State> {
    if !s.watch.WBusy? || s.watch.visit.None? || s.watch.visit.value.rest == [] then None
    else
      var Visit(tx, rest, v) := s.watch.visit.value;
      Some(s.(table := Decided(s.table, rest[0].h, Decision(c.events, v, rest[0]), ok, now),
              watch := WBusy(s.watch.todo, if |rest| == 1 then None else Some(Visit(tx, rest[1..], v)))))
  }

  function StepPollDone(s: State): Option<State> {
    if s.watch.WBusy? && s.watch.visit.None? && s.watch.todo == map[]
    then Some(s.(watch := WIdle, phase := if s.phase == Checking then Checked else s.phase))
    else None
  }

  /** The process dies anywhere: locals are lost, the table stays. */
  function StepCrash(s: State): State {
    s.(phase := Down, loop := LIdle, watch := WIdle,
       hist := s.hist.(tainted := s.hist.tainted || (s.loop.LWriting? && s.loop.goal.GoSubmit?)))
  }

  function StepBootReset(s: State, now: int): Option<State> {
    if s.phase != Down then None
    else Some(s.(phase := Swept, table := ResetRows(s.table, now), hist := s.hist.(lost := false)))
  }

  function StepInitNonce(s: State, n: nat): Option<State> {
    if s.phase != Checked then None
    else Some(s.(phase := Up, nonce := n, hist := s.hist.(behind := s.hist.behind || Behind(s.hist, n))))
  }

  function Next(c: Config, s: State, l: Label): Option<State> {
    match l
    case Intake(op, ep, now) => StepIntake(c, s, op, ep, now)
    case ReplaceOp(prev, op, ep, now) => StepReplace(c, s, prev, op, ep, now)
    case Expire(cutoff, now) => StepExpire(s, cutoff, now)
    case Prune(cutoff) => StepPrune(s, cutoff)
    case FetchPending(batch) => StepFetchPending(c, s, batch)
    case Claim(ok, now) => StepClaim(s, ok, now)
    case EstimateFails(permanent, reason) => StepEstimateFails(s, permanent, reason)
    case SubmitFails(leaked, resync) => StepSubmitFails(c, s, leaked, resync)
    case Broadcast(tx, at) => StepBroadcast(c, s, tx, at)
    case LoopWrite(ok, now) => StepLoopWrite(s, ok, now)
    case Poll(todo) => StepPoll(s, todo)
    case FetchReceipt(tx, answer, data) => StepFetchReceipt(c, s, tx, answer, data)
    case WatchWrite(ok, now) => StepWatchWrite(c, s, ok, now)
    case PollDone => StepPollDone(s)
    case Crash => Some(StepCrash(s))
    case BootReset(now) => StepBootReset(s, now)
    case InitNonce(n) => StepInitNonce(s, n)
  }

  /** A first start on an empty database. */
  const START := State(map[], Down, LIdle, WIdle, 0, Hist({}, map[], [], false, false, false))
}
