/** What holds over every run of the protocol: any interleaving of the actors, with crashes and
    restarts at any point. */
module Runs {
  import opened Bytes
  import opened Mempool
  import opened Receipts
  import opened Protocol
  import opened Invariant
  import opened Settlement

  /** Label i takes state i to state i + 1. */
  ghost predicate StepAt(c: Config, ss: seq<State>, ls: seq<Label>, i: int) {
    0 <= i < |ls| && i + 1 < |ss| && Next(c, ss[i], ls[i]) == Some(ss[i + 1])
  }

  ghost predicate Run(c: Config, ss: seq<State>, ls: seq<Label>) {
    && |ss| == |ls| + 1 && ss[0] == START
    && forall i :: 0 <= i < |ls| ==> StepAt(c, ss, ls, i)
  }

  lemma {:induction false} RunInv(c: Config, ss: seq<State>, ls: seq<Label>, i: nat)
    requires Run(c, ss, ls) && i < |ss|
    ensures Inv(c, ss[i])
  {
    if i == 0 {
      StartOk(c);
    } else {
      RunInv(c, ss, ls, i - 1);
      assert StepAt(c, ss, ls, i - 1);
      KeepAny(c, ss[i - 1], ls[i - 1]);
    }
  }

  lemma ExtendRun(c: Config, ss: seq<State>, ls: seq<Label>, l: Label, s: State)
    requires Run(c, ss, ls) && Next(c, ss[|ls|], l) == Some(s)
    ensures Run(c, ss + [s], ls + [l])
  {
    forall i | 0 <= i < |ls| + 1 ensures StepAt(c, ss + [s], ls + [l], i) {
      if i < |ls| { assert StepAt(c, ss, ls, i); }
    }
  }

  /** The part of a run from state k on. */
  lemma SuffixSteps(c: Config, ss: seq<State>, ls: seq<Label>, k: nat)
    requires Run(c, ss, ls) && k <= |ls|
    ensures Stretch(c, ss[k..], ls[k..])
  {
    RunInv(c, ss, ls, k);
    forall i | 0 <= i < |ls| - k ensures StepAt(c, ss[k..], ls[k..], i) {
      assert StepAt(c, ss, ls, k + i);
    }
  }

  // ----- lifecycle -----

  /** The status changes a step may make to an existing row, and the actor that may make them. */
  predicate Edge(l: Label, a: Status, b: Status) {
    match l
    case Claim(_, _) => a == Pending && b == Bundling
    case LoopWrite(_, _) => a == Bundling && (b == Pending || b == Failed || b == Submitted)
    case WatchWrite(_, _) => a == Submitted && (b == Pending || b == Failed || b == Confirmed)
    case BootReset(_) => a == Bundling && b == Pending
    case Expire(_, _) => a == Pending && b == Failed
    case ReplaceOp(_, _, _, _) => a == Pending && b == Replaced
    case _ => false
  }

  /** What one step may do to a row: a terminal row is untouched or deleted, only terminal rows are
      deleted and only by the pruner, any status change follows the lifecycle, and a row's op and
      arrival time never change. */
  predicate Moved(l: Label, t: Table, u: Table, h: Word)
    requires h in t
  {
    && (h !in u ==> l.Prune? && Terminal(t[h].status))
    && (h in u && Terminal(t[h].status) ==> u[h] == t[h])
    && (h in u && u[h].status != t[h].status ==> Edge(l, t[h].status, u[h].status))
    && (h in u ==> u[h].op == t[h].op && u[h].receivedAt == t[h].receivedAt)
  }

  lemma ClaimMoves(s: State, ok: bool, now: int, h: Word)
    requires StepClaim(s, ok, now).Some? && h in s.table
    ensures Moved(Claim(ok, now), s.table, StepClaim(s, ok, now).value.table, h)
  {
    var hs := Hashes(s.loop.batch);
    if ok && Claimable(s.table, hs) { ClaimMovesPending(s.table, hs, now); }
  }

  lemma LoopWriteMoves(c: Config, s: State, ok: bool, now: int, h: Word)
    requires Inv(c, s) && StepLoopWrite(s, ok, now).Some? && h in s.table
    ensures Moved(LoopWrite(ok, now), s.table, StepLoopWrite(s, ok, now).value.table, h)
  {
    LoopWriteTable(c, s, ok, now);
  }

  /** A decision is never to leave the row submitted. */
  lemma DecisionLeaves(c: Events, v: Verdict, e: Entry)
    requires Decision(c, v, e).Some?
    ensures var st := Decision(c, v, e).value.0; st == Confirmed || st == Failed || st == Pending
  {}

  lemma WatchWriteMoves(c: Config, s: State, ok: bool, now: int, h: Word)
    requires Inv(c, s) && StepWatchWrite(c, s, ok, now).Some? && h in s.table
    ensures Moved(WatchWrite(ok, now), s.table, StepWatchWrite(c, s, ok, now).value.table, h)
  {
    var v := s.watch.visit.value;
    WatchWriteTable(c, s, ok, now);
    if Decision(c.events, v.verdict, v.rest[0]).Some? { DecisionLeaves(c.events, v.verdict, v.rest[0]); }
  }

  /** Intake, replacement, expiry, pruning and the start-up sweep, guarded in SQL by the row's status. */
  lemma StatementMoves(c: Config, s: State, l: Label, h: Word)
    requires Next(c, s, l).Some? && h in s.table && !l.Claim? && !l.LoopWrite? && !l.WatchWrite?
    ensures Moved(l, s.table, Next(c, s, l).value.table, h)
  {}

  /** Every step of every actor moves every row only as the lifecycle allows. */
  lemma StepLifecycle(c: Config, s: State, l: Label, h: Word)
    requires Inv(c, s) && Next(c, s, l).Some? && h in s.table
    ensures Moved(l, s.table, Next(c, s, l).value.table, h)
  {
    match l
    case LoopWrite(ok, now) => LoopWriteMoves(c, s, ok, now, h);
    case WatchWrite(ok, now) => WatchWriteMoves(c, s, ok, now, h);
    case Claim(ok, now) => ClaimMoves(s, ok, now, h);
    case _ => StatementMoves(c, s, l, h);
  }

  /** Safety over runs: in every reachable state at most one live row holds a (sender, nonce). */
  lemma OneLiveRowPerKey(c: Config, ss: seq<State>, ls: seq<Label>, i: nat, g: Word, h: Word)
    requires Run(c, ss, ls) && i < |ss|
    requires LiveIn(ss[i].table, g) && LiveIn(ss[i].table, h) && SameKey(ss[i].table[g].op, ss[i].table[h].op)
    ensures g == h
  {
    RunInv(c, ss, ls, i);
  }

  /** A terminal row stays exactly as it is for as long as it is not pruned. */
  lemma {:induction false} TerminalIsFinal(c: Config, ss: seq<State>, ls: seq<Label>, i: nat, j: nat, h: Word)
    requires Run(c, ss, ls) && i <= j < |ss|
    requires forall k :: i <= k <= j ==> h in ss[k].table
    requires Terminal(ss[i].table[h].status)
    ensures ss[j].table[h] == ss[i].table[h]
    decreases j
  {
    if i < j {
      TerminalIsFinal(c, ss, ls, i, j - 1, h);
      RunInv(c, ss, ls, j - 1);
      assert StepAt(c, ss, ls, j - 1);
      assert h in ss[j - 1].table && h in ss[j].table;
      StepLifecycle(c, ss[j - 1], ls[j - 1], h);
    }
  }

  /** Ownership: every unguarded status write issued in a run finds its row in the actor's own source
      status, and is neither missing nor refused by the index. */
  lemma WritesLand(c: Config, ss: seq<State>, ls: seq<Label>, i: nat, st: Status, x: Extra, now: int)
    requires Run(c, ss, ls) && i < |ls|
    ensures ls[i].LoopWrite? ==>
      && ss[i].loop.LWriting? && ss[i].loop.next < |ss[i].loop.batch| &&
      var LWriting(b, g, n) := ss[i].loop;
      && b[n].h in ss[i].table && ss[i].table[b[n].h].status == Bundling
      && UpdateRow(ss[i].table, b[n].h, GoalStatus(g), GoalExtra(g, n), now).Some?
    ensures ls[i].WatchWrite? ==>
      && ss[i].watch.WBusy? && ss[i].watch.visit.Some? && ss[i].watch.visit.value.rest != [] &&
      var v := ss[i].watch.visit.value;
      && Owned(ss[i].table, v.tx, v.rest[0])
      && UpdateRow(ss[i].table, v.rest[0].h, st, x, now).Some?
  {
    RunInv(c, ss, ls, i);
    assert StepAt(c, ss, ls, i);
    if ls[i].LoopWrite? { LoopWriteLands(c, ss[i], now); }
    if ls[i].WatchWrite? { WatchWriteLands(c, ss[i], st, x, now); }
  }

  // ----- no double carriage -----

  /** The label at k leaks or loses a broadcast: an errored submit that reached the network, a failed
      submitted-write, or a crash between broadcast and the last submitted-write. */
  predicate Loses(s: State, l: Label) {
    || (l.SubmitFails? && l.leaked.Some?)
    || (l.LoopWrite? && !l.ok && s.loop.LWriting? && s.loop.goal.GoSubmit?)
    || (l.Crash? && s.loop.LWriting? && s.loop.goal.GoSubmit?)
  }

  lemma TaintStep(c: Config, s: State, l: Label)
    requires Next(c, s, l).Some? && !s.hist.tainted && !Loses(s, l)
    ensures !Next(c, s, l).value.hist.tainted
  {}

  lemma {:induction false} Untainted(c: Config, ss: seq<State>, ls: seq<Label>, j: nat)
    requires Run(c, ss, ls) && j < |ss|
    requires forall k :: 0 <= k < j ==> !Loses(ss[k], ls[k])
    ensures !ss[j].hist.tainted
  {
    if j > 0 {
      Untainted(c, ss, ls, j - 1);
      assert StepAt(c, ss, ls, j - 1);
      TaintStep(c, ss[j - 1], ls[j - 1]);
    }
  }

  /** tx was fetched with a receipt whose status is not 1. */
  predicate FailsTx(l: Label, tx: Tx) {
    l.FetchReceipt? && l.tx == tx && l.answer.Some? && l.answer.value.status != 1
  }

  predicate Inserts(s: State, s': State, h: Word) { h !in s.table && h in s'.table }

  /** A row the loop has claimed and not yet decided on has no unresolved carrier. */
  lemma ClaimedNotCarried(s: State, h: Word)
    requires LoopOk(s) && CarryOk(s) && !s.hist.tainted && s.loop.LClaimed? && h in Held(s.loop)
    ensures h !in s.hist.carrier
  {
    assert h in s.hist.carrier ==> CarryRow(s, h);
  }

  lemma HeldIsCarried(b: seq<Snap>, tx: Tx, h: Word)
    ensures h in CarriedBy(b, tx) <==> h in Held(LClaimed(b))
    ensures h in CarriedBy(b, tx) ==> CarriedBy(b, tx)[h] == tx
  {}

  /** The step at l puts op h, among others, into transaction tx: accepted, or leaked by an errored submit. */
  predicate Puts(s: State, l: Label, h: Word, tx: Tx) {
    && s.loop.LClaimed? && h in Held(s.loop)
    && ((l.Broadcast? && l.tx == tx) || (l.SubmitFails? && l.leaked == Some(tx)))
  }

  lemma CarrierOther(c: Config, s: State, l: Label, h: Word, tx: Tx)
    requires Next(c, s, l).Some? && !l.Broadcast? && !(l.SubmitFails? && l.leaked.Some?)
    requires h in s.hist.carrier && s.hist.carrier[h] == tx
    requires !FailsTx(l, tx) && !Inserts(s, Next(c, s, l).value, h)
    ensures var s' := Next(c, s, l).value; h in s'.hist.carrier && s'.hist.carrier[h] == tx
  {}

  lemma CarrierStep(c: Config, s: State, l: Label, h: Word, tx: Tx)
    requires Inv(c, s) && !s.hist.tainted && Next(c, s, l).Some?
    requires h in s.hist.carrier && s.hist.carrier[h] == tx
    requires !FailsTx(l, tx) && !Inserts(s, Next(c, s, l).value, h)
    ensures var s' := Next(c, s, l).value; h in s'.hist.carrier && s'.hist.carrier[h] == tx
  {
    if l.Broadcast? || (l.SubmitFails? && l.leaked.Some?) {
      if h in Held(s.loop) { ClaimedNotCarried(s, h); }
      HeldIsCarried(s.loop.batch, if l.Broadcast? then l.tx else l.leaked.value, h);
    } else {
      CarrierOther(c, s, l, h, tx);
    }
  }

  lemma {:induction false} CarrierStays(c: Config, ss: seq<State>, ls: seq<Label>, i: nat, j: nat, h: Word, tx: Tx)
    requires Run(c, ss, ls) && i <= j < |ss| && !ss[j].hist.tainted
    requires forall k :: 0 <= k < j ==> !Loses(ss[k], ls[k])
    requires h in ss[i].hist.carrier && ss[i].hist.carrier[h] == tx
    requires forall k :: i <= k < j ==> !FailsTx(ls[k], tx) && !Inserts(ss[k], ss[k + 1], h)
    ensures h in ss[j].hist.carrier && ss[j].hist.carrier[h] == tx
    decreases j
  {
    if i < j {
      Untainted(c, ss, ls, j - 1);
      CarrierStays(c, ss, ls, i, j - 1, h, tx);
      RunInv(c, ss, ls, j - 1);
      assert StepAt(c, ss, ls, j - 1);
      CarrierStep(c, ss[j - 1], ls[j - 1], h, tx);
    }
  }

  /** If a run puts the same op hash into two transactions, accepted or leaked, and before the second no
      broadcast was leaked or left unrecorded, then between them the first transaction was observed
      with a status other than 1, or the op's row was pruned and inserted anew. */
  lemma NoDoubleCarriage(c: Config, ss: seq<State>, ls: seq<Label>, i: nat, j: nat, h: Word, tx: Tx, tx': Tx)
    requires Run(c, ss, ls) && i < j < |ls|
    requires Puts(ss[i], ls[i], h, tx) && Puts(ss[j], ls[j], h, tx')
    requires forall k :: 0 <= k < j ==> !Loses(ss[k], ls[k])
    ensures exists k :: i < k < j && (FailsTx(ls[k], tx) || Inserts(ss[k], ss[k + 1], h))
  {
    if forall k :: i < k < j ==> !FailsTx(ls[k], tx) && !Inserts(ss[k], ss[k + 1], h) {
      assert StepAt(c, ss, ls, i);
      HeldIsCarried(ss[i].loop.batch, tx, h);
      Untainted(c, ss, ls, j);
      CarrierStays(c, ss, ls, i + 1, j, h, tx);
      RunInv(c, ss, ls, j);
      ClaimedNotCarried(ss[j], h);
      assert false;
    }
  }

  /** Up to state n no answer of the node for the next nonce was behind a transaction it accepted. */
  ghost predicate NodeAhead(ss: seq<State>, ls: seq<Label>, n: nat) {
    && n < |ss| <= |ls| + 1
    && (forall k :: 0 <= k < n && ls[k].InitNonce? ==> !Behind(ss[k].hist, ls[k].n))
    && (forall k :: 0 <= k < n && ls[k].SubmitFails? && ls[k].resync.Some? ==>
          !Behind(ss[k].hist, ls[k].resync.value))
  }

  /** Accepted bundle transactions never share a nonce, as long as the node's nonce answers are
      never behind a transaction it accepted. */
  lemma NoncesIncrease(c: Config, ss: seq<State>, ls: seq<Label>, n: nat, i: nat, j: nat)
    requires Run(c, ss, ls) && NodeAhead(ss, ls, n)
    requires i < j < |ss[n].hist.sent|
    ensures ss[n].hist.sent[i].nonce < ss[n].hist.sent[j].nonce
  {
    NeverBehind(c, ss, ls, n);
    RunInv(c, ss, ls, n);
  }

  lemma {:induction false} NeverBehind(c: Config, ss: seq<State>, ls: seq<Label>, n: nat)
    requires Run(c, ss, ls) && NodeAhead(ss, ls, n)
    ensures !ss[n].hist.behind
  {
    if n > 0 {
      NeverBehind(c, ss, ls, n - 1);
      assert StepAt(c, ss, ls, n - 1);
    }
  }

  // ----- recovery -----

  /** While the loop's status writes have succeeded since some start-up sweep, no row is in bundling
      whenever the loop is between ticks or between fetch and claim: every return path of a tick has
      released its rows, whatever was lost before the sweep. */
  lemma NothingLeftInBundling(c: Config, ss: seq<State>, ls: seq<Label>, b: nat, n: nat, h: Word)
    requires Run(c, ss, ls) && b < n < |ss| && ls[b].BootReset?
    requires forall k :: b < k < n && ls[k].LoopWrite? ==> ls[k].ok
    requires ss[n].phase != Down && (ss[n].loop.LIdle? || ss[n].loop.LFetched?) && h in ss[n].table
    ensures ss[n].table[h].status != Bundling
  {
    NothingLost(c, ss, ls, b, n);
    RunInv(c, ss, ls, n);
  }

  lemma LostStep(c: Config, s: State, l: Label)
    requires Next(c, s, l).Some? && (l.BootReset? || (!s.hist.lost && (l.LoopWrite? ==> l.ok)))
    ensures !Next(c, s, l).value.hist.lost
  {}

  lemma {:induction false} NothingLost(c: Config, ss: seq<State>, ls: seq<Label>, b: nat, n: nat)
    requires Run(c, ss, ls) && b < n < |ss| && ls[b].BootReset?
    requires forall k :: b < k < n && ls[k].LoopWrite? ==> ls[k].ok
    ensures !ss[n].hist.lost
  {
    assert StepAt(c, ss, ls, n - 1);
    if n > b + 1 { NothingLost(c, ss, ls, b, n - 1); }
    LostStep(c, ss[n - 1], ls[n - 1]);
  }

  // ----- FIFO -----

  /** Live ops received strictly before time r. */
  function LiveBefore(t: Table, r: int): set<Word> { set h | h in t && LiveIn(t, h) && t[h].receivedAt < r }

  function Stamp(l: Label): Option<int> {
    match l case Intake(_, _, now) => Some(now) case ReplaceOp(_, _, _, now) => Some(now) case _ => None
  }

  /** Inserts read a clock that never goes back. */
  predicate ClockMonotone(ls: seq<Label>) {
    forall i, j :: 0 <= i < j < |ls| && Stamp(ls[i]).Some? && Stamp(ls[j]).Some? ==>
      Stamp(ls[i]).value <= Stamp(ls[j]).value
  }

  /** A row that appears in a step is the one inserted, stamped with the step's clock. */
  lemma NewRowIsStamped(c: Config, s: State, l: Label, h: Word)
    requires Inv(c, s) && Next(c, s, l).Some? && h !in s.table && h in Next(c, s, l).value.table
    ensures Stamp(l).Some? && Next(c, s, l).value.table[h].receivedAt == Stamp(l).value
  {}

  lemma QueueStep(c: Config, s: State, l: Label, r: int)
    requires Inv(c, s) && Next(c, s, l).Some?
    requires Stamp(l).Some? ==> Stamp(l).value >= r
    ensures LiveBefore(Next(c, s, l).value.table, r) <= LiveBefore(s.table, r)
  {
    var t := Next(c, s, l).value.table;
    forall h | h in LiveBefore(t, r) ensures h in LiveBefore(s.table, r) {
      if h in s.table { StepLifecycle(c, s, l, h); } else { NewRowIsStamped(c, s, l, h); }
    }
  }

  lemma {:induction false} LaterStamps(c: Config, ss: seq<State>, ls: seq<Label>, i: nat, k: nat, h: Word)
    requires Run(c, ss, ls) && ClockMonotone(ls) && i <= k < |ls| && Stamp(ls[k]).Some? && h in ss[i].table
    ensures ss[i].table[h].receivedAt <= Stamp(ls[k]).value
  {
    if i > 0 {
      RunInv(c, ss, ls, i - 1);
      assert StepAt(c, ss, ls, i - 1);
      if h in ss[i - 1].table {
        StepLifecycle(c, ss[i - 1], ls[i - 1], h);
        LaterStamps(c, ss, ls, i - 1, k, h);
      } else {
        NewRowIsStamped(c, ss[i - 1], ls[i - 1], h);
      }
    }
  }

  /** FIFO fairness: once an op is in the table, the set of live ops received strictly before it only
      shrinks, across claims, failures, resets to pending, crashes and restarts. */
  lemma {:induction false} QueueOnlyShrinks(c: Config, ss: seq<State>, ls: seq<Label>, i: nat, j: nat, h: Word)
    requires Run(c, ss, ls) && ClockMonotone(ls) && i <= j < |ss| && h in ss[i].table
    ensures LiveBefore(ss[j].table, ss[i].table[h].receivedAt) <= LiveBefore(ss[i].table, ss[i].table[h].receivedAt)
    decreases j
  {
    if i < j {
      QueueOnlyShrinks(c, ss, ls, i, j - 1, h);
      RunInv(c, ss, ls, j - 1);
      assert StepAt(c, ss, ls, j - 1);
      if Stamp(ls[j - 1]).Some? { LaterStamps(c, ss, ls, i, j - 1, h); }
      QueueStep(c, ss[j - 1], ls[j - 1], ss[i].table[h].receivedAt);
    }
  }

  // ----- confirmation is backed by evidence -----

  predicate Fetched(l: Label, tx: Tx, r: Receipt) { l.FetchReceipt? && l.tx == tx && l.answer == Some(r) }

  lemma SeenStep(c: Config, s: State, l: Label, p: (Tx, Receipt))
    requires Next(c, s, l).Some? && p in Next(c, s, l).value.hist.seen
    ensures p in s.hist.seen || Fetched(l, p.0, p.1)
  {}

  lemma {:induction false} SeenWasFetched(c: Config, ss: seq<State>, ls: seq<Label>, n: nat, p: (Tx, Receipt))
    requires Run(c, ss, ls) && n < |ss| && p in ss[n].hist.seen
    ensures exists k :: 0 <= k < n && Fetched(ls[k], p.0, p.1)
  {
    if n > 0 {
      assert StepAt(c, ss, ls, n - 1);
      SeenStep(c, ss[n - 1], ls[n - 1], p);
      if p in ss[n - 1].hist.seen { SeenWasFetched(c, ss, ls, n - 1, p); }
    }
  }

  /** Receipt r reports op h a success at position e: there stands the entry point's own event log for h with
      success byte 1, and no later one for h; row holds that log's gas cost and the receipt's block. */
  ghost predicate Attests(ev: Events, r: Receipt, h: Word, e: int, row: Row) {
    && r.status == 1 && 0 <= e < |r.logs|
    && r.logs[e].address == ev.entryPoint && |r.logs[e].topics| >= 2 && |r.logs[e].data| >= 96
    && r.logs[e].topics[0] == ev.opEvent && r.logs[e].topics[1] == h && r.logs[e].data[63] == 1
    && (forall j :: e < j < |r.logs| ==> !EventFor(ev, r.logs[j], h))
    && row.gasCost == Some(Nat(r.logs[e].data[64..96])) && row.block == Some(r.block)
  }

  /** In every run, a confirmed row's own transaction was fetched with a status-1 receipt whose last
      well-formed UserOperationEvent for the op says success; the row holds that event's cost and block. */
  lemma ConfirmedHasEvidence(c: Config, ss: seq<State>, ls: seq<Label>, n: nat, h: Word)
    requires Run(c, ss, ls) && n < |ss| && h in ss[n].table && ss[n].table[h].status == Confirmed
    ensures ss[n].table[h].bundleTx.Some?
    ensures exists k, r, e :: 0 <= k < n && Fetched(ls[k], ss[n].table[h].bundleTx.value, r)
                              && Attests(c.events, r, h, e, ss[n].table[h])
  {
    RunInv(c, ss, ls, n);
    var row := ss[n].table[h];
    var p :| p in ss[n].hist.seen && p.0 == row.bundleTx.value && Reports(c.events, p.1, h, row);
    SeenWasFetched(c, ss, ls, n, p);
    var k :| 0 <= k < n && Fetched(ls[k], p.0, p.1);
    var e := LastEventExists(c.events, p.1.logs, h);
    var q := LastReasonExists(c.events, p.1.logs, h, e);
    ParseMeaning(c.events, p.1.logs, h, e, q);
    assert Attests(c.events, p.1, h, e, row);
  }

  // ----- Reconcile -----

  /** A stretch of steps from any state of the invariant, reachable from START or not. */
  ghost predicate Stretch(c: Config, ss: seq<State>, ls: seq<Label>) {
    && |ss| == |ls| + 1 && Inv(c, ss[0])
    && forall i :: 0 <= i < |ls| ==> StepAt(c, ss, ls, i)
  }

  /** A receipt fetched for tx makes the one row into the other, column by column. */
  ghost predicate DecidedBy(c: Config, ls: seq<Label>, n: nat, tx: Tx, e: Entry, before: Row, after: Row) {
    exists k :: 0 <= k < n <= |ls| && DecidesAt(c, ls[k], tx, e, before, after)
  }

  ghost predicate DecidesAt(c: Config, l: Label, tx: Tx, e: Entry, before: Row, after: Row) {
    && l.FetchReceipt? && l.tx == tx && l.answer.Some?
    && SettledRow(c.events, l.answer.value, l.revertData, e, before, after, after.updatedAt)
  }

  /** The verdict writes exactly these columns; only the time of the write is free. */
  predicate DecidesRow(c: Config, v: Verdict, e: Entry, before: Row, after: Row) {
    var d := Decision(c.events, v, e);
    d.Some? && after == Updated(before, d.value.0, d.value.1, after.updatedAt)
  }

  /** The verdict under visit came from a receipt fetched in this stretch. */
  ghost predicate VisitFetched(c: Config, ls: seq<Label>, n: nat, v: Visit) {
    exists k :: 0 <= k < n <= |ls| && VerdictAt(c, ls[k], v)
  }

  predicate VerdictAt(c: Config, l: Label, v: Visit) {
    l.FetchReceipt? && l.tx == v.tx && l.answer.Some?
    && VerdictOf(c.events, l.answer.value, l.revertData) == Some(v.verdict)
  }

  lemma {:induction false} StretchInv(c: Config, ss: seq<State>, ls: seq<Label>, n: nat)
    requires Stretch(c, ss, ls) && n < |ss|
    ensures Inv(c, ss[n])
  {
    if n > 0 {
      StretchInv(c, ss, ls, n - 1);
      assert StepAt(c, ss, ls, n - 1);
      KeepAny(c, ss[n - 1], ls[n - 1]);
    }
  }

  /** Reconcile's own path: started from Down, not crashed, before Up. */
  ghost predicate Reconciling(ss: seq<State>, n: nat) {
    n < |ss| && ss[0].phase == Down &&
    forall k :: 0 < k <= n ==> ss[k].phase == Swept || ss[k].phase == Checking || ss[k].phase == Checked
  }

  /** A start-up step ends with the visit it began with, less its first op, or with the one it opened. */
  lemma VisitStep(c: Config, s: State, l: Label, v: Visit)
    requires Next(c, s, l).Some?
    requires var w := Next(c, s, l).value.watch; w.WBusy? && w.visit == Some(v)
    ensures VerdictAt(c, l, v)
      || (s.watch.WBusy? && s.watch.visit.Some?
          && s.watch.visit.value.tx == v.tx && s.watch.visit.value.verdict == v.verdict)
  {}

  lemma {:induction false} VisitsAreFetched(c: Config, ss: seq<State>, ls: seq<Label>, n: nat, v: Visit)
    requires Stretch(c, ss, ls) && Reconciling(ss, n) && ss[n].watch.WBusy? && ss[n].watch.visit == Some(v)
    ensures VisitFetched(c, ls, n, v)
  {
    if n > 0 {
      assert StepAt(c, ss, ls, n - 1);
      VisitStep(c, ss[n - 1], ls[n - 1], v);
      if !VerdictAt(c, ls[n - 1], v) {
        var v0 := ss[n - 1].watch.visit.value;
        VisitsAreFetched(c, ss, ls, n - 1, v0);
        var k :| 0 <= k < n - 1 <= |ls| && VerdictAt(c, ls[k], v0);
        assert VerdictAt(c, ls[k], v);
      }
    }
  }

  /** Where Reconcile leaves a row found in the table: a bundling row becomes pending and is otherwise
      the same, a submitted row is the same or exactly what a fetched receipt of its own transaction
      makes of it, every other row is untouched. */
  ghost predicate Reconciled(c: Config, ls: seq<Label>, n: nat, h: Word, before: Row, after: Row) {
    match before.status
    case Bundling => after == before.(status := Pending, updatedAt := after.updatedAt)
    case Submitted =>
      after == before ||
      (before.bundleTx.Some? && DecidedBy(c, ls, n, before.bundleTx.value, Entry(h, before.bundleIndex), before, after))
    case _ => after == before
  }

  /** Once the sweep is over, a start-up step that changes a row is the write decided for the first op
      of the visit, and that op is the row. */
  lemma BootMovesOnly(c: Config, s: State, l: Label, h: Word)
    requires Inv(c, s) && Next(c, s, l).Some? && h in s.table
    requires s.phase != Down && s.phase != Up && Next(c, s, l).value.phase != Up && Next(c, s, l).value.phase != Down
    ensures h in Next(c, s, l).value.table
    ensures var r := Next(c, s, l).value.table[h]; r != s.table[h] ==>
      && s.watch.WBusy? && s.watch.visit.Some?
      && var v := s.watch.visit.value;
        && v.rest != [] && v.rest[0].h == h && Owned(s.table, v.tx, v.rest[0])
        && DecidesRow(c, v.verdict, v.rest[0], s.table[h], r)
  {
    if l.WatchWrite? { WatchWriteTable(c, s, l.ok, l.now); }
  }

  /** What is known of a row stays known. */
  lemma ReconciledGrows(c: Config, ls: seq<Label>, n: nat, h: Word, before: Row, after: Row)
    requires 0 < n <= |ls| && Reconciled(c, ls, n - 1, h, before, after)
    ensures Reconciled(c, ls, n, h, before, after)
  {
    if before.status == Submitted && after != before {
      var e := Entry(h, before.bundleIndex);
      var k :| 0 <= k < n - 1 <= |ls| && DecidesAt(c, ls[k], before.bundleTx.value, e, before, after);
      assert DecidesAt(c, ls[k], before.bundleTx.value, e, before, after);
    }
  }

  /** A row that a visit moves was still as the start-up found it. */
  lemma ReconcileWrite(c: Config, ls: seq<Label>, n: nat, h: Word, r0: Row, r1: Row, r2: Row, v: Visit)
    requires 0 < n <= |ls| && Reconciled(c, ls, n - 1, h, r0, r1) && VisitFetched(c, ls, n - 1, v)
    requires r1.status == Submitted && r1.bundleTx == Some(v.tx)
    requires DecidesRow(c, v.verdict, Entry(h, r1.bundleIndex), r1, r2)
    ensures Reconciled(c, ls, n, h, r0, r2)
  {
    SubmittedIsOriginal(c, ls, n - 1, h, r0, r1);
    var k :| 0 <= k < n - 1 <= |ls| && VerdictAt(c, ls[k], v);
    SettledDecision(c.events, ls[k].answer.value, ls[k].revertData, v.verdict, Entry(h, r0.bundleIndex), r0,
                    r2.updatedAt);
    assert DecidesAt(c, ls[k], v.tx, Entry(h, r0.bundleIndex), r0, r2);
  }

  /** One step of start-up after the sweep. */
  lemma ReconcileStep(c: Config, s: State, ls: seq<Label>, n: nat, h: Word, r0: Row)
    requires 0 < n <= |ls| && Inv(c, s) && Next(c, s, ls[n - 1]).Some? && h in s.table
    requires s.phase != Down && s.phase != Up
    requires Next(c, s, ls[n - 1]).value.phase != Up && Next(c, s, ls[n - 1]).value.phase != Down
    requires Reconciled(c, ls, n - 1, h, r0, s.table[h])
    requires s.watch.WBusy? && s.watch.visit.Some? ==> VisitFetched(c, ls, n - 1, s.watch.visit.value)
    ensures var t := Next(c, s, ls[n - 1]).value.table; h in t && Reconciled(c, ls, n, h, r0, t[h])
  {
    var r1, r2 := s.table[h], Next(c, s, ls[n - 1]).value.table[h];
    BootMovesOnly(c, s, ls[n - 1], h);
    if r1 != r2 {
      ReconcileWrite(c, ls, n, h, r0, r1, r2, s.watch.visit.value);
    } else {
      ReconciledGrows(c, ls, n, h, r0, r1);
    }
  }

  lemma {:induction false} ReconcileRow(c: Config, ss: seq<State>, ls: seq<Label>, n: nat, h: Word)
    requires Stretch(c, ss, ls) && Reconciling(ss, n) && n > 0 && h in ss[0].table
    ensures h in ss[n].table && Reconciled(c, ls, n, h, ss[0].table[h], ss[n].table[h])
  {
    if n == 1 {
      assert StepAt(c, ss, ls, 0);
      SweepMoves(c, ss[0], ls[0], ss[1]);
    } else {
      ReconcileRow(c, ss, ls, n - 1, h);
      ReconcileNext(c, ss, ls, n, h);
    }
  }

  lemma ReconcileNext(c: Config, ss: seq<State>, ls: seq<Label>, n: nat, h: Word)
    requires Stretch(c, ss, ls) && Reconciling(ss, n) && n > 1 && h in ss[0].table && h in ss[n - 1].table
    requires Reconciled(c, ls, n - 1, h, ss[0].table[h], ss[n - 1].table[h])
    ensures h in ss[n].table && Reconciled(c, ls, n, h, ss[0].table[h], ss[n].table[h])
  {
    var w := ss[n - 1].watch;
    assert StepAt(c, ss, ls, n - 1);
    StretchInv(c, ss, ls, n - 1);
    if w.WBusy? && w.visit.Some? { VisitsAreFetched(c, ss, ls, n - 1, w.visit.value); }
    ReconcileStep(c, ss[n - 1], ls, n, h, ss[0].table[h]);
  }

  /** The first step of a start-up is the sweep. */
  lemma SweepMoves(c: Config, s: State, l: Label, s': State)
    requires s.phase == Down && Next(c, s, l) == Some(s') && s'.phase != Down && LoopOk(s) && WatchOk(c, s)
    ensures s'.table.Keys == s.table.Keys
    ensures forall h :: h in s.table ==>
      if s.table[h].status == Bundling
      then s'.table[h] == s.table[h].(status := Pending, updatedAt := s'.table[h].updatedAt)
      else s'.table[h] == s.table[h]
  {}

  lemma SubmittedIsOriginal(c: Config, ls: seq<Label>, n: nat, h: Word, before: Row, after: Row)
    requires Reconciled(c, ls, n, h, before, after) && after.status == Submitted
    ensures after == before
  {
    if before.status == Submitted && after != before {
      var e := Entry(h, before.bundleIndex);
      var k :| 0 <= k < n <= |ls| && DecidesAt(c, ls[k], before.bundleTx.value, e, before, after);
      SettledLeaves(c.events, ls[k].answer.value, ls[k].revertData, e, before, after, after.updatedAt);
    }
  }

  /** A start-up of n steps took table t to table u: no row in bundling, none added or deleted, each
      moved only as Reconciled allows. */
  ghost predicate Recovered(c: Config, ls: seq<Label>, n: nat, t: Table, u: Table) {
    && (forall h :: h in u ==> u[h].status != Bundling)
    && u.Keys == t.Keys
    && (forall h :: h in t ==> Reconciled(c, ls, n, h, t[h], u[h]))
  }

  /** Recovery: a start-up from any crashed state of the invariant that reaches the end of Reconcile
      leaves no row in bundling, has moved every row only as Reconciled allows, has deleted and added
      nothing, and is again in the protocol's invariant. */
  lemma ReconcileRecovers(c: Config, ss: seq<State>, ls: seq<Label>, n: nat)
    requires Stretch(c, ss, ls) && Reconciling(ss, n) && n > 0
    ensures Inv(c, ss[n]) && Recovered(c, ls, n, ss[0].table, ss[n].table)
  {
    TableRecovers(c, ss, ls, n);
    StretchInv(c, ss, ls, n);
  }

  lemma TableRecovers(c: Config, ss: seq<State>, ls: seq<Label>, n: nat)
    requires Stretch(c, ss, ls) && Reconciling(ss, n) && n > 0
    ensures Recovered(c, ls, n, ss[0].table, ss[n].table)
  {
    forall h | h in ss[0].table
      ensures h in ss[n].table && Reconciled(c, ls, n, h, ss[0].table[h], ss[n].table[h]) {
      ReconcileRow(c, ss, ls, n, h);
    }
    NoNewRows(c, ss, ls, n);
    SweptHasNoBundling(c, ss, ls, n);
  }

  lemma BootAddsNothing(c: Config, s: State, l: Label)
    requires Next(c, s, l).Some? && Next(c, s, l).value.phase != Up
    ensures Next(c, s, l).value.table.Keys <= s.table.Keys
  {}

  lemma {:induction false} NoNewRows(c: Config, ss: seq<State>, ls: seq<Label>, n: nat)
    requires Stretch(c, ss, ls) && Reconciling(ss, n)
    ensures ss[n].table.Keys <= ss[0].table.Keys
  {
    if n > 0 {
      NoNewRows(c, ss, ls, n - 1);
      assert StepAt(c, ss, ls, n - 1);
      BootAddsNothing(c, ss[n - 1], ls[n - 1]);
    }
  }

  /** The sweep clears the flag of lost writes and nothing in start-up sets it or wakes the loop. */
  lemma BootStep(c: Config, s: State, l: Label)
    requires Next(c, s, l).Some? && Next(c, s, l).value.phase != Up && Next(c, s, l).value.phase != Down
    requires s.loop.LIdle? && (s.phase == Down || (s.phase != Up && !s.hist.lost))
    ensures Next(c, s, l).value.loop.LIdle? && !Next(c, s, l).value.hist.lost
  {}

  lemma {:induction false} SweptHasNoBundling(c: Config, ss: seq<State>, ls: seq<Label>, n: nat)
    requires Stretch(c, ss, ls) && Reconciling(ss, n) && n > 0
    ensures !ss[n].hist.lost && ss[n].loop.LIdle?
    ensures forall h :: h in ss[n].table ==> ss[n].table[h].status != Bundling
  {
    assert StepAt(c, ss, ls, n - 1);
    if n > 1 { SweptHasNoBundling(c, ss, ls, n - 1); }
    BootStep(c, ss[n - 1], ls[n - 1]);
    StretchInv(c, ss, ls, n);
  }

  /** The start-up that began in state b is still before Up in state n. */
  ghost predicate StartingUp(ss: seq<State>, b: nat, n: nat) {
    b <= n < |ss| && ss[b].phase == Down &&
    forall k :: b < k <= n ==> ss[k].phase == Swept || ss[k].phase == Checking || ss[k].phase == Checked
  }

  lemma StartUpSuffix(ss: seq<State>, b: nat, n: nat)
    requires StartingUp(ss, b, n) && n + 1 == |ss|
    ensures Reconciling(ss[b..], n - b) && ss[b..][0] == ss[b] && ss[b..][n - b] == ss[n]
  {
    forall k | 0 < k <= n - b
      ensures ss[b..][k].phase == Swept || ss[b..][k].phase == Checking || ss[b..][k].phase == Checked {
      assert ss[b..][k] == ss[b + k];
    }
  }

  /** The same inside a run whose current start-up began at state b. */
  lemma RunReconciles(c: Config, ss: seq<State>, ls: seq<Label>, b: nat, u: Table)
    requires Run(c, ss, ls) && b < |ls| && StartingUp(ss, b, |ls|) && ss[|ls|].table == u
    ensures Recovered(c, ls[b..], |ls| - b, ss[b].table, u)
  {
    StartUpSuffix(ss, b, |ls|);
    SuffixSteps(c, ss, ls, b);
    TableRecovers(c, ss[b..], ls[b..], |ls| - b);
  }
}
