/** The protocol with the real encoder, decoder, hash and row codec in it. */
module EndToEnd {
  import opened Bytes
  import opened UserOps
  import opened Mempool
  import opened Receipts
  import opened Abi
  import opened UserOpHash
  import opened EntryPoint
  import opened Protocol
  import opened Runs
  import opened Routing
  import opened Broadcasts
  import opened Placement
  import opened TextTable
  import opened TextMachine
  import Actors
  import Resubmission
  import Wire

  /** The op an entry point finds at position i of the calldata it is called with. */
  function Seen(selector: Bytes, calldata: Bytes, i: nat): Option<PackedUserOp> {
    var call := DecodeHandleOps(selector, calldata);
    if call.None? || i >= |call.value.ops| then None else Some(call.value.ops[i])
  }

  /** What entry point ep computes for it, on its own side: from the bytes of the element. */
  function EntryPointHash(k: Hasher, selector: Bytes, ep: Address, chain: nat, calldata: Bytes, i: nat): Option<Word> {
    var t := Element(selector, calldata, i);
    if t.None? then None else GetUserOpHash(k, t.value, ep, chain)
  }

  lemma HashOfSeen(k: Hasher, selector: Bytes, ep: Address, chain: nat, calldata: Bytes, i: nat)
    ensures EntryPointHash(k, selector, ep, chain, calldata, i) ==
      var op := Seen(selector, calldata, i);
      if op.None? then None else Some(Hash(k, op.value, ep, chain))
  {
    if DecodeHandleOps(selector, calldata).Some? { ElementIsOp(k, selector, calldata, i, ep, chain); }
  }

  /** keccak k, handleOps selector, the configured entry points, chain id and bundler address. Intake
      takes ops for all of the entry points, the loop submits to the first. */
  function Deployment(k: Hasher, selector: Bytes, eps: seq<Address>, chain: nat, signer: Address, ev: Events,
                      maxBundle: int): Config
    requires eps != []
  {
    Config(eps,
           (op, e) => Hash(k, op, e, chain),
           ops => HandleOps(selector, ops, signer),
           (cd, i) => EntryPointHash(k, selector, eps[0], chain, cd, i),
           ev, maxBundle)
  }

  lemma ElementSeen(selector: Bytes, signer: Address, ops: seq<PackedUserOp>, i: nat)
    requires |selector| == 4 && |HandleOps(selector, ops, signer)| <= MAX_LEN
    ensures Seen(selector, HandleOps(selector, ops, signer), i) == if i < |ops| then Some(Canonical(ops[i])) else None
  {
    HandleOpsRoundTrip(selector, ops, signer);
  }

  lemma ElementHash(k: Hasher, selector: Bytes, ep: Address, chain: nat, signer: Address,
                    ops: seq<PackedUserOp>, i: nat)
    requires |selector| == 4 && |HandleOps(selector, ops, signer)| <= MAX_LEN
    ensures EntryPointHash(k, selector, ep, chain, HandleOps(selector, ops, signer), i)
              == if i < |ops| then Some(Hash(k, ops[i], ep, chain)) else None
  {
    ElementSeen(selector, signer, ops, i);
    HashOfSeen(k, selector, ep, chain, HandleOps(selector, ops, signer), i);
    if i < |ops| { HashOfCanonical(k, ops[i], ep, chain); }
  }

  lemma DeploymentDecodes(k: Hasher, selector: Bytes, eps: seq<Address>, chain: nat, signer: Address,
                          ev: Events, maxBundle: int)
    requires |selector| == 4 && eps != []
    ensures Decodes(Deployment(k, selector, eps, chain, signer, ev, maxBundle))
  {
    var c := Deployment(k, selector, eps, chain, signer, ev, maxBundle);
    forall ops: seq<PackedUserOp>, i: nat | |c.build(ops)| <= MAX_LEN
      ensures c.hashAt(c.build(ops), i) == if i < |ops| then Some(c.hashOf(ops[i], c.entryPoints[0])) else None {
      ElementHash(k, selector, eps[0], chain, signer, ops, i);
    }
  }

  // ----- one entry point -----

  lemma DecodedRowIsWhatTheChainSees(k: Hasher, selector: Bytes, ep: Address, chain: nat, signer: Address,
                                     ev: Events, maxBundle: int, ss: seq<State>, ls: seq<Label>, n: nat, h: Word)
    requires |selector| == 4 && Run(Deployment(k, selector, [ep], chain, signer, ev, maxBundle), ss, ls)
    requires n < |ss| && h in ss[n].table && OnChain(ss[n].table[h])
    ensures var r := ss[n].table[h];
      && r.bundleTx.Some? && r.bundleIndex.Some?
      && EntryPointHash(k, selector, ep, chain, r.bundleTx.value.calldata, r.bundleIndex.value) == Some(h)
      && Hash(k, r.op, ep, chain) == h
  {
    var c := Deployment(k, selector, [ep], chain, signer, ev, maxBundle);
    DeploymentDecodes(k, selector, [ep], chain, signer, ev, maxBundle);
    IndexHashesToKey(c, ss, ls, n, h);
    RowIsRouted(c, ss, ls, n, h);
    AdmittedToOne(c, h, ss[n].table[h].op);
  }

  /** Stored row s of the text table: its columns read back to an op and its hash, the entry point finds at
      bundle_index of the row's transaction an op with exactly that hash, and the op read back has
      it too. */
  predicate ChainSees(k: Hasher, selector: Bytes, ep: Address, chain: nat, s: Stored) {
    var row := Wire.HydrateRow(s.cols);
    && row.Ok? && s.meta.bundleTx.Some? && s.meta.bundleIndex.Some?
    && EntryPointHash(k, selector, ep, chain, s.meta.bundleTx.value.calldata, s.meta.bundleIndex.value)
         == Some(row.value.1)
    && Hash(k, row.value.0, ep, chain) == row.value.1
  }

  /** End to end, in every run of the bundler on its stored table and every state of it: take any submitted
      or confirmed row; the entry point, decoding the calldata of the row's transaction and hashing
      element bundle_index, gets exactly the hash stored. Crosses intake, row codec, table, batch loop,
      ABI encoder, decoder and userOpHash; no restriction on nonces. */
  lemma SubmittedRowIsWhatTheChainSees(k: Hasher, selector: Bytes, ep: Address, chain: nat, signer: Address,
                                       ev: Events, maxBundle: int, xs: seq<TextState>, ls: seq<Label>, n: nat,
                                       x: string)
    requires |selector| == 4 && TextRun(Deployment(k, selector, [ep], chain, signer, ev, maxBundle), xs, ls)
    requires n < |xs| && x in xs[n].rows
    requires var st := xs[n].rows[x].meta.status; st == Submitted || st == Confirmed
    ensures ChainSees(k, selector, ep, chain, xs[n].rows[x])
  {
    var ss := RunOfText(Deployment(k, selector, [ep], chain, signer, ev, maxBundle), xs, ls);
    assert xs[n] == Images(ss)[n] == Image(ss[n]);
    StoredRowIsSeen(k, selector, ep, chain, signer, ev, maxBundle, ss, ls, n, x);
  }

  lemma StoredRowIsSeen(k: Hasher, selector: Bytes, ep: Address, chain: nat, signer: Address,
                        ev: Events, maxBundle: int, ss: seq<State>, ls: seq<Label>, n: nat, x: string)
    requires |selector| == 4 && Run(Deployment(k, selector, [ep], chain, signer, ev, maxBundle), ss, ls)
    requires n < |ss| && x in Texts(ss[n].table)
    requires var st := Texts(ss[n].table)[x].meta.status; st == Submitted || st == Confirmed
    ensures ChainSees(k, selector, ep, chain, Texts(ss[n].table)[x])
  {
    var h := RowOfText(ss[n].table, x);
    DecodedRowIsWhatTheChainSees(k, selector, ep, chain, signer, ev, maxBundle, ss, ls, n, h);
    Hydrates(h, ss[n].table[h]);
  }

  /** And the other way round: from a broadcast at a to the loop idle at b, with its writes succeeding and no
      crash, every element i that the entry point finds in the calldata has the hash of an op whose row
      is recorded under the transaction at bundle_index i; and it finds the elements of the batch, no
      more. */
  lemma EveryElementHasItsRow(k: Hasher, selector: Bytes, ep: Address, chain: nat, signer: Address,
                              ev: Events, maxBundle: int, ss: seq<State>, ls: seq<Label>, a: nat, b: nat, i: nat)
    requires |selector| == 4 && Run(Deployment(k, selector, [ep], chain, signer, ev, maxBundle), ss, ls)
    requires a < |ls| && ls[a].Broadcast? && WriteBackSpan(ss, ls, a + 1, b)
    ensures ss[a].loop.LClaimed?
    ensures var seen := EntryPointHash(k, selector, ep, chain, ls[a].tx.calldata, i);
      && (seen.Some? <==> i < |ss[a].loop.batch|)
      && (seen.Some? ==> seen.value == ss[a].loop.batch[i].h && Recorded(ss, ls, a, b, seen.value, ls[a].tx, i))
  {
    var c := Deployment(k, selector, [ep], chain, signer, ev, maxBundle);
    assert StepAt(c, ss, ls, a);
    var batch := ss[a].loop.batch;
    ElementHash(k, selector, ep, chain, signer, OpsOf(batch), i);
    if i < |batch| {
      RunRoutes(c, ss, ls, a);
      AdmittedToOne(c, batch[i].h, batch[i].op);
      BroadcastIsRecorded(c, ss, ls, a, b, i);
    }
  }

  /** The same for the code: whatever ticks, polls, sends, prunings, deaths and restarts a Node went
      through, its stored table agrees with what the entry point computes from its transactions. */
  lemma NodeMatchesChain(node: Actors.Node, k: Hasher, selector: Bytes, ep: Address, chain: nat, signer: Address,
                         ev: Events, maxBundle: int, x: string)
    requires |selector| == 4 && node.c == Deployment(k, selector, [ep], chain, signer, ev, maxBundle)
    requires node.Valid() && x in Texts(node.repo.rows)
    requires var st := Texts(node.repo.rows)[x].meta.status; st == Submitted || st == Confirmed
    ensures ChainSees(k, selector, ep, chain, Texts(node.repo.rows)[x])
  {
    StoredRowIsSeen(k, selector, ep, chain, signer, ev, maxBundle, node.ss, node.ls, |node.ls|, x);
  }

  // ----- several entry points -----

  /** The strings hashed for an op and any of the entry points. */
  function Hashed(k: Hasher, op: PackedUserOp, eps: seq<Address>, chain: nat): set<Bytes> {
    set ep, s | ep in eps && s in Preimages(k, op, ep, chain) :: s
  }

  lemma HashedHas(k: Hasher, op: PackedUserOp, eps: seq<Address>, chain: nat, ep: Address)
    requires ep in eps
    ensures Preimages(k, op, ep, chain) <= Hashed(k, op, eps, chain)
  {}

  lemma FewerCollisions(k: Hasher, a: set<Bytes>, b: set<Bytes>)
    requires CollisionFree(k, b) && a <= b
    ensures CollisionFree(k, a)
  {}

  /** Among the strings hashed for two ops, equal hashes mean equal committed fields and entry point. */
  lemma SameHash(k: Hasher, a: PackedUserOp, ea: Address, b: PackedUserOp, eb: Address, eps: seq<Address>, chain: nat)
    requires IsUint256(chain) && ea in eps && eb in eps
    requires CollisionFree(k, Hashed(k, a, eps, chain) + Hashed(k, b, eps, chain))
    ensures Hash(k, a, ea, chain) == Hash(k, b, eb, chain) <==> Committed(a) == Committed(b) && ea == eb
  {
    HashedHas(k, a, eps, chain, ea);
    HashedHas(k, b, eps, chain, eb);
    FewerCollisions(k, Preimages(k, a, ea, chain) + Preimages(k, b, eb, chain),
                    Hashed(k, a, eps, chain) + Hashed(k, b, eps, chain));
    HashCommits(k, a, ea, chain, b, eb, chain);
  }

  /** What the first entry point finds for a submitted or confirmed row: some op admitted under the
      row's key. */
  lemma FirstSees(k: Hasher, selector: Bytes, eps: seq<Address>, chain: nat, signer: Address,
                  ev: Events, maxBundle: int, ss: seq<State>, ls: seq<Label>, n: nat, h: Word) returns (ep: Address)
    requires |selector| == 4 && eps != [] && Run(Deployment(k, selector, eps, chain, signer, ev, maxBundle), ss, ls)
    requires n < |ss| && h in ss[n].table && OnChain(ss[n].table[h])
    ensures var r := ss[n].table[h];
      && r.bundleTx.Some? && r.bundleIndex.Some?
      && var seen := Seen(selector, r.bundleTx.value.calldata, r.bundleIndex.value);
        seen.Some? && ep in eps && Hash(k, seen.value, ep, chain) == h
  {
    var c := Deployment(k, selector, eps, chain, signer, ev, maxBundle);
    RowIsRouted(c, ss, ls, n, h);
    var r := ss[n].table[h];
    var b: seq<Snap> :| Carries(c, r.bundleTx.value, b, r.bundleIndex.value, h);
    var op := b[r.bundleIndex.value].op;
    ep :| ep in c.entryPoints && c.hashOf(op, ep) == h;
    ElementSeen(selector, signer, OpsOf(b), r.bundleIndex.value);
    HashOfCanonical(k, op, ep, chain);
  }

  /** With any number of entry points the first one, which the loop submits to, always computes its own
      hash of the row's op. That is the row's key if and only if the op was admitted for the first
      entry point, unless the hash function collides on a string hashed for the row's op or for the op
      found in the calldata. */
  lemma ChainSeesKeyIffFirst(k: Hasher, selector: Bytes, eps: seq<Address>, chain: nat, signer: Address,
                             ev: Events, maxBundle: int, ss: seq<State>, ls: seq<Label>, n: nat, h: Word, ep: Address)
    requires |selector| == 4 && eps != [] && Run(Deployment(k, selector, eps, chain, signer, ev, maxBundle), ss, ls)
    requires n < |ss| && h in ss[n].table && OnChain(ss[n].table[h])
    requires ep in eps && Hash(k, ss[n].table[h].op, ep, chain) == h && IsUint256(chain)
    requires var r := ss[n].table[h];
      && r.bundleTx.Some? && r.bundleIndex.Some?
      && Seen(selector, r.bundleTx.value.calldata, r.bundleIndex.value).Some? ==>
        CollisionFree(k, Hashed(k, r.op, eps, chain)
                         + Hashed(k, Seen(selector, r.bundleTx.value.calldata, r.bundleIndex.value).value, eps, chain))
    ensures var r := ss[n].table[h];
      && r.bundleTx.Some? && r.bundleIndex.Some?
      && var found := EntryPointHash(k, selector, eps[0], chain, r.bundleTx.value.calldata, r.bundleIndex.value);
        found == Some(Hash(k, r.op, eps[0], chain)) && (found == Some(h) <==> ep == eps[0])
  {
    var r := ss[n].table[h];
    var ep' := FirstSees(k, selector, eps, chain, signer, ev, maxBundle, ss, ls, n, h);
    var seen := Seen(selector, r.bundleTx.value.calldata, r.bundleIndex.value).value;
    HashOfSeen(k, selector, eps[0], chain, r.bundleTx.value.calldata, r.bundleIndex.value);
    SameHash(k, r.op, ep, seen, ep', eps, chain);
    SameHash(k, r.op, eps[0], seen, eps[0], eps, chain);
    FewerCollisions(k, Hashed(k, r.op, eps, chain) + Hashed(k, r.op, eps, chain),
                    Hashed(k, r.op, eps, chain) + Hashed(k, seen, eps, chain));
    SameHash(k, r.op, eps[0], r.op, ep, eps, chain);
  }

  /** Two entry points are enough: every op sent for another one than the first has a run that ends with
      its row submitted and the first entry point computing a different hash for it. */
  lemma SecondEntryPointMisroutes(k: Hasher, selector: Bytes, eps: seq<Address>, chain: nat, signer: Address,
                                  ev: Events, maxBundle: int, op: PackedUserOp, ep: Address)
    returns (ss: seq<State>, ls: seq<Label>)
    requires |selector| == 4 && ep in eps && ep != eps[0] && maxBundle != 0 && IsUint256(chain)
    requires |HandleOps(selector, [op], signer)| <= MAX_LEN && CollisionFree(k, Hashed(k, op, eps, chain))
    ensures Run(Deployment(k, selector, eps, chain, signer, ev, maxBundle), ss, ls)
    ensures var h := Hash(k, op, ep, chain);
      && h in ss[|ls|].table && ss[|ls|].table[h].op == op && ss[|ls|].table[h].status == Submitted
      && var r := ss[|ls|].table[h];
        && r.bundleTx.Some? && r.bundleIndex.Some?
        && EntryPointHash(k, selector, eps[0], chain, r.bundleTx.value.calldata, r.bundleIndex.value)
             == Some(Hash(k, op, eps[0], chain))
        && Hash(k, op, eps[0], chain) != h
  {
    var c := Deployment(k, selector, eps, chain, signer, ev, maxBundle);
    ss, ls := Resubmission.StartsUp(c);
    ss, ls := Resubmission.Carries(c, op, ep, 0, START.hist, ss, ls);
    ss, ls := Resubmission.Records(c, op, ep, 0, START.hist, ss, ls);
    ElementHash(k, selector, eps[0], chain, signer, [op], 0);
    FewerCollisions(k, Hashed(k, op, eps, chain) + Hashed(k, op, eps, chain), Hashed(k, op, eps, chain));
    SameHash(k, op, eps[0], op, ep, eps, chain);
  }
}
