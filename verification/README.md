# Signet minimal bundler: a verified model

The Signet bundler accepts ERC-4337 user operations over JSON-RPC, keeps them in a SQLite table, puts
them into `handleOps` transactions, and follows those transactions to their receipts. Four actors share
the table without locks held across calls: the intake, the bundling loop, the receipt watcher and the
pruner. The process may die at any point and then reconciles on start-up. Around that protocol stand
hand-written byte encoders, two hash preimages, a gas estimator, a wire and row codec, point
decompression and message expansion, RSA limb splitting, and an invite-code store.

The Dafny project models these and proves what they are for. `dafny verify dfyconfig.toml` verifies
everything.

| file | what it models |
|---|---|
| `Mempool.dfy`, `Repository.dfy` | the `user_operations` table: statements as functions of the table, and the repository's methods proved against them |
| `Protocol.dfy` | all actors as one state machine; one SQL statement or transaction is one atomic step, local variables are program counters, a crash keeps only the table |
| `Invariant.dfy`, `Runs.dfy` | the inductive invariant, and what holds over every run |
| `Broadcasts.dfy`, `Routing.dfy`, `Placement.dfy` | which broadcast put which op at which recorded position |
| `Settlement.dfy`, `Visits.dfy`, `Polls.dfy` | what a receipt makes of a row, column by column; one transaction's visit; a whole poll |
| `Resubmission.dfy`, `LostBroadcasts.dfy` | runs that carry an op twice, one for each condition of the theorem that none does |
| `Actors.dfy` | `Tick`, `Poll`, `Reconcile`, intake, pruner and signer as code over the repository, with arbitrary steps of the other actors between their calls; every execution is a run of the machine |
| `Receipts.dfy` | receipt logs and `FailedOp` revert data |
| `Abi.dfy`, `Encoders.dfy`, `SponsorCall.dfy` | the ABI encoding with an independent decoder, the bundler's buffer-filling encoders, and the paymaster service's own copy of them |
| `UserOpHash.dfy`, `EntryPoint.dfy` | the userOpHash, and what the entry point computes from the ABI tuple it is handed |
| `EndToEnd.dfy` | the protocol with the real encoder, decoder, hashes and row codec in it |
| `Gas.dfy` | preVerificationGas against the real calldata |
| `Division.dfy`, `NumberTheory.dfy`, `Curve.dfy`, `Xmd.dfy`, `Limbs.dfy` | quotients and remainders, Fermat's little theorem and decompression, expand_message_xmd, limbs and the Barrett parameter |
| `Hex.dfy`, `Wire.dfy` | hex codecs, `FromRPC`, `storedOpToRPC`, row text |
| `TextTable.dfy`, `TextMachine.dfy` | the table as stored text, and the whole machine working on it |
| `Paymaster.dfy`, `Sponsor.dfy` | the paymaster hash on both sides, the invite store |
| `Bytes.dfy`, `UserOps.dfy` | words, big-endian values, the packed operation |

Conventions. A Go slice-bounds panic is `None` in a pure reading and a `Crash` step in the machine.
`nonce` and `preVerificationGas` are integers of any sign and size, because the parser accepts them;
`Canonical(op)` is the op with both read as the word they are encoded as, and equals `op` exactly on
uint256 values (`UserOps.CanonicalIff`). Go lengths are at most 2^63-1 (`MAX_LEN`). keccak256 and SHA-256
are arbitrary function parameters; a lemma that needs injectivity asks for it only on the strings it
actually hashes. Balance checks, gas estimates, submissions, receipts, clocks, database errors and error
classification are parameters or labels that may take any value.

Where code and documentation differ, the model follows the code. Section 7.2 of
`docs/signet-bundler-design.md` lists `FailedOp` as a transition from pending to failed and has no
transition from bundling to failed; the code moves submitted to failed
(`internal/bundler/receipt.go:126-133`) and bundling to failed (`internal/bundler/loop.go:195-205`). The
same section takes `revert_reason` from the reason log; the parser forgets it when the event log for the
op comes later, as it does on chain (`Receipts.ParseMeaning`). `Runs.NoDoubleCarriage` has a
disjunct for rows inserted anew, and asks that no broadcast is lost;
`Resubmission.CarriedTwiceAfterPruning` and the three runs of `LostBroadcasts` show for every op and entry
point why it must. The loop submits to the first configured entry point whatever entry point an op was sent for
(`cmd/bundler/main.go:154-160`, `internal/rpc/methods.go:97-109`); `EndToEnd.ChainSeesKeyIffFirst`
says exactly when the chain then computes the stored hash. The paymaster service's answer is meant to be
put into `paymasterData`, and `FromRPC` adds no gas limits to it; `Paymaster.RelayedSponsorshipIff` says
exactly which `paymasterData` the contract can use.

## Model

| member | source | states |
|---|---|---|
| `Runs.RunInv` | internal/bundler/loop.go:85-205 | Every reachable state of every interleaving of intake, Replace, Tick, Poll and pruner, with crashes and Reconcile anywhere, satisfies the whole invariant: index, ownership of bundling rows by the loop and of submitted rows by the watcher, row evidence, no stuck rows, carriage, nonces |
| `Invariant.KeepAny` | internal/bundler/watcher.go:55-146 | Any step of any actor, taken from any state of the invariant (reachable or not), keeps it |
| `Runs.OneLiveRowPerKey` | internal/mempool/db.go:46-47 | In every reachable state at most one non-terminal row holds a (sender, nonce) |
| `Runs.StepLifecycle` | docs/signet-bundler-design.md:509-522 | Every step from any state of the invariant: terminal rows are untouched or deleted, only the pruner deletes and only terminal rows, every status change is one of the lifecycle's edges made by the actor that owns it, op and arrival time never change |
| `Runs.TerminalIsFinal` | internal/mempool/db.go:212-257 | Over any stretch of a run in which a terminal row is not pruned, the whole row stays the same |
| `Runs.WritesLand` | internal/mempool/db.go:212-257 | Every unguarded status write of a run finds its row in the actor's source status (bundling for the loop, submitted under the visited transaction for the watcher) and is never refused by the index |
| `Invariant.LoopWriteLands` | internal/bundler/loop.go:162-205 | In any state of the invariant the loop's next write finds its row in bundling and updates exactly it |
| `Invariant.WatchWriteLands` | internal/bundler/receipt.go:118-141 | In any state of the invariant the watcher's next write finds its row submitted under the visited transaction, and keeps the index |
| `Runs.NoDoubleCarriage` | internal/bundler/loop.go:105-171 | If two accepted or leaked transactions carry the same op and before the second no broadcast was leaked or left unrecorded, then between them the first was observed with a status other than 1, or the op's row was pruned and inserted anew |
| `Resubmission.CarriedTwiceAfterPruning` | internal/mempool/db.go:322-332 | For every op, configuration and entry point there is a run without leak, lost write or crash that carries the op twice although its first transaction landed with status 1: the row failed, was pruned, and the same op was accepted again |
| `LostBroadcasts.LeakCarriesTwice` | internal/signer/keystore.go:149-158 | For every op that can be bundled alone there is a run whose one lost broadcast is a submit that errored after the transaction got out, and which carries the op in a second transaction with a greater nonce while nothing was observed of the first |
| `LostBroadcasts.LostWriteCarriesTwice` | internal/bundler/loop.go:162-171 | The same when the one loss is a failed submitted-write, followed by a restart |
| `LostBroadcasts.CrashCarriesTwice` | internal/bundler/reconcile.go:13-24 | The same when the one loss is a crash between broadcast and record |
| `Runs.NoncesIncrease` | internal/signer/keystore.go:115-169 | Accepted transactions have strictly increasing nonces in every run in which the node never answers a nonce at or below one it accepted |
| `Runs.NothingLeftInBundling` | internal/bundler/loop.go:85-192 | While loop writes have succeeded since some start-up sweep, no row is in bundling whenever the loop is between ticks or between fetch and claim, whatever was lost before |
| `Runs.ReconcileRecovers` | internal/bundler/reconcile.go:13-85 | From any crashed state of the invariant Reconcile ends with no row in bundling and no row added or deleted; a submitted row either stays as it is or is what the logs of a fetched status-1 receipt of its own transaction say of it (confirmed or failed, with block, cost and reason), failed as the revert data names it, or pending; a bundling row is pending and otherwise the same; no other row is touched; and the invariant holds again |
| `Runs.QueueOnlyShrinks` | internal/mempool/db.go:171-181 | With a clock that never goes back, the set of live ops received strictly before a given op only shrinks over any run, across resets and restarts |
| `Mempool.NextBatchHolds` | internal/bundler/loop.go:91-107 | A pending op with fewer than the limit of other pending ops received no later is in every batch the query may return |
| `Runs.ConfirmedHasEvidence` | internal/bundler/watcher.go:84-114 | In every run a confirmed row's own transaction was fetched with a status-1 receipt in which the entry point's own event log for the op, with the event's topic and success byte 1, is not followed by another one for the op; the row holds that log's gas cost and the receipt's block |
| `Routing.RowIsRouted` | internal/rpc/methods.go:97-109 | In every reachable state, with any number of entry points: a row's op hashes to its key for one of them, and the transaction of a submitted or confirmed row encodes at bundle_index an op of which the same holds, in a batch of distinct keys |
| `Placement.RecordedIndexIsTheOp` | internal/bundler/loop.go:162-171 | In every reachable state, with any number of entry points: the transaction of a submitted or confirmed row was broadcast for a batch of different keys with the row's key at bundle_index, and the entry point called finds there the op of that position. The encoder is one that decodes, as the real one does (EndToEnd.DeploymentDecodes) |
| `Placement.IndexNamesOneRow` | internal/signer/keystore.go:115-169 | With any number of entry points and any encoder, while the node never answered a nonce at or below an accepted one: (bundle_tx_hash, bundle_index) is unique among submitted and confirmed rows |
| `Placement.FailedOpSettles` | internal/bundler/receipt.go:118-170 | With any number of entry points and any encoder, while the node never answered a nonce at or below an accepted one, over a whole visit from the fetch to its end, with its writes succeeding and the other actors doing anything in between: the transaction was broadcast exactly once; well-formed FailedOp(i, reason) data leaves the row that this broadcast put at position i failed with that reason unless it is pruned, and every other row of the visit is written back to pending and is pending at the end unless it was claimed, expired or replaced meanwhile |
| `Placement.IndexHashesToKey` | internal/bundler/loop.go:162-171 | With one configured entry point, whatever the node answers: the transaction of a submitted or confirmed row encodes, at the row's bundle_index, an op hashing to the row's key, and no hash occurs twice in it |
| `Placement.FailedOpSettlesHash` | internal/bundler/receipt.go:118-170 | With one configured entry point, whatever the node answers: the row failed by FailedOp(i, reason) is exactly that of the op encoded at position i |
| `Visits.VisitSettles` | internal/bundler/receipt.go:118-141 | In every run without conditions: over a whole visit the row with bundle_index i fails with the reason and every other row of the transaction returns to pending |
| `Visits.LandedSettles` | internal/bundler/watcher.go:84-114 | Over a whole visit to a transaction that landed, in every run and whatever the others do: unless pruned, the row is confirmed with the cost and block when the entry point's last event for the op has success byte 1; failed, with the text of the last reason after the last event, when any other event or reason log is about it; and exactly as it was when none is |
| `Broadcasts.RowWasSent` | internal/bundler/loop.go:155-171 | In every reachable state the transaction of a submitted or confirmed row was broadcast, and the row's key stood in the batch at the row's bundle_index |
| `Broadcasts.BroadcastsDiffer` | internal/signer/keystore.go:115-169 | While the node never answered a nonce at or below an accepted one, of two broadcasts the later has the greater nonce |
| `Broadcasts.BroadcastIsRecorded` | internal/bundler/loop.go:162-171 | From a broadcast to the loop idle again, without a crash and with its writes succeeding, whatever the others do: for every position j of the batch the row of op j is submitted under the transaction with bundle_index j, and stays so unless the watcher writes |
| `EndToEnd.SubmittedRowIsWhatTheChainSees` | internal/core/hash.go:26-52 | With one configured entry point, in every run of the machine on stored text and every state of it: a submitted or confirmed row's columns read back, and what the entry point computes from element bundle_index of the calldata of its transaction, reading the words of the ABI tuple itself, is exactly the hash read back, which is also the bundler's hash of the op read back |
| `EndToEnd.EveryElementHasItsRow` | internal/bundler/loop.go:91-171 | With one configured entry point, for every broadcast that is written back without a crash or failed write and for every i: what the entry point finds as element i hashes to the key of the row recorded under that transaction with bundle_index i, and it finds exactly the elements of the batch |
| `EndToEnd.NodeMatchesChain` | internal/bundler/loop.go:85-178 | The same of the stored table of the modelled process itself, after any sequence of its methods |
| `EndToEnd.ChainSeesKeyIffFirst` | internal/bundler/loop.go:155-171 | With any number of entry points, in every run and state: for a submitted or confirmed row the entry point that is called computes its own hash of the row's op, and this is the row's key if and only if the op was admitted for the first entry point, unless the hash function collides on a string actually hashed |
| `EndToEnd.SecondEntryPointMisroutes` | internal/rpc/methods.go:97-109 | Every op sent for another entry point than the first, that can be bundled alone (maximum bundle size not 0, calldata within MAX_LEN), has a run that ends with its row submitted and the first entry point computing a different hash for it, unless the hash function collides on a string hashed for the op |
| `EndToEnd.ElementHash` | internal/bundler/loop.go:257-371 | For all ops and every i the entry point's hash of element i of the calldata is the hash of op i, and there is no element past the last |
| `Mempool.InsertKeepsIndex` | internal/mempool/db.go:88-116 | A successful insert keeps the partial unique index |
| `Mempool.ReplaceKeepsIndex` | internal/mempool/db.go:118-169 | A successful replacement keeps the index |
| `Mempool.LiveUpdateSucceeds` | internal/mempool/db.go:212-257 | Under the index, updating a live row to any status succeeds, changes only that row and keeps the index |
| `Repository.Repo.Insert` | internal/mempool/db.go:88-116 | Succeeds exactly when the engine does, the hash is new and no pending, bundling or submitted row has the same sender and nonce; then exactly one pending row with both times now is added; keeps the index |
| `Repository.Repo.Replace` | internal/mempool/db.go:118-169 | Succeeds exactly when the engine does, the old row is pending, the hash is new and no other pending, bundling or submitted row has the same sender and nonce; then the old row is replaced and one pending row added, and otherwise nothing changes; keeps the index |
| `Repository.Repo.GetPending` | internal/mempool/db.go:171-181 | Pending rows, each once, earliest first, at most the limit; a pending row is left out only when the limit is reached by rows that arrived no later |
| `Repository.Repo.ClaimForBundling` | internal/mempool/db.go:183-210 | Commits exactly when the engine does, no hash is repeated and each is a pending row; then exactly those rows are in bundling, updated now, and otherwise nothing changes |
| `Repository.Repo.UpdateStatus` | internal/mempool/db.go:212-257 | Succeeds exactly when the engine does, the row exists and, for a non-terminal status, no other pending, bundling or submitted row has its sender and nonce; then only that row changes: status and time are set, each other column only if given |
| `Repository.Repo.ResetBundlingToPending` | internal/mempool/db.go:296-307 | Exactly the bundling rows become pending, updated now, and their number is returned; none is left, and the index is kept; an engine error changes nothing |
| `Repository.Repo.MarkTtlExpired` | internal/mempool/db.go:309-320 | A row changes if and only if it was pending and received before the cutoff, and then to failed with ttl_expired; the number of those rows is returned, and is by how much the live rows became fewer; the index holds; an engine error changes nothing |
| `Repository.Repo.PruneHistory` | internal/mempool/db.go:322-332 | Exactly the confirmed, failed and replaced rows updated before the cutoff are deleted, the others stay as they are, and by how much the table shrank is returned; an engine error changes nothing |
| `Actors.Node.Tick` | internal/bundler/loop.go:85-178 | Whatever the node, the database and the other actors do in between, the tick's calls are steps of the machine. Unfunded, or when the query fails, it takes no step. Otherwise it fetches the first pending rows of the table it finds, and skips them if and only if there are none, the claim fails or one is no longer pending by then; it dies if and only if the calldata exceeds a Go slice. A permanent estimate error fails the ops with its reason, any other failure returns them to pending, an accepted submission makes them submitted under the transaction with the nonce found; every op of the batch is so written at its own position, the nonce advances by one on acceptance and is resynced on nonce-too-low, and no row is left in bundling if the writes succeed and none was lost before |
| `Actors.Node.WriteBack` | internal/bundler/loop.go:162-205 | failOps, resetToPending and the submitted loop: for every position j, one write that finds the row of op j in bundling and, if the engine takes it, makes it failed with the reason, pending, or submitted under the transaction with bundle_index j, and changes no other row; ending idle |
| `Actors.Node.Poll` | internal/bundler/watcher.go:55-146 | On a query error nothing happens. Otherwise the submitted rows found are grouped by transaction, each transaction is asked for exactly once, and every row grouped under an answered one gets exactly the write its receipt says (LandedRow, or back to pending), if the engine takes it, whatever the map order and the other actors; the process dies only on a status-1 receipt with a reason log that cannot be sliced |
| `Actors.Node.HandleBundleRevert` | internal/bundler/receipt.go:118-141 | For any revert data the decoder survives: every op whose write the engine takes is failed with the decoded reason if the data has the FailedOp selector and its bundle_index is the decoded index, and returned to pending otherwise, and nothing else changes in that write; the visit ends |
| `Actors.Node.Reconcile` | internal/bundler/reconcile.go:13-85 | The method itself: bundling rows end pending; each transaction of the submitted rows is asked for exactly once; each of its rows ends exactly as its receipt says if the write is taken, and as it was without a receipt; no other row changes, none is added or deleted, and the invariant is re-established; an error of the sweep or the query ends the start-up, the former with the table unchanged |
| `Actors.Node.SendUserOperation` | internal/rpc/methods.go:97-109 | Stores the op as a new pending row under its own hash for that entry point exactly when the entry point is configured, the engine does, the hash is new and no pending, bundling or submitted row has its sender and nonce; returns that hash; otherwise the table is unchanged |
| `Actors.Node.PrunerTick` | internal/mempool/prune.go:42-58 | With engine errors in either statement and any steps of the other actors between the two: the first statement fails with ttl_expired exactly the pending rows received before now less the time to live, the second deletes exactly the confirmed, failed and replaced rows updated before now less the retention, and neither changes another row |
| `Actors.Node.Start` | internal/signer/keystore.go:76-86 | After Reconcile the nonce is the node's answer and all actors start idle on the same table |
| `Actors.Signer.SignAndSubmit` | internal/signer/keystore.go:115-169 | The transaction carries the current nonce and the data; the nonce advances by one exactly on acceptance, becomes the node's answer on a nonce-too-low error that gets one, and otherwise stays |
| `Actors.GroupByTx` | internal/bundler/watcher.go:64-71 | Every submitted row with a transaction appears once, under that transaction with its bundle_index, and nothing else appears |
| `Receipts.ParseHandleOpsReceipt` | internal/bundler/receipt.go:48-113 | For every op hash the outcome is what the entry point's logs about it say: none without a log; otherwise success and cost of the last event, and the text of the last reason after it; it panics exactly when some reason log of the entry point has an overlong length field |
| `Receipts.ReadLog` | internal/bundler/receipt.go:52-109 | One round of the log loop, with its early exits: a log of another contract, of another kind or too short changes nothing; an event replaces the op's outcome; a reason sets its text only; it panics exactly on an overlong reason |
| `Receipts.ParseMeaning` | internal/bundler/receipt.go:48-113 | Last event wins: for every hash the outcome is success and cost of its last event log, with the text of the last reason log after that event only |
| `Receipts.OtherLogsIgnored` | internal/bundler/receipt.go:52-54 | Parsing the logs is parsing only those of the entry point, panics included |
| `Receipts.ReasonRoundTrip` | internal/bundler/receipt.go:89-107 | After any logs, a well-formed reason log, whatever padding follows the text, gives the op exactly the reason encoded |
| `Receipts.ParsePanicsIff` | internal/bundler/receipt.go:97-102 | The parser panics exactly when, in some reason log, the low 64 bits of the length field are at least 2^63 - 96 |
| `Receipts.OverlongLogPanics` | internal/bundler/receipt.go:97-102 | One reason log of 96 bytes with length field 2^63, at any place in any list of logs, makes the receipt unreadable |
| `Receipts.SuccessHasCost` | internal/bundler/watcher.go:116-121 | A successful outcome always has a gas cost, so the log line cannot dereference nil |
| `Receipts.FailedOpRoundTrip` | internal/bundler/receipt.go:144-170 | Decoding well-formed FailedOp data, whatever padding follows, returns the encoded index and reason |
| `Receipts.FailedOpAnywhere` | internal/bundler/receipt.go:144-170 | The same wherever the offset says the reason stands, with any bytes in between |
| `Abi.HandleOpsRoundTrip` | internal/bundler/loop.go:257-371 | For every list of ops and beneficiary, a decoder that follows the ABI offsets recovers exactly that list and beneficiary |
| `Abi.HandleOpsInjective` | internal/bundler/loop.go:257-371 | Equal calldata means equal beneficiary and equal ops (integers as words), and equal ops outright on uint256 values |
| `Abi.ElementLayout` | internal/bundler/loop.go:280-302 | Element offsets are 32-byte aligned, strictly increasing and in bounds, and each element ends exactly where the next begins |
| `Abi.MemberLayout` | internal/bundler/loop.go:317-362 | The four dynamic offsets of a tuple are aligned, strictly increasing, in bounds and non-overlapping, the last field ending the tuple |
| `Abi.TupleRoundTrip` | internal/bundler/loop.go:317-371 | A tuple followed by anything decodes to its op |
| `Abi.ShouldSponsorRoundTrip` | internal/paymaster/paymaster.go:231-295 | The shouldSponsor call decodes to the op, and the bytes after its offset word are those of a handleOps element |
| `Encoders.BuildHandleOpsCalldata` | internal/bundler/loop.go:257-303 | The appends with the running currentOffset produce the specified calldata |
| `Encoders.EncodePackedUserOp` | internal/bundler/loop.go:317-362 | The copies into a zeroed buffer with running tailOffset and pos produce the specified tuple |
| `Encoders.EncodeBytes` | internal/bundler/loop.go:365-371 | Length word, data, zero padding to 32 bytes |
| `SponsorCall.EncodeShouldSponsorCall` | internal/paymaster/paymaster.go:231-243 | Selector, offset and tuple give the specified call |
| `SponsorCall.EncodePackedUserOpForCall` | internal/paymaster/paymaster.go:247-286 | The service's own buffer fills, in its own order, produce the same tuple bytes as the bundler's encoder |
| `SponsorCall.EncodeBytesForCall` | internal/paymaster/paymaster.go:289-295 | Length word, data, zero padding, as in the bundler's encoder |
| `UserOpHash.ComputeUserOpHash` | internal/core/hash.go:26-52 | The two fixed buffers are hashed as the eight words sender, nonce, hashes of initCode and callData, gas limits, preVerificationGas, fees, hash of paymasterAndData, and as the three words inner hash, entry point, chain id |
| `EntryPoint.BundlerHashIsContractHash` | internal/core/hash.go:26-52 | For every op, entry point and chain: what the entry point computes from the ABI tuple the bundler encodes, reading its words and members at their slots, is the bundler's userOpHash of the op |
| `EntryPoint.ElementIsOp` | internal/bundler/loop.go:257-371 | In any calldata that decodes, the entry point finds an element exactly for each op, and its hash of the element's bytes is the bundler's hash of the op decoded |
| `UserOpHash.HashCommits` | internal/core/hash.go:26-52 | Unless the hash function collides on a string actually hashed, two (op, entryPoint, chainID) triples hash equal if and only if they agree on everything but the signature (integers as words) |
| `UserOpHash.NegativeNonceCollides` | internal/core/pack.go:51-58 | A nonce and its negation share every hash although they are stored as different nonces |
| `UserOps.CanonicalIff` | internal/core/pack.go:51-58 | An op survives word encoding exactly when both integers are uint256 values |
| `Gas.CalcPreVerificationGas` | internal/estimator/gas.go:66-78 | 4 gas per zero byte and 16 per other byte of the approximation, plus 21000 and 11000 |
| `Gas.TupleVersusEstimate` | internal/estimator/gas.go:104-122 | The real tuple costs exactly the approximation plus four offset words, four length words and zero padding, less over-long integer bytes, which are none for uint256 values; the framing is at most 4592 gas |
| `Gas.BundleGasBound` | internal/estimator/gas.go:66-78 | The summed preVerificationGas covers 21000 per op plus the cost of the whole real handleOps calldata exactly when the bundle is not empty |
| `Gas.BundleGasExact` | internal/estimator/gas.go:66-78 | For every bundle, what its preVerificationGas pays beyond 21000 per op and the cost of the whole real calldata is exactly 11000 per op plus the over-counted integer bytes less the framing of tuples and call |
| `NumberTheory.Fermat` | internal/core/crypto.go:34-37 | Fermat's little theorem, on which the exponent (P+1)/4 rests |
| `Curve.Decompress` | internal/core/crypto.go:26-42 | The in-place updates compute the power of x^3+7 with the parity fixed |
| `Curve.DecompressInverts` | internal/core/crypto.go:22-42 | For every prime p = 3 mod 4 and every point with 0 < y < p, decompression returns exactly y |
| `Curve.DecompressedIsOnCurveIff` | internal/core/crypto.go:34-42 | The unchecked result is a point exactly when x^3+7 is a square |
| `Curve.GeneratorIsPoint` | internal/core/crypto.go:22-31 | The standard's generator satisfies y^2 = x^3 + 7 modulo the field constant |
| `Curve.PubKeyToAddress` | internal/core/crypto.go:14-49 | Refuses exactly the wrong lengths and prefixes; otherwise hashes x and the chosen root |
| `Curve.CompressedKeyAddress` | internal/core/crypto.go:14-49 | The compressed key of a point yields both of its coordinates as 32-byte words |
| `Xmd.ExpandMessageXMD` | internal/core/crypto.go:53-94 | Exactly outLen bytes for every length, equal to section 5.3.1 of RFC 9380 for every message, DST' and length of at most 255 blocks |
| `Xmd.FrostChallenge` | internal/core/crypto.go:102-112 | 48 expanded bytes with the challenge DST, read big-endian modulo the group order |
| `Xmd.OrderFitsField` | internal/core/crypto.go:102-112 | Group order N and field constant P belong together: with t = P + 1 - N, 4P - t^2 is three times a square |
| `Limbs.SplitBigIntToLimbs` | internal/prover/prover.go:376-386 | The shifting loop computes the recursive split |
| `Limbs.SplitBounds` | internal/prover/prover.go:376-386 | There are exactly count limbs and each is below 2^bits |
| `Limbs.SplitValue` | internal/prover/prover.go:376-386 | The limbs recombine to the number modulo 2^(bits*count) |
| `Limbs.SplitExactIff` | internal/prover/prover.go:376-386 | Splitting is exact for precisely the numbers below 2^(bits*count) |
| `Limbs.CircuitInputsExact` | internal/prover/prover.go:179-186 | For a 2048-bit modulus, modulus, signature and REDC parameter each split into eighteen 120-bit limbs that recombine exactly |
| `Limbs.RedcIsFloor` | internal/prover/prover.go:179-182 | The REDC parameter is the largest r with r times the modulus at most 2^(2*2048+4) |
| `Limbs.RedcQuotient` | internal/prover/prover.go:180-181 | For every x < N^2 the quotient from floor(2^4100/N) is floor(x/N) or one less |
| `Hex.BytesRoundTrip` | internal/core/pack.go:61-75 | Every byte string survives hex and back |
| `Hex.DecodeHexIff` | internal/core/pack.go:61-67 | A text decodes if and only if, after an optional 0x, it is an even number of hex digits, and each pair of digits is one byte, high half first |
| `Hex.IntRoundTrip` | internal/core/pack.go:78-93 | Every integer of any sign and size survives hex and back |
| `Hex.HexToBigIntIff` | internal/core/pack.go:85-93 | A text parses as an integer if and only if, after an optional 0x and an optional sign, it is one or more hex digits |
| `Wire.PackBigInts` | internal/core/pack.go:24-39 | The buffer writes put the low 16 bytes of each magnitude, right-aligned, in each half |
| `Wire.HalfValue` | internal/core/pack.go:30-34 | A packed half is the magnitude modulo 2^128 |
| `Wire.JoinPrefixed` | internal/core/userop.go:86-110 | The buffer copies produce address followed by data, nothing for an absent address, and an error for malformed data |
| `Wire.RefusedIff` | internal/core/userop.go:43-110 | FromRPC refuses exactly the wire ops with a malformed integer or byte text, data of an absent factory or paymaster aside, and names the first one in its order |
| `Wire.AcceptedRoundTrip` | internal/core/userop.go:43-125 | Every op FromRPC accepts is re-parsed to itself from its wire form; sender, nonce, callData, preVerificationGas and signature are the fields parsed; gas fields are the parsed magnitudes modulo 2^128, each in its half; initCode and paymasterAndData are absent or exactly the parsed address and data |
| `Wire.WireRoundTripIff` | internal/rpc/methods.go:296-321 | For any stored op the wire form parses, and to the same op exactly when both prefixed fields are empty or at least 20 bytes |
| `Wire.RowRoundTrip` | internal/mempool/db.go:416-461 | Storing and hydrating gives every op and hash back |
| `Wire.TextKeyIsKey` | internal/mempool/db.go:88-108 | The unique keys on the text columns are keys on the values |
| `TextTable.InsertAlike` | internal/mempool/db.go:88-116 | Inserting ten text columns under the text keys succeeds exactly when the insert of values does, and the stored text is then that of the new table |
| `TextTable.UpdateAlike` | internal/mempool/db.go:212-257 | The same for the unguarded update by hash text, with the partial index compared on text |
| `TextTable.ReplaceAlike` | internal/mempool/db.go:118-169 | The same for the replacement of one op by another |
| `TextMachine.StepAlike` | internal/mempool/db.go:88-332 | Every step of every actor, with its statement on text keys and columns and what it learns of ops read back from them, is enabled on the text of a state exactly when it is on the state, and yields the text of the result; covers insert, replace, query, claim, update, the two sweeps and the prune |
| `TextMachine.RunToText` | internal/mempool/db.go:88-332 | The text of every run is a run on stored text |
| `TextMachine.RunOfText` | internal/mempool/db.go:416-461 | Every run on stored text is the text of a run on decoded rows |
| `Paymaster.GetHash` | internal/paymaster/paymaster.go:130-147 | The 384-byte buffer holds exactly the twelve specified words |
| `Paymaster.PackUint128s` | internal/core/pack.go:15-20 | Both halves hold the two values, and the uint64 packer agrees with the big.Int packer |
| `Paymaster.EncodeValidityAndSig` | internal/paymaster/paymaster.go:164-171 | Two words followed by the signature |
| `Paymaster.PreimagesAgree` | contracts/src/SignetPaymaster.sol:64-86 | For every op, window and signature, the preimage the service signs before paymasterAndData exists is the preimage the contract hashes for the completed op |
| `Paymaster.ParseRecoversIff` | contracts/src/SignetPaymaster.sol:88-93 | The contract's parser recovers window and signature exactly when both timestamps are below 2^48, and reverts otherwise |
| `Paymaster.VerbatimRelayMisparses` | internal/core/userop.go:99-110 | For every op, window and signature of any length: sending the service's paymasterData unchanged is accepted by FromRPC, and the contract then never reads that window, signature and any gas limits from the op; what it parses, if anything, has a signature 32 bytes short |
| `Paymaster.RelayedSponsorshipIff` | internal/core/userop.go:99-110 | For every wire op FromRPC accepts with a paymaster: the contract reads given gas limits, window and signature from it if and only if paymasterData decodes to the limits followed by the service's data and both timestamps are below 2^48 |
| `Paymaster.PreimageBinds` | internal/paymaster/paymaster.go:130-147 | Equal preimages mean equal window, gas limits and committed op fields, unless the hash collides on the fields it hashes |
| `Sponsor.Store.GenerateCodes` | internal/sponsor/store.go:48-73 | Succeeds exactly when the engine commits and the drawn codes are new and pairwise different; then exactly they are added, unused and created now |
| `Sponsor.Store.CheckSender` | internal/sponsor/store.go:76-84 | Over tables of any run (Sponsor.InvitesConserved): true exactly for the senders that some used code names, and false on an engine error |
| `Sponsor.Store.RedeemCode` | internal/sponsor/store.go:87-140 | The update and the insert commit together or are rolled back, wherever the engine fails; a whitelisted sender, an unknown code and a used code are told apart in that order; only a redemption changes the tables: the code gets this user and time, and the sender this code; the pairing of codes and senders is kept |
| `Sponsor.InvitesConserved` | internal/sponsor/store.go:48-140 | Over every run whitelisted senders and used codes are in bijection through used_by and invite_code, and equally many |
| `Sponsor.OwnershipIsFinal` | internal/sponsor/store.go:87-140 | Over every run no code disappears, a used code keeps its owner and a sender keeps its code |
| `Sponsor.OneCodePerSender` | internal/sponsor/store.go:87-140 | No two used codes of a reachable state share a user |
| `Sponsor.FailuresChangeNothing` | internal/sponsor/store.go:48-140 | A call changes the tables if and only if the engine carries it out and it redeems an existing unused code for a new sender, or adds at least one code, all of them new |

## Left out

- Transaction hashes: the model names a bundle transaction by its contents, so two different transactions never share a name; gas, fee and signature fields are one opaque value.
- Curve.CompressedKeyAddress: takes the primality of the secp256k1 field constant as a hypothesis; Curve.DecompressInverts holds for every prime 3 modulo 4.
- Placement.FailedOpSettles: both callers hand HandleBundleRevert empty revert data today, so this is about data the code could be given; the machine admits any.
- Paymaster.GetHash: chain id and timestamps are any natural numbers; the code's are uint64.
- Gas.CalcPreVerificationGas: the uint64 accumulator is unbounded in the model; it cannot overflow for data that fits in memory.
- Actors.Node.Tick: a crash in the middle of a tick is not one of its return paths; crashes at every point are steps of the machine. The signer's uint64 nonce is unbounded.
- Runs.QueueOnlyShrinks: the arrival time is read in the same atomic step as the insert; the code reads the clock just before the statement.
- Runs.ConfirmedHasEvidence: the receipt's block is a natural number; the code truncates it to 64 bits.
- EndToEnd.SubmittedRowIsWhatTheChainSees: one configured entry point; with several it is false (EndToEnd.SecondEntryPointMisroutes), and EndToEnd.ChainSeesKeyIffFirst gives the exact condition, on decoded rows.
- Xmd.OrderFitsField: pins the group order to one of six values for the field; that the generator has this order is not proved.
- EndToEnd.EveryElementHasItsRow: one configured entry point; Broadcasts.BroadcastIsRecorded holds for any number.
- Placement.IndexHashesToKey: one configured entry point; Placement.RecordedIndexIsTheOp and Placement.IndexNamesOneRow hold for any number.
- Placement.FailedOpSettlesHash: one configured entry point; Placement.FailedOpSettles holds for any number.
- Resubmission.CarriedTwiceAfterPruning: gas estimates are arbitrary answers in the machine; the second carriage also needs the node's gas estimate to accept an op whose receipt already reported it run.
- SQLite itself: statements are atomic table functions with the declared keys and partial index; the order among equal arrival times is arbitrary.
- Limbs are kept as numbers; the code prints them in decimal.
- Wire models one arbitrary letter case for the checksummed address text instead of EIP-55's.
- RPC dispatch, API keys, HTTP, logging and configuration: plumbing.
- Validator rules, intake's signature-length test, gas buffers and balance thresholds: single-branch facts; the machine's intake may admit any op, so the runs of Resubmission, LostBroadcasts and EndToEnd.SecondEntryPointMisroutes speak of the ops those rules let through; balance and estimate enter a tick as arbitrary answers.
- Error-text classification: arbitrary booleans.
- Keystore decryption, ECDSA and FROST signing, the go-ethereum client: foreign code.
- Prover processes, JWT and JWKS handling, TOML writing: external tools.
- calldata.go's `execute` and factory encoders and cmd/: easy or duplicated encoders and command-line plumbing.
- Liveness: that receipts eventually arrive depends on the chain.
