# UTXO-VM: a verified model

UTXO-VM is a chain indexer. It scans Bitcoin-like L1 blocks for contract envelopes, keeps the
resulting objects in tables and under a sparse Merkle tree, and rolls everything back when L1
reorganises. Validators attest its state roots, and a bridge mints objects on another chain on the
strength of those attestations. This project models those parts in Dafny and proves what holds them
together.

`dafny verify dfyconfig.toml` checks everything.

## How the model is built

- `Bytes`, `Bits`, `Order`: bytes and digests, the bits of a key, byte-string order and stable sorting.
- `Smt`, `SmtBinding`: the incremental tree object against the full recursive tree, and what a root
  commits to.
- `Ledger`, `Scanner`, `Effects`, `Commitment`, `Reorg`, `Exactness`, `SameBlock`, `Sync`, `Lineage`: the tables
  as a value, the effect of a transaction and what it means, what a state root says about the objects, rollback,
  when it is exact and a chain where it is not, sync passes over changing L1 views, and the single-use seals.
- `Store`, `Indexer`: the store, processor and sync loop as objects, proved to do to the tables what
  the functions say.
- `Attestation`, `MerkleList`, `Consensus`, `Arrival`, `Verifier`: signed attestations, the Merkle root over a
  quorum, the consensus manager, arrival order, cross-chain proofs and accountable safety.
- `Bridge`, `Minting`: lock, mint, cancel and restart, and when each succeeds.
- `Envelope`, `Json`, `JsonParser`, `Document`, `Sot`, `Authority`, `Entry`: the envelope codec, the contract JSON
  reader and the documents it reads, the token contract whose state travels as JSON, who may do what with a token,
  and the contract's entry points.
- `Fixture`, `Fees`: replay confluence and fee accounting.

SHA-256 is a parameter: every result is for all functions from byte strings to 32-byte digests. A
result that needs collision resistance instead returns the colliding inputs (or an input hashing to
the zero digest), computed from the data at hand by an ordinary function such as `SmtBinding.Judge`,
`SmtBinding.Part`, `MerkleList.ListBreak` or `Attestation.RootBreak`. BIP-340 and ECDSA verification,
contract execution, JSON metadata reading and clock readings are parameters too. Rust strings are
their UTF-8 bytes; contract strings are UTF-16 code units.

## Main results

- `Sync.SyncEqualsFreshScan`, `Indexer.BlockProcessor.SyncAll`: over any run of sync passes, whatever
  forks happen between them, all six tables equal a fresh scan of the last L1 view.
- `Exactness.RollbackExactIff`, `Reorg.RollbackExact`: a rollback to height t gives exactly the tables of a
  scan that stopped at t if and only if, in the undo table, the record applied last to each object is a
  creation or holds a version dated at or below t. Undo records of one block are applied by id, so two calls
  to one object in one block can break this: `SameBlock.TwoCallsIff` decides it by the two undo ids, and
  `SameBlock.RollbackCanMiss` gives a chain that is not rolled back to where it was.
- `Effects.CallMoves`, `Effects.CreateMakes`, `Effects.UnpaidIgnored`, `Effects.InertIgnored`: what every transaction
  does to the tables, told from its outputs, inputs and fee.
- `Commitment.RootBindsObjects`, `Commitment.RootShowsField`: two tables with one state root hold the same objects up
  to the hashed bytes, or a break of the hash is computed; no single field can change unseen.
- `Smt.SparseMerkleTree.Update`, `.Root`, `.GetProof`: the incremental tree is the full tree.
- `SmtBinding.ProofSound`: an accepted proof is the one honest 256-step path to a stored leaf, or hands
  over a break of the hash function.
- `Verifier.ValidMeansStored`, `Verifier.StoredIsValid`: an accepted cross-chain proof against a tree's root is about
  a stored leaf, or breaks the hash, and every stored leaf has one.
- `Verifier.AccountableSafety`: two accepted proofs with different roots for one chain and height expose
  at least a third of the validators, each by a verifying equivocation proof.
- `Attestation.QuorumRootBinds`: a quorum's Merkle root fixes its supporters up to time and order, in
  spite of self-paired odd nodes and untagged inner nodes.
- `Consensus.EquivocationCaught`, `Consensus.HonestNeverSlashed`, `Consensus.AtMostOneQuorum`, `Consensus.RunSound`.
- `Arrival.ResultOrder`, `Arrival.OrderFreeIff`: runs that hear the same attestations in any order have the same
  quorum result if no validator says two things; the recorded list is order-free exactly then.
- `Minting.MintDecided`: over any run, a mint for an earlier lock succeeds if and only if its proof is valid and
  names the lock's object and chain, no other transfer claimed the object first, and it was not minted before.
- `Bridge.MintedAtMostOnce`, `Bridge.MintCarriesLock`.
- `Bridge.ReclaimInverts`, `Bridge.CancelSucceeds`: over any run, a failed proof or a cancel takes back a lock made
  any number of calls and restarts earlier.
- `Lineage.ScanTraced`, `Lineage.SealSpentOnce`: single-use seals.
- `Envelope.RoundTrip`, `Envelope.PiecesRead`, `Sot.RunRefines`, `Fixture.RootConfluence`.
- `Document.ParseIff`: a text parses to a value if and only if it is a JSON document of that meaning.
- `Authority.StrangersChangeNothing`, `Authority.RunConserves`: nobody but the owner changes a token, and without
  mints a run makes no tokens.
- `Fees.ConservedIff`: over any run the books balance if and only if no distribution hands out more than is
  pending; `Fees.PaidTwice` is the family of runs where one does.

## Conditions the results carry

- `Reorg.FreshChain`: along the scan, transaction ids and undo ids are new and a create never meets an
  object that is already there (ids are a 16-character prefix, undo ids a mix of height, output and
  prefix; neither is unique by construction).
- `Exactness.Undoable`: the undo table meets the exact condition above for every scanned height. It is asked of
  the views that a later pass may roll back, and holds whenever no object is touched twice in a block, or the
  later record of a block has the smaller id (`Reorg.OrderedChain`).
- `Sync.Follows`: an L1 block hash fixes the chain below it, the view is no shorter than what was synced,
  and the first scanned block stays.
- `Ledger.Distinct`: no two of the object ids in use share a tree key.
- `Bridge.FreshIds`: a lock never reuses a transfer id (they carry the clock in seconds).
- `Bridge.LeftAlone`: between a lock and its reclaim no call changes the locked object's record or seal entry;
  `Bridge.OthersLeaveAlone` says which calls could.
- `Arrival.OneVoice`: no validator is heard with two attestations for one key that differ beyond the timestamp.
- `Sot.Writable`, `Sot.PlainCall`: no control characters but tab, line feed and carriage return in the token's
  strings and in the recipients that calls name, and a symbol. Amounts are any u64: `I64.parseInt` is taken to
  accumulate modulo 2^64, so the cast back to u64 undoes the sign.

## Model

| member | source | states |
|---|---|---|
| `Bits.PathPrefixBit` | packages/node/src/storage/smt.rs:84-101 | the prefix of length n keeps exactly the first n bits of a key and zeroes the rest |
| `Bits.FlipBitBit` | packages/node/src/storage/smt.rs:104-108 | flipping bit i changes that bit and no other |
| `Bits.KeyFromBits` | packages/node/src/storage/smt.rs:75-79 | the 256 bits determine the key |
| `Bits.PathPrefixStep` | packages/node/src/storage/smt.rs:189-206 | the next longer prefix is one child of a prefix and its flip is the other, told apart by the key's bit |
| `Smt.SparseMerkleTree.constructor` | packages/node/src/storage/smt.rs:147-164 | a new tree is empty and already agrees with the full empty tree at every position |
| `Smt.SparseMerkleTree.GetSiblingHash` | packages/node/src/storage/smt.rs:127-145 | at every level, leaves included, the sibling looked up or defaulted is the full tree's hash beside the path |
| `Smt.SparseMerkleTree.Update` | packages/node/src/storage/smt.rs:167-215 | insert, overwrite and zero-value delete change the leaf map by just that key and keep every stored or defaulted node equal to the recursive 256-level hash, storing only non-default nodes |
| `Smt.SparseMerkleTree.Root` | packages/node/src/storage/smt.rs:228-239 | with its dirty flag and cache, the root returned is the full tree's root |
| `Smt.OffPath` | packages/node/src/storage/smt.rs:189-212 | changing one leaf changes only the hashes on that leaf's path |
| `Smt.SparseMerkleTree.ComputeRootForKey` | packages/node/src/storage/smt.rs:275-292 | walking up from a stored leaf reaches the current root |
| `Smt.SparseMerkleTree.GetProof` | packages/node/src/storage/smt.rs:242-272 | a proof exists exactly for stored keys; it has the 256 siblings of the full tree, is against the current root and verifies |
| `Smt.VerifyProofStatic` | packages/node/src/storage/smt.rs:295-321 | the loop accepts exactly the paths whose siblings decode to 32 bytes and climb to the root |
| `SmtBinding.JudgeSound` | packages/node/src/storage/smt.rs:295-321 | the walk that compares an accepted path with the real subtree ends at the stored leaf or in a real break of the hash |
| `SmtBinding.ProofSound` | packages/node/src/storage/smt.rs:295-321 | if a path of any length with any positions is accepted against a tree's root, then it has 256 steps, equals the honest proof step by step and the key holds that value, or a collision or zero preimage is exhibited |
| `SmtBinding.RootBindsLeaves` | packages/node/src/storage/smt.rs:147-239 | two leaf maps with one root that differ at a key yield a break of the hash |
| `SmtBinding.HistoriesAgree` | packages/node/src/storage/smt.rs:167-239 | two update histories have one root when every key's last write agrees, and otherwise one root means a break of the hash |
| `SmtBinding.ReplayKeepsLastWrite` | packages/node/src/storage/smt.rs:167-177 | after any history each key holds its last non-zero write, and nothing after a zero write |
| `SmtBinding.BuildTree` | packages/node/src/storage/smt.rs:167-215 | running a whole history on a tree object ends in the replayed leaves with every node correct |
| `Envelope.SerializeTaprootEnvelope` | packages/sdk/src/envelope.ts:51-87 | the bytes written, after truncation to bytes, are header, length push, payload and OP_ENDIF |
| `Envelope.ReadChunks` | packages/node/src/scanner/parser.rs:146-214 | the payload loop yields the concatenated pushes up to OP_ENDIF and fails on every other ending |
| `Envelope.ParseIfEnvelope` | packages/node/src/scanner/parser.rs:91-230 | the bounds-checked offset walk decides the same envelope as the direct definition on every script and start |
| `Envelope.ParseEnvelope` | packages/node/src/scanner/parser.rs:6-86 | the jumping two-byte scan finds exactly what trying every offset would find, on all inputs |
| `Envelope.JumpOver` | packages/node/src/scanner/parser.rs:62-82 | offsets that hold no envelope can be skipped without changing the first one found |
| `Envelope.PiecesRead` | packages/node/src/scanner/parser.rs:146-214 | a payload cut into any pieces, each with its own push, is read back in order |
| `Envelope.WideVersion` | packages/node/src/scanner/parser.rs:115-132 | a version field of any width but one byte is skipped and counts as version 1 |
| `Envelope.BehindPush` | packages/node/src/scanner/parser.rs:17-82 | behind OP_RETURN and a push of any data the envelope is found |
| `Envelope.RoundTrip` | packages/sdk/src/envelope.ts:51-87 | parsing a serialised envelope returns it if and only if its type is under 256 bytes and its payload under 2^32; then also behind OP_RETURN |
| `Ledger.SaveCoherent` | packages/node/src/storage/db.rs:99-134 | saving an object keeps the seals table the exact inverse of object seals if and only if no other object holds the new seal |
| `Ledger.CoherentUnique` | packages/node/src/storage/db.rs:147-156 | the seals table is determined by the objects table |
| `Ledger.OrderDecides` | packages/node/src/storage/db.rs:294-347 | a rollback leaves each object as its last-applied undo record says, and untouched if it has none |
| `Ledger.OrderUnique` | packages/node/src/storage/db.rs:294-302 | the order by falling height and rising id is unique |
| `Ledger.RollbackDeterministic` | packages/node/src/storage/db.rs:276-415 | a rollback has one result |
| `Ledger.RollbackComposes` | packages/node/src/storage/db.rs:276-415 | from any tables, rolling back to t1 and then to t2 <= t1 equals rolling back to t2 |
| `Ledger.UndoAllCoherent` | packages/node/src/storage/db.rs:304-347 | when a seal belongs to one object throughout, undoing keeps the seals table the inverse of object seals |
| `Ledger.PutObject` | packages/node/src/storage/db.rs:119-125 | writing an object's hash under its key turns the leaves of the old table into the leaves of the new one |
| `Commitment.SameBytesIff` | packages/node/src/storage/db.rs:82-97 | exactly when two objects under one id have the same hashed bytes, for fields that differ anyhow |
| `Commitment.SameWidths` | packages/node/src/storage/db.rs:82-97 | with code hashes, seals and owners of equal widths, equal bytes mean equal fields |
| `Commitment.OneFieldShows` | packages/node/src/storage/db.rs:82-97 | a change of any one of code hash, seal, satoshis, owner and state changes the hashed bytes |
| `Commitment.RootBindsObjects` | packages/node/src/storage/db.rs:82-132 | two tables with one state root hold the same ids with the same hashed bytes, or a function of the tables computes a break of the hash |
| `Commitment.RootShowsField` | packages/node/src/storage/db.rs:82-132 | a root that stays the same when one field of an object changes is such a break |
| `Commitment.RootMissesBoundary` | packages/node/src/storage/db.rs:82-97 | fields are hashed without lengths: moving bytes between owner and state leaves the root as it is |
| `Store.InsertByHeight` | packages/node/src/storage/db.rs:302-302 | one insertion keeps the list sorted by falling height, equal heights by rising id, and adds just that id |
| `Store.StateStore.SortedUndo` | packages/node/src/storage/db.rs:294-302 | collecting in key order and stably sorting lists exactly the undo records above the target in application order |
| `Store.StateStore.Open` | packages/node/src/storage/db.rs:34-71 | an opened store's tree holds exactly the leaves of the persisted objects |
| `Store.StateStore.TreeOf` | packages/node/src/storage/db.rs:396-403 | rebuilding from the objects in any order gives the tree of the objects table |
| `Store.StateStore.SaveObject` | packages/node/src/storage/db.rs:99-134 | object, seal hand-over and tree change together and the tree still is the tree of the table |
| `Store.StateStore.GetObjectBySeal` | packages/node/src/storage/db.rs:147-156 | with a coherent index the object found carries that seal, and finding none means no object does |
| `Store.StateStore.CloseBlock` | packages/node/src/main.rs:517-527 | the block record stores the root of the objects table as it stands |
| `Store.StateStore.RollbackToBlock` | packages/node/src/storage/db.rs:276-415 | collecting, sorting, applying and trimming does the rollback the tables call for, and the rebuilt tree is the tree of the restored objects |
| `Store.StateStore.CheckAndInsertMintedProof` | packages/node/src/storage/db.rs:481-502 | a second insertion for an object is refused and changes nothing |
| `Scanner.EffectShaped` | packages/node/src/scanner/processor.rs:172-314 | every effect's undo record holds the object as it stood, its transition links the old seal to the new one, and a new seal carries the transaction's own id |
| `Effects.TargetDecided` | packages/node/src/scanner/processor.rs:208-217 | the object acted on is the one under the seal of the first input that spends any, and there is none exactly when no input does |
| `Effects.UnpaidIgnored` | packages/node/src/scanner/processor.rs:65-89 | a transaction none of whose outputs pays the minimum to the collector changes nothing |
| `Effects.InertIgnored` | packages/node/src/scanner/processor.rs:91-328 | nor does one whose outputs carry no envelope, or calls while no input spends a seal |
| `Effects.CallMoves` | packages/node/src/scanner/processor.rs:208-323 | a paid call, for any number of inputs and both kinds of code, logs the object as it stood; on success the object has the output's seal and value, the state execution returned and the named recipient as owner, if any, and the transition is recorded; on failure nothing else changes |
| `Effects.CreateMakes` | packages/node/src/scanner/processor.rs:114-206 | a paid creation makes the object with its code hash, seal, value, sender and state, and logs a creation |
| `Effects.InertOrActs` | packages/node/src/scanner/processor.rs:91-328 | every transaction is inert throughout or has a first output that creates or calls |
| `Effects.SealInjective` | packages/node/src/scanner/processor.rs:101-101 | a seal names one output of one transaction |
| `Effects.UndoIdInjective` | packages/node/src/scanner/processor.rs:174-175 | under one transaction id, an undo id names height and output |
| `Indexer.BlockProcessor.ValidateFee` | packages/node/src/scanner/processor.rs:65-89 | true exactly when some output pays the minimum, to the collector if one is set |
| `Indexer.BlockProcessor.FindTarget` | packages/node/src/scanner/processor.rs:210-217 | the object of the first input that spends a known seal |
| `Indexer.BlockProcessor.ProcessTx` | packages/node/src/scanner/processor.rs:91-328 | the output loop changes the tables exactly by the transaction's effect and reports an object exactly when one was saved |
| `Indexer.BlockProcessor.Call` | packages/node/src/scanner/processor.rs:219-323 | a successful call moves seal, owner, value and state and logs a transition; a failed one leaves only its undo record |
| `Indexer.BlockProcessor.FindAncestor` | packages/node/src/main.rs:438-459 | the backtrack stops at the highest stored block that L1 still has |
| `Indexer.BlockProcessor.SyncPass` | packages/node/src/main.rs:414-549 | one pass detects the fork, rolls back and extends as the pass relation says, keeping store and tree in step |
| `Indexer.BlockProcessor.SyncAll` | packages/node/src/main.rs:414-549 | a run of passes on the store object ends in the tables of a fresh scan of the last view |
| `Reorg.StepInv` | packages/node/src/scanner/processor.rs:91-328 | a transaction with a new id keeps the index coherent and every seal, current or in an undo record, owned by one object |
| `Reorg.ScanInv` | packages/node/src/main.rs:485-541 | every scanned prefix of a fresh chain has coherent seals, single seal ownership and records at no height above it |
| `Reorg.ScanExtends` | packages/node/src/main.rs:485-541 | blocks above t only add records above t, leave unrecorded objects alone, and the record a rollback applies last holds the object as of t |
| `Exactness.RollbackExactIff` | packages/node/src/storage/db.rs:276-415 | on a fresh chain, rollback to t equals the scan to t if and only if, for every object, the lowest and then highest-numbered undo record above t is a creation or holds a version dated at or below t |
| `Exactness.ScanDated` | packages/node/src/scanner/processor.rs:172-291 | along a scan, every object, and every undo record above t, that is dated at or below t is the object as of t |
| `Exactness.OrderedUndoable` | packages/node/src/storage/db.rs:302-302 | when later undo records of a block have smaller ids, rollback to every scanned height is exact |
| `SameBlock.SpendWrites` | packages/node/src/scanner/processor.rs:208-323 | a call that spends a known seal records the object as it stood and moves it on |
| `SameBlock.TwoCallsIff` | packages/node/src/storage/db.rs:302-302 | on a scanned block with two calls to one object, rollback past it equals the scan below it if and only if the later call's undo id is the smaller |
| `SameBlock.RollbackCanMiss` | packages/node/src/storage/db.rs:302-302 | a fresh chain with concrete transaction ids that rollback does not take back to the scan below it |
| `Reorg.RollbackExact` | packages/node/src/storage/db.rs:276-415 | with ordered undo ids, rollback to t restores objects, seals, undo log, blocks, transitions and sync mark exactly, no-op records of failed calls included |
| `Sync.StoredBlocks` | packages/node/src/main.rs:517-526 | each height's stored block has the L1 hash and the root of the objects scanned up to it, and no other height has one |
| `Sync.AncestorFound` | packages/node/src/main.rs:438-459 | the search ends at a block both chains share, at or above the first scanned one |
| `Sync.PassFromScan` | packages/node/src/main.rs:428-541 | one pass takes the scan of the old view to the scan of the new one, forked or not |
| `Sync.SyncEqualsFreshScan` | packages/node/src/main.rs:414-549 | after any run of passes all tables, and so every stored and current root, equal a fresh scan of the last L1 view |
| `Sync.StoredFromStart` | packages/node/src/main.rs:414-549 | after any run of passes exactly the heights from the configured start to the tip are stored, each with the L1 hash and its own root |
| `Lineage.ScanTraced` | packages/node/src/scanner/processor.rs:142-323 | every object's transitions form one unbroken line of distinct seals from the seal of the transaction it is named after, its creation, to its current one |
| `Lineage.SealSpentOnce` | packages/node/src/scanner/processor.rs:208-323 | no two recorded transitions consume the same seal |
| `Attestation.PayloadInjective` | packages/node/src/consensus/attestation.rs:89-105 | equal signed payloads name the same chain, height, block and root |
| `Attestation.LeafInjective` | packages/node/src/consensus/attestation.rs:26-48 | equal leaf bytes come from attestations equal up to timestamp |
| `Attestation.ComputeAttestationMerkleRoot` | packages/node/src/consensus/attestation.rs:13-77 | the method returns the tree over the leaves sorted by validator, zero for none |
| `Attestation.MerkleRootOrder` | packages/node/src/consensus/attestation.rs:18-21 | the root is the same for every arrival order |
| `Attestation.QuorumRootBinds` | packages/node/src/consensus/attestation.rs:13-77 | two supporter lists with one Merkle root are equal up to timestamp and order, or a break of the hash is computed |
| `MerkleList.ComputeTop` | packages/node/src/consensus/attestation.rs:50-76 | the level loop with self-paired odd nodes computes the root of the list |
| `MerkleList.ListBinding` | packages/node/src/consensus/attestation.rs:50-76 | lists of distinct leaves longer than 64 bytes with one root are equal, whatever their lengths, or the hash breaks |
| `Consensus.ConsensusManager.RegisterValidator` | packages/node/src/consensus/attestation.rs:127-136 | the validator set grows by just that key |
| `Consensus.ConsensusManager.AddAttestation` | packages/node/src/consensus/attestation.rs:217-285 | an attestation is added exactly when it verifies, its validator is registered and is the first for the key; a conflicting one becomes a slashing proof |
| `Consensus.RunSound` | packages/node/src/consensus/attestation.rs:217-285 | in every run, lists hold only verified attestations of registered validators, one each per key, and every slashing proof verifies |
| `Consensus.RunGrows` | packages/node/src/consensus/attestation.rs:217-285 | validators, lists and proofs are never taken back |
| `Consensus.RegisteredIff` | packages/node/src/consensus/attestation.rs:127-136 | a validator is known exactly when it was registered |
| `Consensus.RecordedIsSigned` | packages/node/src/consensus/attestation.rs:217-285 | every recorded attestation is signed by a registered key over its chain, height, block and root |
| `Consensus.HonestNeverSlashed` | packages/node/src/consensus/attestation.rs:430-488 | against a key that signed at most one root per chain and height no proof verifies, and no run records one |
| `Consensus.QuorumCountsValidators` | packages/node/src/consensus/attestation.rs:287-303 | a quorum counts validators, not attestations |
| `Consensus.EquivocationCaught` | packages/node/src/consensus/attestation.rs:251-275 | a registered validator that submits two valid conflicting roots for one key ends up in a slashing proof |
| `Consensus.AtMostOneQuorum` | packages/node/src/consensus/attestation.rs:287-303 | while twice the threshold exceeds the validator count, one key sees at most one quorum root over the whole run |
| `Consensus.ConsensusManager.IsQuorumReached` | packages/node/src/consensus/attestation.rs:287-303 | counts exactly the attestations for the root under an existing key |
| `Consensus.ConsensusManager.BuildQuorumResult` | packages/node/src/consensus/attestation.rs:343-395 | a result exists exactly when some root meets the threshold; it names the most backed root, ties to the greatest, with all its backing and their Merkle root |
| `Arrival.RunRecorded` | packages/node/src/consensus/attestation.rs:217-285 | a key's list holds only attestations the run heard, and one of every validator it heard |
| `Arrival.PermutedHeard` | packages/node/src/consensus/attestation.rs:217-285 | after any beginning, two orders of the same submissions are heard alike |
| `Arrival.ListsAgree` | packages/node/src/consensus/attestation.rs:217-285 | runs that hear the same, one voice per validator, record the same list up to timestamps and order |
| `Arrival.OrderFreeIff` | packages/node/src/consensus/attestation.rs:251-285 | the recorded list is the same for every run that hears the same if and only if no validator is heard with two attestations for the key |
| `Arrival.ResultOrder` | packages/node/src/consensus/attestation.rs:343-395 | such runs both have a quorum result or neither has one, with the same state root and Merkle root |
| `Arrival.RootOrder` | packages/node/src/consensus/attestation.rs:343-383 | one root per validator is enough for both or neither to have a result and for the same state root |
| `Verifier.VerifyQuorum` | packages/node/src/cross_chain/verifier.rs:134-206 | the dedup-and-count loop accepts exactly when two thirds of the validators, rounded up, first attest the proof's root; the tie-break never matters |
| `Verifier.VerifyProof` | packages/node/src/cross_chain/verifier.rs:76-128 | valid exactly when quorum, Merkle proof and every attestation's fields and signature hold |
| `Verifier.RequiredIsTwoThirds` | packages/node/src/cross_chain/verifier.rs:203-206 | the required number is the least that is two thirds |
| `Verifier.MissingThird` | packages/node/src/cross_chain/verifier.rs:134-206 | a third of the validators may be missing |
| `Verifier.ValidMeansSigned` | packages/node/src/cross_chain/verifier.rs:76-128 | behind a valid proof are signatures of two thirds of the validators on its own chain, height and root |
| `Verifier.ValidMeansStored` | packages/node/src/cross_chain/verifier.rs:209-240 | a valid proof against a tree's root shows the object's data hash stored under its key by the honest path, or a break of the hash |
| `Verifier.StoredIsValid` | packages/node/src/cross_chain/verifier.rs:209-240 | the honest path of a stored leaf, with quorum and signatures, is a valid proof |
| `Verifier.AccountableSafety` | packages/node/src/cross_chain/verifier.rs:76-273 | two valid proofs for one chain and height with different roots have at least a third of the validators in common, each of whom signed both roots and gives an equivocation proof that verifies |
| `Bridge.BridgeManager.constructor` | packages/node/src/cross_chain/bridge.rs:88-114 | rehydrated caches equal the persisted tables |
| `Bridge.BridgeManager.LockAssets` | packages/node/src/cross_chain/bridge.rs:119-230 | does the protocol's lock step, refusing locked objects, foreign callers and bad signatures |
| `Bridge.BridgeManager.MintFromProof` | packages/node/src/cross_chain/bridge.rs:235-416 | does the protocol's mint step on the verifier's verdict, replay guard first; it mints only on a valid proof and fails one only if it is invalid |
| `Bridge.BridgeManager.CancelTransfer` | packages/node/src/cross_chain/bridge.rs:512-612 | does the protocol's cancel step, refusing before the timeout or for another caller |
| `Bridge.AlwaysSynced` | packages/node/src/cross_chain/bridge.rs:88-114 | over any run with restarts the in-memory maps equal the persisted tables |
| `Bridge.SettledStays` | packages/node/src/cross_chain/bridge.rs:264-318 | no call takes a minted transfer out of Minted or clears its replay guard |
| `Bridge.MintedAtMostOnce` | packages/node/src/cross_chain/bridge.rs:259-318 | over any run of lock, mint, cancel and restart each source object has at most one successful mint |
| `Bridge.MintCarriesLock` | packages/node/src/cross_chain/bridge.rs:187-197 | a mint names the object and chain of an earlier lock, and the new object carries the satoshis held then, the owner the lock named and the data the proof came with |
| `Minting.LockDecided` | packages/node/src/cross_chain/bridge.rs:119-176 | a lock succeeds exactly when its signer owns the object and the object is not locked |
| `Minting.LockedOnce` | packages/node/src/cross_chain/bridge.rs:119-142 | while a locked object is left alone, every other lock of it is refused |
| `Minting.GuardIsFirstClaim` | packages/node/src/storage/db.rs:481-502 | over any run, an object's replay guard holds the first transfer under which it was claimed |
| `Minting.VerdictDecides` | packages/node/src/cross_chain/bridge.rs:312-333 | at every call of every run, a mint means a valid proof and a failed proof an invalid one |
| `Minting.MintDecided` | packages/node/src/cross_chain/bridge.rs:235-416 | a mint for an earlier lock succeeds exactly when the proof is valid, names the lock's object and chain, the guard is free or its own and it was not minted; it fails as invalid exactly under the same guard with an invalid proof |
| `Bridge.TransferBetween` | packages/node/src/cross_chain/bridge.rs:187-197 | in any run a transfer keeps the terms of its lock, and is still locked exactly while no call has ended it |
| `Bridge.OthersLeaveAlone` | packages/node/src/cross_chain/bridge.rs:475-510 | only a lock, reclaim or mint that names the object, or a mint onto its seal, changes the object or its seal entry |
| `Bridge.ReclaimInverts` | packages/node/src/cross_chain/bridge.rs:475-611 | over any run, a failed proof or cancel of a transfer locked earlier restores the object's record and seal entry to before the lock and changes nothing else, so the root too if the other objects are as they were |
| `Bridge.CancelSucceeds` | packages/node/src/cross_chain/bridge.rs:529-588 | over any run, a cancel of a transfer locked earlier succeeds if and only if the timeout has passed, the locking owner signs it, and no call in between ended the transfer |
| `Json.EscapeJsonString` | packages/contracts/assembly/json.ts:396-415 | the loop escapes unit by unit |
| `Json.ReadEscaped` | packages/contracts/assembly/json.ts:280-346 | reading an escaped string returns it exactly when its only control characters are tab, line feed and carriage return, and fails otherwise |
| `JsonParser.Parser.ParseString` | packages/contracts/assembly/json.ts:280-346 | reads the string behind a quote or fails, position inside the text on every input |
| `JsonParser.Parser.ParseValue` | packages/contracts/assembly/json.ts:170-195 | terminates on every input, position inside the text, with the value the grammar functions read or an error |
| `JsonParser.Parser.ParseObject` | packages/contracts/assembly/json.ts:197-244 | the member loop builds the map of the last value per key, or fails |
| `JsonParser.Parser.ParseArray` | packages/contracts/assembly/json.ts:246-278 | the item loop collects the items in order, or fails |
| `JsonParser.Parser.ParseText` | packages/contracts/assembly/json.ts:154-168 | succeeds exactly when the whole text is one value |
| `Document.ReadLiteral` | packages/contracts/assembly/json.ts:280-346 | every legal string literal, with any of the escapes, reads as its units |
| `Document.ReadDoc` | packages/contracts/assembly/json.ts:170-278 | every JSON document, with any white space, reads as what it means, and reading stops behind it |
| `Document.FindDoc` | packages/contracts/assembly/json.ts:170-278 | whatever is read was a document of that meaning |
| `Document.ParseIff` | packages/contracts/assembly/json.ts:154-168 | a text parses to a value exactly when it is a document of that meaning with white space around it |
| `Sot.ParseDecimal` | packages/contracts/assembly/json.ts:82-103 | trimming, parsing and casting back the decimal text of any u64 gives the number |
| `Sot.SmartObjectToken.TransferTo` | packages/contracts/assembly/sot.ts:49-63 | only the owner moves the whole positive balance; the new token differs in owner only and the old one is emptied |
| `Sot.SmartObjectToken.MintTo` | packages/contracts/assembly/sot.ts:65-77 | only the owner mints; supply grows modulo 2^64 and the recipient's token holds the minted amount |
| `Sot.SmartObjectToken.BurnSome` | packages/contracts/assembly/sot.ts:79-88 | only the owner burns, at most the balance, from balance and supply alike |
| `Sot.TextRestores` | packages/contracts/assembly/entry.ts:117-126 | rebuilding a token with plain strings and any amounts from its own JSON gives the token back, and the text shows the supply under both of its names |
| `Sot.TextFails` | packages/contracts/assembly/json.ts:280-346 | the JSON of a token with any other string does not parse |
| `Sot.StepRefines` | packages/contracts/assembly/entry.ts:79-164 | for a writable token one call by name and argument text, through restore, parse and print, equals the call on the token in memory; for any other token every call is an error |
| `Sot.RunRefines` | packages/contracts/assembly/entry.ts:272-294 | any run of calls by name and argument text, with the state carried as JSON, equals the run on the token, failures included, if the token is writable and the calls name plain recipients |
| `Authority.TransferDecided` | packages/contracts/assembly/sot.ts:49-63 | a transfer succeeds exactly for the owner with the whole, non-zero balance, and changes the owner only |
| `Authority.MintDecided` | packages/contracts/assembly/sot.ts:65-77 | a mint succeeds exactly for the owner with an amount above zero; recipient, balance and supply change as stated |
| `Authority.BurnDecided` | packages/contracts/assembly/sot.ts:79-88 | a burn succeeds exactly for the owner with an amount above zero within the balance; balance and supply fall by it |
| `Authority.OthersDecided` | packages/contracts/assembly/entry.ts:151-164 | reading the balance and unknown methods change nothing |
| `Authority.TypesDecided` | packages/contracts/assembly/entry.ts:87-115 | only stored JSON objects of type SOT or UTX20 answer as tokens |
| `Authority.SupplyRead` | packages/contracts/assembly/entry.ts:117-126 | the supply read is the local one if there is one, and the total otherwise |
| `Authority.OnlyOwnerChanges` | packages/contracts/assembly/sot.ts:49-88 | a call that changes a token is its owner's |
| `Authority.StrangersChangeNothing` | packages/contracts/assembly/entry.ts:272-294 | over any run through the text, calls of others leave the text as it is |
| `Authority.OwnerLetsGo` | packages/contracts/assembly/sot.ts:49-77 | a token that changes hands was handed on by a call of its owner |
| `Authority.RunConserves` | packages/contracts/assembly/sot.ts:49-88 | without mints the balance never grows and the supply falls exactly as it does; name, symbol and decimals never change |
| `Entry.Contract.RestoreState` | packages/contracts/assembly/entry.ts:272-294 | a JSON object becomes the global state with its type detected; anything else is refused and changes nothing |
| `Entry.Contract.Call` | packages/contracts/assembly/entry.ts:79-115 | parses arguments and state, dispatches on the type and leaves the text the specification says, or no change on error or trap |
| `Entry.Contract.CallSot` | packages/contracts/assembly/entry.ts:117-164 | the token object rebuilt from the state, called and printed does what the call in memory does |
| `Entry.Contract.RestoreAndCall` | packages/contracts/assembly/entry.ts:79-164 | restoring a text and calling is one step of the run through the text |
| `Fixture.CallDecided` | packages/core-vm/src/fixture.rs:128-166 | a call replaces the state of the first object with its id by what execution returns, and fails exactly without one or when execution does |
| `Fixture.DeployDecided` | packages/core-vm/src/fixture.rs:99-127 | a deployment adds an object with the runtime's state and its code, under the given id or the code hash |
| `Fixture.GasIsCappedSum` | packages/core-vm/src/fixture.rs:96-168 | a run's gas is the sum the runtime reported, capped at the largest u64 |
| `Fixture.StepIsLocal` | packages/core-vm/src/fixture.rs:96-168 | an operation reads and writes only the entries of its own object |
| `Fixture.StepsCommute` | packages/core-vm/src/fixture.rs:96-168 | operations on different objects commute in success, gas and object histories |
| `Fixture.Confluence` | packages/core-vm/src/fixture.rs:83-169 | interleavings that keep each object's order agree on success, saturating gas and every object's entries |
| `Fixture.RootConfluence` | packages/core-vm/src/fixture.rs:83-184 | and so on the state root |
| `Fixture.ComputeFixtureStateRoot` | packages/core-vm/src/fixture.rs:61-74 | the hasher loop hashes the tag and the sorted, length-prefixed listing |
| `Fixture.RootBindsStates` | packages/core-vm/src/fixture.rs:57-74 | equal roots show the same ids and states in sorted order, or the two preimages collide |
| `Fixture.VerifyFixture` | packages/core-vm/src/fixture.rs:83-184 | the replay loop returns root, operation count and gas of the run, or fails where the run fails |
| `Fees.IndexerFee` | packages/node/src/consensus/fee_distribution.rs:262-269 | never more than the fee, and below the minimum only when it is the whole fee |
| `Fees.IndexerFeeIsLeast` | packages/node/src/consensus/fee_distribution.rs:262-269 | the fee is the least amount at least the minimum and within one unit of the percentage, or the total |
| `Fees.SharesProportional` | packages/node/src/consensus/fee_distribution.rs:131-155 | without overflow a fee is the operator's proportion of the pool by unchallenged batches, rounded down, plus the remainder for the first operator |
| `Fees.Leftover` | packages/node/src/consensus/fee_distribution.rs:131-155 | rounded parts never exceed the pool and, without overflow, fall short by less than the number of operators |
| `Fees.DividedExactly` | packages/node/src/consensus/fee_distribution.rs:116-160 | shares sum exactly to the pending pool, overflow fallback included |
| `Fees.FeeDistribution.CreateFeeEnvelope` | packages/node/src/consensus/fee_distribution.rs:82-113 | indexer fee and operator pool add up to the fee collected |
| `Fees.FeeDistribution.CalculateOperatorShares` | packages/node/src/consensus/fee_distribution.rs:116-160 | fails exactly without operators or effective batches; otherwise the shares pay out exactly what is pending |
| `Fees.FeeDistribution.DistributeFees` | packages/node/src/consensus/fee_distribution.rs:163-167 | the paid shares move from pending to distributed, pending stopping at zero |
| `Fees.ApplySurplus` | packages/node/src/consensus/fee_distribution.rs:82-167 | from any account, a step adds to indexer + pending + distributed - collected exactly what a distribution pays beyond what is pending |
| `Fees.ConservedIff` | packages/node/src/consensus/fee_distribution.rs:82-167 | over any run, collected = indexer + pending + distributed if and only if no distribution paid more than was pending |
| `Fees.FeesConserved` | packages/node/src/consensus/fee_distribution.rs:82-167 | so it holds when each distribution has a successful calculation since the last one, with collections and further calculations in between |
| `Fees.PaidTwice` | packages/node/src/consensus/fee_distribution.rs:163-167 | two distributions on one calculation pay the operator pool out twice and break the books |

## Left out

- SHA-256, BIP-340 and ECDSA, hex coding and UTF-8 decoding: parameters or plain bytes.
- Wasm execution, the code store and its DHT fetch: a call is a deterministic function that may fail; a missing blob is a failed call.
- Timestamps, log lines and bridge events: not part of any result.
- L1 fetch errors inside a pass, mempool transactions, lock poisoning, crashes inside a call: a pass sees one L1 view and calls are atomic.
- Chain names that contain a colon: block keys are modelled as (chain, height) pairs, while the code filters on a string prefix.
- Undo records with missing fields: the processor always writes all of them; CREATE and UPDATE are told apart by the presence of the earlier record.
- Rollback across several chains in one store: transitions are trimmed for all chains, as in the code, and the exactness results are for a store that one chain writes.
- `ProcessTx`: requires a transaction id of at least 16 bytes, where the code would panic, and an object id in the store's collision-free universe.
- `VerifyProof`: the Merkle leaf it checks hashes the canonical object JSON, while the store's tree hashes object fields, as in the code; no result says that store-made proofs pass.
- `RequestOf`: a quoted amount with a plus sign or a 0x, 0o or 0b prefix in a call's arguments; the standard library's parse of it is not part of this repository.
- `CallOn`: states of the other contract types answer an error here, where the code runs their own methods.
- `ParseString`: the four digits of a \u escape are read by a parameter.
- Overflow of the u64 running totals and of the sum of batch counts in fee accounting.
- The NFT, vault and swap contracts, operator set, challenges, covenants and L1 scripts, relay, P2P, RPC, CLI, wallet and SDK clients: they would only add easy members or foreign input and output.
