# XPARQ in Dafny

A verified model of the parts of the XPARQ ledger where a fast, incremental or persistent form has
to agree with a simple one. Each Rust loop is a Dafny method proved against a specification
function, and the properties are lemmas about those functions or invariants of the classes.

| area | files |
|---|---|
| persistent copy-on-write AVL map | `AvlMap` (the tree as a value), `NodeArena` (reference-counted heap, `make_mut`, clones), `MapIter` (iterators, equality, encoding) |
| state-root cache on pointer equality | `RootCache` |
| Merkle root and proofs | `Merkle` |
| 256-bit targets, compact encoding | `Bytes`, `Compact`, `PowTarget` |
| header validation, checkpoints, locator | `HeaderChain`, `HeaderGenesis`, `HeaderMeaning`, `HeaderCheckpoints`, `Locator` |
| linear chain, reorg, relayed and mined blocks | `ChainStore`, `Reorg` |
| storage transactions, snapshots, indexes, restart, paging | `StorageModel`, `Storage`, `StorageRuns`, `SnapshotMeaning`, `StorageIndexes`, `IndexMeaning`, `StaleIndexes`, `BlockIdentity`, `StaleExample`, `TrustedRestore`, `ActivityPaging` |
| XPVM assembler and bytecode validation | `Assembler`, `Bytecode`, `Disassembly` |
| coin transfers | `CoinLedger`, `CoinTransfer`, `CoinProgram` |
| nonce search | `NonceSearch` |
| shared helpers | `Wrappers`, `Integers`, `Powers` |

Conventions of the model:

- Hashing, proof of work, block decoding, and execution and undo of a block are function parameters.
  Where a property needs a collision-free hash it is a precondition (`Injective`, `CollisionFree`)
  over unbounded digests. Three more facts about the parameters are preconditions where they matter:
  every block above genesis creates a coin (`Mints`; runtime/src/storage.rs:432-438), every target
  that can be checked has positive work, floor(2^256 / (target + 1)) in the source (`Priced`;
  kernel/src/consensus/fork/work.rs:55-61), and undoing an executed block, where it succeeds, gives
  back the state before it (`Inverts`). `HonestBranchExists`, `CollisionFreeExists` and
  `StaleAtMatchingTip` show that these can be met.
- The index results need that among the encodings handed to a run a block hash belongs to one only
  (`HashPins`). This is no property of decoding: the hash is the header's, the header has no height,
  and plain decoding makes no Merkle test. It is one of admitted blocks, whose header fixes the body
  through the Merkle root and the height through the links to genesis (`AdmittedPins`).
- Map keys are integers and hashes numbers: the fixed-width byte arrays of the source compare as the
  numbers they spell (`Bytes.LexIsNumeric`).
- 64-bit and 512-bit saturation, 64-bit checked sums, wrap-around of nonces and the 32-bit compact
  form are written out. Other counters are unbounded.
- A write transaction of the database is one atomic step on a value holding all tables; a pinned
  reader holds such a value. A Boolean says whether a transaction commits.
- In `RootCache` a state has four maps (coins, programs, asset records and shares) and three
  counters; a program's nested storage is part of its map value.
- Threads in `NonceSearch` interleave atomic accesses in one order (sequential consistency).
- A call of `state_root` is two steps, lookup and the rest, and holds its state borrowed in between.

Four places where the code and an expectation differ:

- `difficulty_anchor` is not path-independent: advancing a state never moves it, while computing the
  state from genesis takes header 1 as soon as there is one. `AnchorExample` shows it, and
  `PathIndependent` says exactly when the anchors agree. Nothing in validation reads the anchor.
- The comment on the compact limit speaks of 0x2000ffff; the constant, followed here, is 0x201fffff.
- Appending a block does not write the program index version, so an appended store records an index
  tip and reports none. `RecordedNotReported` shows it, and `TipReportedIff` says exactly when a tip
  is reported.
- A rebuild takes the chain of the ledger in memory (runtime/src/node/index.rs:106-143) without the
  lock under which a reorganization first replaces the stored chain and then the ledger
  (runtime/src/node/chain_sync.rs:408-409), and the next append compares the recorded height only
  (runtime/src/storage.rs:1293-1297). So the reported tip may match the stored chain in height and
  hash over tables of another branch. `StaleAtMatchingTip` shows it, and `AgreeIffCurrent` says
  exactly when the tables are those of the stored bodies.

## Model

| member | source | states |
|---|---|---|
| AvlMap.RebalanceShaped | kernel/src/state_map.rs:145-165 | a node whose subtrees differ in height by at most two rebalances to a tree with exact height and len fields and AVL balance, at most one higher than the higher subtree |
| AvlMap.RebalanceKeepsEntries | kernel/src/state_map.rs:117-165 | rotations and rebalancing keep the in-order listing |
| AvlMap.InsertRefinesPut | kernel/src/state_map.rs:166-196 | the listing after insertion is the old listing with the key put in its place |
| AvlMap.InsertCorrect | kernel/src/state_map.rs:166-196 | insertion is plain map update on a valid tree, which stays valid |
| AvlMap.PopMinSplits | kernel/src/state_map.rs:200-209 | popping the minimum splits the listing into its first entry and the rest |
| AvlMap.PopMinCorrect | kernel/src/state_map.rs:200-209 | the popped entry has the least key, the rest is listed unchanged, and the tree stays valid |
| AvlMap.RemoveRefinesDrop | kernel/src/state_map.rs:210-236 | the listing after removal is the old listing without the key |
| AvlMap.RemoveCorrect | kernel/src/state_map.rs:210-236 | removal is plain map deletion on a valid tree, which stays valid |
| AvlMap.SetValueCorrect | kernel/src/state_map.rs:250-260 | writing through `get_mut` is plain map update of a present key, on a tree that stays valid |
| AvlMap.GetIsLookup | kernel/src/state_map.rs:102-112 | lookup by descent is lookup in the plain map |
| AvlMap.BuildCorrect | kernel/src/state_map.rs:350-375 | the bulk build from sorted items is a valid tree listing exactly those items |
| AvlMap.ListingUnique | kernel/src/state_map.rs:334-343 | two sorted listings with the same dictionary are the same listing |
| AvlMap.LenIsCount | kernel/src/state_map.rs:10-31 | the stored len is the number of entries |
| AvlMap.HeightIsLogarithmic | kernel/src/state_map.rs:10-31 | 2^(height/2) is at most len + 1 |
| AvlMap.HeightFitsU16 | kernel/src/state_map.rs:10-31 | with fewer than 2^64 entries the height stays below 130, so the 16-bit field cannot overflow |
| AvlMap.RotationsKeepEntries | kernel/src/state_map.rs:117-144 | both rotations keep the in-order listing |
| AvlMap.BuildShaped | kernel/src/state_map.rs:351-374 | the recursive build is balanced, with exact height and len fields |
| AvlMap.SetValueRefinesPut | kernel/src/state_map.rs:250-260 | the listing after a write to a present key is the old one with that value replaced |
| NodeArena.Arena.MakeMut | kernel/src/state_map.rs:117-165 | `Arc::make_mut`: the node becomes exclusively ours, itself exactly when its count was one and a copy otherwise, and nothing seen through any other reference changes |
| NodeArena.Arena.Rotate | kernel/src/state_map.rs:117-144 | a rotation in the reference-counted heap computes the tree rotation; all other references see what they saw |
| NodeArena.Arena.Rebalance | kernel/src/state_map.rs:145-165 | heap rebalancing computes tree rebalancing; counts stay exact and all other references see what they saw |
| NodeArena.Arena.Insert | kernel/src/state_map.rs:166-196 | heap insertion computes tree insertion and the previous value; counts stay exact; every other live reference still denotes the same tree |
| NodeArena.Arena.Unwrap | kernel/src/state_map.rs:197-199 | the node by value, moved out when ours is the only reference and cloned otherwise |
| NodeArena.Arena.PopMin | kernel/src/state_map.rs:200-209 | heap `pop_min` computes the tree version, isolated from every other reference |
| NodeArena.Arena.Remove | kernel/src/state_map.rs:210-236 | heap removal computes tree removal and the removed value, isolated from every other reference |
| NodeArena.Arena.Update | kernel/src/state_map.rs:250-260 | a write through `get_mut` changes one value in our tree only |
| NodeArena.Arena.Retain | kernel/src/state_map.rs:38-44 | a clone adds one reference and copies nothing |
| NodeArena.Arena.Lookup | kernel/src/state_map.rs:102-112 | the descent through heap nodes finds what the tree lookup finds |
| NodeArena.FreeStep | kernel/src/state_map.rs:197-199 | dropping the last reference removes one node and keeps counts, labels and all other trees |
| NodeArena.Arena.Take | kernel/src/state_map.rs:117-165 | `take` moves a child reference out of our node |
| NodeArena.Arena.Attach | kernel/src/state_map.rs:117-165 | attaching moves a reference into our node |
| NodeArena.Arena.Refresh | kernel/src/state_map.rs:18-23 | the stored height and len become those of the children |
| NodeArena.Arena.Overwrite | kernel/src/state_map.rs:166-196 | insertion at an existing key replaces the value in our copy of the node only |
| NodeArena.Arena.Collapse | kernel/src/state_map.rs:210-236 | removing a node with a missing child hands over the other child |
| NodeArena.Arena.ReplaceByMin | kernel/src/state_map.rs:210-236 | removing a node with two children puts the least entry of the right one in its place |
| MapIter.Iter.constructor | kernel/src/state_map.rs:60-67 | a new iterator has the whole listing still to come |
| MapIter.Iter.From | kernel/src/state_map.rs:69-86 | `iter_from(b)` has exactly the entries with keys at least `b` still to come |
| MapIter.Iter.Next | kernel/src/state_map.rs:289-300 | the next entry in key order leaves the pending list, and the remaining count of a full iterator stays its exact length |
| MapIter.FromIsSuffix | kernel/src/state_map.rs:69-86 | on a sorted listing the entries at or above a bound are a suffix, cut at the first such key |
| MapIter.Equal | kernel/src/state_map.rs:334-343 | two maps compare equal exactly when their listings are equal, whatever their shapes |
| MapIter.Serialize | kernel/src/state_map.rs:381-392 | the encoding written is the length and then each entry in key order |
| MapIter.ShapeIndependent | kernel/src/state_map.rs:334-392 | valid trees with the same contents have the same listing and the same encoding |
| RootCache.Ledgers.CachedRoot | kernel/src/ledger/state.rs:73-92 | a hit exactly when the cell is filled and its map roots and scalars are those of the asking state, and then the root is the full hash of that state |
| RootCache.Ledgers.CacheRoot | kernel/src/ledger/state.rs:94-107 | filling the cell makes its map roots and scalars those of the state, and changes no state |
| RootCache.Ledgers.FinishRoot | kernel/src/ledger/canonical/state_root.rs:42-53 | after a miss the answer is the full hash (zero for an empty state, an error where encoding fails); the cell is filled for this state on success and untouched in those two cases, and no state changes |
| RootCache.Ledgers.Insert | kernel/src/state_map.rs:237-242 | insertion through one state changes that map of that state only and hands back the old value; the cached copy and every other state are isolated |
| RootCache.Ledgers.Remove | kernel/src/state_map.rs:243-249 | removal likewise; a missing key leaves every pointer, node and count as it was |
| RootCache.Ledgers.Set | kernel/src/program/registry.rs:213-241 | a write to a present entry in place, isolated likewise; nothing is detached when the key is missing or the value is already there |
| RootCache.Ledgers.CloneState | kernel/src/state_map.rs:38-44 | a cloned state looks the same and has the same four map roots and scalars |
| RootCache.Ledgers.Run | kernel/src/ledger/canonical/state_root.rs:38-54 | for every interleaving of writes and clones with the lookups and the later fills of root queries, by states sharing one cache cell, each query is answered with the full hash of the state it borrowed, as if states shared nothing and were never cached |
| RootCache.Ledgers.DoState | kernel/src/ledger/state.rs:73-107 | a write or clone leaves every state borrowed by an open query as it was; a filled cell still answers for every state not written and for its new clones |
| RootCache.Ledgers.AskAgain | kernel/src/ledger/canonical/state_root.rs:38-54 | after a root was computed, whatever is cloned, asked or written to other states, the next lookup for the same state hits with the full hash |
| RootCache.Ledgers.Assign | kernel/src/state_map.rs:38-44 | a map assigned from another state becomes a clone of it and nothing else changes |
| RootCache.Ledgers.SetScalars | kernel/src/ledger/state.rs:123-127 | changing counters changes that state only, and leaves the cached copy |
| Merkle.ParentLevel | kernel/src/blockchain/merkle.rs:99-119 | the level above, an odd last node promoted unchanged |
| Merkle.MerkleRoot | kernel/src/blockchain/merkle.rs:6-16 | the root of the level recursion, None for no leaves |
| Merkle.Create | kernel/src/blockchain/merkle.rs:26-59 | the sibling path of an existing leaf, None otherwise |
| Merkle.Verify | kernel/src/blockchain/merkle.rs:61-97 | accepts exactly when climbing with the siblings, all used, reaches the root |
| Merkle.ProofsComplete | kernel/src/blockchain/merkle.rs:26-97 | for every leaf list and index the created proof is accepted against the root |
| Merkle.ProofsSound | kernel/src/blockchain/merkle.rs:26-97 | with an injective parent hash, a proof with the true leaf count is accepted exactly when it is the created proof of the leaf at its index |
| Merkle.RootSplits | kernel/src/blockchain/merkle.rs:6-16 | the root of more than one leaf is the parent of the root of the first 2^k leaves and the root of the rest, where 2^k is the largest power of two below the count |
| Merkle.PathLength | kernel/src/blockchain/merkle.rs:26-59 | a proof over at most 2^b leaves has at most b siblings |
| PowTarget.Multiply | kernel/src/consensus/target.rs:73-92 | the byte loop computes the exact 264-bit product |
| PowTarget.Divide | kernel/src/consensus/target.rs:94-102 | the in-place byte loop computes the exact quotient |
| PowTarget.ScaleRatio | kernel/src/consensus/target.rs:64-121 | max(1, floor(target * num / den)) exactly, None exactly for ratio parts outside 1..255 or a result of 2^256 or more |
| PowTarget.ScaleRatioConsensus | kernel/src/consensus/target.rs:129-151 | defined exactly for ratio parts 1..255, and then the exact scaling held between one and the limit |
| PowTarget.PowLimit | kernel/src/consensus/target.rs:50-53 | decoding the limit never fails and gives its value |
| PowTarget.Meets | kernel/src/consensus/target.rs:41-48 | byte comparison is numeric comparison of hash and target |
| PowTarget.FromCompact | kernel/src/consensus/target.rs:165-232 | decodes exactly the unsigned encodings of numbers in 1..2^256-1, to the number denoted |
| PowTarget.ToCompact | kernel/src/consensus/target.rs:263-310 | the canonical encoding of the target's number |
| PowTarget.FromConsensusCompact | kernel/src/consensus/target.rs:234-257 | accepts exactly canonical encodings of targets within the limit |
| PowTarget.CompactReaccepted | kernel/src/consensus/target.rs:129-310 | compacting any target within the limit gives bits that are accepted again and denote the largest denotable target not above it, less than one unit harder |
| PowTarget.AcceptedIsCanonical | kernel/src/consensus/target.rs:234-257 | a target has at most one accepted encoding |
| PowTarget.SmallBytes | kernel/src/consensus/target.rs:190-198 | sizes up to three write the shifted mantissa at the low end |
| PowTarget.LargeBytes | kernel/src/consensus/target.rs:199-229 | larger sizes place the three mantissa bytes; any byte left of the target is zero |
| Compact.OverflowIff | kernel/src/consensus/target.rs:180-186 | the size and mantissa test refuses exactly the numbers of 2^256 or more |
| Compact.EncodeRoundsDown | kernel/src/consensus/target.rs:259-310 | encoding cuts a number down to the multiple of its exact unit, the weight of the last bit kept, and never to zero |
| Compact.EncodeIsLargest | kernel/src/consensus/target.rs:259-310 | no encoding whatever denotes a number between the encoded one and the original |
| Compact.EncodeIdempotent | kernel/src/consensus/target.rs:165-310 | encoding what an encoding denotes gives the encoding back |
| Compact.EncodeDecodable | kernel/src/consensus/target.rs:165-310 | the encoding of any number below 2^256 fits 32 bits and decodes |
| HeaderChain.VerifyExtension | kernel/src/consensus/header.rs:223-318 | the extension loop with its sliding window is the fold of one header step, with the same errors |
| HeaderChain.ChunksCompose | kernel/src/consensus/header.rs:340-376 | from any state, two chunks one after the other give the acceptance, error and state of their concatenation |
| HeaderChain.AnyChunking | kernel/src/consensus/header.rs:320-376 | the same for every way of cutting a run into chunks |
| HeaderChain.AdvancedRestarts | kernel/src/consensus/header.rs:223-376 | an advanced state restarts exactly where the loop stopped |
| HeaderGenesis.VerifyChain | kernel/src/consensus/header.rs:80-138 | the loop from genesis is the fold of its header step, with the same errors |
| HeaderGenesis.LoopsAgree | kernel/src/consensus/header.rs:80-318 | the two loops accept the same runs with the same hash and work, and where hashing cannot fail report the same errors |
| HeaderGenesis.GenesisIsExtension | kernel/src/consensus/header.rs:173-204 | validating from genesis is extending the state of genesis alone, but for the anchor |
| HeaderGenesis.PathIndependent | kernel/src/consensus/header.rs:173-376 | resuming from a validated prefix gives what validation from genesis gives; the whole states agree exactly when the prefix reaches past genesis or nothing is added |
| HeaderGenesis.AnchorExample | kernel/src/consensus/header.rs:173-204 | a concrete chain on which resuming from genesis keeps a different difficulty anchor |
| HeaderMeaning.WindowSuffices | kernel/src/consensus/policy/difficulty.rs:101-124 | the sliding window of 5000 headers yields the difficulty that the full history yields |
| HeaderMeaning.VerifyMeaning | kernel/src/consensus/header.rs:80-171 | acceptance means exactly: every header linked, weighted, at the difficulty of the full history, with proof of work; the result is the tip hash and the capped total work |
| HeaderMeaning.StateMeaning | kernel/src/consensus/header.rs:173-204 | the validation state of a valid chain, field by field, and no state for any other |
| HeaderMeaning.RetargetHeights | kernel/src/consensus/policy/difficulty.rs:101-124 | in a valid chain header 1 has the starting bits, and elsewhere the bits change at most at heights 2500 k + 1 |
| HeaderMeaning.RetargetAt | kernel/src/consensus/policy/difficulty.rs:101-124 | at height 2500 k + 1 the bits are the adjustment of those before by exactly the 2500 weights from height 2500 (k - 1) + 1 to 2500 k |
| HeaderMeaning.WorkRange | kernel/src/consensus/fork/work.rs:7-11 | work saturates at the largest number of its 64 bytes |
| HeaderCheckpoints.Build | runtime/src/node/state.rs:122-176 | one checkpoint at every multiple of 256 up to the tip and none elsewhere, with the exact capped totals; fails exactly on a wrong genesis, an unhashable header or bits without work |
| HeaderCheckpoints.Update | runtime/src/node/state.rs:178-258 | checkpoints carried over from any former valid chain and extended are honest for the new chain, one at every multiple of 256 if they were so before, and the totals are its totals |
| HeaderCheckpoints.SamePrefix | runtime/src/node/state.rs:201-215 | with a collision-free hash, one matching header hash pins the whole prefix below it |
| HeaderCheckpoints.FindCovering | runtime/src/node/chain_sync.rs:473-476 | the last checkpoint at or below the height |
| HeaderCheckpoints.StateAtHeight | runtime/src/node/chain_sync.rs:463-579 | succeeds exactly when the covering checkpoint matches the chain and all work is defined, with totals resumed from it and the window ending at the height |
| HeaderCheckpoints.HonestResume | runtime/src/node/chain_sync.rs:463-579 | from any honest checkpoint the rebuilt state is the one genesis validation computes, anchor included |
| HeaderCheckpoints.RebuildIsGenesisState | runtime/src/node/chain_sync.rs:463-579 | with covering checkpoints the rebuild succeeds at every height of a valid chain and equals genesis validation of that prefix |
| HeaderCheckpoints.Recent | runtime/src/node/chain_sync.rs:541-569 | the last 5000 headers up to the height |
| HeaderCheckpoints.TotalsUpTo | runtime/src/node/chain_sync.rs:490-521 | work and weight resumed header by header up to the height, failing exactly on bits without work |
| HeaderCheckpoints.Extend | runtime/src/node/state.rs:213-257 | honest checkpoints continued to the tip are honest, stay one at every multiple of 256, and the totals are the chain's; fails exactly when a header on the way does not hash or has no work |
| HeaderCheckpoints.FindAnchor | runtime/src/node/state.rs:201-208 | the last remembered checkpoint that the chain still has |
| HeaderCheckpoints.CarriedOver | runtime/src/node/state.rs:201-219 | checkpoints up to a matching one stay honest on the new chain |
| Locator.HeaderLocator | runtime/src/node/chain_sync.rs:423-461 | fails exactly where a header it comes to is missing or has no hash, and otherwise lists the visited headers and the genesis hash; on an honest chain, from the tip strictly down to genesis, at most 64 entries, and for any fork depth d the first entry at or below it is at most 2d deep or genesis |
| Locator.EncodeLocator | runtime/src/node/chain_sync.rs:581-592 | encodes exactly the non-empty locators within the limit |
| Locator.DecodeLocator | runtime/src/node/chain_sync.rs:594-610 | accepts exactly the encodings and inverts them |
| Locator.EncodingIsUnique | runtime/src/node/chain_sync.rs:581-610 | an encoding has one decoding |
| ChainStore.Chain.ValidateNext | kernel/src/blockchain/chain.rs:114-138 | accepts exactly the next height naming the tip as parent, and which error otherwise |
| ChainStore.Chain.InsertBlock | kernel/src/blockchain/chain.rs:24-37 | the chain grows by exactly this header, or nothing changes |
| ChainStore.Chain.RemoveTip | kernel/src/blockchain/chain.rs:140-157 | the chain loses exactly its tip and returns its body, or nothing changes |
| ChainStore.Chain.CacheKnownBlock | kernel/src/blockchain/chain.rs:94-104 | only a body whose header is on the chain becomes resident; the chain does not move |
| ChainStore.Chain.RetainRecentBodies | kernel/src/blockchain/chain.rs:68-92 | a body stays resident exactly when it is genesis or the tip, or fits both budgets after the bodies kept above it; fails exactly when some body cannot be weighed, and then nothing changes |
| Reorg.BetterIsStrictOrder | kernel/src/consensus/fork/ordering.rs:6-22 | fork choice is a strict total order on tips in which more work always wins, more weight wins at equal work, and the smaller hash at equal work and weight |
| Reorg.Node.PrefersByTotals | runtime/src/node/chain_sync.rs:283-297 | fork choice against the local chain, by its capped totals alone: more work is preferred, less never; at equal work more weight is, less never; at equal totals exactly the smaller tip hash |
| Reorg.BetterOutranks | kernel/src/consensus/fork/ordering.rs:6-22 | of two valid chains the preferred one has at least as much capped work, at equal work at least as much capped weight, and at equal totals the smaller tip hash |
| Reorg.Ledger.RollbackTip | kernel/src/ledger/canonical/rollback.rs:33-88 | undoes the tip as a whole, exactly when its body and journal are at hand and the undo passes, leaving the undone state, or changes nothing |
| Reorg.Ledger.ApplyBlock | kernel/src/consensus/block.rs:39-52 | executes, appends and journals the block exactly when execution succeeds and it is the tip's hashable child, or changes nothing |
| Reorg.Node.CanonicalBlock | runtime/src/node/state.rs:326-370 | a body is returned exactly when it is resident or a sound stored one carries the chain's header, and it carries the chain's header at that height |
| Reorg.Node.RollBack | runtime/src/node/chain_sync.rs:320-341 | rollback succeeds exactly when every block above the ancestor has its undo data, is sound and can be undone from the state it left; it stops at the ancestor, in the state of executing the bodies up to it, with the bodies and undo data below it kept and those above gone |
| Reorg.Node.Unwind | runtime/src/node/chain_sync.rs:320-341 | the tip is undone exactly when it has its undo data, is sound and its undo passes from the state it left |
| Reorg.Node.Cache | runtime/src/node/chain_sync.rs:355-359 | a body of the chain becomes resident exactly when it is sound |
| Reorg.Node.Replay | runtime/src/node/chain_sync.rs:361-398 | replay succeeds exactly when the headers follow the ancestor, the downloads are their blocks, no more and no fewer, and executing these succeeds; the staged ledger is then longer by exactly them, each resident and journalled |
| Reorg.Node.Play | runtime/src/node/chain_sync.rs:364-397 | one download continues the staged chain exactly when it arrived, is the block of the expected header, names the previous hash, hashes, and executes |
| Reorg.Node.Collect | runtime/src/node/mempool.rs:638-650 | the bodies to store are read exactly when every shared height is resident or has a sound stored body, and are those of the staged chain |
| Reorg.Node.Weigh | runtime/src/node/chain_sync.rs:260-319 | a branch goes on exactly when it is preferred, its ancestor is on the chain and the undo data above it is there; it is ignored exactly when not allowed or not preferred, and left to recovery exactly when only the undo data is missing |
| Reorg.Node.ApplyVerifiedBranch | runtime/src/node/chain_sync.rs:251-421 | a branch is installed exactly when it is allowed, its tip hashes, it is preferred, its ancestor is on the chain, every block above the ancestor can be undone, the bodies up to it can be read, the downloads are its blocks and execute, and the write commits; the node then holds exactly the shared bodies and the downloads, with capped work at least as great as before, at equal work weight at least as great, at equal totals a smaller tip hash; a branch with more work is never ignored and one with less always is; recovery is asked for exactly when only undo data is missing; otherwise nothing changes |
| Reorg.Node.Exchange | runtime/src/node/chain_sync.rs:320-421 | a preferred branch whose ancestor is local is installed exactly when it can be rebuilt and the write commits |
| Reorg.Node.Prepare | runtime/src/node/chain_sync.rs:320-408 | the staged ledger and the bodies to store for it, exactly when the branch can be put on its ancestor |
| Reorg.Node.Run | runtime/src/node/chain_sync.rs:251-421 | over any run of synchronized branches, relayed and mined blocks, checks of announced tips and later applications of the forks found: every step answers and changes what the node holds exactly as `Steps` says on values; the (work, weight, hash) of the tip improves with every change, strictly until both totals are saturated; capped work never falls, nor weight at equal work; and the ledger state is the execution of the stored bodies |
| Reorg.Node.Extend | runtime/src/node/gossip.rs:960-1002 | a relayed or mined block becomes the tip, resident and journalled, exactly when it keeps every consensus rule, a relayed one is not the tip again and meets the minimums, it executes, and the write commits; a resynchronization is asked for exactly for a relayed block that does not follow the tip; otherwise nothing changes |
| Reorg.Node.Judge | runtime/src/node/gossip.rs:960-984 | exactly which blocks pass the tests before execution, and which ask for a resynchronization |
| Reorg.ExtendImproves | kernel/src/consensus/fork/ordering.rs:10-22 | a block added by the rules improves the tip unless both totals are saturated |
| Reorg.Node.Descend | runtime/src/node/gossip.rs:520-547 | the descent succeeds exactly with the blocks the peer serves by hash from the announced tip down to the first whose parent is on the local chain, at most eight, and with no others |
| Reorg.Node.CheckFork | runtime/src/node/gossip.rs:548-590 | a short fork passes exactly when the local prefix and its headers are a valid chain with the announced totals, allowed and preferred; it is then an honest branch |
| Reorg.Undone | kernel/src/ledger/canonical/rollback.rs:33-88 | if undo inverts execution, undoing the last body leaves the execution of the others |
| Reorg.Node.Probe | runtime/src/node/gossip.rs:500-600 | a fork is offered exactly when the peer serves it down to the local chain, the forked chain is valid with the announced totals, and it is allowed and preferred; an announcement that is not preferred is ignored |
| Reorg.Node.OfferInstalls | runtime/src/node/gossip.rs:548-600 | an offered fork that meets the chain unmoved is installed if and only if the blocks it replaces can be undone, the bodies below can be read and its own execute |
| Reorg.Node.Handle | runtime/src/node/gossip.rs:500-607 | every step does exactly what `Steps` says; the tip improves or nothing is changed; a fork checked on an older chain is applied to the current one, and stays an honest branch |
| Reorg.AdvanceMeans | runtime/src/node/gossip.rs:549-574 | advancing the state rebuilt at a local ancestor succeeds exactly when the prefix and the headers are a valid chain, and gives its capped totals |
| Reorg.SyncIsHonest | runtime/src/node/chain_sync.rs:4-166 | the branch that header synchronization hands over belongs to a valid chain made of the local prefix and the downloaded headers, with exactly its totals |
| Reorg.Node.Stage | runtime/src/node/chain_sync.rs:320-398 | staging succeeds exactly when the blocks above the ancestor can be undone, the ancestor's body is sound and the downloads can be replayed; the staged ledger is then exactly the branch's chain |
| Reorg.Node.Install | runtime/src/node/chain_sync.rs:408-409 | after the commit the node holds the staged ledger and the given bodies, and its checkpoints and totals agree with them again |
| Reorg.AncestorShared | runtime/src/node/chain_sync.rs:297-303 | with a collision-free hash, an ancestor hash that matches means the same chain up to it |
| Storage.Database.Append | runtime/src/storage.rs:1213-1352 | the exact next generation, committed exactly when every check passes; otherwise nothing changes |
| Storage.Database.Replace | runtime/src/storage.rs:1368-1540 | the exact next generation: bodies and tables refilled, snapshots and checkpoints kept up to the last common height, an optional recovery snapshot at the tip; otherwise nothing changes |
| Storage.Database.Rebuild | runtime/src/storage.rs:733-865 | tables rewritten from the stream, refused on repeated ids; otherwise nothing changes |
| Storage.Database.PutSnapshot | runtime/src/storage.rs:1642-1746 | snapshot stored, its old checkpoint dropped, a new one published only for a certified body prefix, oldest pruned; otherwise nothing changes |
| Storage.FindCommon | runtime/src/storage.rs:1394-1405 | the height of the last leading block of the stream that is stored unchanged |
| Storage.Certify | runtime/src/storage.rs:1654-1699 | a record exactly for a complete prefix of bodies carrying the given headers, with the fold of the history digest |
| Storage.IndexBlock | runtime/src/storage.rs:1245-1335 | one block in the four tables, or a refusal |
| Storage.InsertOrigins | runtime/src/storage.rs:489-509 | each coin gets its origin, refused if it has one |
| Storage.Fill | runtime/src/storage.rs:1444-1487 | bodies and tables filled from the stream, or a refusal |
| Storage.RebuildTables | runtime/src/storage.rs:780-841 | tables rebuilt from the stream, refused on a repeated block or transaction id |
| Storage.Prune | runtime/src/storage.rs:1722-1741 | the pruning loop removes the oldest until two are left |
| SnapshotMeaning.PutMeaning | runtime/src/storage.rs:1642-1746 | a snapshot write commits exactly if it is unvalidated or its headers are those of the whole stored prefix; the two highest snapshots stay; its height has a record exactly if it was validated, with every field of it as certified; all other records stay with their snapshots; nothing else changes |
| SnapshotMeaning.ReplaceMeaning | runtime/src/storage.rs:1394-1540 | a replacement keeps snapshots and records exactly below the first block that differs; the snapshot it brings has no record |
| SnapshotMeaning.SnapshotsExact | runtime/src/storage.rs:1213-1746 | over every run a stored snapshot is the one of the last committed write at its height, and has a record if and only if that write was validated, of exactly that snapshot and the bodies stored then |
| SnapshotMeaning.HighestStay | runtime/src/storage.rs:1722-1741 | of the snapshots exactly those with fewer than two above them stay |
| StorageRuns.PrunedMeaning | runtime/src/storage.rs:1722-1741 | at most two snapshots stay, the highest ones, and a checkpoint stays exactly if its snapshot was not dropped |
| StorageRuns.StepKeeps | runtime/src/storage.rs:1213-1746 | every transaction keeps the checkpoint invariant |
| StorageRuns.CheckpointInvariant | runtime/src/storage.rs:1213-1746 | after any run whose replacements are chains, every checkpoint has its snapshot with the recorded hash and its digest is the fold over the bodies stored now |
| StorageRuns.RecordOrigin | runtime/src/storage.rs:1642-1746 | every record of a reachable database was published as it stands by an earlier validated snapshot write of the run |
| StorageRuns.AppendKeeps | runtime/src/storage.rs:1213-1352 | an append keeps the checkpoint invariant |
| StorageRuns.ReplaceKeeps | runtime/src/storage.rs:1368-1540 | a chain replacement keeps it: what survives lies in the common prefix |
| StorageRuns.PutKeeps | runtime/src/storage.rs:1642-1746 | plain and validated snapshot writes keep it |
| StorageIndexes.AlwaysRooted | runtime/src/storage.rs:733-1540 | after every run the stored bodies decode at their heights, and a store with bodies has genesis |
| StorageIndexes.IndexesHold | runtime/src/storage.rs:733-1540 | after any run whose last rebuild since the last replacement, if any, was given the bodies stored then, a store with no body above the recorded index height has the tables of its bodies |
| StorageIndexes.AppendKeepsIndexes | runtime/src/storage.rs:1213-1352 | an append keeps the index invariant, also when it leaves or fills a gap |
| StorageIndexes.ReplaceKeepsIndexes | runtime/src/storage.rs:1368-1504 | a chain replacement establishes it |
| StorageIndexes.FilledIsRebuilt | runtime/src/storage.rs:733-865 | with distinct ids a rebuild succeeds wherever filling does, with the same tables |
| StaleIndexes.RebuildAgreesIff | runtime/src/storage.rs:733-865 | a committed rebuild leaves the tables of the stored bodies if and only if it was given exactly the stored bodies |
| StaleIndexes.AgreeMeansStored | runtime/src/storage.rs:1213-1352 | after a rebuild and any appends, tables that agree with the bodies mean that the rebuild was given the bodies stored then |
| StaleIndexes.AgreeIffCurrent | runtime/src/storage.rs:733-1540 | over every run, with no body above the recorded index height: the tables are those of the stored bodies if and only if the last committed rebuild since the last committed replacement, if any, was given the bodies stored then |
| StaleIndexes.StoredHanded | runtime/src/storage.rs:1213-1540 | nothing is stored that was not handed to some transaction of the run |
| StaleIndexes.TipReportedIff | runtime/src/storage.rs:280-329 | over every run a tip is reported if and only if some replacement or rebuild has committed, and then it is the recorded pair |
| StaleIndexes.IncrementalEqualsRebuild | runtime/src/storage.rs:280-329 | whenever the reported tip is the highest stored body in height and hash: with no stale rebuild since the last replacement the bodies are a chain and rebuilding from them changes none of the four tables (and succeeds when ids are distinct); with one, a rebuild from a stored chain changes a table |
| IndexMeaning.FilledMeaning | runtime/src/storage.rs:1444-1487 | a stream fills the tables exactly when every block is what it says and its coins are defined and none is created twice; each table then lists exactly what the stream holds: transactions by block and position, activities by account, hashes by height, coins by origin |
| IndexMeaning.TablesMeaning | runtime/src/storage.rs:733-1540 | over every run without a stale rebuild, with no body above the recorded index height, each of the four tables is in closed form the one of the stored bodies: every entry has its block, height and position, and nothing else is listed |
| IndexMeaning.AppendCommits | runtime/src/storage.rs:1213-1352 | exactly when an append commits, and what it then stores |
| IndexMeaning.ReplaceCommits | runtime/src/storage.rs:1368-1540 | exactly when a replacement commits; the bodies are then exactly the stream and the recorded tip its last block |
| IndexMeaning.RebuildCommits | runtime/src/storage.rs:733-865 | exactly when a rebuild commits; the tables are then the stream's and nothing but tables and meta data changes |
| IndexMeaning.AppendAdvances | runtime/src/storage.rs:1290-1335 | an append on top of the recorded tip moves the recorded tip to it |
| IndexMeaning.GrowingIndexed | runtime/src/storage.rs:1213-1352 | a store grown by appends alone is indexed to its last block, and each table is that of the stored bodies |
| BlockIdentity.LinksFixHeight | kernel/src/blockchain/chain.rs:114-138 | among admitted blocks with their parents down to genesis, one header has one height |
| BlockIdentity.AdmittedPins | kernel/src/blockchain/block.rs:300-310 | among admitted chains a block hash, the hash of the header alone, belongs to one encoding: the Merkle root fixes the body and the links fix the height |
| BlockIdentity.AdmittedRuns | runtime/src/storage.rs:280-329 | for a run handed admitted chains only, the tables at a matching reported tip are right if and only if no rebuild since the last replacement was given other bodies |
| StaleExample.StaleAtMatchingTip | runtime/src/node/index.rs:106-143 | a replacement, a rebuild from the abandoned chain and one append leave a reported tip that matches in height and hash over tables that list an abandoned block and miss a stored one |
| StaleExample.RecordedNotReported | runtime/src/storage.rs:280-329 | after an append to an empty store a tip is recorded and none reported |
| TrustedRestore.BodyReader.Next | runtime/src/storage.rs:1104-1188 | the pinned reader yields the body at each height in turn exactly if it is there with a size from 1 to 2^21, an error that ends it otherwise, and the end exactly above the highest body or after an error |
| TrustedRestore.Try | runtime/src/snapshot.rs:181-313 | exactly when a snapshot loads, in both modes, and the ledger and next height it gives; exactly when it is skipped rather than rejected |
| TrustedRestore.Finish | runtime/src/snapshot.rs:228-313 | exactly when the streamed bodies complete a load: no break, the recorded digest, and a ledger at the snapshot's height and tip |
| TrustedRestore.Load | runtime/src/snapshot.rs:169-332 | the first snapshot within the height limit that loads is the answer; when none loads, there is none without an error exactly if all were skipped |
| TrustedRestore.HistoryPins | runtime/src/storage.rs:51-58 | equal history digests come from equal prefixes of equal length |
| TrustedRestore.RestoreIsSafe | runtime/src/snapshot.rs:169-332 | whatever was written in between, a load that used a checkpoint has the snapshot bytes of the committed validated write that published it, has pulled exactly the h + 1 bodies that write certified, with the headers it was given, and the snapshot's tip is the last of these |
| TrustedRestore.ValidatedLoads | runtime/src/snapshot.rs:169-332 | a snapshot whose last committed write was validated loads with its checkpoint, for any constructor that makes a ledger at its tip out of all the bodies |
| TrustedRestore.CheckpointStaysUsable | runtime/src/snapshot.rs:169-332 | a reachable checkpoint still vouches for the snapshot and bodies stored beside it: pulling them all passes the digest test |
| TrustedRestore.Stream | runtime/src/snapshot.rs:228-260 | the blocks pulled and the digest over exactly their bodies |
| ActivityPaging.CursorOrder | runtime/src/storage.rs:239-262 | byte order of keys is numeric order of (height, kind, transaction) |
| ActivityPaging.DecodeCursor | runtime/src/storage.rs:198-216 | reading a key back gives the entry it encodes |
| ActivityPaging.RangeIsPrefix | runtime/src/storage.rs:137-169 | the scanned range holds exactly the program's keys up to the cursor |
| ActivityPaging.ReadPage | runtime/src/storage.rs:117-237 | on any table, an error exactly for limit zero or a malformed key among those it looks at; otherwise the next entries strictly below the cursor, newest first, at most the limit, with a cursor exactly when there are more |
| ActivityPaging.ReadAll | runtime/src/storage.rs:117-237 | following the cursors terminates, the pages laid end to end are the whole listing, for every limit, and there are no more pages than it takes |
| ActivityPaging.ListingMeaning | runtime/src/storage.rs:117-262 | the listing holds every activity of the program exactly once, in strictly descending order |
| ActivityPaging.Scan | runtime/src/storage.rs:156-219 | the scan looks at one key more than the page takes, in descending order, skipping the cursor itself, and fails exactly on a malformed one |
| ActivityPaging.VisitedIsSelect | runtime/src/storage.rs:117-237 | on index keys the keys looked at are the program's cursors strictly below the given one |
| ActivityPaging.SelectRest | runtime/src/storage.rs:117-237 | below a cursor of the listing is exactly the rest of the listing |
| Assembler.Assemble | devkit/assembler/lib.rs:24-192 | succeeds exactly for lines the first pass accepts, with every jump label declared, whose code the kernel validates; the code is the header and the encoded instructions with resolved operands |
| Assembler.MnemonicsArePlain | devkit/assembler/lib.rs:118-163 | the assembler has an instruction without operand for exactly the opcodes that validation accepts without one |
| Assembler.PatchAll | devkit/assembler/lib.rs:178-183 | the second pass resolves exactly the jump operands, and fails exactly on an undeclared label |
| Assembler.PatchedIsFlat | devkit/assembler/lib.rs:178-183 | patching the placeholders one by one gives the directly resolved encoding |
| Assembler.LineAdds | devkit/assembler/lib.rs:31-177 | what each line adds to body, fixups, labels and header, and exactly when it is refused |
| Bytecode.DecodeAll | kernel/src/program/vm_app/validation.rs:19-69 | the decoding loop: instruction boundaries, instructions and whether one returns, failing exactly on undecodable code or more than 4096 instructions |
| Bytecode.Validate | kernel/src/program/vm_app/validation.rs:19-101 | accepts exactly code with a fitting header and limits that decodes, returns somewhere, and jumps only to boundaries |
| Disassembly.StartsFlat | kernel/src/program/vm_app/validation.rs:26-66 | the decoder's boundaries are the offsets of the source instructions |
| Disassembly.ValidatesIff | kernel/src/program/vm_app/validation.rs:19-101 | an accepted program assembles to valid code if and only if it has a return, at most 4096 instructions, limits in range and no jump to a label at the very end |
| Disassembly.RoundTrip | devkit/assembler/lib.rs:24-192 | the emitted code decodes to exactly the source instruction sequence |
| Disassembly.JumpLands | devkit/assembler/lib.rs:24-192 | in validated code the byte a jump goes to, header length plus operand, is where the instruction after its label's declaration starts: decoding the code from there yields it and the rest |
| Disassembly.PatchChangesOne | devkit/assembler/lib.rs:178-183 | patching one jump changes that instruction and no other |
| Disassembly.TakeEncoded | kernel/src/program/vm_app/validation.rs:26-66 | the bytes of one instruction, wherever they stand, decode to it |
| Disassembly.DecodeAtOffset | kernel/src/program/vm_app/validation.rs:26-66 | after any prefix, the offset of any instruction, or the end, is a boundary of the decoding |
| Disassembly.LabelDeclared | devkit/assembler/lib.rs:38-53 | a label's offset is the body length where it was declared |
| CoinLedger.Ledger.InsertCoin | kernel/src/ledger/utxo/coin.rs:77-95 | exactly when a coin is admitted, with the running total kept equal to the sum |
| CoinLedger.Ledger.ConsumeCoin | kernel/src/ledger/utxo/coin.rs:97-116 | exactly the live coin is taken out, and the total never underflows |
| CoinTransfer.Host.Create | kernel/src/ledger/applied/coin.rs:216-245 | only the planned coin at each index is created, under its derived id |
| CoinTransfer.Host.Consume | kernel/src/ledger/applied/coin.rs:205-214 | only a declared live input is consumed, and journalled |
| CoinTransfer.Host.Burn | kernel/src/ledger/applied/coin.rs:247-282 | exactly the balancing amount is burned, once |
| CoinTransfer.ExecuteTransfer | extension/src/monetary/mod.rs:16-57 | exactly when a transfer goes through; it takes out its distinct inputs, puts in its outputs and at most one fee coin, burns the rest; every balance failure precedes the first change |
| CoinTransfer.Host.InputAmount | kernel/src/ledger/applied/coin.rs:194-203 | the amount of a declared live input, and nothing else |
| CoinTransfer.ConsumeAll | extension/src/monetary/mod.rs:37-39 | exactly the inputs leave, exactly when they are distinct and live |
| CoinTransfer.CreateAll | extension/src/monetary/mod.rs:40-47 | exactly the outputs enter, exactly when they are positive, under fresh ids, within the total and with 32-bit indices |
| CoinProgram.Rollback | kernel/src/ledger/applied/rollback.rs:31-73 | undoing the journal of any partial transition passes its checks, cannot fail, and restores coins, total and burn exactly |
| CoinProgram.CheckJournal | kernel/src/ledger/applied/rollback.rs:44-58 | exactly the journals with distinct present created coins and distinct absent consumed ones |
| CoinProgram.Execute | kernel/src/ledger/applied/coin.rs:79-167 | exactly the payable transitions happen, each as a whole; otherwise the state is as before; live total plus burned total never changes |
| CoinProgram.Run | kernel/src/ledger/applied/coin.rs:79-167 | over any run of transitions exactly those take effect that can be paid at their turn, each taking out its inputs, putting in its planned coins and burning the rest; and live total plus burned total is constant |
| CoinProgram.UndoRestores | kernel/src/ledger/applied/rollback.rs:44-70 | undoing a journal that traces the changes gives back exactly the coins there were |
| NonceSearch.AlwaysInv | runtime/src/miner.rs:54-139 | the inductive invariant of workers, canceller and joiner holds after every interleaving of their steps |
| NonceSearch.TestsDiffer | runtime/src/miner.rs:63-105 | before a lane wraps no nonce is tested twice |
| NonceSearch.WinnerStays | runtime/src/miner.rs:95-102 | once written the winner never changes |
| NonceSearch.SearchIsSafe | runtime/src/miner.rs:54-139 | in every interleaving: the winner is written at most once; nothing is returned before every worker has ended; an error is returned exactly on account of a test that failed with it, no nonce only if cancelled and no test met the target or failed, and a nonce only if it was tested and meets the target and no test failed; the tests are, lane by lane, the nonces in order without a gap, each hash counted; before a lane wraps none is tested twice |
| NonceSearch.CancelledMeans | runtime/src/miner.rs:108-113 | the search counts as cancelled exactly if the callback, when asked, said so, and is then being stopped or has been |
| NonceSearch.ResultJustified | runtime/src/miner.rs:106-139 | a returned result is justified by the verdicts of the tests made, none of them passed over |
| NonceSearch.StoppedDrains | runtime/src/miner.rs:63-105 | once stopped, every step of a running worker brings it nearer to its end |
| NonceSearch.StoppedReturns | runtime/src/miner.rs:106-139 | once stopped with all workers ended, every step of the watching thread brings it nearer to its return |
| NonceSearch.StepKeeps | runtime/src/miner.rs:54-139 | every atomic step of every thread keeps the invariant |

## Left out

- HeaderCheckpoints.Update: states its result for a valid new chain; on another chain it may fail or return totals of no meaning, as in the source.
- Reorg.Node.ApplyVerifiedBranch: assumes an honest branch, which `SyncIsHonest` establishes for what synchronization hands over; leaves out the mempool reconciliation, journal pruning and the state-root check before the recovery path, and does not model failures after the commit (cache update).
- Reorg.Node.Run: a step under the state lock is atomic, and so is the check of an announced tip on its one snapshot; acceptance of a compact block in that check is a relayed-block step of its own; heights stay below 2^64 over the run; a branch from header synchronization is honest, as `SyncIsHonest` establishes.
- Reorg.Node.Extend: consensus admission of the header is the full `Linked` condition; the body's structure check and emission rules are part of the execution parameter, and the mempool is left out.
- Reorg.Ledger.ApplyBlock: block execution with its state-root, weight and supply checks is a parameter.
- Reorg.Ledger.RollbackTip: undoing a block from its journal with its state-root check is a parameter.
- Reorg.Node.Install: journal pruning and trimming of resident bodies after the commit are left out.
- StorageRuns.CheckpointInvariant: replacement streams are chains with heights 0, 1, 2, and so on, as every caller streams them.
- StaleIndexes.IncrementalEqualsRebuild: index entries handed over with a block are those of its bytes; replacement and rebuild streams are chains from genesis, and a rebuild is made on a store that has its genesis, as a loaded ledger implies. Nothing is assumed of which chain a rebuild is given.
- TrustedRestore.Try: the ledger constructors are an arbitrary consumer of the block stream; what full validation inside them does is not modelled.
- Assembler.Assemble: lines come already lexed; number parsing, hex, parameters and the instruction name table are not modelled.
- CoinProgram.Execute: signatures, ownership and charges are checked before it and are not modelled, nor is the checkpoint hook between transitions; the by-owner index is derived data and left out.
- CoinProgram.Rollback: the mined total is not part of the model; the journal of a transition leaves it alone.
- RootCache.Ledgers.Set: a program's nested storage is part of its map value, so sharing inside it is not modelled.
- NonceSearch.SearchIsSafe: workers do not panic, and progress reports and timing are left out.
- PoW memory, journal receipts, mempool tables, auxiliary tables and chain-spec migration.
- Block execution, emission and burn policy, asset state and the XPVM interpreter.
- `Work` division and target-to-work conversion: work of a difficulty is a parameter.
- Recovery of deep branches (`recover_branch`), reconstruction of compact blocks, sockets, framing, RPC, wallet and command line.
- Signature, hash and Argon2 internals.
