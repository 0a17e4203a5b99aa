# Trust the People: a verified model of the ledger and its companions

The project models the hash-linked ledger of the voting chain and the store that mirrors it, together with
three small state machines of the same repository: threshold signing, the RPC rate limiter and the
jurisdiction tree with its paths.

Each stateful component appears twice. A class has the source's fields and methods, changed in place and with
the source's loops; a set of functions on plain values says what the methods compute. The methods are proved
equal to the functions, and the theorems are about the functions and about whole runs of them.

| file | content |
|---|---|
| `Encoding.dfy` | bytes, fixed-width integers, little-endian layout, hashes, collisions |
| `Merkle.dfy` | tree levels, proofs, completeness, exact soundness, binding, size |
| `Blocks.dfy` | transactions, headers, validation, links, genesis, block binding |
| `Ledgers.dfy` | the chain as a value: add, verify, lookups, scans, prune, runs |
| `Chain.dfy` | the `Blockchain` class |
| `LedgerTheorems.dfy` | batch against incremental verification, head hash and history |
| `RefusalTheorems.dfy` | which check an error comes from |
| `RunTheorems.dfy` | indexes against scans, runs of adds and prunes, exactly what a prune breaks |
| `GapTheorems.dfy`, `ReuseTheorems.dfy` | runs that reach the broken states; when ids and heights come twice |
| `StoreStates.dfy`, `Store.dfy` | the store as a value; the database and store classes |
| `StoreTheorems.dfy`, `PersistenceTheorems.dfy` | mirror, prune agreement, bulk store, reopening |
| `ReloadTheorems.dfy` | loading and the latest block, after storing and over every run |
| `StoreContents.dfy` | the store on any database: reads, batches, opening, pruning and loading with undecodable entries |
| `Threshold.dfy`, `ThresholdAnswers.dfy` | collector, aggregator, quorum intersection; what they answer |
| `RateLimiting.dfy`, `RateWindows.dfy` | limiter, sliding-interval bound, sweeps; every answer by its window |
| `JurisdictionPaths.dfy`, `JurisdictionTrees.dfy` | path parser and printer; tree traversal and counts |

`dafny verify dfyconfig.toml` checks everything.

## How to read the statements

Blake2b-256 (RFC 7693), the bincode encodings, the payload rules of non-genesis transactions and signature
verification are parameters: every theorem holds for every choice of them. Nothing is assumed about the hash
beyond its 32-byte output. Where a result depends on the hash it reads "... or `HasCollision(H, S)`", with `S`
the finite set of byte strings that the blocks, trees or proofs in the statement feed to the hash. (That *some*
collision exists is true of every hash, so the set is what gives the clause its content: if the first half
fails, searching `S` yields the colliding pair.) About bincode it is assumed, where needed, that decoding undoes
encoding. Clock readings are arguments.

Maps are built by updates, unions and subtraction only. Map comprehensions are avoided on purpose: Dafny 4.11
axiomatizes a comprehension by its body everywhere, also outside its domain, so two comprehensions over an empty
domain with different bodies can be used to derive a contradiction. Every lemma carries `{:induction false}` for a
similar reason: the hypothesis of automatic induction can assume a function's result to be well typed for arguments
that are not, and so be contradictory. No proof here rests on automatic induction.

## What came out differently from what one might expect

Each of these is stated with the condition under which the source does meet the expectation.

- After prunes a *gap* may lie between genesis and the retained suffix: block count below height + 1. With a
  gap, `get_block_by_height` is wrong for every height from 1 to the chain's height (it panics or returns
  another block), and `get_transaction` and (barring a hash collision) `get_block_by_hash` are wrong for
  everything retained above genesis; without one, and for genesis and for what is not retained, they are right.
  `verify` succeeds exactly when there is no gap or only genesis is left. Two adds and a prune reach a gap from
  every genesis configuration; one add and a prune leave genesis alone with a stale height, where looking up
  height 1 panics. The height scan and the full node's search stay right throughout.
- A stored chain loads back exactly when its genesis had one validator (and a lone genesis block does not hash
  to zero): `load_blockchain` rebuilds the genesis from the first validator only.
- After any run of adds and prunes the store of a one-validator chain gives the chain back exactly when there is no
  gap. With only genesis left it gives a chain of height 0; with a gap it fails at the first block above it, and
  goes on failing until a prune removes everything above genesis. With several genesis validators it never gives
  the chain back (barring a hash collision).
- A prune forgets ids and, once nothing but genesis is left, heights: the very same block can be accepted, pruned
  and accepted again. Two accepted blocks share an id only across a prune of the first, and a height comes again
  only after a full prune.
- `verify_proof` does not check the length of a proof: every inner node, and the root itself, passes as a leaf
  with the siblings above it. What is accepted is described for proofs of every length. The stored leaf index is
  not looked at either.
- The head hash fixes headers, ids and transactions, but not the signatures on blocks: no hash covers them.
- `ThresholdSignature::verify` checks neither participation nor distinctness, so one verifying signature listed t
  times passes. Passing means that many participants signed, at every threshold, exactly when the list is one of
  distinct participants; collected, aggregated and created lists are.
- `get_latest_block` reports the head exactly when the head is above genesis and as high as the chain ever was;
  after a full prune it reports nothing until the chain is that high again.
- `transaction_count` counts the chain's transactions exactly when no block lists an id twice, and `add_block`
  accepts blocks that do.
- `get_all_descendants` ends exactly when its start is not its own descendant; adding does not check parents, so a
  jurisdiction that names itself, and two that name each other, are accepted and start a traversal without end.
- Location counts of the parentless jurisdictions add up to the total exactly when no jurisdiction with locations is
  cut off from them; one with an unknown parent is accepted and is.
- `get_by_path` finds a jurisdiction under its id alone and under no longer path, whatever its ancestors: the path
  is built before the new entry is inserted.
- The rate limiter admits up to (T+1)·max(1, limit) - 1 requests of one address in T whole seconds, and some
  run attains it.
- The empty path is an ancestor of every other path although no parent step reaches it.

## Model

| member | source | states |
|---|---|---|
| Merkle.BuildNextLevel | crates/blockchain-core/src/merkle.rs:52-71 | the pairing loop produces, for every pair, the hash of the two nodes, the last odd node paired with itself |
| Merkle.BuildTree | crates/blockchain-core/src/merkle.rs:40-49 | the level loop produces the recursively defined tower of levels, ending in the one-element level of the root |
| Merkle.NewTree | crates/blockchain-core/src/merkle.rs:19-37 | the tree over any leaf list, the empty one included, with its leaves and its Merkle root |
| Merkle.GenerateProof | crates/blockchain-core/src/merkle.rs:95-132 | a proof exactly for positions in range; it carries the leaf, the root and the siblings of the path to that position |
| Merkle.VerifyProof | crates/blockchain-core/src/merkle.rs:135-147 | accepts exactly when climbing the proof from the leaf ends in the root |
| Merkle.GeneratedProofVerifies | crates/blockchain-core/src/merkle.rs:95-147 | completeness: for every non-empty leaf list and every position the generated proof is accepted |
| Merkle.ProofSize | crates/blockchain-core/src/merkle.rs:40-71 | a proof over n leaves has d nodes with 2^(d-1) < n <= 2^d, and none for one leaf |
| Merkle.AcceptedProofs | crates/blockchain-core/src/merkle.rs:135-147 | exact soundness for proofs of every length: accepted if and only if, after the nodes in excess of the tree's height, the proof stands on the node that its turns lead to on the level whose height is the number of nodes left (through duplicated nodes too) and those nodes are that path's siblings, or the hashed pairs collide |
| Merkle.AcceptedFullLength | crates/blockchain-core/src/merkle.rs:135-147 | a proof of the tree's height is accepted if and only if its leaf is the one its turns lead to and its nodes are that path's siblings, or the hashed pairs collide |
| Merkle.InnerNodesPass | crates/blockchain-core/src/merkle.rs:135-147 | the proof length is not checked: every node of every level passes as a leaf, the root with no nodes included |
| Merkle.EqualRoots | crates/blockchain-core/src/merkle.rs:40-77 | trees of equal height have equal roots if and only if every path leads to equal leaves, or the hashed pairs collide |
| Merkle.RootBindsLeaves | crates/blockchain-core/src/merkle.rs:19-77 | leaf lists of equal length with equal roots are equal, or the hashed pairs collide |
| Merkle.RepeatedLastLeaf | crates/blockchain-core/src/merkle.rs:52-71 | the length hypothesis is needed: every odd list of three or more leaves shares its root with itself plus its last leaf again |
| Merkle.TwoLeaves | crates/blockchain-core/src/merkle.rs:73-77 | two leaves: the left hash is hashed first, and each leaf's proof is the other one with its side |
| Merkle.ThreeLeaves | crates/blockchain-core/src/merkle.rs:52-71 | three leaves: the third is paired with itself |
| Merkle.SmallestTrees | crates/blockchain-core/src/merkle.rs:19-37 | one leaf is the root with an empty proof; no leaves have a root of zero bytes |
| Blocks.ValidateExact | crates/blockchain-core/src/block.rs:143-176 | validation succeeds exactly on blocks whose hash, count, root and transactions are all right, whatever the order of checks |
| Blocks.TransactionIncluded | crates/blockchain-core/src/block.rs:90-102 | the root of a validated block proves the id of each transaction at that transaction's position |
| Blocks.HashHeader | crates/blockchain-core/src/block.rs:218-232 | filling the buffer field by field and hashing it gives the header hash |
| Blocks.HeaderLayout | crates/blockchain-core/src/block.rs:220-232 | the six fields stand in order in 116 bytes, integers little-endian |
| Blocks.TxLayout | crates/blockchain-core/src/transaction.rs:186-201 | timestamp, nonce and encoded type stand in this order in the hashed transaction |
| Encoding.FourBytes | crates/blockchain-core/src/block.rs:224-229 | little-endian: the lowest byte comes first |
| Blocks.NewBlockFields | crates/blockchain-core/src/block.rs:56-87 | a new block has the given height, predecessor, transactions, validator and time, no signatures, the count, the root of its ids and its own header hash |
| Blocks.CreateBlock | crates/blockchain-core/src/genesis.rs:82-130 | a block exactly for non-empty validator lists, with the genesis error otherwise, and it does not depend on the clock that block creation reads |
| Blocks.GenesisRegisters | crates/blockchain-core/src/genesis.rs:92-112 | the i-th genesis transaction registers the i-th validator, by name, at the genesis time, with its position as nonce |
| Blocks.GenesisFixesConfiguration | crates/blockchain-core/src/genesis.rs:82-130 | two genesis blocks have one hash if and only if they come from the same validators in the same order and the same timestamp, or what they hash collides |
| Blocks.DecimalExact | crates/blockchain-core/src/genesis.rs:94 | the number in a validator's name reads back as the number |
| Blocks.GenesisSound | crates/blockchain-core/src/genesis.rs:82-130 | the genesis block passes full validation at height 0 with no predecessor |
| Blocks.GenesisIdsDistinct | crates/blockchain-core/src/genesis.rs:92-112 | two genesis registrations share an id only if their encodings collide |
| Blocks.HeaderBytesInjective | crates/blockchain-core/src/block.rs:220-232 | the header byte layout is unambiguous: equal bytes come from headers equal in every field but the hash |
| Blocks.HashBindsBlock | crates/blockchain-core/src/block.rs:143-232 | two validated blocks with one hash have the same header and the same transaction ids in order, or what they hash collides |
| Blocks.IdsBindTransactions | crates/blockchain-core/src/transaction.rs:180-217 | validated blocks with the same ids carry the same transactions, or two transaction encodings collide |
| Chain.Blockchain.constructor | crates/blockchain-core/src/chain.rs:28-48 | the new chain is the one-block list with both indexes recomputed from it |
| Chain.Blockchain.New | crates/blockchain-core/src/chain.rs:28-48 | a chain exactly for non-empty validator lists, starting from their genesis block |
| Chain.Blockchain.AddBlock | crates/blockchain-core/src/chain.rs:100-131 | an accepted block extends list, indexes and height as specified; a rejected one reports the first error and changes nothing |
| Chain.Blockchain.Verify | crates/blockchain-core/src/chain.rs:134-159 | the loop returns the result of the recursive verification, with the first error |
| Chain.Blockchain.PruneOldBlocks | crates/blockchain-core/src/chain.rs:255-276 | keeps genesis and the recent blocks, removes exactly the removed blocks' hashes and ids from the indexes, returns their number and leaves the height alone |
| Chain.IndexTransactions | crates/blockchain-core/src/chain.rs:123-125 | after the insertion loop exactly the old ids and the block's ids are indexed, the block's at its height |
| Chain.RemoveTransactions | crates/blockchain-core/src/chain.rs:266-268 | after the removal loop exactly the block's ids are gone |
| Chain.FindDuplicate | crates/blockchain-core/src/chain.rs:109-113 | the first transaction whose id is indexed, if any |
| Chain.PruneTail | crates/blockchain-core/src/chain.rs:260-271 | the prune loop splits the blocks by age and removes the old ones' hashes and ids from both indexes |
| LedgerTheorems.VerifyExact | crates/blockchain-core/src/chain.rs:134-159 | the batch verifier accepts exactly the lists that start with a genesis and are validated and linked throughout |
| LedgerTheorems.ExtendExact | crates/blockchain-core/src/chain.rs:100-131 | adding succeeds exactly for validated blocks that link to the last one and repeat no indexed id |
| LedgerTheorems.ReplayIffVerify | crates/blockchain-core/src/chain.rs:100-159 | the blocks after a genesis are accepted one by one if and only if the batch verifier accepts the list and no id is in two blocks; the result is the list with both indexes recomputed |
| LedgerTheorems.GrownChain | crates/blockchain-core/src/chain.rs:28-131 | every state that creation and additions reach passes the batch verifier, keeps ids unique across blocks and is determined by its block list |
| LedgerTheorems.TxIndexAt | crates/blockchain-core/src/chain.rs:119-125 | with ids unique across blocks the transaction index gives the height of the one block that holds the id |
| LedgerTheorems.TxIndexLast | crates/blockchain-core/src/chain.rs:123-125 | of several blocks with one id the last is indexed |
| LedgerTheorems.HashIndexLast | crates/blockchain-core/src/chain.rs:119-121 | of several blocks with one hash the last is indexed |
| LedgerTheorems.HeadFixesHistory | crates/blockchain-core/src/chain.rs:134-159 | two lists that pass verification and end in one hash have the same length, headers and transaction ids at every height, or what they hash collides |
| LedgerTheorems.HeadFixesTransactions | crates/blockchain-core/src/chain.rs:134-159 | with a decodable transaction encoding they even have the same transactions at every height, or what they hash collides |
| LedgerTheorems.SignaturesNotCovered | crates/blockchain-core/src/block.rs:143-232 | replacing the signatures of any block of any list changes neither the answer of verification nor any header or transaction |
| RefusalTheorems.TransactionExact | crates/blockchain-core/src/transaction.rs:210-228 | a transaction is valid if and only if its id is the hash of its bytes and its payload is accepted; a wrong id is reported first |
| RefusalTheorems.ValidateRefuses | crates/blockchain-core/src/block.rs:143-176 | a refused block is refused for its hash, else its count, else its root, else its first invalid transaction, with that error |
| RefusalTheorems.AddRefuses | crates/blockchain-core/src/chain.rs:100-113 | a refused addition reports the block's own error, else its link's, else the first id of the block that is already indexed |
| RefusalTheorems.VerifyRefuses | crates/blockchain-core/src/chain.rs:134-159 | a failed verification reports the empty list, else what is wrong with genesis, else the error of the first block that is not validated and linked |
| RefusalTheorems.FindTxIsFirst | crates/blockchain-core/src/block.rs:205-207 | looking an id up in a block gives the first transaction that has it |
| RunTheorems.HeightLookupIsScan | crates/blockchain-core/src/chain.rs:66-72 | in an unpruned chain the height lookup returns what scanning headers for the height returns, and never panics |
| RunTheorems.TxLookupIsScan | crates/node/src/full_node.rs:171-192 | the indexed transaction lookup returns what the full node's search over all heights returns |
| RunTheorems.HashLookupIsScan | crates/blockchain-core/src/chain.rs:75-79 | the hash lookup returns the first block with the hash, or two header encodings of the chain collide |
| RunTheorems.IndexesRefineScans | crates/blockchain-core/src/chain.rs:66-131 | in every grown chain all three lookups answer like scans and the count is the number of distinct ids |
| RunTheorems.TransactionCountExact | crates/blockchain-core/src/chain.rs:197-199 | the count equals the number of listed transactions if and only if no block lists an id twice |
| RunTheorems.RepeatAccepted | crates/blockchain-core/src/chain.rs:109-113 | any valid unindexed transaction may stand twice in the next block and the block is accepted |
| RunTheorems.PruneIsContiguous | crates/blockchain-core/src/chain.rs:255-276 | in a retained list a prune removes one run of blocks just after genesis, with its index entries, and returns its length |
| RunTheorems.PrunedAreOld | crates/blockchain-core/src/chain.rs:260-271 | that run is exactly the blocks older than the cutoff |
| RunTheorems.PrunesCompose | crates/blockchain-core/src/chain.rs:255-276 | on every ledger two prunes leave the same state as one at the later cutoff and their counts add up |
| RunTheorems.RunsKeepInvariant | crates/blockchain-core/src/chain.rs:100-131 | every run of adds and prunes keeps genesis, a linked time-ordered suffix, unique ids, the exact transaction index of what is retained, and no dangling hash entry |
| RunTheorems.RunsFromGenesis | crates/blockchain-core/src/chain.rs:255-276 | from every genesis configuration and over every run, the next prune removes exactly a run of old blocks after genesis |
| RunTheorems.RunsKeepHashKeys | crates/blockchain-core/src/chain.rs:265-268 | over every run the hash index is exactly that of the retained blocks, or two header encodings of the run collide |
| RunTheorems.ScansSurvivePrunes | crates/blockchain-core/src/chain.rs:279-284 | in every run state the height scan finds each retained block, genesis included, and no other height; the full node's search finds an id if and only if it is in a retained block, and there |
| RunTheorems.LookupsNeedNoGap | crates/blockchain-core/src/chain.rs:66-87 | from every genesis, over every run and for every argument: height lookup answers like the scan if and only if the height is 0, above the chain's, or there is no gap; transaction lookup if and only if the id is genesis's, not retained, or there is no gap; hash lookup likewise, or two header encodings of the run collide |
| RunTheorems.HeightLookupExact | crates/blockchain-core/src/chain.rs:66-72 | the height part in every state that keeps the run invariant |
| RunTheorems.TxLookupExact | crates/blockchain-core/src/chain.rs:82-87 | the transaction part in every such state |
| RunTheorems.HashLookupExact | crates/blockchain-core/src/chain.rs:75-79 | the hash part in every such state with an exact hash index, or two retained header encodings collide |
| RunTheorems.HeightLookupsNeedNoGap | crates/blockchain-core/src/chain.rs:66-72 | all height lookups answer like the scan if and only if block count = height + 1 |
| GapTheorems.GapReached | crates/blockchain-core/src/chain.rs:255-276 | from every genesis configuration, and with any new valid transactions in the second block, two accepted blocks and a prune reach a gap: height 2 panics though its block is retained, height 1 returns that block, each of its transactions panics though the full node's search finds it, verification fails |
| GapTheorems.TransactionLost | crates/blockchain-core/src/chain.rs:82-87 | every valid transaction that is not in genesis can be lost so: its lookup panics while the search finds it |
| GapTheorems.HashLost | crates/blockchain-core/src/chain.rs:75-79 | the retained block's hash lookup panics too while the scan finds the block, or two header encodings of the run collide |
| GapTheorems.StaleHeightReached | crates/blockchain-core/src/chain.rs:255-276 | one accepted block and a prune leave genesis alone with height 1: looking up height 1 panics while verification succeeds |
| ReuseTheorems.IdAgainNeedsPrune | crates/blockchain-core/src/chain.rs:109-113 | over every run, two accepted blocks share an id only if a prune between them had a cutoff above the first one's timestamp |
| ReuseTheorems.CanBeAdded | crates/blockchain-core/src/chain.rs:95-131 | in every run state some next block with a given valid transaction is accepted if and only if no retained block has its id, which is what contains_transaction tells |
| ReuseTheorems.HeightAgainNeedsReset | crates/blockchain-core/src/chain.rs:255-276 | over every run, of two accepted blocks the later is not higher only if in between nothing but genesis was left |
| ReuseTheorems.HeightsOpen | crates/blockchain-core/src/chain.rs:100-131 | without further prunes a block of a given height can be accepted if and only if the height is above the last retained block's, whatever the chain had before |
| ReuseTheorems.BlockAcceptedTwice | crates/blockchain-core/src/chain.rs:255-276 | from every genesis configuration the very same block, with any new valid transactions, is accepted, pruned and accepted again: ids and height come twice |
| RunTheorems.VerifyNeedsNoGap | crates/blockchain-core/src/chain.rs:134-159 | in every run state verification succeeds if and only if only genesis is left or block count = height + 1 |
| Store.MemoryDatabase.WriteBatch | crates/storage/src/database.rs:559-574 | the batch loop applies puts and deletes in order |
| Store.MemoryDatabase.Put | crates/storage/src/database.rs:512-520 | the key maps to the value and every other entry stays |
| Store.MemoryDatabase.Get | crates/storage/src/database.rs:503-510 | the stored value, or none |
| Store.BlockchainStore.StoreBlock | crates/storage/src/blockchain_store.rs:37-74 | block under height and hash, a location per transaction, metadata raised only by a higher block |
| Store.BlockchainStore.GetBlockByHeight | crates/storage/src/blockchain_store.rs:77-87 | the decoded block under the height key, none, or a decoding error |
| Store.BlockchainStore.GetTransaction | crates/storage/src/blockchain_store.rs:103-120 | the first transaction with the id in the block its location names, none, or a decoding error |
| Store.BlockchainStore.StoreBlockchain | crates/storage/src/blockchain_store.rs:188-202 | all blocks of an unpruned chain, then genesis hash and transaction count in the saved metadata |
| Store.BlockchainStore.LoadBlockchain | crates/storage/src/blockchain_store.rs:205-229 | the refusals in order, otherwise a new chain grown by replaying the stored heights |
| Store.BlockchainStore.Replay | crates/storage/src/blockchain_store.rs:222-228 | the loop over stored heights stops at the first error and skips missing heights |
| Store.BlockchainStore.ReplayOne | crates/storage/src/blockchain_store.rs:223-225 | one height: a stored block is added, a missing one skipped, an error passed on |
| Store.BlockchainStore.CollectOld | crates/storage/src/blockchain_store.rs:236-261 | the scan over heights reads the unmodified store and lists the deletions of every old block |
| Store.BlockchainStore.SaveMetadata | crates/storage/src/blockchain_store.rs:320-325 | the metadata key holds the encoded metadata and every other entry stays |
| Store.BlockchainStore.InMemory | crates/storage/src/blockchain_store.rs:29-34 | a fresh empty database with default metadata |
| Store.BlockchainStore.PruneBefore | crates/storage/src/blockchain_store.rs:232-268 | deletions are collected first and applied as one batch; the count is that of old blocks found |
| Store.BlockchainStore.Open | crates/storage/src/blockchain_store.rs:22-26 | metadata read back from the database, defaulted when absent, or a decoding error |
| StoreContents.OpenExact | crates/storage/src/blockchain_store.rs:308-318 | opening fails if and only if a metadata entry does not decode; otherwise the data stay and the metadata are the decoded ones |
| StoreContents.OpenWithoutMetadata | crates/storage/src/blockchain_store.rs:308-318 | any database without metadata opens, with height 0, zero hashes, no transactions and no latest block |
| StoreContents.FirstStart | crates/storage/src/blockchain_store.rs:22-34 | an empty database opens as the in-memory store; a chain stored into it is mirrored, loads back under the exact condition of the round trip, and opens again to the same store |
| StoreContents.BlockLookupExact | crates/storage/src/blockchain_store.rs:77-87 | on any store a lookup by height fails if and only if the entry does not decode, finds nothing if and only if there is none, and otherwise gives the decoded block |
| StoreContents.HashLookupExactly | crates/storage/src/blockchain_store.rs:90-100 | the same by hash |
| StoreContents.TransactionLookupExact | crates/storage/src/blockchain_store.rs:103-120 | on any store a transaction lookup fails if and only if its location or the located block does not decode, and finds the located block's first transaction with the id |
| StoreContents.LatestLookupExact | crates/storage/src/blockchain_store.rs:129-135 | on any store the latest block is none if and only if nothing was recorded or the recorded height has no entry, and otherwise the lookup at that height |
| StoreContents.StoreRaises | crates/storage/src/blockchain_store.rs:65-71 | on any store a stored block changes the metadata if and only if it is higher than any before, to its height, hash and time, and saves them |
| StoreContents.StoreChainRecords | crates/storage/src/blockchain_store.rs:188-202 | storing a chain into any store records its genesis hash, its transaction count and a height at least that of each of its blocks |
| StoreContents.BatchExact | crates/storage/src/database.rs:559-574 | a batch leaves under each key what its last operation on the key says, puts and deletes alike |
| StoreContents.BatchLeaves | crates/storage/src/database.rs:559-574 | a stretch of operations on other keys leaves a key alone |
| StoreContents.PruneExact | crates/storage/src/blockchain_store.rs:232-268 | on any store a prune fails and changes nothing if and only if an entry up to the recorded height does not decode; otherwise exactly the old blocks' entries are gone |
| StoreContents.LoadIsReplay | crates/storage/src/blockchain_store.rs:222-228 | on any store whose entries decode the load loop is the replay of the blocks that are there, in order of height |
| StoreContents.LoadMeetsUnreadable | crates/storage/src/blockchain_store.rs:222-228 | the first entry that does not decode ends the load, unless a block below it was refused before |
| StoreContents.LoadBegins | crates/storage/src/blockchain_store.rs:205-221 | the refusals before anything is replayed, and the rebuilt genesis the replay starts from otherwise |
| StoreContents.KeyTexts | crates/storage/src/blockchain_store.rs:286-306 | the texts of the four key spaces and what follows them |
| StoreTheorems.KeySpacesDisjoint | crates/storage/src/blockchain_store.rs:286-306 | keys of the four kinds have four different lengths, so no key is of two kinds |
| StoreTheorems.HeightKeyInjective | crates/storage/src/blockchain_store.rs:286-290 | different heights have different keys |
| StoreTheorems.HashKeyInjective | crates/storage/src/blockchain_store.rs:292-296 | different hashes have different keys |
| StoreTheorems.TxKeyInjective | crates/storage/src/blockchain_store.rs:298-302 | different transaction ids have different keys |
| StoreTheorems.MirrorAdd | crates/storage/src/blockchain_store.rs:37-74 | storing an accepted block beside adding it keeps the store an exact mirror of what the chain retains |
| PersistenceTheorems.MirrorLookups | crates/storage/src/blockchain_store.rs:77-120 | a mirroring store answers every lookup by what the chain retains and never fails to decode |
| PersistenceTheorems.PrunesAgree | crates/storage/src/blockchain_store.rs:232-268 | in every run state chain prune and store prune return the same count and the mirror holds again |
| PersistenceTheorems.StoreFindsRetained | crates/storage/src/blockchain_store.rs:103-120 | pruned or not, the store finds a transaction if and only if its id is in a retained block, and finds that block's |
| PersistenceTheorems.MirrorRuns | crates/storage/src/blockchain_store.rs:37-74 | driven beside the chain, the store mirrors it through every run of adds and prunes, with no hash assumption |
| PersistenceTheorems.StoreChainMirrors | crates/storage/src/blockchain_store.rs:188-202 | storing any unpruned chain into a fresh store gives a mirror whose metadata has the chain's height, genesis hash, head hash and time, and transaction count |
| PersistenceTheorems.StoredLookupsMatch | crates/storage/src/blockchain_store.rs:77-120 | a stored chain answers height, hash and transaction lookups exactly as the chain object does |
| ReloadTheorems.LatestNeedsHeight | crates/storage/src/blockchain_store.rs:129-135 | the latest block of a freshly stored chain is its head if there is a block above genesis, and missing otherwise |
| ReloadTheorems.LatestExact | crates/storage/src/blockchain_store.rs:129-135 | over every run the recorded height is the greatest the chain ever had, and the latest block is the chain's head if and only if the head is above genesis and that high; otherwise none is reported |
| ReloadTheorems.StaleLatestReached | crates/storage/src/blockchain_store.rs:129-135 | from every genesis configuration a full prune and regrowth leave the latest block missing although the chain has a head |
| PersistenceTheorems.ReopenRestores | crates/storage/src/blockchain_store.rs:308-325 | after storing a chain into any store, and after every run of adds and prunes that follows, opening the database again restores the same store, metadata included |
| ReloadTheorems.LoadUndoesStore | crates/storage/src/blockchain_store.rs:205-229 | a one-validator chain comes back with the same blocks, indexes, height and genesis hash |
| ReloadTheorems.LoadNeedsOneValidator | crates/storage/src/blockchain_store.rs:212-226 | with several genesis validators a load above genesis fails, and at genesis fails or returns another chain, unless the two genesis headers collide |
| ReloadTheorems.RoundTripExact | crates/storage/src/blockchain_store.rs:188-229 | for every grown chain a load after a store gives the chain back if and only if its genesis had one validator and it is not a lone zero-hash genesis, or the two genesis headers collide |
| ReloadTheorems.LoadMirrored | crates/storage/src/blockchain_store.rs:205-229 | in every state of chain and store that adds and prunes reach from one validator, the load gives the retained blocks with indexes recomputed if they are contiguous from genesis, and a height mismatch at the first block above the gap otherwise |
| ReloadTheorems.LoadOfOthers | crates/storage/src/blockchain_store.rs:212-226 | the same with several genesis validators: another chain if only genesis is left, a broken link if the blocks are contiguous (or the two genesis headers collide), the same height mismatch at a gap |
| ReloadTheorems.ReloadValue | crates/storage/src/blockchain_store.rs:205-229 | that outcome after storing any grown one-validator chain and driving chain and store through any run |
| ReloadTheorems.ReloadExact | crates/storage/src/blockchain_store.rs:188-268 | after any such run, from every genesis configuration, the load gives the chain itself back, height and indexes included, if and only if the genesis had one validator, there is no gap and the store does not look empty; or the two genesis headers or two header encodings of the run collide |
| ReloadTheorems.GapStays | crates/blockchain-core/src/chain.rs:255-276 | no run of adds and prunes closes a gap until nothing but genesis is left |
| ReloadTheorems.LoadAfterPrune | crates/storage/src/blockchain_store.rs:222-226 | for the first prune of a freshly stored chain: the whole chain if nothing was removed, genesis if everything was, and a height mismatch at the first kept block otherwise |
| ReloadTheorems.BrokenLoadReached | crates/storage/src/blockchain_store.rs:222-268 | for every one-validator genesis a chain of two more blocks, stored and pruned in between, fails to load with that height mismatch, and still does after a second prune that removes nothing |
| Threshold.ThresholdSignature.AddPartialSignature | crates/crypto/src/threshold.rs:169-196 | the four outcomes in the source's order; only an accepted signature is appended, and the answer is whether the count is then met |
| ThresholdAnswers.CollectorAnswers | crates/crypto/src/threshold.rs:169-196 | after every run of submissions: accepted if and only if a participant who has not submitted a verifying signature before submits one now, the answer being whether the collection then passes verification; each refusal has its own error |
| ThresholdAnswers.AggregatorAnswers | crates/crypto/src/threshold.rs:290-319 | the aggregator answers the same, the answer being whether finalizing then succeeds |
| ThresholdAnswers.SignersExact | crates/crypto/src/threshold.rs:169-196 | the collected signers are exactly the participants who submitted a signature that verifies |
| ThresholdAnswers.CompleteExact | crates/crypto/src/threshold.rs:198-216 | a collection passes verification if and only if threshold many participants submitted signatures that verify |
| ThresholdAnswers.NewSchemeExact | crates/crypto/src/threshold.rs:38-73 | a scheme is made if and only if the threshold lies between one and the number of participants and none is named twice |
| ThresholdAnswers.NewSchemeRefuses | crates/crypto/src/threshold.rs:38-73 | the errors of the refusals, in their order |
| ThresholdAnswers.CreateRefuses | crates/crypto/src/threshold.rs:409-428 | creation fails with the error of the first item refused, or for want of signatures |
| Threshold.ParticipantIndex | crates/crypto/src/threshold.rs:81-83 | an index exactly for participants, the first at which the participant stands |
| Threshold.ThresholdSignature.Verify | crates/crypto/src/threshold.rs:205-216 | succeeds exactly when the threshold is met and every signature verifies; too few signatures are reported as such |
| Threshold.VerifyNeedsDistinct | crates/crypto/src/threshold.rs:205-216 | of verifying signatures, passing at a threshold means that many participants signed, for every threshold, if and only if the list is one of distinct participants |
| Threshold.RepeatedSignaturePasses | crates/crypto/src/threshold.rs:205-216 | one verifying signature listed as often as the threshold passes, with a single signer |
| Threshold.CollectedQuorum | crates/crypto/src/threshold.rs:169-216 | a collected list is one of distinct participants, and passes if and only if threshold many of them signed |
| Threshold.ThresholdAggregator.AddSignature | crates/crypto/src/threshold.rs:290-319 | the same outcomes over the map, with the participant index computed |
| Threshold.ThresholdAggregator.Finalize | crates/crypto/src/threshold.rs:332-344 | a result exactly when complete; it lists every collected signature and nothing else, in some order |
| Threshold.AggregatorRefinesCollector | crates/crypto/src/threshold.rs:169-344 | on every submission sequence collector and aggregator accept and reject the same items and complete at the same step; signers stay distinct participants with verified signatures |
| Threshold.FinalizedVerifies | crates/crypto/src/threshold.rs:332-344 | whatever order the map is listed in, a finalized result passes verification and has the collector's signers, none twice |
| Threshold.CreateExact | crates/crypto/src/threshold.rs:409-428 | creation succeeds if and only if the items are distinct participants with verifying signatures reaching the threshold, and keeps them as given |
| Threshold.CreateFrom | crates/crypto/src/threshold.rs:409-428 | the loop stops at the first rejected item with its error and otherwise checks the threshold; the result has the scheme, the message's hash and the items |
| Threshold.QuorumsIntersect | crates/crypto/src/threshold.rs:38-73 | two complete collections under one t-of-n scheme share at least 2t - n participants, more than a third when 3t > 2n |
| RateLimiting.RateLimiter.IsAllowed | crates/rpc/src/lib.rs:320-340 | the window decision in its four cases |
| RateWindows.WindowExact | crates/rpc/src/lib.rs:320-350 | over every run with non-decreasing time and sweeps anywhere, a request is allowed if and only if it is among the first max(1, limit) of its window, windows being defined by the address's request times alone |
| RateWindows.RefusedOnlyWhenFull | crates/rpc/src/lib.rs:320-350 | a request is refused only if at least max(1, limit) requests of the address were allowed in the second ending with it |
| RateWindows.ServedAfterASecond | crates/rpc/src/lib.rs:325-329 | an address that stayed away for a second is served |
| RateWindows.CleanedExact | crates/rpc/src/lib.rs:343-350 | cleanup keeps exactly the windows that opened less than sixty seconds ago, as they are |
| RateLimiting.RateLimiter.Cleanup | crates/rpc/src/lib.rs:343-350 | removes exactly the windows that are a minute old |
| RateLimiting.RateBound | crates/rpc/src/lib.rs:320-350 | over every run with non-decreasing time and sweeps anywhere, T whole seconds hold at most (T+1)·max(1, limit) - 1 allowed requests of one address |
| RateLimiting.RateBoundAttained | crates/rpc/src/lib.rs:320-340 | for every limit, address and T >= 1 a run attains that number |
| RateLimiting.SweepsInvisible | crates/rpc/src/lib.rs:343-350 | two runs with the same requests get the same answers wherever their sweeps stand |
| JurisdictionPaths.ParsePrintExact | crates/storage/src/jurisdiction.rs:345-363 | parsing a printed path gives it back if and only if it has a component and all are non-empty and slash-free |
| JurisdictionPaths.ParseYieldsWellFormed | crates/storage/src/jurisdiction.rs:345-359 | whatever the string, a parsed path has a component and all are non-empty and slash-free |
| JurisdictionPaths.ParseNormalizes | crates/storage/src/jurisdiction.rs:345-363 | printing and parsing again changes nothing |
| JurisdictionPaths.PrintExact | crates/storage/src/jurisdiction.rs:361-363 | splitting a printed path at its slashes gives its components, empty ones included |
| JurisdictionPaths.PrintOfParse | crates/storage/src/jurisdiction.rs:345-363 | a string is the print of what it parses to if and only if no part of it is empty |
| JurisdictionPaths.JoinSplit | crates/storage/src/jurisdiction.rs:346-363 | joining the parts of any string gives the string |
| JurisdictionPaths.EmptyPartsIgnored | crates/storage/src/jurisdiction.rs:346-350 | a doubled, leading or trailing slash does not change what is parsed |
| JurisdictionPaths.ParseRefuses | crates/storage/src/jurisdiction.rs:352-356 | exactly the strings of slashes alone are refused |
| JurisdictionPaths.AncestorIffParents | crates/storage/src/jurisdiction.rs:369-394 | a non-empty path is an ancestor if and only if repeated parent steps reach it; the empty path is an ancestor of every other path yet never reached |
| JurisdictionTrees.JurisdictionTree.AddJurisdiction | crates/storage/src/jurisdiction.rs:421-435 | refuses exactly the known ids; otherwise adds the entry and its path, and a parent that is absent by choice or present keeps the tree grounded |
| JurisdictionTrees.JurisdictionTree.GetByPath | crates/storage/src/jurisdiction.rs:441-445 | finds a jurisdiction exactly under the one-component path of its id |
| JurisdictionTrees.JurisdictionTree.GetChildren | crates/storage/src/jurisdiction.rs:447-452 | each child exactly once, in the map's order whatever it is |
| JurisdictionTrees.JurisdictionTree.GetAllDescendants | crates/storage/src/jurisdiction.rs:454-466 | the worklist ends and lists each proper descendant exactly once whenever the start is not its own descendant |
| JurisdictionTrees.CycleNeverEnds | crates/storage/src/jurisdiction.rs:454-466 | from a start that is its own descendant the queue never empties, whatever order children come in |
| JurisdictionTrees.OwnParentAccepted | crates/storage/src/jurisdiction.rs:421-435 | adding a jurisdiction that names itself as parent makes it its own descendant |
| JurisdictionTrees.MutualParentsAccepted | crates/storage/src/jurisdiction.rs:421-435 | adding two jurisdictions that name each other makes both their own descendants |
| JurisdictionTrees.BuildGrounded | crates/storage/src/jurisdiction.rs:421-435 | every sequence of adds that names no parent or an earlier one builds a tree without cycles |
| JurisdictionTrees.NotOwnDescendant | crates/storage/src/jurisdiction.rs:454-466 | in such a tree no jurisdiction descends from itself, so every traversal ends |
| JurisdictionTrees.JurisdictionTree.GetAllLocations | crates/storage/src/jurisdiction.rs:469-481 | gathers the locations of a jurisdiction and its descendants, each as often as they list it, its own first |
| JurisdictionTrees.JurisdictionTree.GatherLocations | crates/storage/src/jurisdiction.rs:476-478 | the loop adds the locations of every listed descendant, with multiplicity |
| JurisdictionTrees.JurisdictionTree.TotalLocations | crates/storage/src/jurisdiction.rs:534-539 | the location counts of all jurisdictions added up |
| JurisdictionTrees.RootsCountExact | crates/storage/src/jurisdiction.rs:469-539 | for every table the counts of the parentless jurisdictions' subtrees add up to the total if and only if no jurisdiction cut off from them lists a location |
| JurisdictionTrees.RootsCountEverything | crates/storage/src/jurisdiction.rs:469-539 | with parents added first nothing is cut off, so they do |
| JurisdictionTrees.UnknownParentDropsOut | crates/storage/src/jurisdiction.rs:421-435 | a jurisdiction whose parent is unknown is accepted and its locations are in the total but in no root's subtree |

## Left out

- Blocks.HashBindsBlock: needs fewer than 2^32 transactions per block, because the header keeps the count modulo 2^32; LedgerTheorems.HeadFixesHistory inherits this, and PersistenceTheorems.RoundTripExact needs fewer than 2^32 genesis validators for the same reason.
- RunTheorems.HashLookupIsScan: states the hash lookup up to a collision among the chain's own header encodings, since the index keeps the last block of a hash and the scan finds the first.
- Threshold.ThresholdSignature.AddPartialSignature: error texts for duplicates and failed checks are unified between collector and aggregator, and the submitted participant index is carried along unchecked, as in the source.
- RefusalTheorems.ValidateRefuses: error texts leave out the numbers and hexadecimal hashes that the source formats into them; the errors carry the values instead where the source's variants do.
- Height arithmetic is unbounded: a predecessor at height 2^64 - 1, where the source would overflow, has no successor here. Participant, request and location counts are unbounded too.
- Transaction payload rules other than the one genesis registrations meet: each is a single check, kept as one abstract predicate.
- Consensus: producing blocks, validator rotation and the signatures on blocks.
- Cryptographic internals, bincode and the RocksDB and Sled back ends: only what is named above is used of them.
- Database read, write and delete counters, prefix iteration and size: bookkeeping beside the map.
- Chain statistics, range and per-validator listings, and the placeholder validator queries: direct reads of the modelled state.
- Concurrent access: the database lock and the limiter's lock are taken for whole operations, so runs are sequences of operations here.
- Fuzzy address search and distance search over voting locations.
- Networking, gossip, sync, analytics, voting and the command line.
