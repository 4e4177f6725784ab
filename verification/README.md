# Subnet-EVM core: verified model

A Dafny model of the consensus-facing core of the Subnet-EVM virtual machine,
with proofs of what its parts promise over whole runs:

- the block tree, the canonical number-to-hash index, finality, the
  asynchronous acceptor and recovery after a crash between any two disk
  batches (`BlockTree`, `CanonicalChain`, `ChainRuns`, `BlockChain`,
  `Recovery`, `Startup`, `FinalizedReads`, `Buffers`, `TrieRefs`, `HashCache`);
- the section indexer and the parallel block reader, as step systems over all
  interleavings (`ChainIndexer`, `BlockIterator`);
- upgrade scheduling and configuration compatibility (`Upgrades`,
  `ConfigCompat`);
- gas and fee accounting, transaction ordering, packing and the agreement of
  miner and processor (`StateTransition`, `Ordering`, `Packing`);
- the decaying sample reservoir (`Reservoir`) and request bookkeeping
  (`Requests`).

Most modules have two layers. A state machine on values (`State`, `Step`,
`Inv`, runs) carries the theorems. Classes with the source's fields, loops and
arrays are proved to take exactly those steps, so the theorems hold of them.

## Assumptions

- Hashing is injective, so a block is modelled by its ancestry; header
  verification fixes a block's number to its parent's number plus one.
- A disk batch is atomic. `Accept` is called with an inserted block, `Reject`
  with a block that conflicts with the last accepted one, and the acceptor is
  not closed while the chain runs.
- The virtual machine accepts a block in the chain first and commits its
  durable last-accepted marker afterwards, under one lock
  (plugin/evm/block.go:69-77). In between only the acceptor runs, and a crash is
  possible. After such a crash consensus accepts the same block again;
  `AcceptNeedsTip` shows what depends on it.
- The acceptor commits tries at multiples of the commit interval, and at most
  one interval of accepted blocks waits for it (by default 64 queued blocks, one
  being processed and one being queued, against an interval of 4096).
  Re-executing an accepted block reproduces its root.
- Blocks passed to the trie writer change the state root, as blocks with
  transactions do; block verification refuses empty blocks
  (plugin/evm/block_verification.go:112-116). `InsertBalanced` shows what
  depends on it.
- The EVM is an arbitrary deterministic function that returns no more gas than
  it was given and conserves the total balance; signature recovery, pool
  lookups and predicate checks are inputs.
- A block has a base fee exactly when the SubnetEVM rules are active.
- The indexer's backend `Reset` succeeds and no checkpoint is added while a
  section is processed.
- The miner and the processor start from the same state, after upgrades and
  the beacon-root call. The sidecar of a blob transaction has one blob per blob
  hash.
- A request id is not handed out again while it is outstanding from 2^31
  requests before; up to then it never is (`FirstIdsFree`). Reservoir keys are real numbers, infinity or NaN, without
  rounding; the random key, the decay factor and the time are inputs.

## What the code does not promise

- A crash between accepting a block and committing its marker moves finality
  back by that block: it leaves the index, and a read that was already answered
  is answered as unfinalized (`UnpersistedLost`, `ServedBeforeDurable`). Index
  entries and answers survive every run exactly for blocks not above the durable
  one (`NeverDisplacedIffDurable`, `StableIffDurable`). The comment at
  core/blockchain.go:426-427 says that after loading the acceptor tip equals the
  last accepted block; after such a crash the stored tip is one above.
- `loadGenesisState` does not trim the index. It restores the index invariant
  exactly when nothing was indexed above height 0 (`LoadGenesisIndex`). The
  virtual machine passes the genesis hash when no marker is recorded
  (plugin/evm/vm.go:1203-1205), so only a direct caller of `NewBlockChain`
  with an empty hash reaches this branch.
- A block that repeats its parent's root takes no trie reference but gives one
  back (`InsertBalanced`, `UnchangedRootLosesState`).
- An acceptor tip stored at genesis below the last accepted block cannot be
  reprocessed (`PruningFindsBase`, `GenesisTipFails`). Without a stored tip the
  indices of replayed blocks are not written (`ReprocessState`).
- A time rewind of `CheckCompatible` promises nothing about blocks: after it the
  configurations are compatible at a height exactly when no block fork conflicts
  there, and an earlier block conflict can be dropped from the answer
  (`CheckCompatible`, `TimeRewindHidesBlocks`).
- Moving an unset Petersburg block above the head is reported compatible
  although it changes the rules of existing blocks (`PetersburgFlags`,
  `PetersburgGap`).
- A comment at params/config.go:445 says that block forks may not follow
  timestamp forks. The code below it is only reached for two forks of the same
  kind, so it never rejects one for that (`BlockAfterTimestamp`). The model
  follows the code.
- `checkForks` reads a missing value when a fork that sets both a block and a
  timestamp is compared with one that sets only one of them (`CheckForks`).
- The access list gas wraps at 64 bits when no predicater exists; it is exact
  exactly when the sum fits (`AccessBranches`).
- An infinite reservoir key scaled by a factor that underflowed to 0 becomes NaN.
  The heap order is kept exactly when no key stops being a number (`Update`,
  `NaNHidesLeast`).
- A network shutdown notifies the handlers of outstanding requests but keeps
  their semaphore slots (`SlotsAccounted`).

## Model

| member | source | states |
|---|---|---|
| `BlockTree.CommonIsHighest` | core/blockchain.go:1486-1544 | the common block a reorg walks to is an ancestor of both heads and the highest one |
| `CanonicalChain.WriteHeadsIndex` | core/blockchain.go:801-817 | writing the heads of a chain one batch at a time changes exactly the index entries of the written heights |
| `CanonicalChain.ReorgIndex` | core/blockchain.go:1567-1588 | from any hole-free index that agrees with the common block, the last batch of a reorg leaves exactly the ancestors of the new head and nothing above it, for longer, shorter, sibling and ancestor heads |
| `CanonicalChain.ReorgDisksRecoverable` | core/blockchain.go:1546-1588 | every disk between two batch writes of a reorg can be repaired by a restart with the same last accepted block |
| `CanonicalChain.PreferStep` | core/blockchain.go:1007-1029 | a preference keeps the chain invariant, and each disk on the way is recoverable |
| `CanonicalChain.InsertStep` | core/blockchain.go:1190-1204 | an insertion keeps the invariant, extends the head only for a child of the head, and leaves recoverable disks |
| `CanonicalChain.AcceptStep` | core/blockchain.go:1056-1083 | accepting a child of the last accepted block always succeeds, moves finality to it and keeps the invariant, also when it needs a reorg first |
| `CanonicalChain.AcceptNeedsTip` | core/blockchain.go:1056-1083 | after a crash that lost an acceptance, accepting a child keeps the invariant if and only if it is the block the stored tip names |
| `CanonicalChain.RejectStep` | core/blockchain.go:1127-1153 | a rejected block that conflicts with the accepted chain is not in the index, and deleting it breaks nothing |
| `CanonicalChain.ProcessStep` | core/blockchain.go:568-595 | one turn of the acceptor keeps the invariant, including the soundness of the accepted-number cache |
| `CanonicalChain.StepKeepsInv` | core/blockchain.go:1007-1204 | every legal operation keeps the invariant: the index is exactly the head's ancestors, all stored, finality is below the head, the acceptor trails on the accepted chain; and every disk it passes through is recoverable |
| `ChainRuns.LoadRepairs` | core/blockchain.go:687-733 | a recoverable disk, once reprocessing finds a base state, loads into the whole invariant with the head at the last accepted block, and loading may itself be interrupted anywhere |
| `ChainRuns.WarmedHolds` | core/blockchain.go:531-564 | a warmed cache answers exactly the last heights above genesis, as many as its limit, with the accepted block of each |
| `ChainRuns.LoadGenesisIndex` | core/blockchain.go:735-750 | loading the genesis state restores the index invariant if and only if nothing was indexed above height 0 |
| `ChainRuns.LoadGenesisStale` | core/blockchain.go:735-750 | a concrete run after which loading the genesis state, with an empty last-accepted hash, leaves a stale entry |
| `ChainRuns.RunKeepsInv` | plugin/evm/block.go:53-78 | over every run of operations, marker commits, trie commits, crashes between any two batches and between an acceptance and its marker, boots and crashes while booting, the invariant holds and the durable block only moves forward |
| `ChainRuns.EveryRestartSucceeds` | core/blockchain.go:687-733 | however a node stopped, crashes during earlier replays included, reprocessing finds a base state within twice the commit interval, and the restart ends with the invariant and the head at the durable block |
| `ChainRuns.BootSucceeds` | core/blockchain.go:1785-1840 | with every accepted block having a base state within twice the interval, reprocessing finds one from the stored tip, also when the tip is above the durable block |
| `ChainRuns.NearNext` | core/state_manager.go:152-158 | processing a block keeps a committed state at or above the last multiple of the interval |
| `ChainRuns.AcceptedNeverDisplaced` | core/blockchain.go:1518-1544 | a block whose acceptance is durable is stored and indexed at its height in every later state, on disk and in memory, and stays an ancestor of the head |
| `ChainRuns.NeverDisplacedIffDurable` | plugin/evm/block.go:69-77 | an accepted block stays indexed in every later state of every run if and only if its acceptance is durable |
| `ChainRuns.UnpersistedLost` | plugin/evm/block.go:69-77 | a crash before the marker is committed restarts the node at the parent, with the accepted block out of the index |
| `ChainRuns.FinalityMovesBackIff` | plugin/evm/block.go:69-77 | an event moves finality back if and only if it stops a node whose last acceptance is not durable |
| `ChainRuns.ServedBeforeDurable` | core/blockchain.go:568-595 | a concrete run in which a block is served while its parent is still the durable one |
| `ChainRuns.IndexOverRuns` | core/blockchain.go:801-817 | in every running state the index holds exactly heights 0 to the head, each a stored ancestor of the head |
| `ChainRuns.FreshNode` | core/blockchain.go:687-733 | the disk holding only genesis, with its state, starts every run |
| `BlockChain.BlockChain.GetBlock` | core/blockchain_reader.go:128-140 | a block is returned if and only if it is stored |
| `BlockChain.BlockChain.WriteHeadBlock` | core/blockchain.go:801-817 | one batch writes the index entry and both head markers, then memory follows |
| `BlockChain.BlockChain.FindCommon` | core/blockchain.go:1486-1544 | the two walks end at the common block with the new chain collected from its head downwards, and never fail for a head above finality |
| `BlockChain.BlockChain.LevelChains` | core/blockchain.go:1496-1515 | the first walk brings both cursors to one height without passing the common block |
| `BlockChain.BlockChain.MeetChains` | core/blockchain.go:1516-1537 | the second walk ends where the chains meet |
| `BlockChain.BlockChain.Reorg` | core/blockchain.go:1486-1588 | a reorg fails exactly when the new head does not descend from the last accepted block, and then changes nothing; otherwise it writes exactly the specified sequence of disks |
| `BlockChain.BlockChain.WriteNewChain` | core/blockchain.go:1567-1570 | the heads below the new head are written upwards, one batch each |
| `BlockChain.BlockChain.TrimAbove` | core/blockchain.go:1572-1588 | deleting upwards to the first missing height removes every entry above the new head |
| `BlockChain.BlockChain.WriteKnownBlock` | core/blockchain.go:1157-1166 | the head moves to the block, through a reorg exactly when the block does not extend the head |
| `BlockChain.BlockChain.SetPreference` | core/blockchain.go:1007-1029 | succeeds if and only if the block keeps finality; then the head and the whole index are its own, written disk by disk as specified; otherwise nothing changes in memory or on disk |
| `BlockChain.BlockChain.InsertBlock` | core/blockchain.go:1190-1204 | succeeds if and only if the block is verified and its parent is stored; then exactly this block is stored, the head moves to it if and only if it extends the head, and finality does not move; otherwise nothing changes; the disks written are those specified |
| `BlockChain.BlockChain.Accept` | core/blockchain.go:1056-1083 | fails if and only if the parent is not the last accepted block, and then nothing changes; otherwise the block is the last accepted one and last in the queue, and the head moves to it unless it already descends from it |
| `BlockChain.BlockChain.Reject` | core/blockchain.go:1127-1153 | removes exactly this block from the store and moves neither the head nor finality |
| `BlockChain.BlockChain.ProcessNext` | core/blockchain.go:568-595 | the first queued block becomes the acceptor tip, in memory and on disk, and is cached under its height; an empty queue changes nothing |
| `BlockChain.BlockChain.Restore` | core/blockchain.go:693-713 | the state read back from the markers on disk |
| `BlockChain.BlockChain.LoadLastState` | core/blockchain.go:687-727 | loading fails if and only if the recorded head or the last accepted block is missing, and otherwise ends with the full index of the last accepted block |
| `BlockChain.BlockChain.WarmAcceptedCaches` | core/blockchain.go:531-564 | the cache answers exactly the last heights of the accepted chain above genesis, as many as its limit |
| `Startup.NewBlockChain` | core/blockchain.go:421-461 | on every recoverable disk, loading, reprocessing and warming together succeed if and only if a base state is found, and then give the specified state after the specified disk writes, with the last accepted state on disk |
| `FinalizedReads.CacheHitIsCanonical` | core/headerchain.go:169-178 | a hit in the accepted-number cache is the canonical header of that height |
| `FinalizedReads.ReadsFollowTheHead` | eth/api_backend.go:87-200 | whatever the caches hold, a height answers with the head's ancestor and a hash exactly when it is one; above the acceptor tip the answer is unfinalized unless unfinalized queries are allowed |
| `FinalizedReads.FinalizedReadsAreStable` | eth/api_backend.go:87-200 | with unfinalized queries disabled, an answer to a height or hash is an accepted block; if it is not above the durable block it stays the answer in every later state, across crashes |
| `FinalizedReads.StableIffDurable` | eth/api_backend.go:154-176 | the answer for a served block survives every run if and only if it is not above the durable block |
| `FinalizedReads.FoundIffServed` | eth/api_backend.go:154-200 | a block answers its height and its hash if and only if it is on the chain of the processed tip |
| `FinalizedReads.ReadsDuringStep` | eth/api_backend.go:87-200 | between any two batch writes of an operation, without the chain lock, a block that answered still answers |
| `Buffers.EvictionsArePrefix` | core/bounded_buffer.go:32-49 | evictions followed by the window are the insertions in order, so the k-th eviction releases the k-th insertion |
| `Buffers.RecentInWindow` | core/bounded_buffer.go:32-49 | the last insertions up to the size are in the window |
| `Buffers.BoundedBuffer.constructor` | core/bounded_buffer.go:21-28 | a new buffer has an empty window |
| `Buffers.BoundedBuffer.Insert` | core/bounded_buffer.go:32-49 | the ring slides its window by one and releases the oldest item exactly when full; a refusing callback leaves the window as it was |
| `Buffers.BoundedBuffer.Last` | core/bounded_buffer.go:55-60 | the newest item, or none if nothing was inserted |
| `Buffers.PutKeepsWindow` | core/fifo_cache.go:43-49 | storing a key that is not buffered keeps exactly the window's keys readable with their values |
| `Buffers.FifoCache.constructor` | core/fifo_cache.go:24-34 | a new cache of positive limit is empty |
| `Buffers.FifoCache.Put` | core/fifo_cache.go:43-64 | the map and the ring together implement the cache value |
| `Buffers.FifoCache.Get` | core/fifo_cache.go:51-57 | a lookup returns the stored value |
| `Recovery.StateRecovery.FindBase` | core/blockchain.go:1817-1840 | with a budget the search succeeds if and only if a strict ancestor within it has its state, and returns such an ancestor; without one it returns the start |
| `Recovery.StateRecovery.ReprocessBlock` | core/blockchain.go:1706-1751 | re-execution succeeds exactly when the parent state opens, and then adds the block's state |
| `Recovery.StateRecovery.WriteAcceptedIndices` | core/blockchain.go:480-499 | one batch writes the indices and moves the tip to the block |
| `Recovery.StateRecovery.ReprocessState` | core/blockchain.go:1785-1914 | succeeds if and only if the node was up to date or a base is found; then the last accepted state is on disk, the indices of exactly the blocks above a tip on the accepted chain were written once and in order, and a tip above the last accepted block stays; on failure nothing changes |
| `Recovery.StateRecovery.Replay` | core/blockchain.go:1842-1914 | the replay reaches the last accepted block if and only if the base state opens or nothing is to be replayed, and writes the indices of exactly the blocks above the tip |
| `Recovery.Above` | core/blockchain.go:1852-1907 | the blocks whose indices are written are the ancestors of the last accepted block at the heights above the tip, in order |
| `Recovery.PruningFindsBase` | core/blockchain.go:732 | with tries committed at every multiple of the interval up to the tip, the search finds a base within twice the interval if and only if the tip is above genesis |
| `Recovery.GenesisTipFails` | core/blockchain.go:1810-1822 | a tip stored at genesis below the last accepted block cannot be reprocessed |
| `TrieRefs.InsertBalanced` | core/state_manager.go:126-138 | an insertion keeps references equal to holders if and only if it changes the root or the root is on disk |
| `TrieRefs.AcceptBalanced` | core/state_manager.go:140-150 | an acceptance moves a reference from the processing block to the tip buffer and releases the displaced root |
| `TrieRefs.RejectBalanced` | core/state_manager.go:188-191 | a rejection gives back exactly one reference |
| `TrieRefs.StepKeepsInv` | core/state_manager.go:126-191 | every step keeps the references, the tip window and the committed roots |
| `TrieRefs.ReferencesConserved` | core/state_manager.go:140-191 | over every run the references of an uncommitted root are its processing blocks plus its tip-buffer entries; processing roots and the last 32 accepted roots are readable; roots accepted at commit heights are on disk |
| `TrieRefs.ReleasedInOrder` | core/state_manager.go:140-150 | over every run the k-th root the tip buffer releases is the k-th accepted root, and the rest is what it still holds |
| `TrieRefs.UnchangedRootLosesState` | core/state_manager.go:126-150 | a concrete run in which a block repeats its parent's root and the root of an accepted block becomes unreadable |
| `TrieRefs.CappedMemoryTrieWriter.constructor` | core/state_manager.go:74-91 | a new writer holds nothing in memory |
| `TrieRefs.CappedMemoryTrieWriter.InsertTrie` | core/state_manager.go:126-138 | refines the insert step; memory is capped exactly when a limit is exceeded |
| `TrieRefs.CappedMemoryTrieWriter.SlideTip` | core/state_manager.go:140-150 | the root enters the tip buffer and the displaced root loses a reference |
| `TrieRefs.CappedMemoryTrieWriter.AcceptTrie` | core/state_manager.go:140-186 | refines the accept step: commit at multiples of the interval, optimistic flush inside the flush window |
| `TrieRefs.CappedMemoryTrieWriter.FlushesIff` | core/state_manager.go:160-186 | an acceptance flushes if and only if the commit is at most 768 blocks away and memory is above the line from the cap down to the target size |
| `TrieRefs.CappedMemoryTrieWriter.RejectTrie` | core/state_manager.go:188-191 | refines the reject step |
| `TrieRefs.CappedMemoryTrieWriter.Shutdown` | core/state_manager.go:193-204 | a clean shutdown leaves the last accepted root on disk |
| `HashCache.WalkFindsAncestor` | core/evm.go:147-162 | a walk either meets an unknown header or stops exactly at the requested height with the ancestor there |
| `HashCache.GetHash.constructor` | core/evm.go:128-131 | the memo starts empty |
| `HashCache.GetHash.Lookup` | core/evm.go:128-164 | the memoised lookup answers like the plain parent walk for every height, and the memo stays a prefix of the ancestors, grown exactly to the requested height |
| `HashCache.GetHash.Learn` | core/evm.go:150-154 | headers learnt between calls keep the memo valid |
| `ChainIndexer.StepKeepsInv` | core/chain_indexer.go:254-428 | no interleaving of notifications, rollbacks, queries that verify the last head and unlocked processing breaks the parent-linked chain of stored section heads |
| `ChainIndexer.VerifyKeepsCanonical` | core/chain_indexer.go:433-440 | comparing only the last head keeps a stored section if and only if its head is canonical |
| `ChainIndexer.SectionsSound` | core/chain_indexer.go:433-440 | in every run, if the last head is canonical then so is every stored head from the checkpoint on |
| `ChainIndexer.RollbackCutsBack` | core/chain_indexer.go:259-286 | a section from the checkpoint on stays stored if and only if it was and ends at or below the common block |
| `ChainIndexer.GrowthIsConfirmed` | core/chain_indexer.go:287-310 | sections become known if and only if the next one has its confirmations, the checkpoint is reached, and a first crossing of it finds its head; then exactly the confirmed ones are known |
| `ChainIndexer.FinishConcludes` | core/chain_indexer.go:359-380 | how an update ends, in terms of the stored heads alone |
| `ChainIndexer.QuietSectionCompletes` | core/chain_indexer.go:328-428 | when the canonical chain covers the next section and stays put, processing it stores exactly its canonical last block and tells the children its end |
| `ChainIndexer.ChainIndexer.constructor` | core/chain_indexer.go:114-133 | an indexer starts from the section count and heads of the index database |
| `ChainIndexer.ChainIndexer.SetValidSections` | core/chain_indexer.go:490-502 | exactly the heads of the dropped sections are removed |
| `ChainIndexer.ChainIndexer.VerifyLastHead` | core/chain_indexer.go:433-440 | sections are dropped from the end until the last head is canonical or the checkpoint is reached |
| `ChainIndexer.ChainIndexer.Sections` | core/chain_indexer.go:445-451 | refines the verification step; above the checkpoint the reported head is the canonical block at the end of the last section |
| `ChainIndexer.ChainIndexer.NewHead` | core/chain_indexer.go:254-311 | a reorg keeps exactly the stored sections that end at or below the common block, or are under the checkpoint, with their heads, and known and cascaded sections no higher; a new head makes sections known if and only if the next one is confirmed, the checkpoint is reached and matches, and then exactly the confirmed ones |
| `ChainIndexer.ChainIndexer.BeginUpdate` | core/chain_indexer.go:328-349 | an update starts if and only if more sections are known than stored, at the first section after the last canonical head |
| `ChainIndexer.ChainIndexer.ProcessHeader` | core/chain_indexer.go:399-428 | a read goes one block further exactly when the canonical block there is known, links to the one before and the backend takes it; the last one completes the section; anything else fails it |
| `ChainIndexer.ChainIndexer.FinishUpdate` | core/chain_indexer.go:359-380 | the processed section is stored behind the others if and only if the head it was linked to is still stored; otherwise no section above a canonical head stays and none is known beyond those stored |
| `ChainIndexer.ChainIndexer.AddCheckpoint` | core/chain_indexer.go:141-154 | a checkpoint above the stored sections becomes the last stored section; any other changes nothing |
| `BlockIterator.ReceiveFindsRoom` | core/blockchain_iterator.go:138-175 | a delivered block always finds its ring slot empty |
| `BlockIterator.StepKeepsInv` | core/blockchain_iterator.go:78-175 | every step of the workers and the consumer keeps the window invariant |
| `BlockIterator.ReaderIsSound` | core/blockchain_iterator.go:119-175 | for every interleaving, cancelled waits and stops included, the yielded heights are start, start+1 and so on and no occupied slot is overwritten; until the iterator is closed an idle worker exists whenever a height is to be handed out, and the awaited block is in the ring or with a worker |
| `BlockIterator.BlockChainIterator.constructor` | core/blockchain_iterator.go:59-113 | a new iterator has handed out the first heights |
| `BlockIterator.BlockChainIterator.PopulateReaders` | core/blockchain_iterator.go:119-135 | while open, hands out exactly the heights up to the end of the window or of the accepted chain, and never blocks |
| `BlockIterator.BlockChainIterator.Next` | core/blockchain_iterator.go:138-175 | returns the block of the next height, buffered ones even after a stop, or an error that leaves the sequence as it was; a context that lasts one delivery per worker is never the reason |
| `BlockIterator.BlockChainIterator.AwaitNext` | core/blockchain_iterator.go:145-174 | receiving ends with the awaited block in its slot, or with an error: the iterator is closed, the context is done, or a block was missing, which closes it; a buffered block is never refused |
| `BlockIterator.BlockChainIterator.TakeNext` | core/blockchain_iterator.go:147-155 | the slot of the next height yields the block of that height and is emptied |
| `BlockIterator.BlockChainIterator.ReadBlock` | core/blockchain_iterator.go:78-107 | a worker offers a result for the height it holds |
| `BlockIterator.BlockChainIterator.ReceiveFrom` | core/blockchain_iterator.go:160-168 | a result goes to its slot and frees its worker; a missing block stops the iterator |
| `BlockIterator.BlockChainIterator.StopReaders` | core/blockchain_iterator.go:179-184 | the iterator is closed and every worker has exited, with the sequence still in order |
| `Upgrades.GetActivatingPrecompileConfigs` | params/precompile_upgrade.go:162-187 | the loop collects, in order, exactly the configurations of a registered key, from genesis or the upgrades, whose time is after the parent block and not after the current one |
| `Upgrades.ActivatingConfigsIff` | params/precompile_upgrade.go:162-187 | a configuration activates if and only if its module is registered, it is the genesis configuration or an upgrade of the key, and its time is after the parent and not after the current block |
| `Upgrades.VerifiedInOrder` | params/precompile_upgrade.go:162-187 | the activations of a verified list have strictly increasing times |
| `Upgrades.ActiveConfigIff` | params/precompile_upgrade.go:152-158 | the active configuration of a registered module is the latest of its configurations whose time has come |
| `Upgrades.EnabledIff` | params/config_extra.go:217-220 | a precompile is enabled if and only if its module is registered and its latest configuration whose time has come does not disable it |
| `Upgrades.VerifyPrecompileUpgrades` | params/precompile_upgrade.go:70-148 | the loops accept exactly the lists of valid configurations whose times never decrease and in which the upgrades of each key strictly increase and alternate between disabling and enabling, starting from a timed genesis configuration |
| `Upgrades.WellFormedIff` | params/precompile_upgrade.go:64-148 | checking each upgrade against its neighbour and the last one of its key decides order and alternation of the whole list |
| `Upgrades.VerifyGenesisPrecompiles` | params/precompile_upgrade.go:78-94 | accepts exactly the valid genesis configurations and remembers the timed ones |
| `Upgrades.VerifyUpgradeList` | params/precompile_upgrade.go:96-148 | accepts exactly the lists in which every upgrade is timed, ordered, alternating and valid |
| `Upgrades.VerifiedSorted` | params/precompile_upgrade.go:70-148 | the configurations of each key in a verified list have strictly increasing timestamps |
| `Upgrades.ActivatingSplits` | params/config_extra.go:303-310 | splitting a transition at any time loses, repeats and reorders no activation |
| `Upgrades.UpgradesExactlyOnce` | params/precompile_upgrade.go:162-187 | for every verified list and every chain of non-decreasing timestamps the per-block activations concatenate to the activations from nothing to the head |
| `Upgrades.ApplyPrecompileActivations` | core/state_processor.go:211-253 | one transition configures or deconfigures each module by its activations in order, and touches nothing else |
| `Upgrades.ConfigureModule` | core/state_processor.go:218-250 | the last activation decides the module's account |
| `Upgrades.ConfiguredIffEnabled` | params/config_extra.go:217-220 | after any chain a module's account is configured if and only if the rules at the head enable it, with the configuration the rules name |
| `Upgrades.GetActivatingStateUpgrades` | params/state_upgrade.go:61-69 | the loop collects, in order, exactly the listed state upgrades whose time is after the parent block and not after the current one |
| `Upgrades.ActivatingStateIff` | params/state_upgrade.go:61-69 | a state upgrade activates if and only if it is listed with a time after the parent and not after the current block |
| `Upgrades.VerifyStateUpgrades` | params/state_upgrade.go:38-57 | accepts exactly the lists of timed, strictly increasing upgrades after genesis |
| `Upgrades.StateExactlyOnce` | core/state_processor.go:258-267 | each verified state upgrade timed after genesis is applied exactly once and in order by a chain that reaches it |
| `ConfigCompat.CheckCompatible` | params/config.go:345-366 | terminates for all inputs; no error if and only if nothing conflicts at the head; a block rewind leaves the configurations compatible at that block and the original time; a time rewind leaves the timed rules compatible, and the whole configurations at a height if and only if no block fork conflicts there |
| `ConfigCompat.LowestConflictRewinds` | params/config.go:345-366 | the rewind loop keeps its promises from every state it passes through |
| `ConfigCompat.TimeRewindHidesBlocks` | params/config.go:345-366 | configurations for which a time rewind is returned although a block fork conflicts at the head |
| `ConfigCompat.ConflictIff` | params/precompile_upgrade.go:210-245 | comparing two lists entry by entry finds no conflict if and only if the lists are equal |
| `ConfigCompat.ConflictAt` | params/precompile_upgrade.go:210-245 | the error names the first position at which the lists differ |
| `ConfigCompat.ErrorBelow` | params/config.go:603-645 | every rewind point lies strictly below the head that caused it |
| `ConfigCompat.RewindIsHighest` | params/config.go:603-645 | at the rewind point a moved fork does not conflict and one step above it does, unless it conflicts from the start |
| `ConfigCompat.PrecompilesIff` | params/precompile_upgrade.go:196-245 | no precompile conflict if and only if both activate the same configurations for every module up to the head |
| `ConfigCompat.TimestampFlagsIff` | params/network_upgrades.go:35-46 | no timestamp-fork conflict if and only if all fork flags agree up to the head |
| `ConfigCompat.CompatibleMeansSameRules` | params/config.go:463-531 | no timestamp error if and only if at every time up to the head both configurations give the same fork flags, precompile activations and state upgrades |
| `ConfigCompat.BlocksCompatibleIff` | params/config.go:463-509 | no block fork conflicts if and only if the block flags agree at every height up to the head, the chain ID is the same once EIP-158 is reached, and the new Petersburg block agrees with the stored Petersburg or Constantinople block |
| `ConfigCompat.CompatibleIff` | params/config.go:463-531 | no error if and only if those block conditions hold and at every time up to the head the timed rules are the same |
| `ConfigCompat.CompatibleBelow` | params/config.go:463-531 | compatibility at a head carries over to every earlier head |
| `ConfigCompat.PetersburgFlags` | params/config.go:309-311 | the Petersburg flag agrees up to the head if and only if the effective Petersburg blocks are compatible |
| `ConfigCompat.PetersburgGap` | params/config.go:463-531 | a family of configurations reported compatible although the Petersburg flag at the head changes |
| `ConfigCompat.CheckForks` | params/config.go:417-458 | the check ends at the first fork that is refused or makes it read a missing value, and accepts if and only if there is none |
| `ConfigCompat.VerdictInOrder` | params/config.go:417-458 | for forks that set a block or a timestamp, never both, the check refuses exactly the forks out of order with the last relevant one |
| `ConfigCompat.LastRelevantIs` | params/config.go:451-456 | forks are compared with the last one before them that is not an unscheduled optional fork |
| `ConfigCompat.OrderedIffNested` | params/network_upgrades.go:48-54 | for mandatory timestamp forks the order check accepts exactly the schedules whose flags nest at every time |
| `ConfigCompat.BlockAfterTimestamp` | params/config.go:445-449 | a block fork that follows a timestamp fork fails the order check if and only if its block is not 0 |
| `ConfigCompat.BlockAfterTimestampAccepted` | params/config.go:445-449 | a concrete list with a block fork after a timestamp fork that passes |
| `StateTransition.TransactionToMessage` | core/state_transition.go:210-232 | the effective gas price never exceeds the fee cap |
| `StateTransition.DebitCovered` | core/state_transition.go:294-331 | once the checks pass the gas debit fits 256 bits, is covered by the balance and leaves the transferred value |
| `StateTransition.TransferCheckNeverFails` | core/state_transition.go:479-486 | the later value-transfer check cannot fail |
| `StateTransition.SenderErrors` | core/state_transition.go:333-367 | a message fails with each error about its sender if and only if its nonce, code, prohibition or allow list says so and nothing earlier does; the nonce is too low if and only if the account has passed it |
| `StateTransition.FeeErrors` | core/state_transition.go:369-392 | which message of a good sender fails with which error about its fee caps |
| `StateTransition.BlobErrors` | core/state_transition.go:393-424 | which message with good sender and fees fails with which blob error |
| `StateTransition.PurchaseErrors` | core/state_transition.go:294-331 | funds are insufficient if and only if all gas and blobs at their caps and the value exceed the balance or 256 bits; the block is out of gas if and only if funds suffice and its pool does not |
| `StateTransition.GasErrors` | core/state_transition.go:459-501 | which message that can pay fails over its intrinsic gas, its predicates or its init code |
| `StateTransition.ExecutedIff` | core/state_transition.go:438-501 | a message executes if and only if sender, fee caps, blobs, funds, gas pool, intrinsic gas and init code all pass |
| `StateTransition.ExecutesOn` | core/state_transition.go:488-507 | the interpreter runs on the sender's balance less gas and blobs at their prices, the nonce raised for a call, and the gas the intrinsic cost leaves |
| `StateTransition.Refund` | core/state_transition.go:526-536 | nothing from SubnetEVM on; before, the counter or half of the used gas, whichever is less |
| `StateTransition.TransitionConserves` | core/state_transition.go:438-524 | an executed message changes the total balance by exactly minus the blob fee, returns exactly the unused gas to the pool and uses no more than its limit |
| `StateTransition.SettledPays` | core/state_transition.go:526-548 | settling credits the sender with the remaining gas, then the coinbase with the used gas at the gas price, no other account and nothing else; left, refunded and used gas make the limit, and the failure flag is the interpreter's |
| `StateTransition.TransitionPays` | core/state_transition.go:509-516 | in a whole transition the coinbase balance grows after execution and refund by exactly the used gas at the gas price, and no other balance changes there |
| `StateTransition.MinerFeeIsPrice` | core/types/transaction.go:362-379 | for every transaction, base fee plus effective tip is the gas price of its message |
| `StateTransition.GasPool.AddGas` | core/gaspool.go:39-45 | gas is added to the pool |
| `StateTransition.GasPool.SubGas` | core/gaspool.go:49-55 | gas is taken if and only if there is enough; otherwise nothing changes |
| `StateTransition.GasPool.SetGas` | core/gaspool.go:63-65 | the pool is overwritten |
| `StateTransition.DivisionTestExact` | core/state_transition.go:106-122 | the division test before each multiplication holds if and only if the 64-bit sum overflows |
| `StateTransition.IntrinsicGas` | core/state_transition.go:83-138 | the loop and its overflow guards compute the exact intrinsic gas, or report overflow exactly when it does not fit 64 bits |
| `StateTransition.IntrinsicIs` | core/state_transition.go:83-138 | the intrinsic gas is the base cost, 4 for each zero and 16 or 68 for each other byte, 2 for each word of init code, and the access list; it fails if and only if the sum does not fit or the list fails |
| `StateTransition.CountNonZero` | core/state_transition.go:95-100 | the number of non-zero bytes |
| `StateTransition.AccessListGas` | core/state_transition.go:140-176 | the access list costs its tuples, with predicate entries priced by their precompile, or fails at the first failing tuple; without predicaters the plain sum wraps at 64 bits |
| `StateTransition.AccessBranches` | core/state_transition.go:140-176 | for lists without predicate entries the two branches agree if and only if the sum fits 64 bits |
| `StateTransition.AccessGasNext` | core/state_transition.go:150-176 | one more entry costs 2400 and 1900 for each key, or what its predicate asks; a failing predicate or an overflow fails the list for good |
| `StateTransition.StateTransition.BuyGas` | core/state_transition.go:294-331 | buying gas debits the balance and the pool exactly when both suffice |
| `StateTransition.StateTransition.RefundGas` | core/state_transition.go:526-548 | the refund is capped by half of the used gas before SubnetEVM and is nothing after; the remaining gas is paid back to sender and pool |
| `StateTransition.StateTransition.TransitionDb` | core/state_transition.go:438-524 | the object's transition is the specified transition, check by check, for every message |
| `Ordering.Down` | miner/ordering.go:72-94 | sifting down restores the heap order and permutes the heads |
| `Ordering.Init` | miner/ordering.go:111-137 | heapifying orders the heads and keeps them |
| `Ordering.PopRoot` | miner/ordering.go:163-165 | popping removes exactly the root and keeps the heap |
| `Ordering.ReplaceRoot` | miner/ordering.go:148-158 | replacing and fixing the root keeps the heap and the other heads |
| `Ordering.FirstHeads` | miner/ordering.go:111-137 | one head per account whose first transaction can pay, followed by the rest of its list |
| `Ordering.TransactionsByPriceAndNonce.constructor` | miner/ordering.go:111-137 | the live accounts are exactly those whose first transaction can pay the base fee, each at its first transaction |
| `Ordering.TransactionsByPriceAndNonce.Peek` | miner/ordering.go:140-145 | the peeked head pays no less than any other live head, and was seen no later than those that pay the same; its fee is the tip, or what the cap leaves above the base fee; none if and only if no account is live |
| `Ordering.TransactionsByPriceAndNonce.Shift` | miner/ordering.go:148-158 | the best account moves to its next transaction if there is one whose cap covers the base fee, and is dropped otherwise; no other account moves |
| `Ordering.TransactionsByPriceAndNonce.DropRoot` | miner/ordering.go:163-165 | Pop drops exactly the best account |
| `Ordering.TransactionsByPriceAndNonce.Clear` | miner/ordering.go:174-176 | no account is live |
| `Ordering.PeekedIsPrefix` | miner/ordering.go:140-165 | for every sequence of shifts and pops an account's peeked transactions are a prefix of its list, without repeats |
| `Ordering.ShiftsOfferAll` | miner/ordering.go:140-158 | shifting until the set is empty offers exactly the transactions of a live account up to the first that cannot pay the base fee |
| `Ordering.NothingAfterPop` | miner/ordering.go:163-165 | nothing of an account follows a pop of it |
| `Ordering.AdvanceDecreases` | miner/worker.go:371-474 | every shift or pop strictly decreases what remains, so the packing loop terminates |
| `Packing.Process` | core/state_processor.go:100-119 | the processor's loop is the specified fold, or fails where a transaction is rejected |
| `Packing.ApplyMessage` | core/state_processor.go:121-169 | applying a transaction is the specified application on the gas pool |
| `Packing.ApplyExecutesIff` | core/state_transition.go:438-501 | in the fields of a transaction: it executes if and only if it is signed, has the next nonce of a permitted account without code, its caps cover the base fee and blob price, the balance covers everything at the caps, and its gas fits the block and the intrinsic cost |
| `Packing.ApplyNonceErrors` | core/state_transition.go:336-348 | a signed transaction is rejected as too low or too high by its nonce alone |
| `Packing.ReceiptsFollow` | core/state_processor.go:121-169 | each receipt carries its transaction, position, blob gas and the outcome of applying it after those before it; its cumulative gas is the sum up to it, and the last one is the gas used |
| `Packing.CommitKeepsFaithful` | miner/worker.go:303-369 | every packing step, failed or not, keeps the block under construction equal to what the processor computes from its transactions, with pool plus gas used equal to the block limit |
| `Packing.CommitIff` | miner/worker.go:303-369 | a transaction is added if and only if its blobs fit in the six of a block, its predicates hold from Durango on, and it executes; otherwise the error says which and nothing changes |
| `Packing.TriedIff` | miner/worker.go:416-474 | a pool entry is packed if and only if its gas, blobs and size fit, it is still there, not premature, and commits; its account goes on if and only if it is packed or its nonce was used |
| `Packing.MinerRefinesProcessor` | miner/worker.go:371-474 | whatever was tried, re-running the packed list from the same state gives the same receipts, indices, cumulative gas and state, and the validator's gas and blob checks pass |
| `Packing.CountBlobs` | core/block_validator.go:83-95 | the number of blobs of a list |
| `Packing.ValidateBlobs` | core/block_validator.go:83-106 | accepts exactly when the blob count is the whole blobs in the header's blob gas, or zero without one |
| `Packing.BlockConserves` | core/state_processor.go:100-119 | a block changes the total balance by exactly minus its blob fees |
| `Packing.TotalFees` | core/blockchain.go:1099-1116 | the fee total of a list and its receipts, or an error when their lengths differ |
| `Packing.CreditsAreTotalFees` | core/blockchain.go:1099-1116 | over a block the growth of the coinbase balance by fees, measured after execution and refund of each transaction, sums to the total fees computed from the receipts |
| `Packing.CreditIsPrice` | core/state_processor.go:121-169 | the fee an applied transaction adds to the coinbase balance is the gas it used at its price |
| `Packing.Environment.constructor` | miner/worker.go:282-301 | an empty pack over the full gas pool |
| `Packing.Environment.ApplyTransaction` | miner/worker.go:342-369 | a transaction whose predicates cannot be checked is not run, and a rejected one leaves state, gas used and pool as they were |
| `Packing.Environment.CommitTransaction` | miner/worker.go:303-339 | refines the packing step; a blob transaction that does not fit, or one whose predicates fail, is refused before it runs |
| `Packing.Environment.CommitTransactions` | miner/worker.go:371-474 | the packing loop terminates, keeps agreement with the processor, only appends, and ends when gas or both sets run out |
| `Packing.Environment.PackNext` | miner/worker.go:371-415 | one round tries the blob offer if it pays strictly more or is the only one, and the plain offer otherwise, after clearing the blob set once six blobs are used |
| `Packing.Environment.PackOne` | miner/worker.go:416-474 | the account is shifted or popped as the attempt decides |
| `Packing.Environment.TryOne` | miner/worker.go:416-474 | an entry that does not fit, is gone, premature or invalid ends its account; a packed one or one with a used nonce does not |
| `Reservoir.UpRestores` | metrics/sample.go:419-428 | sifting up restores the heap |
| `Reservoir.UpPermutes` | metrics/sample.go:419-428 | sifting up permutes, whatever the keys |
| `Reservoir.DownRestores` | metrics/sample.go:430-446 | sifting down restores the heap and permutes it |
| `Reservoir.RootIsLeast` | metrics/sample.go:400-409 | the root of a heap has the least key |
| `Reservoir.PushKeepsHeap` | metrics/sample.go:393-398 | a push keeps the heap if and only if the new key is a number |
| `Reservoir.PushAdds` | metrics/sample.go:393-398 | a push adds exactly its sample, whatever the keys |
| `Reservoir.PopRemovesLeast` | metrics/sample.go:400-409 | a pop keeps the heap and removes exactly one sample of least key |
| `Reservoir.ExpDecaySampleHeap.constructor` | metrics/sample.go:379-381 | a new heap is empty |
| `Reservoir.ExpDecaySampleHeap.Clear` | metrics/sample.go:389-391 | the heap is emptied and its storage stays |
| `Reservoir.ExpDecaySampleHeap.Push` | metrics/sample.go:393-398 | the array holds the specified pushed heap |
| `Reservoir.ExpDecaySampleHeap.Pop` | metrics/sample.go:400-409 | the array holds the specified popped heap and the removed sample is returned |
| `Reservoir.ExpDecaySampleHeap.SiftUp` | metrics/sample.go:419-428 | the loop computes the specified sift |
| `Reservoir.ExpDecaySampleHeap.SiftDown` | metrics/sample.go:430-446 | the loop computes the specified sift |
| `Reservoir.ExpDecaySample.constructor` | metrics/sample.go:52-64 | a new reservoir is empty |
| `Reservoir.ExpDecaySample.Clear` | metrics/sample.go:73-80 | count and reservoir are emptied |
| `Reservoir.ExpDecaySample.Update` | metrics/sample.go:114-142 | keeps size = min(count, reservoir size), evicts one sample of least key when full, after the hour scales every key without losing or duplicating a sample, and keeps the heap order if and only if no key stops being a number |
| `Reservoir.ExpDecaySample.Rescale` | metrics/sample.go:131-141 | pushing into the array that is being iterated loses and duplicates nothing, and gives a heap if and only if every scaled key is a number |
| `Reservoir.ScalePermutes` | metrics/sample.go:131-141 | scaling does not depend on the order of the samples |
| `Reservoir.ScalingLaws` | metrics/sample.go:131-141 | scaling multiplies every finite key, keeps values and positions, keeps the order of keys under a positive factor, and composes over successive hours |
| `Reservoir.ScaledOrdered` | metrics/sample.go:137-140 | scaling keeps every key a number if and only if they were and no infinite one meets the factor 0 |
| `Reservoir.NaNHidesLeast` | metrics/sample.go:419-428 | keys for which every comparison of the heap is satisfied although the root is not least |
| `Requests.StepKeepsInv` | peer/network.go:125-408 | every step of every caller, responder and shutdown keeps slots and requests accounted for, and no release exceeds the slots held |
| `Requests.RegistrationNeedsFreeId` | peer/network.go:174-222 | the accounts survive a registration if and only if its id is not outstanding |
| `Requests.ToldGrows` | peer/network.go:269-303 | over every run what a handler was notified of stays, in order |
| `Requests.ClosedForGood` | peer/network.go:396-408 | after a shutdown nothing is registered any more |
| `Requests.HandlersNotifiedOnce` | peer/network.go:269-303 | over every interleaving each registered handler is notified at most once and only of what its request was taken for; after a shutdown exactly once, unless the responder that took it has yet to do so |
| `Requests.SlotsAccounted` | peer/network.go:147-222 | before shutdown the held slots are the registered requests plus the callers in transit; after it the slots of dropped requests stay held; all ids are even |
| `Requests.NextId` | peer/network.go:451-456 | the counter moves on by two modulo 2^32 and stays even |
| `Requests.IdsRepeat` | peer/network.go:451-456 | two ids at most 2^31 requests apart are equal if and only if they are exactly that far apart |
| `Requests.FirstIdsFree` | peer/network.go:174-222 | in a run of fewer than 2^31 events the next id is never outstanding |
| `Requests.Network.constructor` | peer/network.go:105-118 | a new network has nothing outstanding |
| `Requests.Network.AcquireSlot` | peer/network.go:147-161 | one more slot is held and nothing else changes |
| `Requests.Network.SendAppRequest` | peer/network.go:174-222 | a successful send files the next request under the next id and keeps its slot; a failed one gives the slot back and leaves no entry; a closed network, a cancelled context and a missing peer give the slot back and use no id |
| `Requests.Network.NextRequestID` | peer/network.go:451-456 | hands out the counter and moves it on by two modulo 2^32 |
| `Requests.Network.MarkRequestFulfilled` | peer/network.go:330-342 | the request under the id is taken out of the table and returned, if there is one; slots and handlers are left |
| `Requests.Network.ReleaseSlot` | peer/network.go:278-279 | exactly one slot is given back |
| `Requests.Network.NotifyHandler` | peer/network.go:281-302 | exactly this handler is notified of exactly this result |
| `Requests.Network.Deliver` | peer/network.go:269-303 | a delivery notifies the handler of exactly that response or failure and frees its slot; an unknown id changes nothing and is forwarded |
| `Requests.Network.ShutdownNetwork` | peer/network.go:396-408 | the network is closed with an empty table; every waiting handler was failed once and no other was notified; the slots stay held |
| `Requests.NotifiedAtMostOnce` | peer/waiting_handler.go:34-45 | a waiting handler survives its notifications if and only if there is at most one, and then its waiter learns that one |
| `Requests.WaitingResponseHandler.OnResponse` | peer/waiting_handler.go:34-38 | the response is buffered and the channel closed |
| `Requests.WaitingResponseHandler.OnFailure` | peer/waiting_handler.go:41-45 | the failure is flagged and the channel closed |
| `Requests.WaitingResponseHandler.WaitForResult` | peer/waiting_handler.go:47-57 | returns the context error, the failure, or the buffered response |

## Left out

- EVM interpretation, state tries, snapshots, RLP, hashing, signature recovery, and the encoding and layout of the database.
- State sync and `ResetToStateSyncedBlock`.
- Dynamic fees, block gas cost and header verification in `consensus/dummy`.
- Peer selection by bandwidth, inbound requests, gossip and the SDK network behind the legacy one.
- Logs, bloom filters, event feeds, metrics other than the reservoir heap, and transaction indexing and unindexing.
- Archive (non-pruning) trie writing, offline pruning and `populateMissingTries`.
- The calls of `eth_call` with skipped account checks or no base fee in the state transition.
- Predicate results in the block context; whether a transaction's predicates can be checked is an input of the miner.
- RPC, account management, JSON of configurations and genesis, and the field checks of fee configurations.
- The order among blocks of equal height in `InsertChain`; blocks are inserted one at a time.
- ChainIndexer.StepKeepsInv: does not model the cascade to child indexers, because each child keeps the same invariant over its own notifications.
- BlockChain.BlockChain.InsertBlock: takes the outcome of execution and validation as an input, because the EVM and the header rules are not modelled.
- BlockChain.BlockChain.LoadLastState: ends before reprocessing, which Startup.NewBlockChain adds, and requires a recoverable disk when both blocks are present, because a disk that no run can leave behind is repaired only in part.
- ConfigCompat.CompatibleIff: does not give the Petersburg flag itself, whose exact condition is PetersburgFlags.
- FinalizedReads.FinalizedReadsAreStable: is stated for blocks not above the durable one, because it fails for the others, as StableIffDurable shows.
- Packing.Environment.CommitTransactions: does not say in which order accounts are packed beyond each round's choice, which PackNext states.
- Recovery.StateRecovery.ReprocessBlock: re-execution and validation of an accepted block cannot fail once its parent state opens, because the block passed both when it was inserted and execution is deterministic.
- Recovery.StateRecovery.ReprocessState: leaves out snapshots, because their code is not part of this model.
- ChainIndexer.ChainIndexer.constructor: leaves out an index database whose first sections were set by a checkpoint, because the checkpoint is not stored with it.
- Reservoir.ExpDecaySample.Update: requires a positive reservoir size, because a reservoir of size 0 pops an empty heap.
- Requests.Network.NextRequestID: the message sent to the peer under the id is not modelled, because the sender is outside the repository.
