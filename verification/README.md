# Verified core of a Junkcoin node

Dafny models of the data structures and algorithms at the heart of the node, with proofs of what they promise. Each module follows one component; mutable objects are classes, loops are methods proved against specification functions, and what the component is for is stated as theorems about those functions and about whole runs.

| module | component |
|---|---|
| Coins | the stack of write-back caches over the coin database |
| AddrTables, AddrEffects, AddrMan, AddrCheck, AddrDisk, AddrLoad | the address manager: its tables, operations, self-check and file format |
| CheckQueue | the master and worker queue of script checks, as atomic steps |
| Mempool, Assembler | ancestors in the memory pool, and filling a block from it |
| PartialMerkle, MerkleBlock | partial Merkle trees (BIP 37) |
| AuxPow | checking a merged-mining proof |
| CuckooCache, RollingBloom | the signature cache and the rolling bloom filter |
| Limbs, ArithUint, ArithDivision, Difficulty | 256-bit integers, the compact format, block proof and retarget |
| Chain | skip list, active chain, fork and locator |
| IndexCoding, CompactSlots, BlockEncodings | compact blocks (BIP 152) |
| Base58 | the address encoding |
| NetFraming | message framing and the send queue |
| Common, Arithmetic, Powers, ByteBits, Collisions, MerkleLevels | shared vocabulary |

`dafny verify dfyconfig.toml` checks everything.

## Where the code does not do what it says

Each of these has the exact condition and an input.

- A flush can take the best block back: a cache that was never given one, over a cache that has one of its own (Coins.CoinsViewCache.Flush, Coins.FlushForgets).
- The documented bound of 2N-1 flag bits fails when a match lies under a node with one child (PartialMerkle.DocumentedBitsIff, PartialMerkle.ThreeBreakTheBound).
- Requested transaction indexes wrap after 65535, so an accepted request need not rise (IndexCoding.DecodedIncreasingIff, IndexCoding.WrappedIndexes).
- Announcements of 65537 to 100000 transactions are accepted although slots are 16 bits wide: matches land in wrong slots (CompactSlots.RecordedRightIff, BlockEncodings.MisplacingAnnouncement). With 65536 prefilled transactions the search for a slot does not end (CompactSlots.MapShortIds, BlockEncodings.EndlessAnnouncement).
- Multiplying a 256-bit number by itself in place gives zero (ArithUint.SquareAssign, ArithUint.SquareOfOne).
- The minimal merged-mining proof does not pass for every block hash (AuxPow.MinimalPassesIff, AuxPow.MinimalFailsOnForty, AuxPow.MinimalFailsOnHeader).
- Marking an address good at time zero or before breaks the address manager's own check (AddrTables.GoodKeeps, AddrMan.GoodAtZero). The only caller, src/net.cpp:2475, leaves the time to the clock, so this takes a clock at the epoch.
- A tracked package fee drifts when fees are adjusted: the two updates take off different fees (Assembler.OffFeesIff, Assembler.FeesDrift).
- The epoch of the signature cache is meant to be 45% of its size, but the product wraps in 32 bits: with 2^29 entries, which a cache of 16384 MiB has (src/script/sigcache.h:18), it is 5% (CuckooCache.EpochSizeIff, CuckooCache.EpochWraps).
- ExtractMatches clears the list of matches but not the list of positions (MerkleBlock.PartialMerkleTree.ExtractMatches, MerkleBlock.ExtractTwice).

The comment at src/cuckoocache.h:394-396 says the first displacement uses the first slot; the code uses the second. The model follows the code.

## Model

| member | source | states |
|---|---|---|
| `Coins.TrimKeepsOutputs` | src/coins.h:103-127 | Dropping trailing null outputs loses no available output, leaves a last output that is not null, and leaves nothing exactly for a pruned record |
| `Coins.Cleanup` | src/coins.h:103-127 | Cleaning in place yields the trimmed record and frees a fully spent one |
| `Coins.SpendRemovesOne` | src/coins.cpp:35-42 | Spending an available output removes that output and no other, and empties the record exactly when it was the last one |
| `Coins.Spend` | src/coins.cpp:35-42 | Spending succeeds exactly on an available output and changes nothing otherwise |
| `Coins.AbsorbStep` | src/coins.cpp:188-243 | Writing one child entry into its parent never hits the misapplied-flag error, keeps the flags truthful and gives the parent the child's view of that transaction |
| `Coins.FetchKeepsLevel` | src/coins.cpp:72-88 | Fetching from below, with the FRESH flag for a pruned record, keeps the flags truthful and the view unchanged |
| `Coins.ModifyKeepsLevel` | src/coins.cpp:99-121 | Handing out a record for editing keeps the flags truthful and the view unchanged, and the handed-out record is what the view holds |
| `Coins.NewKeepsLevelIff` | src/coins.cpp:134-153 | The flags set for a new record stay truthful exactly if it is a coinbase, is already cached, or has nothing unspent below (BIP 30) |
| `Coins.ReleaseCommitsIff` | src/coins.cpp:322-334 | Letting go of a record commits its cleaned form exactly unless a FRESH pruned entry is erased over something unspent below; truthful flags stay truthful |
| `Coins.UncacheKeepsView` | src/coins.cpp:252-259 | Dropping an unmodified entry does not change the view |
| `Coins.DbWriteAll` | src/txdb.cpp:47-68 | Writing a batch of entries to the database gives it the view of the cache they came from |
| `Coins.AbsorbAll` | src/coins.cpp:188-243 | Emptying a child map into a parent never throws, keeps the parent's flags truthful and gives it the child's view |
| `Coins.CoinsViewDb.BatchWrite` | src/txdb.cpp:47-68 | The database takes the child's view and keeps its best block when given none |
| `Coins.CoinsViewCache.OverDb` | src/coins.cpp:61 | A new cache shows what the database holds |
| `Coins.CoinsViewCache.OverCache` | src/coins.cpp:61 | A new cache shows what the cache below shows |
| `Coins.CoinsViewCache.FetchCoins` | src/coins.cpp:72-88 | Lazy fetching changes no view and no best block at any level of the stack |
| `Coins.CoinsViewCache.GetCoins` | src/coins.cpp:90-97 | Answers with the record of the view, or nothing or a pruned record for what is absent, and changes no view at any level |
| `Coins.CoinsViewCache.HaveCoins` | src/coins.cpp:164-171 | True exactly for what the view holds, on a stack whose cached records have no trailing null outputs and for a record nobody is editing; otherwise a wrong yes needs a cached record with trailing null outputs |
| `Coins.CoinsViewCache.GetBestBlock` | src/coins.cpp:178-182 | Answers with the nearest best block that is set, and stores it at every level on the way |
| `Coins.CoinsViewCache.SetBestBlock` | src/coins.cpp:184-186 | Changes the best block of this level and nothing else |
| `Coins.CoinsViewCache.BatchWrite` | src/coins.cpp:188-243 | The cache takes the child's view and its raw best block; every level below is unchanged |
| `Coins.CoinsViewCache.Flush` | src/coins.cpp:245-250 | Moves the exact view down one level and empties the cache; the best block survives exactly if it was set here, or the base is the database, or the base cache adds nothing of its own |
| `Coins.BestAfter` | src/coins.cpp:240-250 | On the plain stack: writing down keeps the best block exactly under the condition of Flush |
| `Coins.FlushForgets` | src/coins.cpp:178-250 | A reachable stack of two caches on which a flush takes the best block back to an older one |
| `Coins.CoinsViewCache.Uncache` | src/coins.cpp:252-259 | Drops only an unmodified entry and changes no view at any level |
| `Coins.CoinsViewCache.ModifyCoins` | src/coins.cpp:99-121 | The handle shows the record of the view, and no view changes before it is written to |
| `Coins.CoinsViewCache.ModifyNewCoins` | src/coins.cpp:134-153 | Under BIP 30 the entry becomes empty and everything else is unchanged; it refuses exactly a non-coinbase that has unspent outputs in the view |
| `Coins.CoinsModifier.Commit` | src/coins.cpp:317-334 | Editing and letting go puts the cleaned record into the top view and leaves every other level alone |
| `Coins.CoinsModifier.Release` | src/coins.cpp:322-334 | The destructor commits the cleaned record and ends the modification |
| `Coins.Execute` | src/coins.cpp:72-259 | Each operation on a stack of any depth does to all levels what it does to plain maps, and answers as they do; it leaves no cached record with trailing null outputs |
| `Coins.Run` | src/coins.cpp:72-334 | For every run on a stack of any depth, every level equals a plain map that edits change at the top and a flush copies down; every answer is the plain one (whether a record is there, when no cached record ends in null outputs), and no step throws |
| `Coins.StepsTrimmed` | src/coins.cpp:72-334 | Each change of a level brings in records without trailing null outputs only, or touches the one being edited, which is cleaned when it is let go |
| `Coins.CleanIsTrimmed` | src/coins.h:103-127 | Cleaning leaves no trailing null output, and without them a record is pruned exactly if it has no outputs |
| `Coins.RunNew` | src/coins.cpp:72-334 | From new caches of any depth over a database, every answer of every run is exactly the plain one, including whether something is there |
| `AddrTables.SwapKeepsIndex` | src/addrman.cpp:93-111 | Swapping two random-order places keeps both inverse indexes and changes no entry beyond its place |
| `AddrTables.CreateKeeps` | src/addrman.cpp:81-91 | A new entry keeps the whole invariant except that it is not placed and not counted yet |
| `AddrTables.DeleteKeeps` | src/addrman.cpp:113-125 | Deleting an unreferenced entry keeps the invariant and every other entry |
| `AddrTables.ClearNewKeeps` | src/addrman.cpp:127-140 | Clearing a slot drops one reference, deletes the entry if it was the last, and keeps the invariant |
| `AddrTables.RemoveAll` | src/addrman.cpp:142-157 | Scanning all new buckets takes away every reference of the entry |
| `AddrTables.EvictKeeps` | src/addrman.cpp:160-181 | The entry evicted from the tried table gets one new-table slot, and the invariant survives |
| `AddrTables.MakeTriedKeeps` | src/addrman.cpp:142-188 | Moving an entry to the tried table keeps the invariant, whatever it displaces |
| `AddrTables.GoodKeeps` | src/addrman.cpp:190-240 | Marking an entry good puts it into the tried table and keeps the invariant; the self-check still passes exactly if the address is unknown or the time is positive |
| `AddrTables.InSomeBucket` | src/addrman.cpp:213-233 | An entry outside the tried table is in some new bucket, so the search for its bucket cannot come back empty |
| `AddrTables.PlacedIff` | src/addrman.cpp:294-310 | The entry ends up in the slot its source leads to exactly when that is free or its holder gives way; no other slot changes; it is dropped only without any slot |
| `AddrTables.PlaceKeeps` | src/addrman.cpp:294-310 | Placing keeps everything the self-check looks at |
| `AddrTables.AddKeeps` | src/addrman.cpp:242-313 | Adding keeps everything the self-check looks at, reports new exactly a routable unknown address, and never loses a known one |
| `AddrTables.TouchKnown` | src/addrman.cpp:315-335 | Changing statistics of a known entry passes the self-check exactly if the times stay sane |
| `AddrTables.SampleDistinct` | src/addrman.cpp:462-481 | The sampled entries have different addresses and none is of low quality |
| `AddrTables.SampleWhole` | src/addrman.cpp:462-481 | A sample that ran through all entries offers every good one |
| `AddrEffects.TriedSpread` | src/addrman.cpp:12-17 | All addresses of one group share eight tried buckets |
| `AddrEffects.NewSpread` | src/addrman.cpp:19-26 | All addresses heard of from one group share 64 new buckets; for one group of addresses it is one bucket |
| `AddrEffects.TerribleIff` | src/addrman.cpp:33-52 | Low quality in seconds and counts: not tried in the last minute, and unseen for 30 days, from the future, failed three times without a success, or ten times in a week without one |
| `AddrEffects.GoodStays` | src/addrman.cpp:190-240 | After a success only the time it was last seen can make an entry low quality |
| `AddrEffects.OneFailureCounts` | src/addrman.cpp:315-335 | Between two successes of the node at most one failure of an address counts |
| `AddrEffects.SeenEffect` | src/addrman.cpp:483-501 | A connection moves the seen time forward only, and leaves it at most twenty minutes behind |
| `AddrEffects.PlacedEffect` | src/addrman.cpp:291-312 | Placing loses at most the holder of the slot, and only if it is of low quality and has no other reference; all other records stay |
| `AddrEffects.AddNewEffect` | src/addrman.cpp:242-313 | A new address gets the slot its source leads to, with the announced time less the penalty, exactly if the slot is free or its holder gives way; all other records stay |
| `AddrEffects.AddKnownEffect` | src/addrman.cpp:242-313 | A known address gains services, its time moves forward exactly on fresh enough news, and it gains at most one reference, never beyond eight |
| `AddrEffects.EvictEffect` | src/addrman.cpp:142-188 | What is evicted from the tried table comes back into the new one, at the slot its source leads to |
| `AddrEffects.GoodEffect` | src/addrman.cpp:190-240 | A success resets the attempts and leaves the seen time, the entry holds its own tried slot, the previous holder is back in the new table, and at most one entry is lost |
| `AddrCheck.CheckEntries` | src/addrman.cpp:390-417 | The entry loop reports no error exactly if every entry is sane, and collects the tried ids and the reference counts |
| `AddrCheck.CheckTried` | src/addrman.cpp:424-436 | The tried-table scan succeeds with nothing left exactly if that table holds every tried entry once, in its own slot |
| `AddrCheck.CheckNew` | src/addrman.cpp:438-449 | The new-table scan succeeds with nothing left exactly if every slot is right and every reference count is exact |
| `AddrCheck.PassesIff` | src/addrman.cpp:385-459 | What the check establishes step by step is equivalent to the declarative invariant |
| `AddrCheck.SelfCheck` | src/addrman.cpp:385-459 | The self-check returns zero exactly on the states that satisfy the declarative invariant |
| `AddrMan.AddrMan.constructor` | src/addrman.h:451-476 | A fresh manager satisfies the invariant |
| `AddrMan.AddrMan.MakeTried` | src/addrman.cpp:142-188 | The in-place update is the specified one; its assertions hold |
| `AddrMan.AddrMan.FindBucket` | src/addrman.cpp:213-233 | The search from a random start finds a bucket that holds the entry, so the error branch is dead |
| `AddrMan.AddrMan.Good` | src/addrman.cpp:190-240 | The in-place update is the specified one; the invariant survives exactly for a positive time or an unknown address |
| `AddrMan.GoodAtZero` | src/addrman.cpp:190-240 | In a new manager with one address, marking it good at time zero makes the self-check fail |
| `AddrMan.AddrMan.Add` | src/addrman.cpp:242-313 | For some outcome of the coin toss, the in-place update is the specified one, and the invariant survives |
| `AddrMan.AddrMan.Attempt` | src/addrman.cpp:315-335 | Only the statistics of the known address change; the self-check still passes exactly for a time that is not negative |
| `AddrMan.AddrMan.Connected` | src/addrman.cpp:483-501 | Only the time of the known address changes, and the invariant survives |
| `AddrMan.AddrMan.SetServices` | src/addrman.cpp:503-519 | Only the services of the known address change, and the invariant survives |
| `AddrMan.AddrMan.GetAddr` | src/addrman.cpp:462-481 | No address twice, none of low quality, and only the random order changes; every good entry, or 2500 entries, or 23 percent of all rounded down |
| `AddrMan.Run` | src/addrman.cpp:81-519 | From a fresh manager, the self-check returns zero after every step of every run |
| `AddrDisk.Serialize` | src/addrman.h:296-344 | Every entry is written once, and the buckets by the numbers of their entries |
| `AddrDisk.Unserialize` | src/addrman.h:346-449 | Reading computes the specified state, including its limits, rebuilding and pruning, for every stream; the bucket count is a signed number, and no row follows a negative one |
| `AddrDisk.WithinLimits` | src/addrman.h:366-373 | A consistent manager never writes more entries than the reader accepts |
| `AddrDisk.PruneNothing` | src/addrman.h:434-445 | Pruning deletes nothing when every entry is placed |
| `AddrDisk.RoundTrip` | src/addrman.h:296-449 | Reading back what a consistent manager wrote gives the same manager up to renumbering: same entries, bucket contents, reference counts and counters, nothing dropped; and it is consistent |
| `AddrDisk.SaveAndLoad` | src/addrman.h:296-449 | The two loops together lose nothing |
| `AddrLoad.LoadConsistent` | src/addrman.h:346-449 | Whatever version, bucket count and rows a file has: if no address is in it twice and its counts and times are sane, what is loaded passes the self-check |
| `AddrLoad.PruneCore` | src/addrman.h:433-443 | Pruning drops exactly the entries without a place and restores consistency |
| `AddrLoad.OlderFileKeeps` | src/addrman.h:374-395 | When the rows cannot be used, a peer is kept exactly if it is the first in the file for the slot its own source leads to |
| `CheckQueue.Share` | src/checkqueue.h:105-112 | A worker takes a fair part of the queue, never more than a batch, at least one check, and never more than there are |
| `CheckQueue.AddWakes` | src/checkqueue.h:149-161 | Several new checks leave no worker asleep; one wakes one sleeping worker if there is any |
| `CheckQueue.PoppedSplits` | src/checkqueue.h:110-118 | What is taken and what stays are together what was queued |
| `CheckQueue.StepKeeps` | src/checkqueue.h:69-161 | Every atomic step of every thread keeps the invariant: the counter is queued plus in flight, and the flag says whether a finished check failed. A master's result is true exactly if every check added since the last result is good, and it starts a new session |
| `CheckQueue.RunFaithful` | src/checkqueue.h:69-161 | In every interleaving each result accounts for exactly the checks added since the previous one |
| `CheckQueue.MasterNotStuck` | src/checkqueue.h:83-104 | A waiting master has a pending notification or a worker that can finish |
| `CheckQueue.Progress` | src/checkqueue.h:69-127 | Every step other than a useless wake-up ends the session or decreases a measure |
| `CheckQueue.Drain` | src/checkqueue.h:69-146 | Under every schedule of useful steps, chosen from all steps so far, the wait ends with the right answer |
| `CheckQueue.Queue.Add` | src/checkqueue.h:149-161 | Appends the checks, counts them and notifies; the invariant holds |
| `CheckQueue.Queue.Execute` | src/checkqueue.h:69-161 | Each critical section does the specified step in place |
| `CheckQueue.Evaluate` | src/checkqueue.h:122-126 | A batch is good exactly if it was and every check in it is |
| `CheckQueue.Run` | src/checkqueue.h:69-161 | The object run step by step gives only faithful results |
| `Mempool.CountsLayer` | src/txmempool.h:108-112 | A pool whose ancestor counts are right is acyclic in the sense used here |
| `Mempool.AncLeast` | src/txmempool.cpp:169-229 | The ancestors are the least set closed under parents |
| `Mempool.VirtualSizeCovers` | src/policy/policy.cpp:215-218 | Four times the virtual size covers weight and signature operations, and is at most three more than the larger of them |
| `Mempool.CalculateMemPoolAncestors` | src/txmempool.cpp:169-229 | The work-list walk finds exactly the ancestors |
| `Mempool.CalculateDescendants` | src/txmempool.cpp:481-502 | The work-list walk finds exactly the entry and its descendants |
| `Assembler.Limited` | src/miner.cpp:106-110 | Limits asked for are brought to the nearest value in range |
| `Assembler.CachedCovers` | src/miner.cpp:518-525 | The cached totals cover what a transaction still needs, and are exact, fees included, while no ancestor is in the block |
| `Assembler.UpdatePackagesForAdded` | src/miner.cpp:386-411 | Every descendant outside the added set is tracked with exactly the added ancestors taken off, and nothing else is |
| `Assembler.TrackingKeeps` | src/miner.cpp:386-411 | After a package is added, the tracked totals still cover what is missing, and are exact for entries that did not fail; so are the fees, unless some are adjusted |
| `Assembler.OffFeesIff` | src/miner.h:120-132 | Taking an ancestor off exact fees leaves them exact exactly if the entry is newly tracked or that fee is not adjusted |
| `Assembler.FeesDrift` | src/miner.cpp:386-411 | Two parents, one adjusted by 100: with both in the block their child is taken to pay 100 too much |
| `Assembler.Best` | src/miner.h:76-86 | Picks a tracked entry that no other beats by fee rate |
| `Assembler.FailKeeps` | src/miner.cpp:533-563 | Dropping a failed entry keeps the tracked totals honest, also if it is tracked again later |
| `Assembler.SortForBlock` | src/miner.cpp:430-439 | Sorting by ancestor count keeps the set, without duplicates |
| `Assembler.AncestorsFirst` | src/miner.cpp:430-439 | In that order every ancestor is in the block or earlier in the package |
| `Assembler.NothingRejected` | src/miner.cpp:274-306 | With room for the whole pool and nothing unfit, no package fails a test at any point |
| `Assembler.NothingCheap` | src/miner.cpp:518-523 | If whatever an entry still needs always pays the minimum, no candidate that was not rejected before ends the selection |
| `Assembler.SizesHold` | src/miner.cpp:106-131 | The size limit holds even when sizes are not counted, because no transaction has more bytes than weight |
| `Assembler.BlockAssembler.OnlyUnconfirmed` | src/miner.cpp:261-272 | Leaves exactly what is not in the block |
| `Assembler.BlockAssembler.TestPackageTransactions` | src/miner.cpp:289-306 | Passes exactly if all are final, allowed witnesses and within the size limit together |
| `Assembler.BlockAssembler.AddPackageTxs` | src/miner.cpp:451-578 | Terminates for every pool order, never meets a transaction of the block again, keeps order and limits. The added part is exactly the selected packages, and each paid its minimum fee. Run to the end, whatever is left out failed a test with exactly what it still needed. A low fee ends it only at a candidate whose package pays less than the minimum, and then nothing left pays a better rate. It gives up only with a nearly full block after exactly 1001 different entries in a row were too big |
| `Assembler.BlockAssembler.TestForBlock` | src/miner.cpp:308-358 | Accepts exactly what fits, and says exactly when the block is given up and when a near miss is counted |
| `Assembler.BlockAssembler.AddPriorityTxs` | src/miner.cpp:581-661 | Under any priorities, keeps order and limits and never meets a transaction of the block again. All that enter but perhaps the last have a priority above the threshold. When the heap empties, every entry is in the block, was turned down at some point of the filling, has a disallowed witness or lacks a parent; when a low priority ends the phase, that holds of every entry above the threshold |
| `Assembler.BlockAssembler.CreateNewBlock` | src/miner.cpp:77-131 | For every pool with right ancestor data, all limits and orders: no duplicates, ancestors first, counters and fees equal to the sums, within the limits; nothing is left out without a rejection, and nothing at all if there is room for everything and everything pays |
| `PartialMerkle.WidthCovers` | src/merkleblock.h:66-68 | The tree width is the number of nodes that just covers the leaves |
| `PartialMerkle.CalcHashIsRoot` | src/merkleblock.cpp:61-76 | The recursive hash at the top is the Merkle root by levels |
| `PartialMerkle.NodesDiffer` | src/merkleblock.cpp:116-119 | Without a collision, different nodes of distinct transactions have different hashes |
| `PartialMerkle.ExtractSound` | src/merkleblock.cpp:96-132 | For arbitrary bits and hashes: if the extracted hash is a node's, every extracted match is at its true position, or a collision was hashed |
| `PartialMerkle.ExtractBuilt` | src/merkleblock.cpp:78-132 | Extraction from a built tree recovers the node, uses exactly what was built and finds exactly the matches in order |
| `PartialMerkle.HashesPerLeaf` | src/merkleblock.h:45 | At most one stored hash for every transaction under the node |
| `PartialMerkle.HashesPerMatch` | src/merkleblock.cpp:78-94 | At most one stored hash plus one per match and level |
| `PartialMerkle.DocumentedBitsIff` | src/merkleblock.h:47 | With N stored hashes, the documented bound of 2N-1 bits holds exactly if no match lies under a node with one child |
| `PartialMerkle.ThreeBreakTheBound` | src/merkleblock.h:47 | Three transactions, the last one matched: two hashes and four bits |
| `MerkleBlock.Pack` | src/merkleblock.h:97-104 | Packed bytes hold the bits, least significant first, and zeros after them |
| `MerkleBlock.UnpackPacked` | src/merkleblock.h:88-105 | Unpacking gives the bits back with zero padding |
| `MerkleBlock.PartialMerkleTree.constructor` | src/merkleblock.cpp:134-146 | Building appends exactly the specified bits and hashes of the whole tree |
| `MerkleBlock.PartialMerkleTree.TraverseAndBuild` | src/merkleblock.cpp:78-94 | The recursion appends exactly the specified bits and hashes of the node |
| `MerkleBlock.PartialMerkleTree.TraverseAndExtract` | src/merkleblock.cpp:96-132 | The recursion consumes and finds exactly what is specified, on any input |
| `MerkleBlock.PartialMerkleTree.ExtractMatches` | src/merkleblock.cpp:150-181 | Returns the null hash exactly on the listed failures; the index list is appended to, so it matches the list of matches exactly if it came in empty |
| `MerkleBlock.ExtractTwice` | src/merkleblock.cpp:150-181 | One match extracted twice into the same lists: one match, two positions |
| `MerkleBlock.Verify` | src/merkleblock.cpp:150-181 | If the returned root is the Merkle root of a list of that length, every match is at its position in the list, or a collision was hashed |
| `MerkleBlock.RoundTrip` | src/merkleblock.cpp:78-181 | Build, pack, unpack and extract: for distinct transactions and no collision, the true root and exactly the matches with their positions |
| `AuxPow.CheckMerkleBranch` | src/auxpow.cpp:183-202 | The loop follows the branch to its root |
| `AuxPow.OneStart` | src/auxpow.cpp:183-202 | Branches of one length from one index to one root start at one hash, or a collision was hashed |
| `AuxPow.BranchLeads` | src/auxpow.cpp:185-202 | The siblings of a leaf lead from it to the Merkle root computed level by level |
| `AuxPow.BranchProves` | src/auxpow.cpp:185-202 | A branch of the height of the tree that leads to its root starts at that leaf, or a collision was hashed |
| `AuxPow.IndexWithoutWrap` | src/auxpow.cpp:151-176 | For heights up to 30 the wrapping 32-bit slot is the unbounded one modulo the size |
| `AuxPow.Check` | src/auxpow.cpp:80-149 | Accepts exactly under the declarative conditions, which CoinbaseInParent, BuiltPassesIff, HeaderlessPassesIff and AtMostOneBlock say what they are worth |
| `AuxPow.CoinbaseInParent` | src/auxpow.cpp:99-102 | The coinbase of an accepted proof is the first transaction of the parent block, or a collision was hashed |
| `AuxPow.BuiltPassesIff` | src/auxpow.cpp:80-149 | A proof built from a parent block and a tree of chains passes exactly if it is about the first transaction, that one commits to the chains, the tree has at most 30 levels and the chain ID is allowed |
| `AuxPow.HeaderlessPassesIff` | src/auxpow.cpp:117-134 | Without the header, a root passes exactly if it starts within the first 20 bytes |
| `AuxPow.HeaderFixes` | src/auxpow.cpp:112-146 | A script with the merged-mining header commits to one root, one tree size and one slot |
| `AuxPow.AtMostOneBlock` | src/auxpow.cpp:80-149 | One coinbase script with the header and one chain ID accept at most one block hash, or a collision was hashed |
| `AuxPow.MinimalPassesIff` | src/auxpow.cpp:204-240 | The minimal proof passes exactly unless the parent has the same chain ID under strict checking, the header occurs in the hash, or every byte of the hash is the push opcode 40 |
| `AuxPow.MinimalFailsOnForty` | src/auxpow.cpp:204-240 | The minimal proof for the hash of 32 bytes 40 does not pass |
| `AuxPow.MinimalFailsOnHeader` | src/auxpow.cpp:204-240 | Nor does the one for a hash whose last four bytes are the header backwards |
| `CuckooCache.BitSet` | src/cuckoocache.h:85-95 | Setting a packed flag changes that flag alone |
| `CuckooCache.BitUnset` | src/cuckoocache.h:97-106 | Clearing a packed flag changes that flag alone |
| `CuckooCache.CheckedRoom` | src/cuckoocache.h:264-296 | After the epoch check there is room for one more entry of the newest epoch |
| `CuckooCache.EpochRule` | src/cuckoocache.h:264-297 | Epochs age only when a whole epoch is un-erased; then exactly the newest entries stay kept, and after a second time none; scans are at least a sixteenth of an epoch apart |
| `CuckooCache.EpochSizeIff` | src/cuckoocache.h:324-325 | The epoch is 45% of the size exactly while that percentage is computed without passing 32 bits |
| `CuckooCache.EpochWraps` | src/cuckoocache.h:324-325 | With 2^29 entries the epoch is 5% of the size |
| `CuckooCache.SwapMoves` | src/cuckoocache.h:408-414 | A displacement keeps table plus element in hand, and every element at one of its own slots |
| `CuckooCache.StoredInv` | src/cuckoocache.h:368-416 | After an insertion every element is at one of its slots, at most once unless it is the default element |
| `CuckooCache.NewestWithin` | src/cuckoocache.h:264-296 | Un-erased entries of the newest epoch never pass epoch size plus a sixteenth plus one |
| `CuckooCache.Cache.EpochCheck` | src/cuckoocache.h:264-296 | Counts, ages and re-arms as specified |
| `CuckooCache.Cache.Insert` | src/cuckoocache.h:368-416 | A new element goes along a path of at most depth_limit kept slots, each one of the slots of what is in the hand and not the one just visited, and into the first collectable slot found, or else what is in the hand is dropped; with a collectable slot of its own it is stored there; a known one is refreshed in place |
| `CuckooCache.RoomStores` | src/cuckoocache.h:382-391 | With a collectable slot of its own an element is stored there in the newest epoch, and what leaves the table was collectable |
| `CuckooCache.FoundAfterPut` | src/cuckoocache.h:368-454 | What was there, or found a collectable slot of its own, is found by the next question |
| `CuckooCache.Cache.Contains` | src/cuckoocache.h:443-454 | True exactly if the element is at one of its slots, hence only for the default element or one inserted before; erasing only flags it |
| `CuckooCache.Cache.InsertEraseFind` | src/cuckoocache.h:418-431 | Insert, look up with erasure, look up again: what was found is found again |
| `CuckooCache.Run` | src/cuckoocache.h:264-454 | In every run each step is as specified; only what was put in, or the default element, is found; what is put in before as many operations as it has slots is found by the next question; the newest epoch stays within its bound |
| `RollingBloom.WipeBit` | src/bloom.cpp:262-270 | The mask clears a bit pair exactly if it holds the generation |
| `RollingBloom.Wipe` | src/bloom.cpp:256-271 | Clears exactly the cells of one generation |
| `RollingBloom.MarkOne` | src/bloom.cpp:273-282 | Sets one cell to the generation and no other |
| `RollingBloom.NextGeneration` | src/bloom.cpp:251-271 | A new generation forgets exactly the oldest of the last three |
| `RollingBloom.StillThere` | src/bloom.cpp:249-297 | All cells of every key from the last two full generations and the current one are set |
| `RollingBloom.SetIffRecent` | src/bloom.cpp:249-297 | A cell is set exactly if it belongs to one of those keys: all older ones are forgotten |
| `RollingBloom.RollingBloomFilter.Insert` | src/bloom.cpp:249-277 | The key joins the history and the invariant holds |
| `RollingBloom.RollingBloomFilter.Contains` | src/bloom.cpp:285-297 | True exactly if every cell of the key belongs to one of the keys of the last two generations and the current one; hence for each of the last nElements keys |
| `RollingBloom.InsertAll` | src/bloom.cpp:217-313 | After any insertions each of the last nElements keys is contained |
| `ArithUint.AddAssign` | src/arith_uint256.h:135-145 | Addition modulo the width, also of a number to itself |
| `ArithUint.Negate` | src/arith_uint256.h:77-86 | Negation modulo the width |
| `ArithUint.SubAssign` | src/arith_uint256.h:147-151 | Subtraction modulo the width |
| `ArithUint.Increment` | src/arith_uint256.h:173-180 | Increment modulo the width |
| `ArithUint.MulSmallAssign` | src/arith_uint256.cpp:56-66 | Multiplication by a word modulo the width |
| `ArithUint.MulAssign` | src/arith_uint256.cpp:68-82 | Multiplication modulo the width for two numbers; zero for a number and itself |
| `ArithUint.SquareMultipleIff` | src/arith_uint256.cpp:68-82 | A square is a multiple of the modulus exactly if the number is a multiple of its square root |
| `ArithUint.SquareAssign` | src/arith_uint256.cpp:68-82 | A number multiplied by itself in place becomes zero, which is right exactly if it is a multiple of 2 to the half width |
| `ArithUint.SquareOfOne` | src/arith_uint256.cpp:68-82 | One becomes zero |
| `ArithUint.ShiftLeftAssign` | src/arith_uint256.cpp:22-36 | Multiplication by a power of two modulo the width, for every shift |
| `ArithUint.ShiftRightAssign` | src/arith_uint256.cpp:39-53 | Floor division by a power of two, for every shift |
| `ArithDivision.CompareTo` | src/arith_uint256.cpp:110-119 | The order of the values |
| `ArithDivision.Bits` | src/arith_uint256.cpp:172-184 | The exact bit length |
| `ArithDivision.DivideStep` | src/arith_uint256.cpp:96-103 | One round keeps dividend = quotient part plus remainder and the alignment |
| `ArithDivision.DivAssign` | src/arith_uint256.cpp:84-107 | The exact floor quotient; a zero divisor is an error that leaves zero |
| `Difficulty.OverflowIff` | src/arith_uint256.cpp:204-222 | The overflow flag is set exactly if the unbounded value does not fit 256 bits |
| `Difficulty.SetCompact` | src/arith_uint256.cpp:204-222 | The value modulo 2^256, with exact sign and overflow flags, for every compact number |
| `Difficulty.GetCompact` | src/arith_uint256.cpp:224-245 | The mantissa and size of the value, with the sign bit out of the mantissa |
| `Difficulty.DecodeEncode` | src/arith_uint256.cpp:204-245 | Decoding an encoded value rounds down with relative error below 2^-15 |
| `Difficulty.GetBlockProof` | src/chain.cpp:150-163 | floor(2^256/(target+1)) for every valid target and zero otherwise; never a division by zero |
| `Difficulty.ClampedRange` | src/junkcoin.cpp:38-57 | The clamped timespan is at most four times the target timespan and not negative |
| `Difficulty.ClampedNearest` | src/junkcoin.cpp:38-57 | The timespan used is the measured one between the bounds and the nearer bound otherwise; the bounds are given by inequalities |
| `Difficulty.RetargetFactors` | src/junkcoin.cpp:38-63 | One retarget moves the target at most to 4 times (5/4 by the newer rule), and down to 1/4, 1/8 or 1/16 by height (three times that by the newer rule), up to a whole number; both ends are reached |
| `Difficulty.CalculateNextWorkRequired` | src/junkcoin.cpp:34-70 | The compact form of the retargeted value with its 32-bit and 256-bit truncations; within the limits of the networks, the exact target times the measured timespan held between its bounds, divided and capped, rounded down to a compact number |
| `Difficulty.RetargetExact` | src/junkcoin.cpp:60-69 | Below the stated limits nothing wraps: the value is the minimum of the limit and floor(target*clamped/timespan) |
| `Chain.SkipLower` | src/chain.cpp:100-111 | A skip goes strictly down |
| `Chain.SkipClears` | src/chain.cpp:100-111 | From an even height a skip clears the lowest one bit, from an odd one the two lowest above bit zero |
| `Chain.GetAncestor` | src/chain.cpp:113-137 | Skipping gives the block that walking by parents gives, and null outside the range |
| `Chain.ExtendKeeps` | src/chain.cpp:144-148 | A block added with its skip keeps all skips right |
| `Chain.BlockTree.Add` | src/chain.cpp:144-148 | In every tree grown this way all skips are right |
| `Chain.EarlyExit` | src/chain.cpp:41-51 | A block that is already in place implies that all below it are |
| `Chain.ActiveChain.SetTip` | src/chain.cpp:41-51 | Every height holds the ancestor of the tip, in spite of the early exit |
| `Chain.ActiveChain.NextBuildsOn` | src/chain.h:462-472 | The next block is the one block of the chain that builds on the given one; only the tip and blocks outside the chain have none |
| `Chain.ActiveChain.FindFork` | src/chain.cpp:81-90 | The highest block of the chain that is an ancestor, or null if there is none |
| `Chain.ActiveChain.GetLocator` | src/chain.cpp:53-79 | The entries are the ancestors at the specified heights, to genesis |
| `Chain.LocatorShort` | src/chain.cpp:53-79 | At most 11 entries plus the logarithm of the height plus one |
| `Chain.LocatorFalls` | src/chain.cpp:53-79 | The heights fall strictly |
| `Chain.LocatorEnds` | src/chain.cpp:53-79 | It begins at the start and ends at genesis |
| `IndexCoding.WriteIndexes` | src/blockencodings.h:61-65 | Writes each index as its 64-bit distance past the one before |
| `IndexCoding.ReadIndexes` | src/blockencodings.h:39-60 | Reads the decoded list, and throws exactly if no list of 16-bit indexes decodes |
| `IndexCoding.IndexRoundTripIff` | src/blockencodings.h:38-68 | Strictly increasing lists come back, and for any other list reading throws |
| `IndexCoding.DecodedIncreasingIff` | src/blockencodings.h:53-59 | The decoded list rises exactly if no proper prefix of the differences, each plus one, sums to 65536 |
| `IndexCoding.WrappedIndexes` | src/blockencodings.h:53-59 | The differences 65535, 0 decode to a falling list |
| `CompactSlots.PlacePrefilled` | src/blockencodings.cpp:60-79 | Accepts exactly the announcements with a place for every prefilled transaction, and puts each into its place |
| `CompactSlots.NeverFree` | src/blockencodings.cpp:85-88 | If one cycle of the 16-bit offset meets no free slot, none ever does |
| `CompactSlots.MapShortIds` | src/blockencodings.cpp:85-104 | The search for slots fails to end exactly with 65536 prefilled transactions and a short id; otherwise the map is refused exactly for a repeated short id or an overfull bucket |
| `CompactSlots.RecordedRightIff` | src/blockencodings.cpp:85-104 | The recorded 16-bit slots are the right ones exactly up to 65536 transactions |
| `CompactSlots.LastWrapped` | src/blockencodings.cpp:85-89 | Past that, the last short id is recorded with another slot |
| `CompactSlots.MatchAll` | src/blockencodings.cpp:106-165 | For any recorded map: a slot is as it was, holds something offered for it, or is empty because two were offered; the counter is the number held |
| `BlockEncodings.PartiallyDownloadedBlock.InitData` | src/blockencodings.cpp:50-170 | For every announcement: exactly when it is invalid, does not return, fails or is read; then the slots are as specified |
| `BlockEncodings.SlotsRight` | src/blockencodings.cpp:106-165 | Up to 65536 transactions every slot is empty or holds the transaction of the block, if a matching short id means the same transaction |
| `BlockEncodings.OnlyUnknownLeft` | src/blockencodings.cpp:106-165 | A slot stays empty only if no known transaction has its short id, or two have |
| `BlockEncodings.HighSlotsEmpty` | src/blockencodings.cpp:106-165 | Slots past the first 65536 are never filled |
| `BlockEncodings.LastMisplaced` | src/blockencodings.cpp:85-130 | Past 65536 transactions a match for the last one is put into another slot |
| `BlockEncodings.EndlessAnnouncement` | src/blockencodings.cpp:85-88 | An accepted announcement whose slot search does not end |
| `BlockEncodings.MisplacingAnnouncement` | src/blockencodings.cpp:85-130 | An accepted announcement in which a match takes the slot of the coinbase |
| `BlockEncodings.PartiallyDownloadedBlock.FillBlock` | src/blockencodings.cpp:178-220 | Rejects exactly a wrong number of transactions, otherwise merges them in order and reports the verdict of validation; says what is left of the slots in every case |
| `BlockEncodings.MergedIsBlock` | src/blockencodings.cpp:178-204 | Right slots and the missing transactions in order make the block |
| `BlockEncodings.AnnouncesRight` | src/blockencodings.cpp:20-30 | The announcement prefills the coinbase and lists the other short ids in order |
| `BlockEncodings.Relay` | src/blockencodings.cpp:20-220 | Announce, read, fill and validate: up to 65536 transactions the exact block comes back, unless short ids collide or the table is overfull. Past that it does if no known transaction lands in the slot of a different one, and, unless two of them meet in one slot, only then |
| `BlockEncodings.RebuiltIff` | src/blockencodings.cpp:85-220 | The merged slots are the announced block if no known transaction lands in the slot of a different one; without two matches for one slot, only if so |
| `BlockEncodings.HarmfulSlot` | src/blockencodings.cpp:85-176 | Without two matches for one slot, a match ends up in the slot of its position modulo 65536 |
| `Base58.BuffersSuffice` | src/base58.cpp:31-85 | The 733/1000 and 138/100 buffers hold every number of their length |
| `Base58.OneString` | src/base58.cpp:71-109 | A byte vector has one encoding |
| `Base58.OneVector` | src/base58.cpp:21-69 | A string encodes one byte vector |
| `Base58.MulAdd` | src/base58.cpp:47-55 | The carry loop multiplies and adds; no carry is left, so the assertions hold |
| `Base58.Encode` | src/base58.cpp:71-109 | The string stands for the vector, leading zeros included |
| `Base58.Decode` | src/base58.cpp:21-69 | Accepts exactly letters with surrounding white space, and yields the vector they stand for |
| `Base58.SpaceIff` | src/base58.cpp:23-56 | The six white space characters |
| `Base58.EncodeThenDecode` | src/base58.cpp:21-109 | Decoding an encoding gives the vector back |
| `Base58.DecodeThenEncode` | src/base58.cpp:21-109 | Encoding what was decoded gives the string without surrounding white space |
| `NetFraming.ParseStream` | src/net.cpp:686-736 | A stream of messages parses to those messages |
| `NetFraming.AcceptedIff` | src/net.cpp:700-715 | A message may announce up to four million bytes |
| `NetFraming.Receiver.ReceiveMsgBytes` | src/net.cpp:686-736 | The received list is the parse of all bytes so far, and it fails exactly when they do not parse; complete says whether a message was finished |
| `NetFraming.Deliver` | src/net.cpp:686-811 | However the bytes are cut, the same messages arrive |
| `NetFraming.PrefixParses` | src/net.cpp:686-736 | A prefix of what parses also parses |
| `NetFraming.SendKeeps` | src/net.cpp:830-880 | Sending part of the queue keeps pushed = sent plus queued, and the counters |
| `NetFraming.Sender.SocketSendData` | src/net.cpp:830-880 | Sends from the front, stops at the first short send, empties the queue if the socket takes everything, and keeps the pause flag equal to an overfull queue |
| `NetFraming.Sender.PushMessage` | src/net.cpp:2786-2821 | Queues header and data in order and sends at once only into an empty queue |

## Left out

- CAddrMan::Select_ and GetChance: floating point and termination with probability one.
- CAddrMan::Clear on a used manager, which keeps old entries: only fresh managers are modelled.
- Fee rates in the assembler are compared exactly, where the code multiplies in floating point; ties are broken in any way.
- Assembler.BlockAssembler.AddPriorityTxs: priorities are given real numbers, where the code computes them in floating point; ties are broken in any way.
- Coins.RunNew: the records of the database come without trailing null outputs, because the codec cleans each record it reads (src/coins.h:216).
- cachedCoinsUsage, memory accounting and the coin and script compression codecs.
- Hash functions (SHA-256, MurmurHash, SipHash, scrypt) are arbitrary functions; conclusions hold up to a collision among the pairs hashed.
- Randomness is nondeterministic choice; clocks, sockets and validation verdicts are parameters.
- Integer widths that cannot matter or are not reached: the check queue's counters, heights, 64-bit sums of sizes, and the locator's step are unbounded.
- fQuit of the check queue, which nothing sets.
- Assembler.BlockAssembler.AddPackageTxs: the total of updated descendants, which is only logged, is specified for one update and not for the sum.
- CuckooCache.Cache.constructor: the table size is given as its logarithm, where the code computes that with floating point.
- RollingBloom.RollingBloomFilter.constructor: size and number of hash functions are given, where the code computes them with floating point.
- Blocks are numbers in a map rather than heap nodes, and bucket tables and packed flags are sequences: aliasing between entries is not modelled there.
- BlockEncodings.PartiallyDownloadedBlock.InitData: an object is read into once, so the counter of mempool matches starts at zero; the extra_count statistic is left out; an overfull bucket is a parameter.
- Validation of the rebuilt block: its verdict is a parameter of FillBlock.
- AddrDisk.Unserialize: end-of-stream and other stream errors are one failure.
- Difficulty.CalculateNextWorkRequired: the block index is its height, times and compact target.
- Block subsidies, wallet, scripts, RPC, storage engine, peer management and everything else in the node.
