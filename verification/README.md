# Verified models of a Bitcoin-derived node's core data structures

This project models five parts of the node and proves what they promise.

* **The address manager** (`AddrTypes`, `AddrManSpec`, `AddrManInvariant`, `AddrManOps`, `AddrManRuns`,
  `AddrManOutcomes`, `AddrMan`, `AddrManQueries`, `AddrManCheck`, `AddrManDisk`, `AddrManStore`,
  `AddrManLoaded`, `AddrManLives`, `AddrManRecords`, `AddrManRebucket`, `AddrManMoved`, `AddrManBuckets`,
  `AddrManChance`). A pure specification of every operation, an invariant across its six redundant indexes, what each
  operation does to tables and records, whole histories of public operations with restarts from files in between, files
  that move between nodes, and a class with the manager's own fields and tables whose methods are proved against the
  specification.
* **The parallel check queue** (`CheckQueue`, `CheckQueueProof`, `CheckQueueRuns`, `CheckQueueImpl`). A step relation
  over critical sections with any number of workers, arbitrary interleaving, arbitrary check results and spurious
  wake-ups; safety and termination for all runs; the code of each critical section proved to be one step.
* **The block tree and the active chain** (`Chain`). Skip pointers, ancestors, forks and locators against plain walks
  along predecessors.
* **Wide integers and compact targets** (`Limbs`, `ArithUint`, `Compact`). Limb loops of any width against integer
  arithmetic, the compact encoding, and the work formula.
* **Codecs** (`Bech32Poly`, `Bech32Field`, `Bech32`, `Bech32Code`, `Digits`, `Base58`, `Base58Code`, `CompactBlocks`,
  `CompactBlocksImpl`, `CompactBlocksProof`, `CompactBlocksScans`, `Differences`). Bech32 and Bech32m (BIP 173 and
  BIP 350), Base 58, and the reconstruction of blocks from their compact form (BIP 152).

`Prelude` and `Numbers` hold facts about sets and integers that the proofs share.

What the code calls but does not define is a parameter. Hashes, network groups and address validity are function values
in the record `Env` or arguments; clock readings and random choices are arguments of the operations; the size test of a
hash bucket and the check for a mutated block are arbitrary predicates; iteration orders of hash maps are arbitrary
lists.

Modelling choices worth knowing:

* In the address manager a table slot holds an id or is empty. The specification keeps a map from slots to ids, the
  class keeps the two-dimensional arrays, and `Abs` connects the two.
* Times are integers. A file keeps the time of an address modulo 2^32, as the source stores it. The public operations
  are assumed to meet a positive clock, as the node's clock always is.
* In the check queue `nTodo` is a 32-bit counter. The theorems require that the checks all workers together can hold
  (the number of workers times the larger of 1 and the batch limit) stay below 2^32, which is decided when the queue is
  created and holds for the node's own queue (`NodeFits`); the number of checks in a session is not bounded.
* `CBlockIndex.pprev` and `nHeight` are fixed when a block is created, as the block index fixes them; only `pskip` is
  set later.
* A compact block reaches `InitData` through deserialization, which refuses more than 65535 transactions; `InitData`
  is modelled under that condition.
* `DecodeBase58` looks at its limit only after a `1` or a digit, so a blank string passes any limit, even a negative
  one.
* Bech32 strings are lists of bytes. The two character tables are written as case distinctions.

## Model

| member | source | states |
|---|---|---|
| `AddrMan.AddrManImpl.constructor` | src/addrman.cpp:109-125 | a new manager is empty, its tables hold no id, and the cross-index invariant holds |
| `AddrMan.AddrManImpl.Find` | src/addrman.cpp:401-414 | the id of an address, or none if either map lacks it |
| `AddrMan.AddrManImpl.Create` | src/addrman.cpp:416-430 | the whole state after a record is appended under the next id |
| `AddrMan.AddrManImpl.SwapRandom` | src/addrman.cpp:432-454 | two places of the random order change hands together with the positions in the records |
| `AddrMan.AddrManImpl.Delete` | src/addrman.cpp:456-471 | the whole state after an unreferenced record is dropped through the last place of the random order; its assertions hold |
| `AddrMan.AddrManImpl.ClearNew` | src/addrman.cpp:473-489 | the whole state after a new slot is emptied, the record going with its last reference |
| `AddrMan.AddrManImpl.MakeTried` | src/addrman.cpp:491-548 | the loop over all new buckets, the eviction and the re-insertion give the specified state, and none of the internal assertions fails |
| `AddrMan.AddrManImpl.AddSingle` | src/addrman.cpp:550-624 | the specified state and answer, with the invariant kept |
| `AddrMan.AddrManImpl.Add` | src/addrman.cpp:681-691 | all addresses in order; the answer is whether any was added |
| `AddrMan.AddrManImpl.Good` | src/addrman.cpp:626-679 | the specified state and answer; the invariant is kept, including the collision set when testing before evicting |
| `AddrMan.AddrManImpl.Attempt` | src/addrman.cpp:693-711 | only the record of the address changes, as specified; the invariant is kept |
| `AddrMan.AddrManImpl.Connected` | src/addrman.cpp:877-894 | only the record of the address changes, as specified; the invariant is kept |
| `AddrMan.AddrManImpl.SetServices` | src/addrman.cpp:896-910 | only the record of the address changes, as specified; the invariant is kept |
| `AddrMan.AddrManImpl.GetAddr` | src/addrman.cpp:812-851 | a partial shuffle by the given random numbers; the wanted entries of the shuffled order up to the limit, each once, and all wanted ones when the limit is not reached; the invariant is kept |
| `AddrMan.AddrLimitIs` | src/addrman.cpp:817-824 | the limit is the largest number within the size, the percentage and the maximum |
| `AddrMan.AddrManImpl.ResolveCollisions` | src/addrman.cpp:912-973 | every pending collision is visited once in id order, each with the specified effect; the invariant is kept |
| `AddrMan.AddrManImpl.SelectTriedCollision` | src/addrman.cpp:975-1001 | a stale collision is dropped; otherwise the answer is a real tried entry |
| `AddrManQueries.CountRequested` | src/addrman.cpp:719-737 | the sizes computed from the counters are positive exactly when an entry of a requested network is in that table |
| `AddrManQueries.GetEntry` | src/addrman.cpp:795-810 | the id at a place of either table, or -1 |
| `AddrManQueries.ScanBucket` | src/addrman.cpp:756-777 | one pass around a bucket finds the nearest requested entry, and one at all if and only if the bucket holds one |
| `AddrManQueries.NearestFacts` | src/addrman.cpp:764-777 | no requested entry of the bucket is nearer to the starting position than the one found |
| `AddrManQueries.Search` | src/addrman.cpp:751-792 | the search ends in the first round that lets the entry it comes upon through, with every entry met before raising the chance by a fifth |
| `AddrManQueries.Select` | src/addrman.cpp:713-793 | nothing is returned exactly when no selectable entry exists; otherwise the table is the only possible one or the coin's, the entry found is the first one let through, and an unfinished search has rejected at most 44 entries |
| `AddrManQueries.RejectionsEnd` | src/addrman.cpp:783-792 | a search that meets 45 entries takes one of them, whatever the random bits |
| `AddrManQueries.EntryHasSlot` | src/addrman.cpp:739-777 | the search loop is entered only where some slot of the chosen table can end it |
| `AddrManChance.ChanceRules` | src/addrman.cpp:94-106 | what a recent try and each failure take off the chance of an entry |
| `AddrManChance.NoMoreRejections` | src/addrman.cpp:94-106 | after 44 rejections the next entry is taken for certain |
| `AddrManChance.OneMoreRejection` | src/addrman.cpp:94-106 | and 43 are not enough |
| `AddrManInvariant.CountsMove` | src/addrman.cpp:1154-1163 | moving one entry moves exactly its counters, total and per network |
| `AddrManInvariant.CreateKeeps` | src/addrman.cpp:416-430 | creating an entry keeps the invariant up to its missing first slot |
| `AddrManInvariant.SwapRandomKeeps` | src/addrman.cpp:432-454 | swapping places keeps the invariant |
| `AddrManInvariant.DeleteKeeps` | src/addrman.cpp:456-471 | deleting an unreferenced entry restores the invariant |
| `AddrManInvariant.ClearNewKeeps` | src/addrman.cpp:473-489 | clearing a slot keeps the invariant |
| `AddrManInvariant.LeaveNewKeeps` | src/addrman.cpp:495-509 | taking an entry out of all its new slots keeps the invariant with that entry floating |
| `AddrManInvariant.LeaveTriedKeeps` | src/addrman.cpp:516-526 | taking an entry out of its tried slot keeps the invariant with that entry floating |
| `AddrManInvariant.ReturnToNewKeeps` | src/addrman.cpp:528-538 | putting a floating entry back into the new table settles it |
| `AddrManInvariant.EnterTriedKeeps` | src/addrman.cpp:542-547 | putting a floating entry into its tried slot settles it |
| `AddrManOps.MakeTriedKeeps` | src/addrman.cpp:491-548 | the invariant survives the whole move, and only the moved entry becomes tried |
| `AddrManOps.AddSingleKeeps` | src/addrman.cpp:550-624 | the invariant survives creating, overwriting and rolling back |
| `AddrManOps.GoodKeeps` | src/addrman.cpp:626-679 | the invariant and the collision set survive, and occupied tried slots stay occupied |
| `AddrManOps.ResolveKeeps` | src/addrman.cpp:912-973 | the invariant and the collision set survive any order of visits |
| `AddrManOps.SelectCollisionKeeps` | src/addrman.cpp:975-1001 | dropping a stale collision keeps the invariant; a live one leads to a tried entry |
| `AddrManRuns.ApplyKeeps` | src/addrman.cpp:1177-1261 | every public operation keeps the invariant and undoes nothing that later states owe earlier ones |
| `AddrManRuns.RunKeeps` | src/addrman.cpp:1063-1166 | so does every sequence of public operations |
| `AddrManRuns.ReachableValid` | src/addrman.cpp:1063-1166 | from the constructor on, every reachable state satisfies the cross-index invariant and stores only routable addresses |
| `AddrManRuns.HistoryNeverUndone` | src/addrman.cpp:975-1001 | between any two moments of a history, from any valid manager on, new or loaded, an occupied tried slot stays occupied and an id never comes to name another address |
| `AddrManRuns.DrawnCollisionIsTried` | src/addrman.cpp:975-1001 | in every state of such a history there are at most 10 collisions, and a live one always leads to a real tried entry |
| `AddrManOutcomes.ClearNewLoses` | src/addrman.cpp:473-489 | an entry leaves the manager exactly when its only slot is cleared |
| `AddrManOutcomes.MakeTriedOutcome` | src/addrman.cpp:491-548 | both tables after a move to tried, where the evicted entry goes, and which single further entry may be lost |
| `AddrManOutcomes.GoodOutcome` | src/addrman.cpp:626-679 | exactly when an entry moves, what the tables are then, and that they stay otherwise |
| `AddrManOutcomes.ResolveOutcome` | src/addrman.cpp:912-973 | a collision stays pending exactly while it is undecided, and the newcomer takes the slot exactly when the tried entry was not reached recently and waiting is over |
| `AddrManOutcomes.AddSingleOutcome` | src/addrman.cpp:550-624 | an added address takes exactly its new slot; one that is not added leaves tables, entries and counts as they were |
| `AddrManOutcomes.ClaimOutcome` | src/addrman.cpp:599-623 | a slot is claimed for the entry, or a fresh entry is rolled back and a known one left alone |
| `AddrManRecords.MakeTriedRemembers` | src/addrman.cpp:491-548 | a move to tried forgets nothing: the moved entry, the one it evicts and all others keep address, source and statistics |
| `AddrManRecords.GoodRecords` | src/addrman.cpp:626-679 | only the entry's own success is recorded, every other surviving entry is remembered as before, and no more entries are lost than by the move |
| `AddrManRecords.ResolveRecords` | src/addrman.cpp:912-973 | a collision decided for the newcomer counts as its success and leaves the tables of the move; any other decision changes nothing but the collision set, and none touches another collision |
| `AddrManRecords.AttemptRecords` | src/addrman.cpp:693-711 | an attempt is dated, and a failure counts exactly if it is to count and none was counted since the last success of any entry |
| `AddrManRecords.FailuresCountOnce` | src/addrman.cpp:693-711 | however often an address is tried without any success in between, at most one failure is counted |
| `AddrManRecords.FirstFailureCounts` | src/addrman_impl.h:213-215 | in a new manager the first failure of an entry counts |
| `AddrManRecords.ConnectedRecords` | src/addrman.cpp:877-894 | only the stored time changes, and only if it is more than twenty minutes behind |
| `AddrManRecords.SetServicesRecords` | src/addrman.cpp:896-910 | the services are those last set, and nothing else changes |
| `AddrManRecords.TerribleRules` | src/addrman.cpp:69-92 | when an entry may be overwritten, in minutes, days and failures |
| `AddrManRecords.AddSingleDecides` | src/addrman.cpp:550-624 | exactly when an address is added, for unknown and for known addresses |
| `AddrManRecords.AddUnknownRecords` | src/addrman.cpp:594-623 | an added unknown address is found under the next id with its source, services and reduced time and without history; one entry at most is displaced, and no other is touched |
| `AddrManRecords.AddKnownRecords` | src/addrman.cpp:564-592 | a known address gains services and, if it was far behind, the reduced time; its history and all other entries stay |
| `AddrManRecords.AddTogether` | src/addrman.cpp:681-691 | adding two lists one after the other is adding them together |
| `AddrManRecords.ResolveTogether` | src/addrman.cpp:912-973 | resolving collisions in two goes is resolving them in one |
| `AddrManRecords.ShuffleDraws` | src/addrman.cpp:826-836 | the entry drawn in a round, from the places not drawn before, stands at that round's place ever after, and none is lost |
| `AddrManBuckets.GroupBuckets` | src/addrman.h:77-79 | addresses of one group are spread over at most 8 tried buckets |
| `AddrManBuckets.SourceBuckets` | src/addrman.h:68-70 | what sources of one group announce goes to at most 64 new buckets, and to one bucket for one group of addresses |
| `AddrManBuckets.GroupShare` | src/addrman.h:63-79 | in every valid manager one group holds at most 512 of the 16384 tried slots |
| `AddrManBuckets.SourceShare` | src/addrman.h:63-71 | sources of one group can reach at most 4096 of the 65536 new slots |
| `AddrManBuckets.EntryShare` | src/addrman.h:72-73 | an entry holds one to eight new slots, or exactly one tried slot and no new one |
| `AddrManBuckets.PositionDepends` | src/addrman.cpp:63-67 | the position in a bucket depends on the key, the table, the bucket and the whole address |
| `AddrManBuckets.TriedBucketDepends` | src/addrman.cpp:48-53 | the tried bucket depends on the key and on the whole address, even within a group |
| `AddrManBuckets.NewBucketDepends` | src/addrman.cpp:55-61 | the new bucket depends on the key |
| `AddrTypes.NetworkClass` | src/netaddress.cpp:674-690 | the class is IPv6 only for IPv6 addresses, and IPv4 exactly for those that are or lead to an IPv4 peer |
| `AddrManCheck.ConsistentPasses` | src/addrman.cpp:1063-1166 | the invariant implies every condition of the consistency check |
| `AddrManCheck.CheckRecords` | src/addrman.cpp:1077-1108 | the loop over the records returns no error exactly when records, address map and random order agree |
| `AddrManCheck.CheckTriedTable` | src/addrman.cpp:1115-1130 | the sweep of the tried table returns no error exactly when every slot and every tried entry match |
| `AddrManCheck.CheckNewTable` | src/addrman.cpp:1132-1145 | the sweep of the new table returns no error exactly when positions match and references are exact |
| `AddrManCheck.CheckCounts` | src/addrman.cpp:1154-1163 | the per-network counters pass exactly when they equal the recounted ones |
| `AddrManCheck.CheckAddrman` | src/addrman.cpp:1063-1166 | the check returns 0 if and only if all of its conditions hold |
| `AddrManLives.EveryHistoryPasses` | src/addrman.cpp:1063-1166 | after every history of public operations the check passes |
| `AddrManStore.Serialize` | src/addrman.cpp:133-228 | the written file is the specified one, with the bucket lists in table order |
| `AddrManStore.WriteRecords` | src/addrman.cpp:191-210 | one table's records in iteration order, with their indexes |
| `AddrManStore.ReadNew` | src/addrman.cpp:282-291 | the new records become entries 0 and up |
| `AddrManStore.ReadTried` | src/addrman.cpp:293-314 | each tried record takes its slot or is counted as lost |
| `AddrManStore.PutBack` | src/addrman.cpp:348-377 | an entry goes back to its old slot, or to its home slot, or nowhere |
| `AddrManStore.PruneAll` | src/addrman.cpp:379-388 | every entry is visited once and those without any slot are removed; its assertions hold |
| `AddrManStore.Unserialize` | src/addrman.cpp:231-399 | loading any file gives the specified error or state, no internal assertion fails, every entry is visited when pruning, and a manager that was loaded satisfies the cross-index invariant |
| `AddrManDisk.LoadNewIs` | src/addrman.cpp:282-291 | reading back the new records rebuilds those entries under renamed ids |
| `AddrManDisk.LoadTriedIs` | src/addrman.cpp:293-314 | reading back the tried records loses none |
| `AddrManDisk.RestoreIs` | src/addrman.cpp:348-377 | reading back the bucket lists rebuilds the new table slot by slot |
| `AddrManDisk.CopyConsistent` | src/addrman.cpp:1063-1166 | renaming ids and rebuilding references keeps the invariant |
| `AddrManDisk.RoundTrip` | src/addrman.cpp:133-399 | a consistent manager with valid addresses is restored by loading what it saved: tables slot by slot, references, counts and entries, up to renaming of ids and with the time of an address in 32 bits |
| `AddrManLoaded.LoadTidy` | src/addrman.cpp:282-377 | whatever a file holds, loading keeps the random order, the per-network counters, the address map and the range of ids sound |
| `AddrManLoaded.CheckedIsValid` | src/addrman.cpp:1063-1166 | a state with those properties that passes the consistency check satisfies the whole cross-index invariant |
| `AddrManLoaded.LoadedIsValid` | src/addrman.cpp:231-399 | every file that is accepted, however it came about, gives a manager that satisfies the cross-index invariant |
| `AddrManRebucket.TriedOfFile` | src/addrman.cpp:293-314 | for any file, a tried slot is occupied exactly if a tried record with a valid address belongs there |
| `AddrManRebucket.TriedWinner` | src/addrman.cpp:293-314 | and it is held by the first such record, with all that is stored of it |
| `AddrManRebucket.HomesFilled` | src/addrman.cpp:348-377 | when bucketing is not restored, a new slot is filled exactly if a listed entry with a valid address has its home there |
| `AddrManRebucket.HomeGoesToFirst` | src/addrman.cpp:348-377 | and the first such entry holds it |
| `AddrManRebucket.ListedSurvives` | src/addrman.cpp:348-388 | for any file, a listed new record with a valid address survives unless other entries hold its home slot and, if bucketing is restored, the slot it was listed for |
| `AddrManRebucket.RebucketedHome` | src/addrman.cpp:366-377 | when bucketing is not restored, a new record survives exactly if it holds its home slot, and it holds no other |
| `AddrManRebucket.InvalidDropped` | src/addrman.cpp:352-354 | a new record whose address is not valid is dropped |
| `AddrManRebucket.PruneEffect` | src/addrman.cpp:379-388 | pruning removes exactly the new entries without a slot |
| `AddrManMoved.SaneFileLoads` | src/addrman.cpp:231-399 | every file whose records have distinct addresses and possible times is accepted, whatever the grouping |
| `AddrManMoved.OwnFileLoadsAnywhere` | src/addrman.cpp:133-399 | a manager's own file is accepted by a node that groups addresses in any other way, and gives a valid manager |
| `AddrManMoved.NewEntryMoves` | src/addrman.cpp:348-388 | across two nodes a new entry is lost only with an address that is not valid there or to another entry in its home slot |
| `AddrManMoved.TriedEntryMoves` | src/addrman.cpp:293-314 | across two nodes a tried entry comes back unless an earlier tried record has its slot |
| `AddrManMoved.HeaderRules` | src/addrman.cpp:238-281 | which headers are refused, and as what |
| `AddrManMoved.OwnHeader` | src/addrman.cpp:133-189 | the header a manager writes: format 4, readable from format 4 on, 1024 buckets, its key and its counts |
| `AddrManMoved.BucketingRule` | src/addrman.cpp:262-266 | buckets are restored exactly for 1024 buckets and an unchanged grouping |
| `AddrManLives.EveryLifePasses` | src/addrman.cpp:231-399 | through any operations and any restarts from accepted files the manager satisfies the invariant and passes its own check |
| `AddrManLives.RestartKeepsEverything` | src/addrman.cpp:133-399 | a valid manager with routable addresses accepts its own file, in whatever order it was written, and comes back complete |
| `AddrManLives.OwnLifeKeeps` | src/addrman.cpp:133-399 | in a life whose restarts load the manager's own file every restart succeeds, only routable addresses are stored, the key stays, and an occupied tried slot stays occupied across restarts as well |
| `CheckQueue.BatchBound` | src/checkqueue.h:121-124 | a batch has at least 1 element and at most the queue's and the batch limit's |
| `CheckQueue.BatchIsLargest` | src/checkqueue.h:116-121 | a batch of two or more is the largest within the limit and an equal share of the queue |
| `CheckQueue.NoWorkAfterError` | src/checkqueue.h:126-129 | a batch taken after an error was recorded is not run; any other is |
| `CheckQueueImpl.CCheckQueue.Add` | src/checkqueue.h:172-190 | the locked half of adding checks, and which notification follows |
| `CheckQueueImpl.CCheckQueue.CleanUp` | src/checkqueue.h:84-96 | handing over an error, subtracting the batch, and that the master is notified exactly when a worker has brought nTodo to zero |
| `CheckQueueImpl.CCheckQueue.Choose` | src/checkqueue.h:98-126 | returning, waiting or taking a batch, as the step relation says |
| `CheckQueueImpl.CCheckQueue.BetweenBatches` | src/checkqueue.h:81-127 | the critical section between batches is one step of the protocol, with the master notified exactly when a worker has brought nTodo to zero |
| `CheckQueueImpl.CCheckQueue.FirstSection` | src/checkqueue.h:81-127 | the first critical section of a thread is one step of the protocol |
| `CheckQueueImpl.CCheckQueue.AfterWait` | src/checkqueue.h:106-127 | what follows a wait is one step of the protocol |
| `CheckQueueImpl.RunBatch` | src/checkqueue.h:128-134 | a batch runs check by check up to the first failure, and not at all when no work is needed |
| `CheckQueueProof.PushKeeps` | src/checkqueue.h:172-190 | adding checks keeps the protocol's invariant |
| `CheckQueueProof.RunCheckKeeps` | src/checkqueue.h:129-133 | running a check keeps it, whatever the check returns |
| `CheckQueueProof.SettleKeeps` | src/checkqueue.h:84-93 | the clean-up keeps it: no stale result is handed over, and the last batch signals the master |
| `CheckQueueProof.DecideKeeps` | src/checkqueue.h:98-126 | the decision keeps it |
| `CheckQueueProof.TodoExact` | src/checkqueue.h:94-101 | with an empty queue and an idle master nTodo is exactly what the workers hold |
| `CheckQueueProof.AllSettled` | src/checkqueue.h:98-105 | when the master returns, no thread holds a check |
| `CheckQueueProof.ReturnIsRight` | src/checkqueue.h:98-105 | the value returned is right for the session it ends |
| `CheckQueueRuns.StepsDefined` | src/checkqueue.h:106-121 | in every reachable state the divisor of the batch size is positive |
| `CheckQueueRuns.RunKeeps` | src/checkqueue.h:72-137 | every state of every interleaving satisfies the invariant |
| `CheckQueueRuns.NodeFits` | src/validation.cpp:8971 | the node's own queue, with batches of 128 and at most 15 workers, meets the condition of the theorems about runs |
| `CheckQueueRuns.CompleteIsRight` | src/checkqueue.h:72-137 | in every run, Complete returns nothing exactly when all checks of its session were executed and none failed, and otherwise an error of a check of that session |
| `CheckQueueRuns.TodoIsAccurate` | src/checkqueue.h:81-127 | in every reachable state nTodo counts the queued checks and those taken but not subtracted |
| `CheckQueueRuns.MasterIsNeverForgotten` | src/checkqueue.h:88-108 | a master blocked in wait has an empty queue and either a notification or busy workers that hold all of nTodo |
| `CheckQueueRuns.NoDeadlock` | src/checkqueue.h:72-137 | while Complete has not returned, some thread can go on without a spurious wake-up |
| `CheckQueueRuns.StepsEnd` | src/checkqueue.h:72-137 | every step that changes anything takes work away until Complete returns |
| `CheckQueueRuns.CompleteEnds` | src/checkqueue.h:72-137 | so a session has a bounded number of such steps |
| `Chain.LowestOneCleared` | src/chain.cpp:69-70 | n & (n - 1) clears exactly the lowest set bit |
| `Chain.SkipOfEven` | src/chain.cpp:72-81 | an even height skips to the height without its lowest one |
| `Chain.SkipOfOdd` | src/chain.cpp:72-81 | an odd height skips to the height without its two lowest ones above the last bit |
| `Chain.SkipAfterPower` | src/chain.cpp:72-81 | or to 1 if there is only one such bit |
| `Chain.SkipHeightBelow` | src/chain.cpp:72-81 | a skip height is below the height and not negative |
| `Chain.CBlockIndex.constructor` | src/chain.h:113-126 | a new block has its predecessor, the next height and no skip pointer |
| `Chain.CBlockIndex.GetAncestor` | src/chain.cpp:83-108 | null exactly when the height is out of range, and otherwise the block that following pprev reaches |
| `Chain.CBlockIndex.BuildSkip` | src/chain.cpp:115-119 | the skip pointer becomes the ancestor at the skip height, and all skip pointers of the tree stay right |
| `Chain.AddBlock` | src/node/blockstorage.cpp:451-458 | a tree whose skip pointers are all built grows into another one |
| `Chain.LastCommonAncestor` | src/chain.cpp:155-178 | terminates without a null dereference at a common ancestor above which the two branches differ |
| `Chain.ForkIsHighest` | src/chain.cpp:153-178 | that block is the highest common ancestor |
| `Chain.CChain.SetTip` | src/chain.cpp:16-24 | the early-stopping update leaves the complete ancestry of the new tip |
| `Chain.CChain.FindFork` | src/chain.cpp:50-59 | the highest block of the chain that is an ancestor of the argument, or null if none is |
| `Chain.LocatorEntries` | src/chain.cpp:26-43 | from the block back to genesis, by single steps and then by doubling ones |
| `Chain.LocatorHeights` | src/chain.cpp:33-41 | the exact height of every entry of a locator |
| `Chain.LocatorStepFits` | src/chain.cpp:28-41 | the doubling step fits a signed 32-bit integer if and only if the height is at most 2^30 + 9 |
| `Chain.LocatorIsShort` | src/chain.cpp:33-41 | a locator has at most 12 entries and one more for each bit of the height |
| `ArithUint.BaseUint.Assign` | src/arith_uint256.h:70-77 | the value of a 64-bit number |
| `ArithUint.BaseUint.Not` | src/arith_uint256.h:51-57 | the value subtracted from the largest one |
| `ArithUint.BaseUint.Negate` | src/arith_uint256.h:59-66 | the negative, modulo the width |
| `ArithUint.BaseUint.Increment` | src/arith_uint256.h:155-162 | one more, modulo the width |
| `ArithUint.BaseUint.Decrement` | src/arith_uint256.h:172-179 | one less, modulo the width |
| `ArithUint.BaseUint.Add` | src/arith_uint256.h:117-127 | the sum, modulo the width, with no 64-bit overflow; the operands may be the same object |
| `ArithUint.BaseUint.Subtract` | src/arith_uint256.h:129-133 | the difference, modulo the width |
| `ArithUint.BaseUint.MultiplyWord` | src/arith_uint256.cpp:47-57 | the product with a word, modulo the width, with no 64-bit overflow |
| `ArithUint.BaseUint.AddRow` | src/arith_uint256.cpp:64-69 | one row of the product, exactly, with its last carry |
| `ArithUint.BaseUint.Multiply` | src/arith_uint256.cpp:59-73 | the product, modulo the width, with no 64-bit overflow |
| `ArithUint.BaseUint.ShiftLeft` | src/arith_uint256.cpp:13-28 | the product with a power of two, modulo the width, for any shift |
| `ArithUint.BaseUint.ShiftRight` | src/arith_uint256.cpp:30-45 | the quotient by a power of two, for any shift |
| `ArithUint.BaseUint.Divide` | src/arith_uint256.cpp:75-99 | the floor quotient, with the remainder left over; division by zero is reported and leaves zero |
| `ArithUint.BaseUint.CompareTo` | src/arith_uint256.cpp:101-111 | the order of the values |
| `ArithUint.BaseUint.EqualTo` | src/arith_uint256.cpp:113-125 | equality with a 64-bit number |
| `ArithUint.BaseUint.Bits` | src/arith_uint256.cpp:155-168 | the number of significant bits |
| `Compact.GetLow64` | src/arith_uint256.h:222-226 | the value modulo 2^64 |
| `Compact.SetCompact` | src/arith_uint256.cpp:175-193 | the value modulo 2^256; the overflow flag exactly when the magnitude is at least 2^256; the sign flag exactly for a non-zero mantissa with the sign bit |
| `Compact.MagnitudeIs` | src/arith_uint256.h:238-256 | the value is the mantissa times 256 to the exponent less three, rounded down |
| `Compact.CompactSign` | src/arith_uint256.cpp:213-216 | the sign bit is set exactly for a negative number with a non-zero mantissa |
| `Compact.GetCompact` | src/arith_uint256.cpp:195-216 | the compact word of the value; its assertions hold |
| `Compact.CompactRoundTrip` | src/arith_uint256.cpp:175-216 | every positive 256-bit number encodes to a word that decodes without flags to at most it, short by less than one part in 2^15, and re-encodes to itself |
| `Compact.GetBitsProof` | src/chain.cpp:121-134 | 2^256 divided by the target plus one, or 0 for a negative, overflowing or zero target, with no wrap-around |
| `Compact.WorkAntitone` | src/chain.cpp:121-134 | a larger target never stands for more work |
| `CompactBlocks.MakeCompact` | src/blockencodings.cpp:20-33 | the short form of a block: the first transaction in full, the others as short ids in order |
| `CompactBlocks.PositionsDecode` | src/blockencodings.cpp:71-87 | the places a receiver computes are those whose differences the message carries |
| `CompactBlocks.PositionIs` | src/blockencodings.cpp:71-87 | a transaction prefilled at any place is put there |
| `CompactBlocks.PlacedFree` | src/blockencodings.cpp:72-88 | as many slots stay free as there are short ids |
| `CompactBlocksImpl.PartiallyDownloadedBlock.Prefill` | src/blockencodings.cpp:72-88 | the prefilled transactions are placed at their accumulated positions, up to the first bad one |
| `CompactBlocksImpl.PartiallyDownloadedBlock.MapShortIds` | src/blockencodings.cpp:94-116 | the k-th short id maps to the k-th free slot, the scan stays in the array, and it fails exactly for repeated ids or a crowded bucket |
| `CompactBlocksImpl.PartiallyDownloadedBlock.SkipFilled` | src/blockencodings.cpp:97-98 | the next free slot, which exists |
| `CompactBlocksImpl.PartiallyDownloadedBlock.ScanPool` | src/blockencodings.cpp:118-145 | first matches fill, second matches clear, and the scan stops when all are matched |
| `CompactBlocksImpl.PartiallyDownloadedBlock.ScanExtra` | src/blockencodings.cpp:147-176 | the same for extra transactions, except that the same transaction again changes nothing |
| `CompactBlocksImpl.PartiallyDownloadedBlock.InitData` | src/blockencodings.cpp:59-181 | the status, and the slots for each status |
| `CompactBlocksImpl.PartiallyDownloadedBlock.FillBlock` | src/blockencodings.cpp:191-237 | the assembled block and status, and that the object is spent; too few transactions are refused |
| `CompactBlocksProof.OwnIdMap` | src/blockencodings.cpp:94-116 | in a compact form with any transactions prefilled the short id of every other transaction leads to its slot |
| `CompactBlocksProof.FirstPrefilled` | src/blockencodings.cpp:20-33 | the form that the sender makes is one with its first transaction prefilled |
| `CompactBlocksProof.OwnAccepted` | src/blockencodings.cpp:72-88 | no compact form of a block is refused for its prefilled transactions, whichever they are |
| `CompactBlocksProof.AssembledBack` | src/blockencodings.cpp:198-208 | slots that fit a block, with exactly the missing transactions in order, give the block |
| `CompactBlocksProof.Reassembles` | src/blockencodings.cpp:59-237 | with unambiguous short ids, an accepted compact form with any transactions prefilled and exactly the missing ones give the block back |
| `CompactBlocksProof.AvailableIffKnown` | src/blockencodings.cpp:118-176 | a place is available exactly when it is prefilled or its transaction is in the pool or among the extra ones |
| `CompactBlocksScans.ReceivedExactly` | src/blockencodings.cpp:118-176 | for any pool and extra transactions, what stands in every slot: the only match of its short id, nothing after a second one of the pool or a different extra one; a scan stops early only when every short id is matched |
| `Differences.Write` | src/blockencodings.h:23-34 | writing element by element succeeds exactly for strictly rising lists, and gives their gaps |
| `Differences.Read` | src/blockencodings.h:35-43 | reading element by element gives the accumulated list or an exception, and a list that was read has exactly these gaps |
| `Differences.WritableIffRising` | src/blockencodings.h:23-43 | exactly the strictly rising lists can be written |
| `Differences.ReadsBack` | src/blockencodings.h:23-43 | what was written reads back as it was if no gap exceeds the 0x02000000 that ReadCompactSize allows, and is refused otherwise; every list of 16-bit values qualifies |
| `Differences.WritesBack` | src/blockencodings.h:23-43 | what was read is strictly rising and writes back to the same numbers |
| `Bech32Poly.ComputePolyMod` | src/bech32.cpp:130-216 | the loop computes the remainder |
| `Bech32Field.FeedbackIsMultiple` | src/bech32.cpp:137-176 | the five words hold the multiples of the generator x^6 + 29 x^5 + 22 x^4 + 20 x^3 + 21 x^2 + 29 x + 18 over GF(32), for all 32 factors |
| `Bech32Field.StepDivides` | src/bech32.cpp:177-214 | a round is one step of polynomial division over GF(32) |
| `Bech32Field.PolyModDivides` | src/bech32.cpp:130-216 | PolyMod is the remainder: the polynomial of the values is a multiple of the generator plus it |
| `Bech32Poly.StepLinear` | src/bech32.cpp:177-214 | a round is linear in remainder and value |
| `Bech32Poly.StepInjective` | src/bech32.cpp:177-214 | a round is one-to-one on 30-bit remainders |
| `Bech32Poly.CorruptionChangesPolyMod` | src/bech32.cpp:130-216 | lists that differ only inside a window of six consecutive places have different remainders |
| `Bech32Poly.ChecksumWorks` | src/bech32.cpp:342-353 | the checksum values make the remainder the wanted constant |
| `Bech32Poly.ChecksumUnique` | src/bech32.cpp:342-353 | no other six values do |
| `Bech32.CharReads` | src/bech32.cpp:22-35 | the two character tables undo each other on values |
| `Bech32.ReadChars` | src/bech32.cpp:22-35 | and on characters, up to case |
| `Bech32.ChecksumVerifies` | src/bech32.cpp:326-353 | a created checksum verifies under its own encoding |
| `Bech32.CorruptionDetected` | src/bech32.cpp:326-339 | values corrupted inside a window of six never verify under the same encoding |
| `Bech32.DecodesBack` | src/bech32.cpp:357-400 | an encoded string decodes to its encoding, human-readable part and values exactly when that part is non-empty and printable and the string is within the limit |
| `Bech32.EncodesBack` | src/bech32.cpp:357-400 | every string that decodes is, up to case, the encoding of what it decodes to |
| `Bech32.DecodesExactly` | src/bech32.cpp:373-400 | a string decodes to something if and only if its characters are in order, it is short enough and, in small letters, it is the encoding of that |
| `Bech32.CaseDoesNotMatter` | src/bech32.cpp:373-400 | capitals decode like small letters |
| `Bech32.CharsetIs` | src/bech32.cpp:22-23 | the character of a value is the one at its place of the table |
| `Bech32Code.CheckCharacters` | src/bech32.cpp:286-309 | accepts exactly the printable strings of one case, and lists the bad places in order |
| `Bech32Code.PreparePolynomialCoefficients` | src/bech32.cpp:311-324 | the high bits of the human-readable part, a zero, its low bits and the values |
| `Bech32Code.VerifyChecksum` | src/bech32.cpp:326-339 | Bech32 exactly for remainder 1 and Bech32m exactly for remainder 0x2bc830a3 |
| `Bech32Code.CreateChecksum` | src/bech32.cpp:341-353 | six values that bring the remainder to 1 for Bech32 and 0x2bc830a3 for Bech32m |
| `Bech32Code.Encode` | src/bech32.cpp:357-371 | the specified string |
| `Bech32Code.Decode` | src/bech32.cpp:373-400 | the specified result, for every string |
| `Digits.EncodedSize` | src/base58.cpp:98-100 | the 138/100 buffer holds every byte string's digits |
| `Digits.DecodedSize` | src/base58.cpp:53-55 | the 733/1000 buffer holds every digit string's bytes |
| `Base58Code.MulAdd` | src/base58.cpp:103-113 | the in-place carry loop multiplies and adds, its length stays minimal, and the carry ends at zero |
| `Base58Code.EncodeBase58` | src/base58.cpp:89-127 | the specified string; the carry assertion holds |
| `Base58Code.DecodeBase58` | src/base58.cpp:40-87 | the specified result or refusal, for every string and limit; the carry assertion holds |
| `Base58Code.NoRoom` | src/base58.cpp:40-87 | with a limit of zero or below, exactly the blank strings are accepted, with an empty result |
| `Base58.DecodesBack` | src/base58.cpp:40-127 | the encoding of a byte string decodes to it when the limit is at least its length or there are no bytes, and is refused otherwise |
| `Base58.EncodesBack` | src/base58.cpp:40-127 | every string that decodes, under whatever limit, re-encodes to itself without the spaces around it |
| `Base58.DecodesExactly` | src/base58.cpp:40-127 | a string decodes to some bytes if and only if it holds no NUL and, without the spaces around it, encodes them, and they are within the limit |
| `Base58.EncodedMeans` | src/base58.cpp:89-127 | a 1 for each leading zero byte, then the base 58 digits of the same number without a leading zero |
| `Base58.SpacesAre` | src/util/strencodings.h:166-168 | spaces are the blank and the characters from tab to carriage return |
| `Base58.AlphabetIs` | src/base58.cpp:19-20 | the character of a digit is the one at its place of the alphabet |
| `Base58Code.EncodeBase58Check` | src/base58.cpp:137-144 | the encoding of the bytes and four bytes of their hash |
| `Base58Code.DecodeBase58Check` | src/base58.cpp:146-161 | the bytes, if the hash agrees |
| `Base58Code.CheckDecodesBack` | src/base58.cpp:137-161 | a checked string gives its bytes back exactly when the limit and that of a 32-bit length allow |
| `Base58Code.CheckEncodesBack` | src/base58.cpp:137-161 | every checked string that decodes re-encodes to itself without the spaces around it |

## Left out

- AddrMan: logging, the mutex (public methods are atomic), the test-only entry points, and the look-ups
  `Size_`, `GetEntries_` and `FindAddressEntry_`, which only read fields the invariant already describes.
- AddrManChance: computes with real numbers where the source has floating point.
- AddrManQueries.Select: does not state that the search ends, since it may come upon empty buckets for ever; the random
  rounds are a finite list, and an exhausted list is an outcome of its own.
- AddrManStore.Unserialize: does not model the byte stream, the stream errors and the older address formats within a
  record; a file is a record of the values read, whose list lengths are those the header announces.
- Check queue: thread creation, the destructor and its stop request.
- CheckQueueRuns.CompleteIsRight: requires the held checks to fit the 32-bit counter, as described above.
- Chain: `FindEarliestAtLeast`, `GetBlockProofEquivalentTime`, `RaiseValidity` and the status bits; block hashes in
  locators are represented by the blocks themselves.
- Chain.LocatorEntries: computes with an unbounded step, so beyond the height that `Chain.LocatorStepFits` names it says
  nothing about the code.
- ArithUint: `getdouble`, hexadecimal text, the bitwise operators that combine two numbers limb by limb, and byte order
  conversion: none of them carries from one limb to the next. Operators that assign a 64-bit number need two limbs, as
  in the source.
- CompactBlocksImpl.PartiallyDownloadedBlock.InitData: does not model `extra_count` (a statistic), the hash of the
  short-id key, or unused places of the extra pool, whose null references are taken to be absent from the list.
- Bech32: `LocateErrors`, whose result depends on distances between the two codes; human-readable parts with bytes
  above 127 are read as unsigned, which the decoder refuses in any case.
- Base58: conversion of buffer sizes to 32-bit integers for inputs beyond two gigabytes.
- Files, the network, command lines, chain parameters and block filters.
