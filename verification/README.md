# Verification of nomalloc

Dafny models of the stateful parts of the nomalloc allocator, with proofs about every run of their operations.
`dafny verify dfyconfig.toml` checks the whole project.

## What is modelled

Most components come in two layers. A value layer gives each operation as a function on an immutable state; the
properties of all runs are lemmas there. A class layer has the fields, lists, arrays and loops of the C code, and each
method is proved to do exactly what its function does. The smaller components (lists, bitmaps, allocator, histogram)
have only the class layer, with the abstract value in ghost state.

| files | component |
|---|---|
| `LirsModel`, `LirsInvariant`, `LirsEffects`, `LirsQueue`, `LirsRefinement`, `LirsOwnership`, `LirsLimits`, `LirsBins`, `LirsWitness` | the LIRS replacement cache as a state machine: recency stack S, queue Q, hash index, counters, callback log |
| `LirsCache` | the same cache with block objects, lists and chains updated in place |
| `HashTable`, `Hash` | the open-addressing table with tombstones, and the hashes |
| `Lists` | intrusive circular lists and hash chains with back-links, on node objects |
| `Allocator`, `Bytes` | the header-prefixed allocator over an array of bytes |
| `LeakModel`, `LeakDetector`, `LeakReport` | the leak detector's record pool, its chains and its grouped report |
| `Bitmap`, `ChunkModel`, `ChunkAddresses`, `ChunkEffects`, `ChunkRuns` | bitmaps, and small allocations from a chunk |
| `RegionModel`, `RegionRuns`, `Regions` | the garbage collector's region manager and ageing |
| `Histogram` | the latency histogram and its percentiles |
| `Words`, `Seqs` | machine words with C's wrapping and bit operators; duplicate-free sequences |

Operations that run under a spinlock are atomic steps. Counters are unbounded integers except `total_size` of the LIRS
cache, which wraps at 64 bits as in C. What libc answers to a request for memory is a parameter of the operation that
asks (`gotBlock`, `raw`, `granted`, `Grant`), and so are captured call stacks and timestamps.

## Where the code does not do what its comments or names suggest

The models follow the code. All but the last of these are theorems; where a property fails they give an input and the
exact condition under which it holds.

- `capacity` of the LIRS cache is not a bound on `lirs_size`: a cache for two blocks can hold three
  (`LirsWitness.CapacityCanBeExceeded`). The bound holds over a run exactly when no put is accepted into a full cache
  without evicting (`LirsLimits.CapacityHoldsIff`). From a capacity of two on, the cause is a HIR hit that finds no LIR
  block at the bottom of S and promotes without demoting (`LirsLimits.GetGrowsLirCountIff`); the excess is at most the
  number of such hits (`LirsLimits.SizeWithinSlack`), and one such hit may cause none
  (`LirsWitness.UnpairedHitWithinCapacity`). For capacities zero and one there is a second cause:
  `capacity - hir_capacity` wraps, new blocks enter as LIR, and the cache passes its capacity without any hit
  (`LirsWitness.TinyCachePassesCapacity`).
- A hit on a ghost is not a promotion: `lirs_get` destroys the ghost and reports a miss
  (`LirsInvariant.GhostHitDestroys`), and a value put on a ghost is accepted and cannot be read back
  (`LirsRefinement.PutThenGet`).
- Removing or overwriting a ghost takes its size off `total_size` a second time (`LirsLimits.ExactIff`,
  `LirsWitness.GhostRemovalBreaksTotal`).
- Inserting a key that is already stored behind a tombstone writes a second copy
  (`HashTable.ReinsertLeavesSecondCopy`). An operation keeps the table's invariant exactly when it is not such an
  insertion (`HashTable.StepGoodIff`). After such an insertion, and only then, removing the key once leaves it found
  (`HashTable.InsertThenRemoveIff`).
- Every pointer from `chunk_alloc_small` lies in the first 4096 bytes after the header, whatever the class. An
  allocation returns memory of a live block exactly when a run other than the open one of its class, of whatever class,
  has an allocated block in the same place of that window (`ChunkAddresses.AllocOverlapsIff`). So two classes share an
  address at once (`ChunkAddresses.TwoClassesShareAnAddress`), and within one class an address repeats exactly when a
  run of the class that has been full still has that block (`ChunkAddresses.AllocRepeatsAddressIff`,
  `ChunkAddresses.TwoLiveBlocksShareAnAddress`). A free clears the block it is given exactly when that block's run is
  listed first (`ChunkAddresses.FreeClearsOwnBlockIff`, `ChunkAddresses.FreeLandsInOtherRun`). A run that has been full
  is never opened again (`ChunkAddresses.FullRunsOnlyShrink`, `ChunkAddresses.FreesOpenNothing`), although the code has
  a branch for it.
- `gc_region_promote` on any type but young or survivor loses the region from every list
  (`RegionModel.PromoteKeepsSoundIff`, `RegionModel.OldRegionIsLost`), and `gc_region_free` of a region that is not in
  use breaks the counters (`RegionModel.FreeKeepsSoundIff`, `RegionModel.DoubleFreeMiscounts`).
- `min_ns` of a histogram is the minimum exactly when no sample was zero or the latest one is
  (`Histogram.MinIsMinimumIff`, `Histogram.MinFieldMissesZero`).
- `bitmap_count_set` counts whole words, so it answers for the first `num_bits` bits exactly when no later bit is set
  (`Bitmap.Count`); after `bitmap_fill` that means a multiple of 64 bits (`Bitmap.FilledCountIff`,
  `Bitmap.OneBitCounts64`).
- `lirs_create` sizes its table by doubling in 64 bits, which never ends for some capacities
  (`LirsCache.DoublingReachesIff`, `LirsCache.DoublingCanLoopForever`).
- What is freed while the leak detector is switched off stays on record as a leak (`LeakModel.FreedUnseenStays`); the
  records are exact for what the detector saw (`LeakModel.LeaksAreExactlyTheLive`). `peak_bytes` is not the bytes at the
  peak but the sizes of the allocations alone that reached a new one (`LeakModel.CountersAre`).
- For a single sample both percentiles of a histogram read zero, whatever the sample
  (`Histogram.LoneSampleReadsZero`).
- The first `leak_detector_start_tracking` only initialises the detector; tracking is still off after it
  (src/debug/leak_detector.c:115-125).

## Model

| member | source | states |
|---|---|---|
| LirsInvariant.ReachableStatesAreWellFormed | src/cache/lirs/lirs.c:690-974 | after any sequence of get, put, remove and clear on a new cache: S and Q are duplicate-free with exact sizes, Q is exactly the HIR residents and at most `hir_capacity`, S holds every LIR block and ghost, flags match membership, `lir_count` and `hir_resident_count` are exact, `hir_non_resident_count` is at least the number of ghosts, the index is S and Q together; S is strictly by access time and what it leaves out is older |
| LirsInvariant.StepKeepsInvariant | src/cache/lirs/lirs.c:690-974 | each single operation keeps the inductive invariant behind that |
| LirsInvariant.QueueHoldsResidents | src/cache/lirs/lirs.c:364-386 | Q and the HIR residents are one set, and the resident count is its length |
| LirsInvariant.CallbackKeepsInv | src/cache/lirs/lirs.c:923-932 | installing a callback disturbs nothing |
| LirsInvariant.GetLirKeeps | src/cache/lirs/lirs.c:718-725 | an LIR hit keeps the invariant and leaves S with an LIR block at the bottom |
| LirsInvariant.GetGhostKeeps | src/cache/lirs/lirs.c:748-762 | so does a ghost miss, unless S is then empty |
| LirsInvariant.GhostHitDestroys | src/cache/lirs/lirs.c:748-762 | a hit on a ghost returns NULL, counts as a miss and removes the block from the index |
| LirsInvariant.PutKeeps | src/cache/lirs/lirs.c:797-850 | so does putting a new key, after pruning and evicting |
| LirsInvariant.DeleteKeeps | src/cache/lirs/lirs.c:852-900 | so does a removal that found its key |
| LirsModel.PruneIsMaximalSuffix | src/cache/lirs/lirs.c:309-327 | pruning takes off exactly the maximal suffix of S without LIR blocks and changes no other block |
| LirsModel.PromoteEvictsNothing | src/cache/lirs/lirs.c:453-476 | with Q within bounds a promotion evicts no block |
| LirsModel.TradeKeepsBlocks | src/cache/lirs/lirs.c:453-476 | a promotion loses no resident block and changes no value, size or access time |
| LirsEffects.GetEffect | src/cache/lirs/lirs.c:690-772 | a lookup of a tracked key in closed form: a hit block comes on top of S, which is cut below its last LIR block unless the block is HIR and was not in S; a HIR block in S turns LIR, and S's LIR bottom turns HIR and joins the end of Q (a block that is its own bottom stays HIR and goes to the end); no other block changes kind, value, size or time; every counter |
| LirsEffects.PutEffect | src/cache/lirs/lirs.c:812-850 | an accepted new key in closed form: LIR exactly while S is below capacity - `hir_capacity` in 64 bits, else HIR at the end of Q, whose head turns ghost when Q was full; S cut below its last LIR block; no other block changes; every counter |
| LirsEffects.PutCodes | src/cache/lirs/lirs.c:774-817 | -1 exactly for a NULL key, -2 exactly for a new key with which the byte total modulo 64 bits passes `max_size`, -3 exactly for one that fits without a block to be had, 0 otherwise |
| LirsEffects.OverwriteEffect | src/cache/lirs/lirs.c:781-795 | a put of a tracked key moves nothing in S or Q and replaces the value, and the size only when the value differs |
| LirsEffects.RefusedPutEffect | src/cache/lirs/lirs.c:799-817 | a put over budget changes nothing but prunes S; any other refused put changes nothing |
| LirsEffects.DeleteEffect | src/cache/lirs/lirs.c:852-900 | a removal takes its key out of S, Q and index, cuts S below its last LIR block and changes no other block; every counter |
| LirsQueue.StepKeepsQueueOrder | src/cache/lirs/lirs.c:364-423 | Q is first-in first-out under every operation: of two blocks in Q afterwards the front one was there before, and the other was behind it or has just entered |
| LirsQueue.QueueIsByEntry | src/cache/lirs/lirs.c:690-974 | after every run Q is strictly sorted by the operation at which its blocks last entered |
| LirsQueue.DisplacedEnteredFirst | src/cache/lirs/lirs.c:364-386 | the key a put displaces entered Q before every other block there |
| LirsQueue.CountersOverRuns | src/cache/lirs/lirs.c:690-974 | over every run `hits`, `misses` and `evictions` are the numbers of lookups of resident keys, of other lookups and of puts that displaced a key |
| LirsRefinement.GetReadsMap | src/cache/lirs/lirs.c:690-772 | `lirs_get` answers as a map of the resident keys would and never changes that map, whatever it promotes, demotes and prunes |
| LirsRefinement.PutUpdatesMap | src/cache/lirs/lirs.c:774-850 | `lirs_put` in all its cases as an update of that map: an accepted new key is added and at most one other key dropped, the old head of Q, exactly when the new block enters as HIR and Q was full |
| LirsRefinement.DeleteRemovesFromMap | src/cache/lirs/lirs.c:852-900 | `lirs_remove` removes exactly its key, and its code says whether the key was tracked |
| LirsRefinement.PutLeavesGhostIff | src/cache/lirs/lirs.c:364-386 | the block a put evicts stays behind as a ghost, unreleased and with its value, exactly when S still holds it after pruning |
| LirsRefinement.PutThenGet | src/cache/lirs/lirs.c:690-850 | after an accepted put of a value `lirs_get` returns that value exactly when the key was not a ghost |
| LirsRefinement.GetReturnsLastPut | src/cache/lirs/lirs.c:690-974 | after any run from a new cache `lirs_get` returns NULL or the value put last, with success, for its key since its last removal or clear |
| LirsRefinement.SizeIsResidentCount | src/cache/lirs/lirs.c:902-917 | `lirs_size` is the size of the resident map and `lirs_contains` its membership test |
| LirsOwnership.ValuesAreConserved | src/cache/lirs/lirs.c:203-211 | over every run, as often as `lirs_put` took a value over it is either held by a tracked block or has been released, never both |
| LirsOwnership.CallsAreConserved | src/cache/lirs/lirs.c:203-211 | likewise for key, value and size together: each triple accepted is still held by the block of that key, or the callback was called with just these three, as often as they were accepted |
| LirsOwnership.CustodyOverRuns | src/cache/lirs/lirs.c:690-974 | the same balance from any state that satisfies the invariant |
| LirsOwnership.GetNeverReturnsReleased | src/cache/lirs/lirs.c:704-762 | a value taken over once is not returned by `lirs_get` after its release |
| LirsOwnership.ClearReleasesAll | src/cache/lirs/lirs.c:934-974 | `lirs_clear` releases every held value exactly once |
| LirsLimits.SizeWithinSlack | src/cache/lirs/lirs.c:453-476 | over every run demotions <= promotions, `lir_count` <= capacity - `hir_capacity` + (promotions - demotions), `lirs_size` <= capacity + (promotions - demotions), the subtraction as in 64 bits below a capacity of two, and promotions - demotions is the number of hits that found no partner |
| LirsLimits.StepKeepsCapacityIff | src/cache/lirs/lirs.c:821-841 | an operation on a cache within its capacity leaves it there exactly when it is not a put accepted into a full cache without evicting |
| LirsLimits.CapacityHoldsIff | src/cache/lirs/lirs.c:690-974 | over a run `lirs_size` stays within the capacity throughout exactly when no operation is such a put |
| LirsLimits.GetGrowsLirCountIff | src/cache/lirs/lirs.c:726-743 | a hit raises `lir_count`, by one, exactly when it is on a HIR block in S and S's bottom is another block that is not LIR |
| LirsLimits.TotalSizeOverRuns | src/cache/lirs/lirs.c:781-846 | over every run `total_size` is the bytes of the resident blocks less what ghosts had written off twice, modulo 64 bits |
| LirsLimits.LimitsOverRuns | src/cache/lirs/lirs.c:527-542 | a cache keeps the capacity and budget asked for; `hir_capacity` is 2 below a capacity of 300 and a hundredth of it, rounded down, from there on |
| LirsLimits.PutAnswers | src/cache/lirs/lirs.c:774-817 | after any run from `lirs_create` the code of a put, decided by the bytes of the resident blocks less the drift plus the new size, modulo 64 bits, against `max_size` |
| LirsLimits.ExactIff | src/cache/lirs/lirs.c:781-795 | an operation keeps an exact `total_size` exact just when it does not remove a ghost or overwrite one with another size |
| LirsBins.BinsRespectCapacity | src/cache/lirs/lirs_manager.c:40-44 | a cache set up and filled as a size-class bin never holds more blocks than its capacity plus the ghosts removed since the last clear, and `total_size` is what its blocks take up less those removals; without them both are exact |
| LirsBins.UniformBytes | src/cache/lirs/lirs_manager.c:193 | blocks of one size take up that size times their number |
| LirsWitness.CapacityCanBeExceeded | src/cache/lirs/lirs.c:726-743 | six operations after which a cache of capacity two holds three blocks |
| LirsWitness.TinyCachePassesCapacity | src/cache/lirs/lirs.c:821-841 | two puts and no hit, after which a cache of capacity one holds two blocks |
| LirsWitness.UnpairedHitWithinCapacity | src/cache/lirs/lirs.c:726-743 | a run whose last hit finds no partner while the cache stays within its capacity |
| LirsWitness.GhostRemovalBreaksTotal | src/cache/lirs/lirs.c:852-900 | a run that leaves a ghost with an exact `total_size`, and whose removal makes it two where three bytes are in use |
| LirsCache.DoublingReachesIff | src/cache/lirs/lirs.c:544-547 | doubling one in 64 bits reaches a target exactly when the target is at most 2^63 |
| LirsCache.DoublingCanLoopForever | src/cache/lirs/lirs.c:544-547 | for a capacity of 2^62 + 1 it never reaches twice the capacity |
| LirsCache.Lirs.constructor | src/cache/lirs/lirs.c:527-584 | a new cache is the initial state of the state machine |
| LirsCache.Lirs.FindBlock | src/cache/lirs/lirs.c:229-240 | the chain walk returns the tracked block of the key or nothing |
| LirsCache.Lirs.PruneSStack | src/cache/lirs/lirs.c:309-327 | the loop on objects does what the state machine's pruning does |
| LirsCache.Lirs.EvictHir | src/cache/lirs/lirs.c:364-386 | likewise the eviction loop |
| LirsCache.Lirs.DemoteLir | src/cache/lirs/lirs.c:412-423 | likewise a demotion |
| LirsCache.Lirs.PromoteHir | src/cache/lirs/lirs.c:453-476 | likewise a promotion with its exchange, pruning and eviction |
| LirsCache.Lirs.Get | src/cache/lirs/lirs.c:690-772 | `lirs_get` on objects is the state machine's get, result and new state |
| LirsCache.Lirs.MakeRoom | src/cache/lirs/lirs.c:799-810 | the retry loop ends in its first pass: it gives up exactly when `total_size` + size > `max_size`, having changed nothing but S |
| LirsCache.Lirs.Put | src/cache/lirs/lirs.c:774-850 | `lirs_put` on objects is the state machine's put, code and new state |
| LirsCache.Lirs.Delete | src/cache/lirs/lirs.c:852-900 | likewise `lirs_remove` |
| LirsCache.Lirs.Clear | src/cache/lirs/lirs.c:934-974 | likewise `lirs_clear`, with its two loops over S and Q |
| LirsCache.Lirs.Contains | src/cache/lirs/lirs.c:902-911 | whether the key is in the resident map |
| LirsCache.Lirs.Size | src/cache/lirs/lirs.c:913-917 | the number of resident keys |
| LirsCache.Lirs.SetEvictCallback | src/cache/lirs/lirs.c:923-932 | changes nothing but the callback |
| HashTable.RunsRefineMap | src/utils/hash.h:118-208 | over every run of removals, clears and insertions that stop at the key itself or find it nowhere, the table stands for a finite map; an insertion is refused exactly when three quarters of the slots are not empty; with four slots or more an empty one remains; slots without a key hold NULL |
| HashTable.Codes | src/utils/hash.h:145-201 | insertion answers -1 exactly for the two reserved keys, -2 exactly when three quarters of the slots are not empty, else 0 and never -3; removal -1 for the reserved keys, -2 for absent ones, else 0 |
| HashTable.StepGoodIff | src/utils/hash.h:145-208 | these are exactly the operations that keep the table well formed |
| HashTable.AbsentIsSafe | src/utils/hash.h:160-178 | below the load limit inserting an absent key is one of them |
| HashTable.StepRefinesMap | src/utils/hash.h:145-208 | one operation keeps every stored key reachable from its home without an empty slot between, stored once, and changes only its own key in the map |
| HashTable.LookupFindsStored | src/utils/hash.h:118-143 | lookup finds a key exactly when some slot holds it |
| HashTable.LookupReadsContents | src/utils/hash.h:118-143 | lookup points at the value the finite map has for the key, or at nothing when it has none |
| HashTable.MissStopsAtEmpty | src/utils/hash.h:123-142 | when an empty slot exists a missing lookup stops at one, before the probe count runs out |
| HashTable.InsertNeverFull | src/utils/hash.h:151-181 | below the load limit the probe visits a free slot, so -3 is never returned |
| HashTable.InsertGoodIffDirect | src/utils/hash.h:160-178 | an insertion keeps the invariant exactly when it stops at the key itself or the key is absent |
| HashTable.InsertUpdatesContents | src/utils/hash.h:145-182 | an insertion that stops at the key itself or finds it nowhere succeeds and sets exactly its own key |
| HashTable.DeleteUpdatesContents | src/utils/hash.h:184-201 | a removal takes out exactly its key and leaves the number of used slots |
| HashTable.OccupiedSlots | src/utils/hash.h:151-201 | `count` + `tombstones` is the number of slots that are not empty |
| HashTable.CountIsSize | src/utils/hash.h:151-201 | `count` is the number of entries of the map |
| HashTable.MaskSteps | src/utils/hash.h:128-138 | stepping with a mask goes round a ring of power-of-two size |
| HashTable.ReinsertLeavesSecondCopy | src/utils/hash.h:160-178 | a run in which inserting a stored key again leaves two copies and removing it leaves one |
| HashTable.InsertThenRemoveIff | src/utils/hash.h:118-201 | a key inserted and then removed is no longer found exactly when the insertion stopped at the key itself or found it nowhere |
| HashTable.HashTable32.Find | src/utils/hash.h:118-143 | the probe loop over the arrays returns the slot the specification names |
| HashTable.HashTable32.Put | src/utils/hash.h:145-182 | insertion into the arrays, code and new table |
| HashTable.HashTable32.Remove | src/utils/hash.h:184-201 | removal from the arrays, code and new table |
| HashTable.HashTable32.Clear | src/utils/hash.h:203-208 | clearing makes the table a fresh one |
| Hash.Murmur3Injective | src/utils/hash.h:18-25 | different 32-bit keys have different hashes |
| Hash.HomeIsModulo | src/utils/hash.h:123-126 | masking with a power-of-two size less one is the remainder |
| Lists.ListAdd | src/utils/list.h:24-29 | the ring then represents the new entry followed by the old sequence |
| Lists.ListAddTail | src/utils/list.h:31-36 | the old sequence followed by the new entry |
| Lists.ListDel | src/utils/list.h:38-43 | the sequence without exactly the entry |
| Lists.ListDelInit | src/utils/list.h:45-48 | likewise, and the entry becomes an empty ring of its own |
| Lists.ListEmpty | src/utils/list.h:60-62 | a head that points at itself is exactly one with an empty sequence |
| Lists.ListMove | src/utils/list.h:50-53 | the entry first and the others in their order |
| Lists.ListMoveTail | src/utils/list.h:55-58 | the entry last and the others in their order |
| Lists.ListMoveAcross | src/utils/list.h:50-53 | moving between disjoint rings takes the entry from one to the front of the other |
| Lists.ListLength | src/utils/list.h:74-81 | the walk ends and counts the sequence |
| Lists.RingIsSequence | src/utils/list.h:11-14 | a head's links determine the sequence it represents |
| Lists.RingsAreDisjoint | src/utils/list.h:11-14 | rings with different heads that are not on each other share no entry |
| Lists.HlistAddHead | src/utils/list.h:150-158 | the chain with the node in front, back-links included |
| Lists.HlistDel | src/utils/list.h:176-184 | the chain without exactly the node, back-links repaired through `pprev` |
| Allocator.HeaderRoundTrip | src/core/allocator.c:342-391 | a header read back from its 32 bytes is the one written |
| Allocator.HeaderLayout | src/core/allocator.c:342-371 | raw pointer, size, requested size, magic and flags are in this order, little-endian |
| Allocator.RawSizeIsLeast | src/core/allocator.c:711-712 | libc is asked for the least multiple of 16 that is at least the size plus 48 |
| Allocator.PowerOfTwoIff | src/utils/math.h:12-14 | the bit trick accepts exactly the powers of two |
| Allocator.LiveRangesAreDisjoint | src/core/allocator.c:697-725 | headers and payloads of different live blocks do not overlap |
| Allocator.CallerStores | src/core/allocator.c:342-391 | a caller storing inside its payload disturbs no header and no other payload |
| Allocator.Heap.Malloc | src/core/allocator.c:697-725 | a new live block inside what libc gave, 16-aligned, every header and payload intact; NULL without memory |
| Allocator.Heap.GetHeader | src/core/allocator.c:373-391 | the header before a live pointer is found and says what the block is; NULL has none |
| Allocator.Heap.Free | src/core/allocator.c:758-778 | libc gets back exactly the raw pointer it gave out, and the block is live no more |
| Allocator.Heap.Realloc | src/core/allocator.c:859-919 | the first min(old, new) bytes and every other payload are kept, failure leaves everything, shrinking stays in place, growing frees the old raw block; all counters |
| Allocator.Heap.AlignedAlloc | src/core/allocator.c:964-1017 | the first pointer past room for the header that meets the alignment, with header and payload inside the raw block, exactly when the alignment is a power of two and libc has memory |
| Allocator.Heap.UsableSize | src/core/allocator.c:1031-1040 | the requested size of a live pointer, 0 for NULL |
| Allocator.Heap.constructor | src/core/allocator.c:697-778 | establishes what every operation keeps: blocks laid out apart, headers readable, total_allocated - total_freed = live requested bytes + bytes given up by shrinking - bytes ever requested through aligned_alloc; each raw pointer libc granted belongs to one live block or was handed back, as often as it was granted |
| Allocator.ReturnedOnce | src/core/allocator.c:697-1017 | so libc gets a raw pointer back exactly as often as it granted it, less once while a live block has it, and never more than one live block does |
| LeakModel.LeaksAreExactlyTheLive | src/debug/leak_detector.c:155-257 | over runs that switch tracking off and on, while no pointer that was seen live is handed out again, the records are of allocations live as far as was seen, one each; when none was dropped for want of a record they are all of them |
| LeakModel.EnoughRecords | src/debug/leak_detector.c:164-181 | a program with fewer live allocations than the limit is tracked without a gap, switches included |
| LeakModel.SwitchingSelects | src/debug/leak_detector.c:155-218 | a run with switches ends as the run of only those calls that came while tracking was on |
| LeakModel.OffSeesNothing | src/debug/leak_detector.c:155-218 | while tracking is off an allocation or deallocation changes no record and no counter |
| LeakModel.RecordsWereSeen | src/debug/leak_detector.c:155-214 | every outstanding record is of an allocation before which the latest switch was on |
| LeakModel.FreedUnseenStays | src/debug/leak_detector.c:216-219 | a run that frees a pointer while tracking is off and leaves its record |
| LeakModel.RecordedIff | src/debug/leak_detector.c:155-181 | after any run an allocation is recorded exactly when tracking is on, the pointer is not NULL, and fewer records are in use than once were or a new one is within the limit and libc has memory |
| LeakModel.CountersAre | src/debug/leak_detector.c:199-206 | `total_allocations` is the number of records added, `peak_bytes` the sizes of the allocations that reached a new peak |
| LeakModel.DropNewestIsLast | src/debug/leak_detector.c:225-245 | a deallocation removes the newest record of its pointer and nothing else |
| LeakModel.RecordsAreConserved | src/debug/leak_detector.c:155-257 | total_allocations = total_deallocations + outstanding records + records dropped by clear, over every run |
| LeakModel.PeakIsRunningMaximum | src/debug/leak_detector.c:201-206 | `peak_allocations` is the largest number of records outstanding at any point of the run |
| LeakModel.PoolStaysWithinLimit | src/debug/leak_detector.c:164-181 | used and spare records together never exceed the limit and are exactly as many as were ever in use at once |
| LeakDetector.Detector.constructor | src/debug/leak_detector.c:37-78 | a detector with no records, empty chains and tracking off |
| LeakDetector.FirstHitIsNewest | src/debug/leak_detector.c:223-233 | the first hit on a hash chain is the newest record of the pointer on the allocation list |
| LeakDetector.ChainedRemove | src/debug/leak_detector.c:240-241 | taking a record off list and chain keeps every chain equal to the listed records of its bucket, newest first |
| LeakDetector.Detector.RecordAlloc | src/debug/leak_detector.c:155-214 | reuses a spare record, else makes one within the limit; lists stay disjoint, chains and counters exact |
| LeakDetector.Detector.RecordDealloc | src/debug/leak_detector.c:216-257 | the record found through the chain moves to the spare ones; lists, chains and counters exact |
| LeakDetector.Detector.ClearRecords | src/debug/leak_detector.c:425-446 | every record in use becomes spare and every chain empty |
| LeakDetector.Detector.UpdateStats | src/debug/leak_detector.c:259-274 | the leak statistics are the number and bytes of the outstanding records |
| LeakDetector.Detector.GenerateReport | src/debug/leak_detector.c:290-350 | the nested loops build the specified report |
| LeakReport.ReportIsGroupBy | src/debug/leak_detector.c:290-350 | the report is the exact group-by (counts, bytes, first and last seen) of a prefix of the records, which is all of them or ends with the first record of the sixty-fourth pattern |
| LeakReport.ReportIsCompleteIff | src/debug/leak_detector.c:298-300 | it covers every record exactly when fewer than 64 patterns come before the last one |
| LeakReport.EntriesAddUp | src/debug/leak_detector.c:324-345 | entry counts and bytes add up to the report's totals |
| LeakReport.EntriesInOrder | src/debug/leak_detector.c:324-340 | the entries come in the order in which their patterns first occur |
| LeakReport.OneEntryPerPattern | src/debug/leak_detector.c:302-323 | there are as many entries as distinct patterns |
| Bitmap.Set | src/utils/bitmap.h:48-52 | sets the bit and no other |
| Bitmap.ClearBit | src/utils/bitmap.h:54-58 | clears the bit and no other |
| Bitmap.Get | src/utils/bitmap.h:42-46 | reads the bit |
| Bitmap.FindFirstClear | src/utils/bitmap.h:103-118 | the lowest clear index, or `num_bits` when there is none below it |
| Bitmap.FindFirstSet | src/utils/bitmap.h:86-101 | the lowest set index, or `num_bits` when there is none below it |
| Bitmap.Count | src/utils/bitmap.h:120-131 | the set bits of all the words, which are those below `num_bits` exactly when none is set past it |
| Bitmap.Init | src/utils/bitmap.h:28-40 | every word is filled, those past the last bit too |
| Bitmap.FilledCountIff | src/utils/bitmap.h:120-131 | after a fill the count is right exactly for a multiple of 64 bits |
| Bitmap.OneBitCounts64 | src/utils/bitmap.h:120-131 | a filled bitmap of one bit counts 64 |
| Bitmap.AllBitsSet | src/utils/bitmap.h:106-107 | a word equals ~0 exactly when each of its bits is set |
| ChunkModel.BooksStayBalanced | src/memory/chunk.c:85-241 | over any sequence of allocations and frees, of any pointers: at most one open run a class, `num_runs` counts the listed runs, allocated_bytes - freed_bytes = usable_offset + block size times allocated blocks over all runs |
| ChunkModel.StepKeepsSound | src/memory/chunk.c:85-241 | each single operation keeps that |
| ChunkAddresses.AllocReturnsLowestClear | src/memory/chunk.c:85-159 | with memory from libc an allocation succeeds exactly for 0 < block size <= 4096, so the "no free blocks" branch is dead there, and returns the lowest clear block inside the first window |
| ChunkAddresses.BlocksAreDisjoint | src/memory/chunk.c:143-145 | blocks of one run do not overlap |
| ChunkAddresses.FreeRecoversBlock | src/memory/chunk.c:166-221 | the free path's divisions recover the block index of an address |
| ChunkAddresses.FreeClearsOwnBlockIff | src/memory/chunk.c:166-221 | a free clears the allocated block it is given exactly when that block's run is listed first; otherwise it clears the same block of the run that is, or nothing |
| ChunkAddresses.FreeHitsFirstListed | src/memory/chunk.c:166-221 | any pointer into the window is taken for the block it points into of the first listed run, when that is allocated, and for nothing otherwise |
| ChunkAddresses.TakeThree | src/memory/chunk.c:85-159 | three allocations of half a run, the first and third with one address |
| ChunkAddresses.FreeLandsInOtherRun | src/memory/chunk.c:161-241 | freeing the first of those three gives up the third and leaves the first one's run fully allocated |
| ChunkAddresses.AllocOverlapsIff | src/memory/chunk.c:85-159 | an allocation returns memory that a live block of any class has exactly when a run other than the open one of its class has an allocated block whose bytes meet the new block's place in the window |
| ChunkAddresses.AllocIsNewAlone | src/memory/chunk.c:134-145 | hence while no other class has a live block and no run of the class has been full the memory is new |
| ChunkAddresses.TwoClassesShareAnAddress | src/memory/chunk.c:85-159 | one allocation each of 16 and of 32 bytes, with one address, both live and no run ever full |
| ChunkAddresses.AllocRepeatsAddressIff | src/memory/chunk.c:134-145 | an allocation repeats the address of a live block of its own class exactly when a run of the class that has been full still has that block |
| ChunkAddresses.AllocIsNewWithoutFullRuns | src/memory/chunk.c:134-145 | hence while no run of the class has been full the address is new within the class |
| ChunkAddresses.AllocAfterFullRepeats | src/memory/chunk.c:134-152 | the first allocation after a run of the class filled up returns that run's first block again |
| ChunkAddresses.TwoLiveBlocksShareAnAddress | src/memory/chunk.c:85-159 | two allocations in a row with one address, at any base and offset |
| ChunkAddresses.FreeUndoesAlloc | src/memory/chunk.c:85-241 | freeing at once undoes an allocation that did not fill its run, down to the run opened for it |
| ChunkAddresses.FreeAfterFilling | src/memory/chunk.c:149-241 | when the allocation did fill its run the free clears its block exactly when no other run of the class has been full, and else works on the first that has |
| ChunkAddresses.FullRunsOnlyShrink | src/memory/chunk.c:85-241 | over every run of operations the runs of a class that have been full stay on their own list, in order and with at most the blocks they had, less at most one for each free that clears a run's last block; so no block of theirs is given out again |
| ChunkAddresses.FreesOpenNothing | src/memory/chunk.c:226-236 | no sequence of frees puts a run on the list allocations are served from |
| ChunkEffects.AllocEffect | src/memory/chunk.c:85-159 | a successful allocation takes the lowest clear block of its class's open or new run, moves a run it fills to the end of the full ones, counts the bytes and touches no other class |
| ChunkEffects.FailedAllocEffect | src/memory/chunk.c:88-129 | a failed one changes nothing, but the first for a class of more than 4096 bytes leaves a run without blocks |
| ChunkEffects.LocateIff | src/memory/chunk.c:166-221 | the free path finds block b of the run listed at i exactly when that is allocated and the pointer is in its bytes of window i |
| ChunkEffects.FreeEffect | src/memory/chunk.c:161-241 | a free of such a pointer clears that block, drops the run when it was its last and else leaves it in its place and list, counts the bytes and touches no other class; a free of any other pointer does nothing |
| ChunkRuns.ChunkRun.constructor | src/memory/chunk.c:99-120 | a new run has all its bits clear and counts them |
| ChunkRuns.ChunkRun.Change | src/memory/chunk.c:131-132 | `free_blocks_count` stays the number of clear bits |
| ChunkRuns.ChunkRun.CountsAgree | src/memory/chunk.c:131-132 | `bitmap_count_set` of a run's bitmap and its `free_blocks_count` add up to the number of blocks |
| ChunkRuns.ChunkHeap.AllocSmall | src/memory/chunk.c:85-159 | allocation on the runs, bitmaps and lists is the specified one, pointer and new state |
| ChunkRuns.ChunkHeap.FreeSmall | src/memory/chunk.c:161-241 | likewise free, for any pointer |
| RegionModel.ReachableIsSound | src/gc/gc_region.c:125-368 | after any allowed sequence of calls each region is on exactly the list its type names, once; the six counts are the list lengths and sum to the number of regions; `used_size` and `total_size` are the bytes of the regions in use and of all, two megabytes each; no more than the limit are made |
| RegionModel.AllocKeepsSound | src/gc/gc_region.c:125-199 | an allocation keeps that, returns a region of the asked type and age 0, and fails only with no free region and no room or memory for another |
| RegionRuns.AllocReuses | src/gc/gc_region.c:130-147 | an allocation takes the first free region whenever there is one and makes a new one only when all are in use |
| RegionRuns.StepKeepsOrder | src/gc/gc_region.c:125-368 | each of the six lists is first-in first-out under every allowed call |
| RegionRuns.ListsAreByJoining | src/gc/gc_region.c:125-368 | after every run each list is sorted by when its regions joined it |
| RegionRuns.ReusedIsLongestFree | src/gc/gc_region.c:130-133 | the region reused has been free the longest |
| RegionRuns.RegionsAreThePeak | src/gc/gc_region.c:125-199 | over every run that allocates for use, the number of regions is the largest number ever in use at once |
| RegionModel.FreeKeepsSoundIff | src/gc/gc_region.c:201-243 | a free keeps it exactly when the region was in use |
| RegionModel.PromoteKeepsSoundIff | src/gc/gc_region.c:326-353 | a promotion keeps it exactly for young and survivor regions; any other ends on no list |
| RegionModel.OldRegionIsLost | src/gc/gc_region.c:326-353 | a region allocated old and promoted is on no list |
| RegionModel.DoubleFreeMiscounts | src/gc/gc_region.c:201-243 | a region freed twice is listed once and counted twice, and `used_size` is below zero |
| RegionModel.AgeKeepsSound | src/gc/gc_region.c:355-368 | ageing keeps it for every region |
| RegionModel.GenerationByAge | src/gc/gc_region.c:355-368 | aged n times, a young region is young for n <= 1, survivor for 2 to 15, old from 16 |
| Regions.RegionManager.AllocRegion | src/gc/gc_region.c:125-199 | allocation on region objects is the specified one |
| Regions.RegionManager.SoundIsListed | src/gc/gc_region.c:125-368 | while the books are right every region is on a list |
| Regions.RegionManager.FreeRegion | src/gc/gc_region.c:201-243 | likewise free of any region on a list, in use or not |
| Regions.RegionManager.PromoteRegion | src/gc/gc_region.c:326-353 | likewise promotion of any region on a list, whatever the type |
| Regions.RegionManager.AgeRegion | src/gc/gc_region.c:355-368 | likewise ageing |
| Histogram.LatencyHistogram.Add | src/debug/stats_collector.h:176-192 | buckets, totals, minimum field and maximum describe all samples recorded so far |
| Histogram.LatencyHistogram.Scan | src/debug/stats_collector.h:202-211 | the percentile scan stops inside the loop, at the bucket where the cumulative count reaches the target |
| Histogram.LatencyHistogram.GetP50 | src/debug/stats_collector.h:199-213 | the lower edge of the bucket reached by half the samples, at most the maximum |
| Histogram.LatencyHistogram.GetP99 | src/debug/stats_collector.h:215-229 | likewise for 99 in a hundred |
| Histogram.ReachedIsRank | src/debug/stats_collector.h:205-210 | the bucket reached is that of the target-th smallest sample, in any sorted arrangement of the samples |
| Histogram.PercentileError | src/debug/stats_collector.h:205-210 | the value read off is less than 16 below the exact percentile, except in the last bucket |
| Histogram.LoneSampleReadsZero | src/debug/stats_collector.h:199-229 | both targets are zero exactly for a single sample, and then the answer is zero |
| Histogram.MedianBelowP99 | src/debug/stats_collector.h:199-229 | the median is never above the 99th percentile |
| Histogram.BucketsAddUp | src/debug/stats_collector.h:176-184 | the buckets sum to the number of samples |
| Histogram.MinFieldMissesZero | src/debug/stats_collector.h:186-188 | after a zero and a five `min_ns` is five |
| Histogram.MinIsMinimumIff | src/debug/stats_collector.h:186-188 | `min_ns` is the minimum exactly when no sample is zero or the latest one is |

## Left out

- LirsCache.Lirs.constructor: leaves out the capacities for which the doubling loop of `lirs_create` does not end, which `LirsCache.DoublingReachesIff` gives.
- LirsBins.BinsRespectCapacity: asks that the budget plus one block fit in 64 bits; beyond that the budget check itself wraps.
- Allocator.Heap.Malloc: sizes within 64 bytes of the address space are outside its precondition; the code does not check for that overflow.
- Allocator.Heap.Realloc: likewise, and pointers the allocator did not issue go to libc, which is not part of this model.
- Allocator.Heap.AlignedAlloc: size, alignment and header together fit in 64 bits; the code does not check for that overflow.
- Allocator.Heap.GetHeader: pointers the allocator did not issue are left out, because what lies before them is unknown.
- Allocator.Heap.Free: likewise; the code hands them to libc as they are.
- Allocator.Heap.UsableSize: likewise.
- Regions.RegionManager.FreeRegion: a region that is on no list is left out; the code follows its NULL links.
- Regions.RegionManager.PromoteRegion: likewise.
- HashTable.HashTable32.constructor: capacities are powers of two, as the code's masking assumes; it does not check.
- LIRS: `lirs_resize`, `lirs_destroy`, `lirs_print_stats`, `lirs_get_stats` and the manager's own functions; reuse distances are stored by the code and never read.
- LIRS: `capacity * 0.01` is `capacity / 100` here, without the rounding of doubles; access times do not wrap.
- Hash table: `0.75` of the capacity is compared without rounding; strings, 64-bit and byte-buffer hashes are not modelled, nor is freeing the arrays.
- Lists: `hlist_add_before`, `hlist_add_behind` and the iteration macros. The LIRS cache, leak detector, chunk and region classes use sequences for their lists; that rings and chains behave as sequences is what `Lists` proves.
- Allocator: start-up before initialisation, shutdown, pointers it did not issue, and `allocator_calloc`.
- Leak detector: shutdown, printing and the record fields for class, arena and thread, which no decision depends on.
- Chunk: large allocations, creation and destruction. The size-class table is a parameter.
- Regions: marking, liveness, reclaiming and compaction; `used_size` may go below zero where the code would wrap. The six lists and counts are sequences indexed by type.
- Histogram: overflow of `total_samples * 99`, and the average.
- Locks, atomics, arenas, thread caches, garbage collection cycles, memory mapping, configuration and logging.
