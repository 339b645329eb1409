# PANDO verification models

Dafny 4.11 models of the parts of the PANDO runtime, the Galois library on top of it and the Drv simulator
where correctness rests on more than reading one function. Each model follows the branches, constants and error
paths of the C++ code; the properties are proved for all inputs, all runs and all interleavings.
`dafny verify dfyconfig.toml` checks the project.

| file | what it models |
|---|---|
| `FreeList.dfy`, `FreeListProgress.dfy` | the reference-counted lock-free free list, one atomic operation per step: its safety; what its calls come to |
| `DequeueProtocol.dfy`, `DequeueShares.dfy` | the optimistic-count and overcommit dequeue protocol, one atomic operation per step: its safety; how much each dequeue takes |
| `BlockSlots.dfy`, `BlockIndex.dfy`, `ImplicitProducer.dfy` | the circular block index of an implicit producer: arithmetic on wrapping words, the invariant, the producer's operations |
| `IndexRuns.dfy` | the block index with its producer and consumers interleaved: a step has at most one load or store that can race |
| `QueueRuns.dfy` | the dequeue protocol and the block index in one machine: the whole sub-queue |
| `Probing.dfy`, `HashTable.dfy` | the quadratic probe sequence and the hash table that relies on it |
| `HostAssignment.dfy` | largest-first assignment of virtual hosts to physical hosts |
| `EdgeExchange.dfy`, `ExchangeStages.dfy` | the multi-host edge exchange: what it conserves, and its stages |
| `MergeRound.dfy`, `MergeRounds.dfy`, `MergeRoundsExact.dfy`, `RoundAccesses.dfy`, `DistSort.dfy` | the distributed merge sort: one round, all rounds, exactly when they sort, exactly when they stay within the arrays, the array |
| `MemoryLayout.dfy` | carving a buffer into slab, free-list and bump buckets |
| `AddressMap.dfy` | virtual and physical simulator addresses |
| `HeapInit.dfy` | racing initialisation of the simulator heap, and its bump allocation |
| `ChunkedCopy.dfy`, `LargeTransfers.dfy` | transfers in blocks of falling size; split reads and their reassembly |
| `CoreScheduler.dfy` | a simulated core's clock tick |
| `Options.dfy`, `PowersOfTwo.dfy`, `Multiples.dfy`, `Remainders.dfy`, `Sorting.dfy`, `Sums.dfy` | shared vocabulary |

Concurrent parts are state machines under sequential consistency: a state, a step function for one atomic
operation of one thread, runs of any length, and an inductive invariant. Code that updates an object in place is a
class whose methods are proved against functions of the old state.

## Where the code does less than it seems to

These are results of the proofs, each with its exact condition.

- `DistArray::sort` is right for all contents exactly when `MergeRounds.Fits` holds of its run length, its number
  of runs and its size (`DistSort.SortsIffSortsAll`, in products `DistSort.FitsInProducts`). It holds when the
  last run is not empty, when a power of two of runs holds exactly the size, and when three runs are empty (or three
  times a power of two, exactly): then one round drops the last run, and the other buffer happens to hold the right
  elements still. In all other cases some array of zeros and ones comes out wrong (`DistSort.SomeContentsFail`), as
  for six elements on eight hosts and eight threads (`DistSort.SixOnEight`).
- `DistArray::sort` can also load and store elements past the capacity of the array or of the scratch buffer, where
  `get` returns a null pointer. All ranges of all rounds stay within a capacity exactly if the last pair of runs
  begins within it (`RoundAccesses.AccessesFitIsExact`). Nine elements on eight threads are a size the rounds would
  sort but whose third pair of runs ends at 12 (`DistSort.NineOnEight`). `Sort` reports such an access instead of
  excluding it.
- Even where all ranges fit, the merge loop loads the element after its second run, which is never used. That load
  is through a null pointer exactly if the run ends at the capacity and some element of the first run is not less
  than any of the second (`MergeRound.MergeHeads`). Some contents do that exactly if some round has a range that ends
  at the capacity (`RoundAccesses.LookAheadIsExact`), and if neither buffer has an element to spare, that is as soon as
  there is a round at all (`RoundAccesses.NothingToSpare`); `DistSort.FourOnTwo` is a small case.
- `HashTable` can fill up, and then `get` and `contains` of a missing key never return; `put` always does, because a
  full table is over every limit and grows first (`HashTable.HashTable.Get`, `HashTable.HashTable.Put`). If
  `HashTable.LeavesRoom` does not hold of a capacity and a load limit, then puts of as many new keys as there are slots
  never meet the growth test and end in a full table; if it holds, no such run of puts does
  (`HashTable.FillsUpIffNoRoom`). It holds of every limit up to 7/8 from capacity 8 on. A caller that resizes an empty
  table to 2 or 4 slots loses the guarantee even with the default limit (`HashTable.DefaultLimitFillsFour`).
- `resize` accepts any capacity, while a comment on `polynomial` says that it must be a power of two. With a free slot
  every search ends all the same, because the product wraps at 2^64, where the triangular numbers take every value
  (`Probing.AnyCapacityCovered`, `HashTable.SearchEnds`). But only for powers of two does it end within as many probes as
  there are slots (`HashTable.EndInTimeIffPowerOfTwo`); for any other capacity some table has a free slot that a search
  passes by for its first 2^32 probes (`HashTable.SlowSearch`).
- `HashTable::initialize` does not reset the element count: the table is valid afterwards exactly if the count was zero
  before (`HashTable.HashTable.Initialize`).
- `hash_vertexID_to_vhost` keeps the sign of its dividend, so an edge whose smaller endpoint is negative and not a
  multiple of the number of virtual hosts has no bucket (`ExchangeStages.GetVhostEdges`), as `ExchangeStages.NegativeVertex`
  shows.
- `alignStartAndRound` counts a slab's space from the start of the previous bucket instead of its end, so a slab may
  run past the buffer unnoticed, and then nothing aborts (`MemoryLayout.SlabsCanOverflow`,
  `MemoryLayout.OverflowGoesUnnoticed`). The layout is sound exactly when `MemoryLayout.Fits` holds
  (`MemoryLayout.SoundIffFits`), and it does for every buffer above a modest size.
- `sysReadBuffer` never calls its continuation for a read of zero bytes (`LargeTransfers.ReadBuffer`).
- `toGlobalAddress` raises its exception exactly for control registers whose global bit and not-scratchpad bit are both
  clear (`AddressMap.ToGlobalRaises`).

## Model

| member | source | states |
|---|---|---|
| FreeList.StepKeepsInv | pando-rt/src/concurrentqueue.hpp:1459-1538 | every atomic operation of add, try_get and add_knowing_refcount_is_zero keeps the invariant: each node's reference word is what its place (on the list, being added, taken, out) and its current holders account for |
| FreeList.RunsAreSafe | pando-rt/src/concurrentqueue.hpp:1459-1538 | in every interleaving in which clients add only nodes they own: no node has two takers, the list is acyclic and duplicate free, a head CAS carries the node's current successor (no ABA), the flag assertion holds after a take, and no reference word wraps |
| FreeList.QuietNodesAreListedOrOut | pando-rt/src/concurrentqueue.hpp:1459-1538 | with no call under way every node is on the list once or with a client, never both and never neither |
| FreeList.SoloTryGet | pando-rt/src/concurrentqueue.hpp:1473-1510 | a lone try_get on an unreferenced head returns it, leaves its successor as the head and its reference word zero |
| FreeListProgress.SoloTryGetTakesHead | pando-rt/src/concurrentqueue.hpp:1473-1510 | in every invariant state a lone try_get on a non-empty list takes the head, whoever else references it |
| FreeListProgress.SoloTryGetOnEmpty | pando-rt/src/concurrentqueue.hpp:1478-1509 | a lone try_get on an empty list ends after its one load and changes nothing |
| FreeListProgress.EmptyAnswerIsTrue | pando-rt/src/concurrentqueue.hpp:1478-1509 | in every run, a try_get that returns without a node was called before a state in which the list was empty |
| FreeListProgress.RunsReturn | pando-rt/src/concurrentqueue.hpp:1459-1538 | in every state of every run, each thread would return within 27 operations if left alone |
| FreeListProgress.SoloAddFlags | pando-rt/src/concurrentqueue.hpp:1464-1470 | an add of a node that is still referenced only flags it, for the last holder to put on the list |
| FreeList.SoloAdd | pando-rt/src/concurrentqueue.hpp:1459-1471 | a lone add of an unreferenced node pushes it on the list with one reference |
| FreeList.QuietHeadCount | pando-rt/src/concurrentqueue.hpp:1516-1538 | with no call under way the head is referenced by the list alone |
| FreeList.FetchAdd | pando-rt/src/concurrentqueue.hpp:1466-1466 | fetch_add on a 32-bit reference word, wrapping |
| FreeList.FetchSub | pando-rt/src/concurrentqueue.hpp:1496-1496 | fetch_sub on a 32-bit reference word, wrapping |
| DequeueProtocol.StepKeepsInv | pando-rt/src/concurrentqueue.hpp:1955-2052 | every atomic operation keeps: optimistic count = head + overcommit + attempts in flight, and every attempt's remembered overcommit counts failures of earlier reservations only |
| DequeueProtocol.SuccessesFit | pando-rt/src/concurrentqueue.hpp:1979-1992 | all attempts judged successful together fit below the tail |
| DequeueProtocol.ClaimsArePublished | pando-rt/src/concurrentqueue.hpp:2003-2003 | the head plus the dequeues already judged successful never exceeds the tail, so every claimed index is published |
| DequeueProtocol.StepConserves | pando-rt/src/concurrentqueue.hpp:2248-2338 | each index below the head is claimed by exactly one batch, which holds the elements published there |
| DequeueProtocol.RunsAreSafe | pando-rt/src/concurrentqueue.hpp:1955-2052 | in every interleaving of one producer and any single and bulk consumers: the counter equation, published and distinct claims, and genuine elements |
| DequeueProtocol.QuietQueue | pando-rt/src/concurrentqueue.hpp:2551-2619 | with no dequeue in flight exactly the indices below the head have been returned, once each: failed attempts lost nothing |
| DequeueProtocol.SoloDequeueSucceeds | pando-rt/src/concurrentqueue.hpp:2780-2879 | with no dequeue in flight a dequeue on a non-empty sub-queue succeeds with the oldest elements |
| DequeueProtocol.SoloDequeueFails | pando-rt/src/concurrentqueue.hpp:2551-2619 | on an empty sub-queue a lone dequeue fails and changes no counter |
| DequeueShares.CheckIsExact | pando-rt/src/concurrentqueue.hpp:2783-2787 | a dequeue fails at its first check exactly if what is claimed, reserved and given back since reaches the tail it loaded, and else reserves what it wants of the rest |
| DequeueShares.RecheckTakesShare | pando-rt/src/concurrentqueue.hpp:2793-2799 | an attempt takes exactly what it asked for, cut down to the tail less what earlier reservations asked for beyond the overcommit it remembers |
| DequeueShares.OverlappingDequeues | pando-rt/src/concurrentqueue.hpp:2780-2879 | dequeues that begin on a quiet sub-queue and overlap (nothing enqueued, nothing given back before the last reservation) take together what they reserved, or all there is |
| DequeueProtocol.CircularMeaning | pando-rt/src/concurrentqueue.hpp:477-483 | on wrapped counters circular_less_than holds exactly when the second is ahead by less than half the range |
| DequeueProtocol.CircularAgrees | pando-rt/src/concurrentqueue.hpp:477-483 | so it is the order of the unwrapped counters whenever they are less than half the range apart |
| BlockSlots.SlotForFinds | pando-rt/src/concurrentqueue.hpp:2948-2964 | the signed, truncating, wrapping offset computation leads from any entry's slot and key to the slot of any block within half the range |
| BlockIndex.TornLookup | pando-rt/src/concurrentqueue.hpp:2948-2964 | a lookup whose header, tail and key were read at different times ends at the entry that holds the block, if the header is no older than the block |
| BlockIndex.InsertKeeps | pando-rt/src/concurrentqueue.hpp:2901-2915 | reusing a free slot for the next block keeps the invariant in the current and in all older headers |
| BlockIndex.InsertBlocks | pando-rt/src/concurrentqueue.hpp:2901-2915 | insertion disturbs no block in the index |
| BlockIndex.FullIsCircle | pando-rt/src/concurrentqueue.hpp:2908-2911 | when the slot after the tail is found taken, all slots are in use and no block is older than a whole circle |
| BlockIndex.ClearKeepsCircle | pando-rt/src/concurrentqueue.hpp:2917-2923 | that stays so while consumers clear blocks, the tested one included, until the larger index is published |
| BlockIndex.FullCircle | pando-rt/src/concurrentqueue.hpp:2917-2932 | then the circle holds exactly the last numbers in order, whatever was rolled back before |
| BlockIndex.GrowKeeps | pando-rt/src/concurrentqueue.hpp:2966-3008 | doubling the index keeps the invariant, also if blocks have been cleared since the slot was found taken |
| BlockIndex.GrowBlocks | pando-rt/src/concurrentqueue.hpp:2966-3008 | doubling keeps every block findable |
| BlockIndex.GrowRoom | pando-rt/src/concurrentqueue.hpp:2923-2931 | after doubling the slot after the tail has an unused key |
| BlockIndex.RewindKeeps | pando-rt/src/concurrentqueue.hpp:2935-2939 | moving the tail back keeps the invariant and every block |
| BlockIndex.TailKey | pando-rt/src/concurrentqueue.hpp:2955-2956 | the tail's key is valid, and near every block in the index, also while an operation is rolled back |
| ImplicitProducer.ProducerIndex.constructor | pando-rt/src/concurrentqueue.hpp:2423-2429 | an index without blocks, or none if its allocation fails |
| ImplicitProducer.ProducerIndex.NewBlockIndex | pando-rt/src/concurrentqueue.hpp:2966-3008 | copies the circle from its oldest slot, appends unused entries, keeps the contents, and fails without effect |
| ImplicitProducer.TakenIsLive | pando-rt/src/concurrentqueue.hpp:2908-2911 | the test of the slot after the tail finds it taken exactly if the block a whole circle ago is still in the index |
| ImplicitProducer.ProducerIndex.InsertBlockIndexEntry | pando-rt/src/concurrentqueue.hpp:2901-2933 | succeeds exactly when the block a whole circle ago is gone or the index can grow, and then has doubled exactly in the latter case; the entry is at home, all other blocks stay |
| ImplicitProducer.ProducerIndex.StoreKey | pando-rt/src/concurrentqueue.hpp:2913-2913 | the key alone leaves a valid index with the same other blocks, as if the tail had moved back |
| ImplicitProducer.ProducerIndex.StoreTail | pando-rt/src/concurrentqueue.hpp:2914-2914 | the tail follows, and nothing else changes |
| ImplicitProducer.ProducerIndex.RewindBlockIndexTail | pando-rt/src/concurrentqueue.hpp:2935-2939 | takes the last number back and keeps the contents |
| ImplicitProducer.ProducerIndex.EntryFor | pando-rt/src/concurrentqueue.hpp:2941-2964 | finds the entry and block of every element index in the index, also when element indices wrap |
| ImplicitProducer.ProducerIndex.Release | pando-rt/src/concurrentqueue.hpp:2599-2608 | a consumer's release removes exactly its block |
| ImplicitProducer.ProducerIndex.EnqueueBlock | pando-rt/src/concurrentqueue.hpp:2495-2538 | adds exactly the new block, or leaves the contents as they were; fails exactly when the sub-queue is full, or the index or the block cannot be had |
| ImplicitProducer.ProducerIndex.EnqueueBlocks | pando-rt/src/concurrentqueue.hpp:2639-2699 | adds all blocks or none; all of them exactly when, block by block, the sub-queue is not full, the block can be had, and the index can double wherever the block a whole circle ago is still there |
| ImplicitProducer.ProducerIndex.RollBack | pando-rt/src/concurrentqueue.hpp:2668-2676 | undoes a partial bulk insertion exactly, finding each entry while the tail moves back under the lookups |
| IndexRuns.StepKeepsInv | pando-rt/src/concurrentqueue.hpp:2901-3008 | every step of the producer (testing a slot, key, tail, block, rewinding, giving back, publishing a larger index) and of any consumer (header, tail, key, block, marking, clearing) keeps the invariant |
| IndexRuns.RunsAreSafe | pando-rt/src/concurrentqueue.hpp:2559-2608 | in every run of one producer and any consumers with claimed elements: every lookup, however its loads interleave with the producer's steps, ends at the entry that holds its block, takes the block the producer stored and clears that entry alone; both assertions on keys hold; every published element not yet taken is found by a lookup now; and nothing else stays in the index: an emptied block is cleared, by one consumer |
| IndexRuns.LookGetsCloser | pando-rt/src/concurrentqueue.hpp:2798-2869 | every step of a consumer brings it closer to the end of its batch: three to find the first block, three for each block |
| IndexRuns.InsertionCompletes | pando-rt/src/concurrentqueue.hpp:2901-2933 | an undisturbed producer inserts a block by one test, one growth where the slot is taken, and three stores |
| IndexRuns.GiveUpEnds | pando-rt/src/concurrentqueue.hpp:2658-2676 | a producer that gives up has soon given back all its operation added, and touched nothing else |
| IndexRuns.KeyIsNear | pando-rt/src/concurrentqueue.hpp:2958-2962 | a key read by a consumer is within half the index range of its block, whatever happened between its loads |
| IndexRuns.OnwardOk | pando-rt/src/concurrentqueue.hpp:2798-2862 | in a bulk dequeue the next slot of the header loaded at the start is the slot of the next block of the batch |
| QueueRuns.ClaimIsEnabled | pando-rt/src/concurrentqueue.hpp:2567-2572 | what the protocol lets a consumer claim is published and nobody else's, so the index machine's guard on claims always holds |
| QueueRuns.StepKeepsInv | pando-rt/src/concurrentqueue.hpp:2551-2619 | every step of the whole sub-queue keeps both invariants, and each consumer looks up its own batch in order |
| QueueRuns.RunsAreSafe | pando-rt/src/concurrentqueue.hpp:2551-2879 | in every run of one producer and any single and bulk consumers: the counters, the claims and the elements are as the protocol promises, every lookup finds its block, a dequeue returns after taking its whole batch, and no consumer is ever stuck |
| QueueRuns.QuietIndex | pando-rt/src/concurrentqueue.hpp:2551-2879 | with no call under way the taken elements are those below the head, every block in the index has an element at or above it, and every such element's block is found |
| Probing.PolynomialIsTriangular | include/pando-lib-galois/containers/hashtable.hpp:262-267 | the 64-bit product, wrap-around included, is the triangular number modulo every power-of-two capacity |
| Probing.ProbesDistinct | include/pando-lib-galois/containers/hashtable.hpp:271-286 | the first capacity probes from any start slot are pairwise distinct |
| Probing.ProbesCover | include/pando-lib-galois/containers/hashtable.hpp:276-283 | and so they visit every slot |
| Probing.CoversIffPowerOfTwo | include/pando-lib-galois/containers/hashtable.hpp:258-261 | triangular numbers reach every slot exactly for powers of two |
| Probing.AnyCapacityCovered | include/pando-lib-galois/containers/hashtable.hpp:262-286 | with the product wrapping at 2^64, the probes of any capacity reach every slot before the counter wraps |
| Probing.OtherCapacityMisses | include/pando-lib-galois/containers/hashtable.hpp:262-286 | for a capacity that is no power of two the first 2^32 probes miss some slot |
| HashTable.SearchEnds | include/pando-lib-galois/containers/hashtable.hpp:276-283 | a free slot ends every search, for any capacity |
| HashTable.SearchEndsInTime | include/pando-lib-galois/containers/hashtable.hpp:274-283 | for a power of two, within capacity probes |
| HashTable.SlowSearch | include/pando-lib-galois/containers/hashtable.hpp:274-283 | for any other capacity, some table has a free slot and a key whose search its first 2^32 probes do not end |
| HashTable.EndInTimeIffPowerOfTwo | include/pando-lib-galois/containers/hashtable.hpp:258-286 | up to 2^32 slots, all searches with a free slot end within capacity probes exactly for powers of two |
| HashTable.SearchFinds | include/pando-lib-galois/containers/hashtable.hpp:271-286 | the slot a search ends at is occupied exactly if the key is in the table, and then holds its value |
| HashTable.InsertKeepsTable | include/pando-lib-galois/containers/hashtable.hpp:288-299 | an insertion leaves every entry where its search ends |
| HashTable.InsertUpdatesContents | include/pando-lib-galois/containers/hashtable.hpp:288-299 | an insertion is a map update |
| HashTable.FillsUpIffNoRoom | include/pando-lib-galois/containers/hashtable.hpp:203-216 | as many puts of new keys as there are slots can all find the table below its limit and fill it exactly if capacity and load limit leave no room; and then the search for any other key never ends |
| HashTable.NeverFills | include/pando-lib-galois/containers/hashtable.hpp:203-216 | with room, no run of puts that does not grow the table fills it |
| HashTable.DefaultLimitFillsFour | include/pando-lib-galois/containers/hashtable.hpp:256-256 | with the default limit, four puts fill a table that was resized to four slots |
| HashTable.SevenEighthsLeaveRoom | include/pando-lib-galois/containers/hashtable.hpp:256-256 | limits up to 7/8, so also the default 0.8, leave room from capacity 8 on |
| HashTable.FullTableNeverEnds | include/pando-lib-galois/containers/hashtable.hpp:276-283 | in a full table no probe ends the search for a missing key |
| HashTable.NextCapacity | include/pando-lib-galois/containers/hashtable.hpp:204-209 | growing keeps room, and keeps the capacity a power of two |
| HashTable.EndlessSearch | include/pando-lib-galois/containers/hashtable.hpp:276-283 | a search that the first 2^64 - 1 probes do not end is for an absent key in a full table, and never ends |
| HashTable.ProbeFor | include/pando-lib-galois/containers/hashtable.hpp:271-286 | ends at the first slot that is free or holds the key, within capacity probes for a power of two with a free slot; does not end exactly for an absent key in a full table |
| HashTable.BufferInsert | include/pando-lib-galois/containers/hashtable.hpp:288-299 | updates the map, and reports whether the key was there |
| HashTable.HashTable.constructor | include/pando-lib-galois/containers/hashtable.hpp:36-39 | an empty table; limits above 1 or below 0.001 become 0.8 |
| HashTable.HashTable.Initialize | include/pando-lib-galois/containers/hashtable.hpp:116-127 | forgets the contents, with at least 8 slots, rounded up to a power of two, and fails exactly if these cannot be had; the element count stays, so the table is valid exactly if that was zero |
| HashTable.HashTable.Resize | include/pando-lib-galois/containers/hashtable.hpp:140-171 | for any capacity: keeps the map and the size; grows to just that, or fails exactly if it cannot be had; the Error return is never taken |
| HashTable.HashTable.Put | include/pando-lib-galois/containers/hashtable.hpp:203-216 | always ends, in any valid table: a map update, with the size its cardinality; doubles exactly when the table is over its limit, and fails exactly if it then cannot; room and powers of two are kept |
| HashTable.HashTable.Get | include/pando-lib-galois/containers/hashtable.hpp:175-187 | map lookup; does not end exactly for an absent key in a full table |
| HashTable.HashTable.Contains | include/pando-lib-galois/containers/hashtable.hpp:190-200 | map membership; does not end exactly for an absent key in a full table |
| HashTable.HashTable.Clear | include/pando-lib-galois/containers/hashtable.hpp:219-226 | the empty map, with size zero |
| HashTable.HashTable.Deinitialize | include/pando-lib-galois/containers/hashtable.hpp:134-137 | the empty map in an empty buffer |
| PowersOfTwo.Up2 | pando-rt/include/pando-rt/utility/math.hpp:32-35 | the least power of two above its argument |
| PowersOfTwo.Log2Floor | pando-rt/include/pando-rt/utility/math.hpp:21-23 | the exponent of the largest power of two not above its argument |
| HostAssignment.GreedyIsNearOptimal | src/wmd_graph_importer.cpp:30-47 | no host gets more than 4/3 - 1/(3m) times the heaviest host of any assignment to m hosts |
| HostAssignment.LargeJobFits | src/wmd_graph_importer.cpp:30-47 | a count above a third of the optimum is placed within the optimum |
| HostAssignment.GreedyIsBalanced | src/wmd_graph_importer.cpp:30-47 | any two hosts differ by at most the largest count |
| HostAssignment.HostsPartitionJobs | src/wmd_graph_importer.cpp:41-44 | the loads of all hosts add up to all counts |
| HostAssignment.Iteration | src/wmd_graph_importer.cpp:31-46 | one iteration places the next virtual host on a least loaded host and keeps the table, the mapping and the sums in step |
| HostAssignment.Assign | src/wmd_graph_importer.cpp:18-47 | the loop is a largest-first greedy placement with exact sums |
| HostAssignment.BuildVirtualToPhysicalMapping | src/wmd_graph_importer.cpp:8-52 | every virtual host is mapped, numEdges is the exact sum of the counts mapped to each host, any two hosts differ by at most the largest count, and none exceeds 4/3 - 1/(3m) times the best |
| EdgeExchange.Normal | src/edge_exchange.cpp:46-49 | the line's edge, smaller endpoint first |
| EdgeExchange.EdgesAreConserved | src/edge_exchange.cpp:189-262 | each edge is on exactly one host, as many times as there are hosts whose input contains it |
| EdgeExchange.DealtTo | src/edge_exchange.cpp:160-163 | the virtual host at a position goes to the host of that position modulo the number of hosts, and to no other |
| EdgeExchange.ShareSizes | src/edge_exchange.cpp:160-163 | the lists of virtual hosts differ in length by at most one |
| EdgeExchange.Balanced | src/edge_exchange.cpp:134-163 | dealt in ascending order, any two hosts' totals differ by at most the largest size, uneven tails included |
| EdgeExchange.FinalListsAreBalanced | src/edge_exchange.cpp:127-166 | so do the lengths of any two final edge lists |
| EdgeExchange.ReceivedOccurs | src/edge_exchange.cpp:250-258 | what a host receives contains each edge of its virtual hosts once for every input with that edge |
| ExchangeStages.HashVertexToVhost | src/edge_exchange.cpp:26-28 | the remainder with the dividend's sign: a bucket exactly for vertices that are not negative or are multiples |
| ExchangeStages.GetVhostEdges | src/edge_exchange.cpp:33-70 | bucket v holds each undirected non-self-loop edge whose smaller endpoint hashes to v, once; fails exactly if some edge's bucket number is negative |
| ExchangeStages.NegativeVertex | src/edge_exchange.cpp:26-28 | an edge between -1 and 2 has no bucket among two |
| ExchangeStages.Exchange.GetVhostData | src/edge_exchange.cpp:72-92 | a host delivers its buckets and their sizes in its own part of the flat arrays and touches no other; fails exactly if an edge has no bucket |
| ExchangeStages.Exchange.ReadLocalEdgeLists | src/edge_exchange.cpp:100-109 | in any order of the hosts, every part is delivered, or some host's input has an edge without a bucket |
| ExchangeStages.Exchange.ReduceMetadata | src/edge_exchange.cpp:111-124 | the reduced counts are the sums over all hosts, and the flags are reset |
| ExchangeStages.Exchange.SortMetadata | src/edge_exchange.cpp:127-149 | a permutation of the virtual hosts in ascending order of their counts |
| ExchangeStages.Exchange.AssignVhosts | src/edge_exchange.cpp:151-166 | a host takes every hosts-th virtual host from its own number on |
| ExchangeStages.Exchange.LaunchAssignVhosts | src/edge_exchange.cpp:168-187 | in any order, all hosts hold their share |
| ExchangeStages.Exchange.BuildEdgesToSend | src/edge_exchange.cpp:189-218 | a host's buffer holds, for each host, that host's virtual hosts' lists from its own buckets |
| ExchangeStages.Exchange.EdgeExchangeTask | src/edge_exchange.cpp:243-262 | a host's final list is everything sent to it, in order |
| ExchangeStages.Exchange.Run | src/edge_exchange.cpp:94-282 | from any inputs: all edges with the same smaller endpoint end on one host, each as often as inputs contain it, and the lists are balanced within the largest virtual host; fails exactly if an edge has no bucket |
| MergeRound.MergeHeads | include/pando-lib-galois/containers/dist_array.hpp:240-251 | the loop that keeps both heads in locals takes the lesser one each time; its look-ahead is through a null pointer exactly if the second run ends at the capacity and some element of the first is not less than any of the second |
| MergeRound.OutlastsStep | include/pando-lib-galois/containers/dist_array.hpp:243-250 | taking the lesser head does not change whether the first run outlasts the second |
| MergeRound.MergeRuns | include/pando-lib-galois/containers/dist_array.hpp:237-257 | the two-pointer loop writes exactly the merge of its two runs and nothing else |
| MergeRound.InBoundsIsExact | include/pando-lib-galois/containers/dist_array.hpp:227-236 | a round's ranges all end within a capacity exactly if the last pair of runs begins within it |
| MergeRound.RunRound | include/pando-lib-galois/containers/dist_array.hpp:225-258 | in any order of the threads, a round merges each active thread's pair and leaves the rest of the target alone, or fails exactly if a range does not end within both arrays |
| MergeRound.DisjointWrites | include/pando-lib-galois/containers/dist_array.hpp:227-237 | threads write disjoint ranges |
| MergeRound.SafeRoundDoubles | include/pando-lib-galois/containers/dist_array.hpp:222-263 | a safe round doubles the sorted runs |
| MergeRound.SafeRoundPermutes | include/pando-lib-galois/containers/dist_array.hpp:222-263 | a safe round keeps the elements |
| MergeRound.WorksIffSafe | include/pando-lib-galois/containers/dist_array.hpp:222-263 | a round does its job on all contents exactly when the last run is not empty or the runs in use pair up |
| MergeRounds.FinalSorts | include/pando-lib-galois/containers/dist_array.hpp:221-263 | if the runs fit the size, the rounds leave a sorted permutation |
| MergeRounds.Restored | include/pando-lib-galois/containers/dist_array.hpp:230-237 | with three empty runs one round spoils the last run, and the next, which drops it, restores it |
| MergeRoundsExact.SortsIffFits | include/pando-lib-galois/containers/dist_array.hpp:221-263 | the rounds sort every input exactly when the runs fit the size |
| MergeRoundsExact.BadInput | include/pando-lib-galois/containers/dist_array.hpp:230-237 | if they do not fit and two or more runs are empty, an explicit array of zeros and ones is not sorted |
| RoundAccesses.AccessesFitIsExact | include/pando-lib-galois/containers/dist_array.hpp:221-263 | every range of every round of the loop ends within a capacity exactly if the last pair of runs of the first round begins within it |
| RoundAccesses.LookAheadIsExact | include/pando-lib-galois/containers/dist_array.hpp:243-250 | some contents make some round look ahead through a null pointer exactly if some round has a range that ends at the capacity of the buffer it loads from |
| RoundAccesses.NothingToSpare | include/pando-lib-galois/containers/dist_array.hpp:243-250 | if neither buffer has an element to spare, that is exactly if there is a round |
| DistSort.SortRuns | include/pando-lib-galois/containers/dist_array.hpp:204-220 | in any order, the per-thread sorts leave every run sorted, with its own elements |
| DistSort.MergeThreads | include/pando-lib-galois/containers/dist_array.hpp:186-190 | the largest power of two not above the thread count |
| DistSort.SubSize | include/pando-lib-galois/containers/dist_array.hpp:191-198 | the runs hold all elements |
| DistSort.FitsInProducts | include/pando-lib-galois/containers/dist_array.hpp:191-198 | the exact condition in terms of run length, number of runs and size |
| DistSort.SortsIffSortsAll | include/pando-lib-galois/containers/dist_array.hpp:184-266 | for all contents of the array and of the scratch buffer the array comes out sorted with its own elements, exactly if the runs fit the size |
| DistSort.SomeContentsFail | include/pando-lib-galois/containers/dist_array.hpp:184-266 | otherwise there are contents of both that do not |
| DistSort.SixOnEight | include/pando-lib-galois/containers/dist_array.hpp:230-236 | six elements of capacity eight on eight threads: some contents come out unsorted |
| DistSort.NineOnEight | include/pando-lib-galois/containers/dist_array.hpp:227-236 | nine elements on eight threads would be sorted, but a range ends at 12 |
| DistSort.FourOnTwo | include/pando-lib-galois/containers/dist_array.hpp:243-250 | four elements on two threads, with no element to spare, are sorted with a load through a null pointer |
| DistSort.DistArray.MergeRounds | include/pando-lib-galois/containers/dist_array.hpp:221-263 | the loop with its buffer swap leaves the rounds' result in the array, or fails exactly if the accesses do not fit; it reports exactly the look-aheads past the capacity |
| DistSort.DistArray.Sort | include/pando-lib-galois/containers/dist_array.hpp:184-266 | the array is the result of the rounds on its sorted runs and, under the exact condition, a sorted permutation of its first size elements; fails exactly if the scratch buffer cannot be had or the accesses do not fit |
| MemoryLayout.Align | pando-rt/src/memory.cpp:12-27 | with 64-bit wrap-around: the next multiple and what space it leaves, or no change when it does not fit |
| MemoryLayout.MaskedRoundUp | pando-rt/src/memory.cpp:18-19 | the masked expression is the next multiple, modulo the word size |
| MemoryLayout.SoundIffFits | pando-rt/src/memory_resources.cpp:142-189 | the buckets are in order, disjoint, aligned, inside the buffer, with the bump bucket ending at its end, exactly when everything fits |
| MemoryLayout.SoundOrAborts | pando-rt/src/memory_resources.cpp:61-105 | if the slabs fit, the constructor aborts exactly when the rest does not fit |
| MemoryLayout.L2SPFits | pando-rt/src/memory_resources.cpp:142-160 | every L2SP buffer above ten times its metadata and padding fits, at any address |
| MemoryLayout.MainFits | pando-rt/src/memory_resources.cpp:162-189 | likewise for main memory |
| MemoryLayout.Share | pando-rt/src/memory_resources.cpp:34-55 | a slab bucket is the largest whole number of slabs within its fraction of the buffer |
| MemoryLayout.MainShares | pando-rt/src/memory_resources.cpp:163-183 | what a million bytes of main memory are split into |
| MemoryLayout.OverflowGoesUnnoticed | pando-rt/src/memory_resources.cpp:64-104 | once the slabs have run past the buffer, the free list and bump steps do not abort |
| MemoryLayout.SlabsCanOverflow | pando-rt/src/memory_resources.cpp:35-50 | a concrete buffer whose slabs run past its end without an abort |
| MemoryLayout.MemoryBucket.AlignStartAndRound | pando-rt/src/memory_resources.cpp:34-50 | places a slab bucket, or aborts |
| MemoryLayout.MemoryBucket.InitializeFreeList | pando-rt/src/memory_resources.cpp:61-77 | places the free-list bucket, or aborts |
| MemoryLayout.MemoryBucket.InitializeBump | pando-rt/src/memory_resources.cpp:87-105 | gives the rest to the bump bucket, or aborts |
| MemoryLayout.L2SPBreakdown | pando-rt/src/memory_resources.cpp:142-160 | the constructor computes the layout |
| MemoryLayout.MainBreakdown | pando-rt/src/memory_resources.cpp:162-189 | the constructor computes the layout |
| AddressMap.Get | pando-drv/api/DrvAPIAddressMap.hpp:46-49 | mask and shift read exactly the field's bits |
| AddressMap.Set | pando-drv/api/DrvAPIAddressMap.hpp:51-55 | masks and shifts write exactly the field's bits |
| AddressMap.GetOther | pando-drv/api/DrvAPIAddressMap.hpp:73-90 | writing a field leaves the fields apart from it alone |
| AddressMap.PhysicalBits | pando-drv/api/DrvAPIAddressMap.cpp:13-42 | where each of the 64 bits of a physical address comes from, for all four kinds |
| AddressMap.GlobalBits | pando-drv/api/DrvAPIAddressMap.hpp:234-254 | where each bit of a scratchpad address made global comes from |
| AddressMap.GlobalThenPhysical | pando-drv/api/DrvAPIAddressMap.hpp:234-254 | globalising at a place and translating from any observer is translating at that place |
| AddressMap.GlobalOnce | pando-drv/api/DrvAPIAddressMap.hpp:234-254 | globalising is idempotent |
| AddressMap.DecodeEncode | pando-drv/api/DrvAPIAddressMap.hpp:263-279 | a physical address gives back kind, place and offset |
| AddressMap.SamePhysical | pando-drv/api/DrvAPIAddressMap.cpp:13-42 | two addresses share a physical address exactly when kind, resolved place and offset agree |
| AddressMap.AddThenPhysical | pando-drv/api/DrvAPIAddressMap.cpp:13-42 | adding k within the offset field adds k to the physical address |
| AddressMap.Address.Translate | pando-drv/api/DrvAPIAddressMap.cpp:13-42 | the field-by-field assignments compute the translation |
| AddressMap.ToGlobalRaises | pando-drv/api/DrvAPIAddressMap.hpp:234-254 | the exception is raised exactly for control registers whose global and not-scratchpad bits are both clear |
| AddressMap.MakeGlobal | pando-drv/api/DrvAPIAddressMap.hpp:234-254 | the field-by-field assignments compute the global address, or the exception |
| HeapInit.StepKeepsInv | pando-drv/api/DrvAPIAllocator.cpp:27-59 | every atomic operation of init and allocate keeps: at most one winner, and blocks packed from the winner's heap base |
| HeapInit.RunsAreSafe | pando-drv/api/DrvAPIAllocator.cpp:27-59 | in every interleaving the base is stored once, before any init returns; blocks follow the statics without a gap, each the least number of whole words that holds what was asked for, with no byte in two callers' hands, and aligned if the section is |
| HeapInit.SoloInit | pando-drv/api/DrvAPIAllocator.cpp:27-52 | a lone init returns after one load if the heap is initialised, and else after initialising it |
| HeapInit.InitProgresses | pando-drv/api/DrvAPIAllocator.cpp:49-53 | a thread still in init never waits in vain |
| ChunkedCopy.Transfer | pando-rt/src/global_ptr.cpp:169-176 | one block size: whole blocks are copied while they fit |
| ChunkedCopy.TransferAll | pando-rt/src/global_ptr.cpp:178-185 | a plain n-byte copy in n / 128 + popcount(n mod 128) requests |
| ChunkedCopy.TopBit | pando-rt/src/global_ptr.cpp:179-185 | the block sizes take the bits of the remainder off one by one |
| ChunkedCopy.Load | pando-rt/src/global_ptr.cpp:166-186 | a plain copy to the native buffer |
| ChunkedCopy.Store | pando-rt/src/global_ptr.cpp:270-290 | a plain copy from the native buffer |
| ChunkedCopy.BulkMemcpy | pando-rt/src/global_ptr.cpp:353-358 | a plain copy, also between overlapping ranges |
| LargeTransfers.RequestsByDivision | pando-drv/element/SSTRISCVSimulator.cpp:617-617 | the number of requests |
| LargeTransfers.RequestAt | pando-drv/element/SSTRISCVSimulator.cpp:614-631 | the requests follow each other without a gap, each as large as allowed but the last, which ends with the range |
| LargeTransfers.ReadRequests | pando-drv/element/SSTRISCVSimulator.cpp:625-630 | the requests issued |
| LargeTransfers.JoinedInOrder | pando-drv/element/SSTRISCVSimulator.cpp:625-630 | in request order the answers make up the data |
| LargeTransfers.Reassembled | pando-drv/element/SSTRISCVSimulator.hpp:156-162 | sorted by address, any arrival order makes up the data |
| LargeTransfers.LargeReadHandler.RecvRsp | pando-drv/element/SSTRISCVSimulator.hpp:148-165 | collects responses, and calls the continuation with their joined data when the last has arrived |
| LargeTransfers.ReadBuffer | pando-drv/element/SSTRISCVSimulator.cpp:614-631 | for every arrival order the continuation is called once with exactly the bytes asked for, and never for none |
| CoreScheduler.DrvCore.SelectReadyThread | pando-drv/element/DrvCore.cpp:482-518 | the ready thread closest after the last one, or none if no thread is ready |
| CoreScheduler.DrvCore.HandleThreadStateAfterYield | pando-drv/element/DrvCore.cpp:537-596 | stage, phase, completion and termination of a yield |
| CoreScheduler.DrvCore.ExecuteReadyThread | pando-drv/element/DrvCore.cpp:520-535 | executes the selected thread, or counts an idle cycle |
| CoreScheduler.DrvCore.ClockTick | pando-drv/element/DrvCore.cpp:617-633 | a tick is a step of the runs below |
| CoreScheduler.ReadyThreadIsExecuted | pando-drv/element/DrvCore.cpp:482-535 | a thread that can resume throughout as many ticks as there are threads is executed in one of them |
| CoreScheduler.TickBringsCloser | pando-drv/element/DrvCore.cpp:487-489 | a tick that executes another thread brings a ready thread closer |
| CoreScheduler.EndsWhenAllTerminated | pando-drv/element/DrvCore.cpp:585-600 | done_ is the number of threads that have not terminated, and the end is allowed exactly when all have |
| CoreScheduler.ClockRuns | pando-drv/element/DrvCore.cpp:617-633 | the clock stays registered while a thread can resume |
| CoreScheduler.Tallies | pando-drv/element/DrvCore.cpp:517-585 | in every run, stage, phase, idle cycles and last thread are what the past events say: the stage set last, the phase steps modulo the maximum, the ticks since a thread was executed |
| CoreScheduler.ThreadStep | pando-drv/element/DrvCore.cpp:536-585 | an executed thread can resume at once exactly if it set a stage or began a phase; a completed request lets its thread resume; other threads are left alone |
| CoreScheduler.ClockStops | pando-drv/element/DrvCore.cpp:617-633 | a tick unregisters the clock exactly if all threads have terminated or the maximum of idle ticks in a row is reached |

## Left out

- Weak memory: all concurrent models are sequentially consistent, so the memory orderings and fences of the queue are not captured.
- Exceptions from element constructors and assignments, thread-exit listeners, the implicit-producer hash, the explicit producer's block index, and the queue's destructor.
- DequeueProtocol.RunsAreSafe: moves a batch's elements out in one step, because a claimed range belongs to its consumer alone, and indices are naturals; the two circular lemmas relate them to wrapping words.
- ImplicitProducer.ProducerIndex.NewBlockIndex: allocation fails beyond 2^60 elements' worth of index slots, which is past any real memory; without a bound, keys could be more than half the 64-bit range apart.
- IndexRuns.RunsAreSafe: claims have a guard, which `QueueRuns.RunsAreSafe` discharges; a block's count of taken elements is a set of them; the producer may give up or publish at any time, which allows more runs than the code has. Its loads of what only it writes go with the step after them.
- QueueRuns.RunsAreSafe: a bulk dequeue of at most 0 elements claims nothing, and the lookup that the code makes for it all the same is left out.
- Constructing, moving and destroying the queue's elements, and the blocks' own emptiness counters.
- HashTable.HashTable.Put: takes the load factor as an exact fraction instead of rounded floats; the iterator over entries is left out.
- HostAssignment.BuildVirtualToPhysicalMapping: sums are naturals (no 64-bit overflow), allocation failures are left out, and the caller's array is not reordered in place, as the sort works on a copy.
- ExchangeStages.Exchange.Run: stops at an edge without a bucket, as C++ leaves a negative subscript undefined; tasks of one stage run one after the other in any order, which is enough because they write only their own parts; files are sequences of edges, and the reduction starts when all parts are delivered.
- DistSort.DistArray.Sort: the arrays are flat, so DistArray's block arithmetic is left out; what a null pointer access does is left open, so the model stops at one within a run and goes on after a look-ahead, whose value is not used.
- MemoryLayout.L2SPBreakdown: bucket ratios are exact fractions instead of rounded floats.
- The slab, free-list and bump allocators themselves, and the allocate and deallocate chains over them.
- AddressMap.SamePhysical: control registers are excluded, because translation drops their offset.
- HeapInit.RunsAreSafe: addresses are naturals, so running out of the 64-bit range is not captured.
- LargeTransfers.ReadBuffer: memory does not change between a request and its response, and addresses do not wrap; large writes, which only count their responses, are left out.
- ChunkedCopy.Load: the native bypass and the PREP backend are left out.
- CoreScheduler.DrvCore.ClockTick: statistics and the phase report are left out, and so is the core's own timing of memory and nops.
- Termination detection in `waitAll`, RISC-V instruction semantics, file and ELF reading, system calls, tracing, GASNet nodes and coroutine switching.
