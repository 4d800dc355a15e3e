# A Dafny model of jemalloc's core, the event log codecs and libcutils maps

The project models the parts of the repository that keep several structures in agreement while they are changed
in place, and proves what every operation, every run and every interleaving keeps.

- **Arena runs** (`SizeClasses`, `ArenaState`, `ArenaPages`, `ArenaZero`, `PageMap`, `ArenaRuns`, `ArenaAlloc`,
  `ArenaOps`, `ArenaPurge`, `Arena`). An abstract state lists the runs of every chunk; `ArenaState.Inv` says that they tile
  the chunks, that neighbours which could be merged are merged, that `runs_avail` and `runs_dirty` hold exactly the runs
  they should, and that `nactive` and `ndirty` are exact, with the chunks that the cache holds. The methods work on the
  page map and the arena's fields, step by step as `arena.c` does, and are proved to keep the page map in agreement with
  the runs. Each says exactly when it refuses, and, in the terms of `ArenaPages`, what happens to every single page: which
  are held, free, dirty and decommitted. `ArenaZero` adds which pages the unzeroed bits take to be zero: an operation adds
  only pages that a hook or the chunk layer says are zero, so memory that is asked for as zero is zero. `Arena.dfy` puts
  the operations on one object.
- **Chunk extents** (`Extents`). A pool of free address space with its two indexes, recycling and recording.
- **Cuckoo hash** (`Ckh`). Arrays of cells, eviction chains, rebuild, grow and shrink.
- **Heap profile contexts** (`Prof`, `ProfDump`, `ProfCounts`, `ProfLost`). One action per critical section; lookups,
  destructions and one dump at a time interleave freely. A failed table insertion has the effect that `Ckh` proves it to
  have.
- **Small bins** (`Bins`). One step per stretch of code between two points where `bin->lock` is dropped.
- **Thread cache flush** (`Tcache`), **quarantine** (`Quarantine`), **small run layout** (`Layout`, `RunSizes`), **decay clock** (`Decay`).
- **Event log** (`EventList`, `EventWriter`, `EventReader`), **pmsg files** (`Pmsg`), **hash map** (`Hashmap`) and **parameter
  strings** (`StrParms`).
- `Basics` and `Arith` hold what several modules share.

Several predicates are wrapped as `forall key :: Open(key) ==> ...`. This is the predicate itself; the wrapping keeps the
solver from expanding it where it is only passed along, and `assert Open(0)` expands it. A few modules have a mark of
their own for the same purpose.

What the environment decides is a parameter: whether memory is granted, what chunk hooks answer, random draws, clocks,
and where a thread is interrupted. `assert` and `not_reached` of the source are proved or, where they can fail, are outcomes
or have their exact condition.

Findings that a reader of the code may not expect:

- A failed `ckh_insert` has lost an item, and if the table has not grown it is always an old one: the new one is in the
  table; after it has grown it can be the new one (`Ckh.Table.Insert`). Its callers in `prof.c` then free the new object. `ProfLost.UnsafeRun` is a run
  from the start that goes on to use a freed context. Every such failure can be continued to one
  (`ProfLost.FirstLossIsUnsafe`), and without one every run is safe (`ProfDump.RunsAreSafe`).
- A profile lookup that gives up on a context which it found leaves its limbo count up. The counts are exact if and only if
  that never happened (`ProfDump.LimboExactIff`), such a context is never freed (`ProfDump.AbandonedForever`), and
  `ProfDump.LeakingRun` is a run that ends with one.
- `arena_stash_dirty` subtracts what it stashed from `ndirty`, which has fallen by as much already. So in decay mode the
  difference can wrap around and everything is purged, against the comment on `arena_purge_to_limit`
  (`ArenaPurge.DecayOvershoots`, exactly when: `ArenaPurge.PurgeKeepsLimitIff`), or it stops early
  (`ArenaPurge.DecayStopsShort`); in ratio mode one call may not reach the limit (`ArenaPurge.PurgeReachesLimitIff`), and
  the callers call it again.
- The comment that `runcur` refers to the oldest non-full run does not hold under interleaving; `Bins.CurrentNotFirst` is a run
  of two threads that breaks it and `Bins.AlwaysFirstIff` says exactly in which runs it holds.
- Best fit over extents returns a large enough extent for every tree exactly when the size is a size class
  (`Extents.BestFitAdequateIff`), and `chunk_recycle` fails its assertion exactly when the one it chose is too small.
- `bin_info_run_size_calc` computes a run without a region exactly if a region with its redzones does not fit into the
  largest run (`Layout.RunSizeCalc`, `Layout.NoRegion`); with the chunk sizes that the options allow it fits
  (`Layout.AlwaysARegion`). Its other assertions hold for the small classes too (`Layout.MaxRegsIff`, `RunSizes.RunIsClass`).
- The event writer accepts messages that do not read back: those with a list of more than 127 elements, whose count the
  reader takes for negative, and those of two or more elements with one level of nesting too many
  (`EventReader.MessageReadsBackIff`). After truncating a string the writer's position is beyond the payload.

## Model

| member | source | states |
|---|---|---|
| `SizeClasses.FloorSpec` | jemalloc-android11-platform-release/src/arena.c:119-145 | the floor is the largest padded class that fits |
| `SizeClasses.FloorIdempotent` | jemalloc-android11-platform-release/src/arena.c:119-145 | quantizing twice is quantizing once |
| `SizeClasses.FloorMonotone` | jemalloc-android11-platform-release/src/arena.c:119-145 | larger runs quantize no lower |
| `SizeClasses.CeilSpec` | jemalloc-android11-platform-release/src/arena.c:156-178 | the ceiling is the smallest padded class that is enough |
| `SizeClasses.HeapIndexSound` | jemalloc-android11-platform-release/src/arena.c:1104-1119 | every run indexed at or above the request's heap is large enough |
| `SizeClasses.HeapIndexComplete` | jemalloc-android11-platform-release/src/arena.c:1104-1119 | the heaps searched hold every adequate run if and only if the size quantizes to itself |
| `ArenaState.SplitRemoveInv` | jemalloc-android11-platform-release/src/arena.c:381-421 | taking pages off a free run keeps tiling, indexes, ring and counters |
| `ArenaState.AbsorbInv` | jemalloc-android11-platform-release/src/arena.c:2006-2096 | merging a free neighbour into a freed run keeps the invariant |
| `ArenaState.AttachInv` | jemalloc-android11-platform-release/src/arena.c:2119-2193 | putting a coalesced run back keeps the invariant, given that no neighbour could still be merged |
| `ArenaState.DropSpareInv` | jemalloc-android11-platform-release/src/arena.c:729-782 | discarding the spare chunk keeps the invariant; the chunk joins the cache if the cache takes it |
| `ArenaState.RetireInv` | jemalloc-android11-platform-release/src/arena.c:784-808 | an entirely free chunk can become the spare and leaves the size index |
| `ArenaState.ReviveInv` | jemalloc-android11-platform-release/src/arena.c:548-568 | the spare chunk comes back into the size index |
| `ArenaState.AddChunkInv` | jemalloc-android11-platform-release/src/arena.c:652-707 | a new chunk, which the cache does not hold, is one free run |
| `ArenaState.CacheInsertInv` | jemalloc-android11-platform-release/src/arena.c:256-266 | an extent that joins the cache counts as dirty |
| `ArenaState.CacheRemoveInv` | jemalloc-android11-platform-release/src/arena.c:268-277 | an extent that leaves the cache no longer does; `ndirty` is at least its pages |
| `ArenaState.DirtyEnough` | jemalloc-android11-platform-release/src/arena.c:231-247 | `ndirty` is at least the pages of any run in the dirty ring |
| `ArenaState.RunsDisjoint` | jemalloc-android11-platform-release/src/arena.c:381-546 | no two runs share a page, and none covers a header page |
| `ArenaState.PagesCovered` | jemalloc-android11-platform-release/src/arena.c:381-546 | every page after the header belongs to a run |
| `ArenaState.PagesConserved` | jemalloc-android11-platform-release/src/arena.c:354-379 | active pages and free pages add up to all pages of all chunks; `ndirty` without the cache is between nothing and the free pages |
| `ArenaPages.CutMoved` | jemalloc-android11-platform-release/src/arena.c:381-421 | taking pages off a run changes how exactly those pages are counted |
| `ArenaPages.FuseMoved` | jemalloc-android11-platform-release/src/arena.c:2006-2096 | merging two runs of one kind changes the count of no page |
| `ArenaPages.DropMoved` | jemalloc-android11-platform-release/src/arena.c:729-782 | a chunk that leaves takes exactly its own pages away |
| `ArenaZero.RekindClear` | jemalloc-android11-platform-release/src/arena.c:2143-2158 | writing the map entries of one run makes no page count as zero, if a clean run keeps its unzeroed bits |
| `ArenaZero.CutClear` | jemalloc-android11-platform-release/src/arena.c:400-421 | nor does cutting a run |
| `ArenaZero.FuseClear` | jemalloc-android11-platform-release/src/arena.c:2006-2096 | nor does merging runs |
| `ArenaZero.ZeroRun` | jemalloc-android11-platform-release/src/arena.c:449-476 | the pages that are cleared: none of a decommitted run, all of a dirty one, and of a clean one exactly those with an unzeroed bit |
| `ArenaZero.FreeClearFrom` | jemalloc-android11-platform-release/src/arena.c:423-492 | what is held, and may have been written to, does not come to count as zero when it is freed |
| `PageMap.NextTag` | jemalloc-android11-platform-release/src/arena.c:2006-2096 | the map entry after a run tells exactly whether the next run is free with the same flags, and its size |
| `PageMap.PrevTagOf` | jemalloc-android11-platform-release/src/arena.c:2006-2096 | the map entry before a run tells the same about the previous run |
| `ArenaRuns.RunSplitRemove` | jemalloc-android11-platform-release/src/arena.c:381-421 | the page map, the indexes and the counters follow the split; the remainder stays free with the same flags and unzeroed bits |
| `ArenaRuns.RunSplitLarge` | jemalloc-android11-platform-release/src/arena.c:423-508 | exactly the first pages are taken, as a large run that is dirty if they were, and no other page changes; if the memory is to be zero, every page is cleared or counted as zero; a failed commit changes nothing |
| `ArenaRuns.RunSplitSmall` | jemalloc-android11-platform-release/src/arena.c:510-546 | exactly the first pages become a small run whose pages are numbered; a failed commit changes nothing |
| `ArenaRuns.CoalesceForward` | jemalloc-android11-platform-release/src/arena.c:2006-2052 | afterwards the next run cannot be merged; live runs, and which pages are free, dirty, decommitted or taken to be zero, are the same |
| `ArenaRuns.CoalesceBackward` | jemalloc-android11-platform-release/src/arena.c:2053-2096 | afterwards neither neighbour can be merged; live runs and pages are the same |
| `ArenaRuns.SpareDiscard` | jemalloc-android11-platform-release/src/arena.c:729-782 | exactly the pages of the spare leave; its dirty pages no longer count, and the whole chunk does if the cache takes it |
| `ArenaRuns.ChunkDalloc` | jemalloc-android11-platform-release/src/arena.c:784-808 | the chunk is the only spare and the former one has left, for the cache if it was recorded; live runs and all other pages are the same; the first and the last map entry of the chunk agree on every flag |
| `ArenaRuns.RunDalloc` | jemalloc-android11-platform-release/src/arena.c:2119-2193 | exactly the freed run leaves the live runs and nactive; its pages are free, dirty if the caller dirtied them or they were dirty and are neither cleaned nor decommitted, and lie in a run with those flags, in the dirty ring if dirty; no other page changes; a chunk left as one free run becomes the spare and the former spare leaves; ndirty changes by exactly the pages and the share of the former spare; no page comes to count as zero |
| `ArenaRuns.FreedLies` | jemalloc-android11-platform-release/src/arena.c:2160-2175 | every page of the freed run lies in a free run with its flags, which is in the dirty ring if and only if it is dirty |
| `ArenaRuns.FreedCounts` | jemalloc-android11-platform-release/src/arena.c:2172-2183 | the number of dirty pages follows, with the share of a spare that leaves |
| `ArenaAlloc.RunFirstBestFit` | jemalloc-android11-platform-release/src/arena.c:1104-1119 | returns, of the first non-empty heap at or above the request's index, the run in the oldest chunk and there the lowest |
| `ArenaAlloc.BestFitSound` | jemalloc-android11-platform-release/src/arena.c:1104-1119 | what best fit returns is a free run that is large enough |
| `ArenaAlloc.BestFitSmallest` | jemalloc-android11-platform-release/src/arena.c:1104-1119 | no adequate run is of a smaller class |
| `ArenaAlloc.BestFitComplete` | jemalloc-android11-platform-release/src/arena.c:1104-1119 | for an exact request, no result means that no free run is large enough |
| `ArenaAlloc.BestFitUnique` | jemalloc-android11-platform-release/src/arena.c:1104-1119 | there is at most one best fit |
| `ArenaAlloc.CacheMaybeRemove` | jemalloc-android11-platform-release/src/arena.c:268-277 | the extent leaves the cache and its pages the dirty count, and the assertion holds |
| `ArenaAlloc.TakeFromCache` | jemalloc-android11-platform-release/src/arena.c:585-651 | a chunk taken from a larger cached extent leaves the rest in the cache |
| `ArenaAlloc.InitPageMap` | jemalloc-android11-platform-release/src/arena.c:652-707 | the map of a fresh chunk describes one free run; unless the chunk is zero or not committed every page is marked unzeroed |
| `ArenaAlloc.ChunkInitHard` | jemalloc-android11-platform-release/src/arena.c:652-727 | a chunk from outside joins as one free run; one from the cache is no longer in it; its pages count as zero only if the chunk is zero or not committed |
| `ArenaAlloc.ChunkInitSpare` | jemalloc-android11-platform-release/src/arena.c:548-568 | the spare is available again |
| `ArenaAlloc.RunAllocHelper` | jemalloc-android11-platform-release/src/arena.c:1121-1130 | the best fit is split for the request; there is no result if and only if there is no best fit or it cannot be committed, and then nothing changes |
| `ArenaAlloc.RunAlloc` | jemalloc-android11-platform-release/src/arena.c:1132-1208 | the run handed out was not live before, its pages are taken from a free run and no other page changes, also when the lock is dropped for a new chunk and other threads change the arena; it is the best fit if that can be used, else from the spare, else from a new chunk, else the best fit of a second search; refused if and only if none of these serves; the chunks, the spare and the cache change accordingly; memory that is to be zero is cleared wherever it did not count as zero |
| `ArenaAlloc.RunTrimHead` | jemalloc-android11-platform-release/src/arena.c:2195-2234 | exactly the leading pages are freed, dirty if the run was, and the rest is the allocation; no chunk comes or goes |
| `ArenaAlloc.RunTrimTail` | jemalloc-android11-platform-release/src/arena.c:2236-2279 | exactly the trailing pages are freed, dirty if the caller says so or the run was, and the front is the allocation |
| `ArenaAlloc.RunInitLarge` | jemalloc-android11-platform-release/src/arena.c:503-508 | the page map is rewritten for the trimmed run; committing cannot fail there; memory that is to be zero is cleared wherever it did not count as zero |
| `ArenaAlloc.PallocLarge` | jemalloc-android11-platform-release/src/arena.c:2701-2787 | the run handed out has the requested size and alignment; it is cut out of the run that the allocation of the larger size chooses, the rest of which is free again and as dirty as it was; refused exactly if the larger run is; no free page comes to count as zero |
| `ArenaOps.RallocLargeShrink` | jemalloc-android11-platform-release/src/arena.c:3054-3089 | exactly the tail of the allocation is freed, as dirty |
| `ArenaOps.FitUsize` | jemalloc-android11-platform-release/src/arena.c:3117-3124 | the largest permitted size class that fits into the room |
| `ArenaOps.RallocLargeGrow` | jemalloc-android11-platform-release/src/arena.c:3091-3189 | grows in place to the largest permitted class that fits into the following free run, and exactly those pages are taken; the run is dirty if either part was; errs if and only if that is too short, gains nothing or cannot be committed, and then nothing changes; new pages that are to be zero are |
| `ArenaPurge.DirtyTotal` | jemalloc-android11-platform-release/src/arena.c:1528-1560 | `ndirty` is the sum over the elements of the dirty ring |
| `ArenaPurge.StashRun` | jemalloc-android11-platform-release/src/arena.c:1607-1643 | a dirty run is taken out as if allocated, with all its pages and no others |
| `ArenaPurge.StashDirty` | jemalloc-android11-platform-release/src/arena.c:1562-1652 | stashes a prefix of the ring, up to where the limit stops it; `ndirty` falls by exactly what is stashed |
| `ArenaPurge.PurgeKeepsLimitIff` | jemalloc-android11-platform-release/src/arena.c:1800-1809 | in decay mode `ndirty` stays at or above the limit if and only if the computed difference falls between zero and the limit at some element |
| `ArenaPurge.PurgeReachesLimitIff` | jemalloc-android11-platform-release/src/arena.c:1800-1809 | in ratio mode `ndirty` falls to the limit if and only if no earlier element brings the computed difference there |
| `ArenaPurge.DecayOvershoots` | jemalloc-android11-platform-release/src/arena.c:1584-1587 | an arena of four cached chunks, and a limit of one chunk below which everything is purged |
| `ArenaPurge.DecayStopsShort` | jemalloc-android11-platform-release/src/arena.c:1584-1587 | the same arena and a limit for which less is purged than it allows |
| `ArenaPurge.RatioFallsShort` | jemalloc-android11-platform-release/src/arena.c:1645-1648 | the same arena and a limit above which ratio mode leaves it |
| `ArenaPurge.PurgeRun` | jemalloc-android11-platform-release/src/arena.c:1685-1744 | a stashed run is marked clean or decommitted, with all its pages; they count as zero only if the hooks say so |
| `ArenaPurge.PurgeStashed` | jemalloc-android11-platform-release/src/arena.c:1654-1756 | as many pages are purged as the elements have, and only the flags of the stashed runs change |
| `ArenaPurge.UnstashPurged` | jemalloc-android11-platform-release/src/arena.c:1758-1798 | exactly the stashed runs are given back and coalesced; their pages are free and clean, or decommitted, and no page becomes dirty; chunks that leave are those of former spares, for the cache or for good |
| `ArenaPurge.FinishPurge` | jemalloc-android11-platform-release/src/arena.c:1835-1848 | from any state that other threads leave, as much is purged as was stashed, exactly the stashed runs are given back, and they are free and not dirty; ndirty changes only by the share of chunks that leave |
| `ArenaPurge.PurgeToLimit` | jemalloc-android11-platform-release/src/arena.c:1809-1848 | the first elements of the ring, up to where the limit stops, are purged: their runs are out of the ring and their pages free and not dirty, their extents out of the cache, and ndirty falls by their pages but for the share of chunks that leave meanwhile; no allocation is disturbed, and only pages that the hooks left zero come to count as zero |
| `ArenaPurge.PurgedLies` | jemalloc-android11-platform-release/src/arena.c:1794-1795 | a purged page lies in a free run that is not dirty, unless its chunk has left |
| `ArenaPurge.NoShare` | jemalloc-android11-platform-release/src/arena.c:1809-1848 | if no chunk leaves, ndirty falls by exactly the pages of the purged elements |
| `ArenaObject.Arena.constructor` | jemalloc-android11-platform-release/src/arena.c:3535-3644 | a new arena holds nothing and is consistent |
| `ArenaObject.Arena.Register` | jemalloc-android11-platform-release/src/arena.c:570-583 | a chunk that the arena takes over brings its serial number |
| `ArenaObject.Arena.MallocLarge` | jemalloc-android11-platform-release/src/arena.c:2618-2679 | hands out a new run of the size, the best fit if that can be used, or nothing exactly if the arena is exhausted for it; no other page changes; zero memory, if asked for, is cleared wherever it did not count as zero |
| `ArenaObject.Arena.AllocSmallRun` | jemalloc-android11-platform-release/src/arena.c:1176-1208 | the same for a small run of a bin |
| `ArenaObject.Arena.AlignedAlloc` | jemalloc-android11-platform-release/src/arena.c:2701-2787 | the same, at a multiple of the alignment; what is trimmed is free again |
| `ArenaObject.Arena.Free` | jemalloc-android11-platform-release/src/arena.c:2119-2193 | exactly this run is no longer held; its pages are free and dirty, in the dirty ring; ndirty rises by them, with the share of a spare that leaves; a chunk left as one free run is the spare |
| `ArenaObject.Arena.Shrink` | jemalloc-android11-platform-release/src/arena.c:3054-3089 | the run is shorter, exactly its tail is free and dirty, all else is as before |
| `ArenaObject.Arena.Grow` | jemalloc-android11-platform-release/src/arena.c:3091-3189 | the run is longer by the largest permitted class, or nothing changes, exactly if it cannot grow; exactly the pages after it are taken |
| `ArenaObject.Arena.Purge` | jemalloc-android11-platform-release/src/arena.c:1809-1848 | as `ArenaPurge.PurgeToLimit`, with what clients hold unchanged |
| `ArenaObject.Arena.Stash` | jemalloc-android11-platform-release/src/arena.c:1562-1652 | what is stashed, as far as the limit says, is held in addition, by nobody else, and its extents are no longer cached |
| `ArenaObject.Arena.Unstash` | jemalloc-android11-platform-release/src/arena.c:1654-1798 | after any operations of others, exactly the stashed runs are no longer held, and their pages are free and not dirty |
| `Extents.QuantizeSpec` | jemalloc-android11-platform-release/src/extent.c:10-26 | quantizing gives the largest class that is at most the size |
| `Extents.BestFitAdequateIff` | jemalloc-android11-platform-release/src/chunk.c:189-198 | best fit is large enough for every tree if and only if the size is a size class |
| `Extents.BestFitTooSmall` | jemalloc-android11-platform-release/src/chunk.c:189-198 | a concrete tree and size for which it is too small |
| `Extents.FitIsAdequate` | jemalloc-android11-platform-release/src/extent.c:55-70 | with class sizes the quantized order decides adequacy; larger extents are never ordered lower |
| `Extents.Pool.FirstBestFit` | jemalloc-android11-platform-release/src/chunk.c:189-198 | of the extents whose quantized size is no less than the request's, the one with the least quantized size, then the oldest, then the lowest; or there is none |
| `Extents.Pool.RecordForward` | jemalloc-android11-platform-release/src/chunk.c:510-571 | the range and the next extent, if it touches, is committed alike and the hook agrees, become one extent in place: its serial number is the least of the two, it is zeroed exactly if both are; otherwise the range is inserted, unless no node is had; the space grows by exactly the range |
| `Extents.Pool.RecordBackward` | jemalloc-android11-platform-release/src/chunk.c:572-604 | the same with the previous extent; the space is the same |
| `Extents.RecordedFlags` | jemalloc-android11-platform-release/src/chunk.c:510-604 | recording says of no address that it is zeroed if it was not, and keeps for each whether it is committed |
| `Extents.CutFlags` | jemalloc-android11-platform-release/src/chunk.c:240-300 | cutting a range out keeps the flags of every address, taken or left |
| `Extents.Pool.Record` | jemalloc-android11-platform-release/src/chunk.c:510-604 | the range and exactly the extents that it may merge with become one extent with the least serial number, zeroed exactly if all are; the others are as before; no address counts as zeroed that did not, and each is committed as before; lost if and only if there is no node and nothing to merge with; with agreeing hooks nothing mergeable remains |
| `Extents.Pool.Carve` | jemalloc-android11-platform-release/src/chunk.c:240-300 | what is taken out and what stays are disjoint, make up the old space, and carry the serial number and flags of the extent |
| `Extents.Pool.TakeOut` | jemalloc-android11-platform-release/src/chunk.c:240-328 | up to where the lock is dropped: the range is taken, with the serial number and flags of its extent, if and only if no hook that is needed refuses; otherwise nothing changed, or what is to be recorded again is out of the pool and known |
| `Extents.Pool.TakeFrom` | jemalloc-android11-platform-release/src/chunk.c:240-328 | every path that gives up puts the space back, except for a failed node allocation; no address counts as zeroed that did not |
| `Extents.Pool.RecycleAt` | jemalloc-android11-platform-release/src/chunk.c:225-328 | the assertion on the chosen extent fails if and only if it does not hold the size at the alignment |
| `Extents.Pool.Recycle` | jemalloc-android11-platform-release/src/chunk.c:200-328 | the chunk is cut from the one candidate, with its serial number and flags, and if it counts as zeroed every address did; the pool keeps the flags of what is left; address space is conserved on every path, the result is aligned, at the given address if there is one; it succeeds if and only if there is a candidate, large enough, and no hook refuses; the assertion fails if and only if the candidate is too small, never for class sizes |
| `Ckh.BucketSearch` | jemalloc-android11-platform-release/src/ckh.c:52-65 | finds the key's cell, or no cell of the bucket has the key |
| `Ckh.TryBucketInsert` | jemalloc-android11-platform-release/src/ckh.c:91-116 | fills one empty cell of the bucket and counts it, or the bucket is full and nothing changes |
| `Ckh.EvictOnce` | jemalloc-android11-platform-release/src/ckh.c:140-192 | one eviction: the item drawn goes to its other home if there is room, and the new item stays where it is; a cycle if and only if that home is where the chain began; from a bucket that no item can leave it is a cycle |
| `Ckh.TurnDecides` | jemalloc-android11-platform-release/src/ckh.c:156-191 | a cycle if and only if the other home of the item drawn is the bucket where the chain began, and placed if and only if that home is another and has room |
| `Ckh.EvictRelocInsert` | jemalloc-android11-platform-release/src/ckh.c:124-193 | table plus item in hand is the old table plus the new item, which is in the table; every eviction of the chain is of the item drawn, to its other home; if the first item drawn has room there, it is placed |
| `Ckh.EscapableKept` | jemalloc-android11-platform-release/src/ckh.c:124-193 | an eviction from a bucket that can be left leads to a bucket that can be left |
| `Ckh.TryInsert` | jemalloc-android11-platform-release/src/ckh.c:195-218 | the item is placed in a home with room, else a chain starts from the home drawn; the count follows |
| `Ckh.TriedRoom` | jemalloc-android11-platform-release/src/ckh.c:195-218 | if a home has room, or the item drawn first has another home with room, the attempt places the item |
| `Ckh.TriedTrapped` | jemalloc-android11-platform-release/src/ckh.c:195-218 | an item whose only home is full of items without another evicts the one drawn and ends in a cycle |
| `Ckh.Rebuild` | jemalloc-android11-platform-release/src/ckh.c:224-245 | a finished rebuild holds exactly the old items, and the count, zeroed and counted up again, is restored; it fails only if, with some of the items in, both homes of the next are full and the chain from there ends in a cycle; a bucketful of items never fails |
| `Ckh.KeysApart` | jemalloc-android11-platform-release/src/ckh.c:459-481 | no two cells hold the same key |
| `Ckh.SizedOnce` | jemalloc-android11-platform-release/src/ckh.c:372-386 | there is one smallest size |
| `Ckh.SizeFor` | jemalloc-android11-platform-release/src/ckh.c:372-386 | the smallest table that is at most three quarters full with the expected items |
| `Ckh.Table.Create` | jemalloc-android11-platform-release/src/ckh.c:350-405 | an empty table of that size, or none exactly if memory is refused |
| `Ckh.Table.Find` | jemalloc-android11-platform-release/src/ckh.c:70-89 | found if and only if the key is stored |
| `Ckh.Table.Search` | jemalloc-android11-platform-release/src/ckh.c:515-532 | returns the stored pair, or the key is not stored |
| `Ckh.Table.Iter` | jemalloc-android11-platform-release/src/ckh.c:439-457 | each call yields the next item, so that a full iteration yields the contents |
| `Ckh.Table.SwapIn` | jemalloc-android11-platform-release/src/ckh.c:280-294 | the new table has the same contents, or table and size are as before and the rebuild jammed; the count is kept through it |
| `Ckh.Table.Grow` | jemalloc-android11-platform-release/src/ckh.c:247-300 | a larger table with the same contents, and every smaller size jammed; or no change and memory was refused for the first that did not; a bucketful of items needs one step |
| `Ckh.Table.Shrink` | jemalloc-android11-platform-release/src/ckh.c:302-348 | half the size with the same contents, or no change if and only if memory was refused or the rebuild jammed |
| `Ckh.Table.TryAdd` | jemalloc-android11-platform-release/src/ckh.c:195-218 | what is left over is an item the table lacks; after an eviction cycle it is an old one, and the new one is in; if a home, or the other home of the item drawn, has room, it is placed |
| `Ckh.Table.Retry` | jemalloc-android11-platform-release/src/ckh.c:471-476 | one turn: a larger table and another attempt, or no change and memory was refused |
| `Ckh.Table.Insert` | jemalloc-android11-platform-release/src/ckh.c:459-481 | adds the item, at once and in the same table if a home has room or the first item drawn has another home with room; fails only after a cycle and a refusal of memory, and then loses exactly one item; an old one, with the new one in the table, if the table has not grown; it does fail if the only home of the item is full of items without another; and after the table has grown it can lose the new one |
| `Ckh.Table.Remove` | jemalloc-android11-platform-release/src/ckh.c:483-513 | removes exactly the key's item; the table shrinks exactly if it is less than a quarter full and above its minimum, and a smaller one can be had and built |
| `Prof.LookupIsSafe` | jemalloc-android11-platform-release/src/prof.c:713-829 | no step of a lookup touches freed memory or fails an assertion |
| `Prof.UseIsSafe` | jemalloc-android11-platform-release/src/prof.c:575-711 | nor does any step that counts, rolls back or destroys |
| `Prof.DumpIsSafe` | jemalloc-android11-platform-release/src/prof.c:1040-1293 | nor does any action of the dump; in particular a context to be merged is initializing or nominal |
| `Prof.LookupKeeps` | jemalloc-android11-platform-release/src/prof.c:713-829 | every step of a lookup keeps the invariant, except a failed insertion that loses an old item |
| `Prof.UseKeeps` | jemalloc-android11-platform-release/src/prof.c:575-711 | every step that counts, rolls back or destroys keeps it |
| `Prof.DumpKeeps` | jemalloc-android11-platform-release/src/prof.c:1169-1293 | every action of the dump keeps the invariant |
| `Prof.LocalKeeps` | jemalloc-android11-platform-release/src/prof.c:761-829 | an action that changes one thread, one gctx and one tctx leaves the others' invariants intact |
| `Prof.MergeOneKeeps` | jemalloc-android11-platform-release/src/prof.c:1040-1071 | capturing a context keeps the invariant |
| `Prof.FinishOneKeeps` | jemalloc-android11-platform-release/src/prof.c:1211-1254 | finishing a gctx makes captured contexts nominal, frees those in purgatory and keeps the invariant |
| `ProfDump.SumsAloneKeeps` | jemalloc-android11-platform-release/src/prof.c:1087-1107 | contexts created or destroyed during a dump do not disturb its sums |
| `ProfDump.DumpSumsKept` | jemalloc-android11-platform-release/src/prof.c:1195-1293 | each dump action advances the sums consistently: the grand total is what the captured contexts hold, and the sum of a gctx that is done what those in its tree hold |
| `ProfDump.DumpTotalsAgree` | jemalloc-android11-platform-release/src/prof.c:1564-1592 | the per-backtrace sums add up to the grand total when the dump goes on to write |
| `ProfCounts.ObjectsCounted` | jemalloc-android11-platform-release/src/prof.c:225-257 | in every state of a run the contexts together count exactly the objects sampled and not yet freed |
| `ProfCounts.MergeOneAdds` | jemalloc-android11-platform-release/src/prof.c:1040-1066 | merging a context in use adds its count to the grand total |
| `ProfCounts.DumpReports` | jemalloc-android11-platform-release/src/prof.c:1040-1107 | when a dump goes on to write, the grand total, and the sum of each backtrace, are the counts that the contexts had when the dump came to them |
| `ProfCounts.QuietDumpIsExact` | jemalloc-android11-platform-release/src/prof.c:1564-1592 | if nothing is sampled or freed meanwhile and every thread with objects is visited, the grand total is the number of live sampled objects, and each sum that of the backtrace's contexts |
| `ProfDump.LookupKeysKept` | jemalloc-android11-platform-release/src/prof.c:761-829 | a thread never has two contexts for one backtrace, over all steps of lookups |
| `ProfDump.UseKeysKept` | jemalloc-android11-platform-release/src/prof.c:575-711 | nor over the other steps |
| `ProfDump.RunsAreSafe` | jemalloc-android11-platform-release/src/prof.c:575-829 | in every run every action is safe and every invariant holds, as long as no failed insertion has lost an old item |
| `ProfDump.LimboCounts` | jemalloc-android11-platform-release/src/prof.c:549-609 | nlimbo is the number of holders plus the lookups that failed without giving it back |
| `ProfDump.LimboExactIff` | jemalloc-android11-platform-release/src/prof.c:790-820 | in every state of a run every nlimbo is exactly the threads and dumps that rely on it if and only if no lookup has given up on a gctx it found |
| `ProfDump.AbandonedForever` | jemalloc-android11-platform-release/src/prof.c:790-820 | a gctx that a lookup gave up on stays allocated in every later state, with its nlimbo above what is due |
| `ProfDump.LeakingRun` | jemalloc-android11-platform-release/src/prof.c:790-820 | a run of two threads that ends with nothing in progress and a gctx that no one can free |
| `ProfLost.FirstLossIsUnsafe` | jemalloc-android11-platform-release/src/prof.c:713-829 | every run up to a failed insertion that loses an old item can be continued to a use of a freed object, so the condition of `ProfDump.RunsAreSafe` is exact |
| `ProfLost.LostGctxRun` | jemalloc-android11-platform-release/src/prof.c:736-741 | for an insertion into bt2gctx, by the thread's next lookup of the backtrace |
| `ProfLost.LostTctxRun` | jemalloc-android11-platform-release/src/prof.c:810-820 | for an insertion into bt2tctx, also while a dump holds the lock |
| `ProfLost.DumpLeaves` | jemalloc-android11-platform-release/src/prof.c:1562-1596 | a dump goes on to leave bt2gctx_mtx after such a failure just as it would without it |
| `ProfLost.UnsafeRun` | jemalloc-android11-platform-release/src/prof.c:736-741 | such a run exists from the start, for any number of contexts that fills a bucket |
| `ProfDump.GctxFreedUnused` | jemalloc-android11-platform-release/src/prof.c:575-609 | in every run without such a failure, a destroyed gctx has no linked context, no thread and no table entry that refers to it |
| `ProfDump.TctxFreedUnused` | jemalloc-android11-platform-release/src/prof.c:639-711 | likewise a freed tctx has no sampled object, and nothing refers to it |
| `ProfDump.DumpStartsNominal` | jemalloc-android11-platform-release/src/prof.c:1040-1071 | every dump starts with all linked contexts nominal |
| `ProfDump.NothingLost` | jemalloc-android11-platform-release/src/prof.c:611-711 | likewise, when nothing is in progress every context has live objects and every gctx has contexts or was given up on |
| `Bins.StepIsSafe` | jemalloc-android11-platform-release/src/arena.c:2303-2402 | every step finds its runs allocated and its assertions true; a dissociated run really is in the heap |
| `Bins.GivesUpIff` | jemalloc-android11-platform-release/src/arena.c:2303-2351 | an allocation gives up, or goes for a new run, if and only if no run that is in no thread's hands has a free region |
| `Bins.NeverStuck` | jemalloc-android11-platform-release/src/arena.c:2303-2402 | every thread always has a step to take, and one that allocates is served if some run has a free region |
| `Bins.StepKeeps` | jemalloc-android11-platform-release/src/arena.c:2281-2402 | every step keeps: nfree is exact, and the heap holds exactly the partly used runs other than the current one |
| `Bins.DallocKeeps` | jemalloc-android11-platform-release/src/arena.c:2848-2947 | freeing a region keeps the invariant in each of its cases |
| `Bins.RunsAreSafe` | jemalloc-android11-platform-release/src/arena.c:2303-2402 | the invariant and safety hold in every interleaving |
| `Bins.RegionsConserved` | jemalloc-android11-platform-release/src/arena.c:279-323 | an allocation hands out a region nobody has, a free takes back exactly its region |
| `Bins.NothingStranded` | jemalloc-android11-platform-release/src/arena.c:2848-2914 | at rest every run is in use, and a run with a free region can be found |
| `Bins.CurrentFirstIff` | jemalloc-android11-platform-release/src/arena.c:2893-2914 | the current run stays preferred to all in the heap, except exactly when a run allocated without the lock is installed while the heap holds a preferred one |
| `Bins.HeapRestoresFirst` | jemalloc-android11-platform-release/src/arena.c:2354-2402 | taking the first run of the heap leaves the preferred run current, whatever it was before |
| `Bins.CameMeanwhile` | jemalloc-android11-platform-release/src/arena.c:2303-2402 | any run in the heap at that time came in while the lock was dropped, by a free or a swap, and stayed |
| `Bins.AlwaysFirstIff` | jemalloc-android11-platform-release/src/arena.c:2303-2402 | the current run is preferred in all states of a run if and only if no thread that installs a run was overtaken: while it had dropped the lock a preferred run came into the heap and stayed |
| `Bins.CurrentNotFirst` | jemalloc-android11-platform-release/src/arena.c:2354-2402 | a run of two threads after which a preferred run waits in the heap |
| `Tcache.PassesConserve` | jemalloc-android11-platform-release/src/tcache.c:91-171 | each flushed object is given back exactly once |
| `Tcache.PassesOwned` | jemalloc-android11-platform-release/src/tcache.c:91-171 | a pass is not empty and gives an arena only its own objects |
| `Tcache.PassPerOwner` | jemalloc-android11-platform-release/src/tcache.c:91-171 | the arenas that get a pass are the owners of the objects |
| `Tcache.OnePassPerArena` | jemalloc-android11-platform-release/src/tcache.c:91-171 | no arena gets a second pass |
| `Tcache.TcacheBin.FlushPass` | jemalloc-android11-platform-release/src/tcache.c:126-151 | the arena gets its objects in order, the others are compacted in place in order |
| `Tcache.TcacheBin.OnePass` | jemalloc-android11-platform-release/src/tcache.c:104-152 | fewer objects remain after a pass, and statistics are merged at most once |
| `Tcache.TcacheBin.Flush` | jemalloc-android11-platform-release/src/tcache.c:91-256 | the flush is the passes of the specification, the kept objects stay in order and the request count is merged exactly once |
| `Tcache.TcacheBin.EventHard` | jemalloc-android11-platform-release/src/tcache.c:36-74 | three quarters of the unused objects, the lowest, are given back by owner and the others stay in order; the fill count halves if objects were unused and it would not become zero, and doubles if the cache ran empty |
| `Quarantine.Ringbuffer.DrainOne` | jemalloc-android11-platform-release/src/quarantine.c:96-106 | releases the oldest object |
| `Quarantine.Ringbuffer.Drain` | jemalloc-android11-platform-release/src/quarantine.c:108-114 | the oldest objects are released, as many as bring the bytes within the bound and no more |
| `Quarantine.Ringbuffer.CopyRing` | jemalloc-android11-platform-release/src/quarantine.c:72-88 | the copy of a ring, wrapped or not, keeps the order |
| `Quarantine.Ringbuffer.Grow` | jemalloc-android11-platform-release/src/quarantine.c:61-94 | twice the room and nothing released if memory is granted; otherwise the oldest object is released |
| `Quarantine.Ringbuffer.Add` | jemalloc-android11-platform-release/src/quarantine.c:116-167 | what was released followed by the ring is what was handed in; as many of the oldest are released as the limit asks for, and one more exactly if the buffer is full and cannot be enlarged; an object above the limit is released after all before it |
| `Quarantine.Ringbuffer.Cleanup` | jemalloc-android11-platform-release/src/quarantine.c:169-183 | everything has been released in the order handed in |
| `Layout.PerfectRunSize` | jemalloc-android11-platform-release/src/arena.c:3689-3697 | the least number of whole pages that regions fill exactly |
| `Layout.LayoutContained` | jemalloc-android11-platform-release/src/arena.c:3726-3737 | every region with its redzones lies within the run |
| `Layout.LayoutSpaced` | jemalloc-android11-platform-release/src/arena.c:279-297 | regions with their redzones do not overlap |
| `Layout.LayoutAligned` | jemalloc-android11-platform-release/src/arena.c:3655-3737 | every region is a multiple of the lesser of the page and the largest power of two that divides its size |
| `Layout.RunSizeCalc` | jemalloc-android11-platform-release/src/arena.c:3655-3737 | the whole calculation in closed form: what regions fill exactly or one takes up, cut to the whole pages of the largest run; it holds a region if and only if one with its redzones fits there; only redzones make it grow |
| `Layout.AlwaysARegion` | jemalloc-android11-platform-release/src/arena.c:3726-3726 | it does for small classes, if the largest run has twelve pages |
| `Layout.NoRegion` | jemalloc-android11-platform-release/src/arena.c:3726-3726 | a page size, region size and largest run for which it does not |
| `Layout.MaxRegsIff` | jemalloc-android11-platform-release/src/arena.c:3698-3698 | regions that fill pages exactly are at most RUN_MAXREGS if and only if their size is a multiple of the least tiny class |
| `Layout.TooManyRegs` | jemalloc-android11-platform-release/src/arena.c:3698-3698 | a size for which they are more |
| `RunSizes.ClassForm` | jemalloc-android11-platform-release/include/jemalloc/internal/jemalloc_internal.h.in:760-783 | a size that s2u keeps is at most eight times a power of two |
| `RunSizes.FormIsClass` | jemalloc-android11-platform-release/include/jemalloc/internal/jemalloc_internal.h.in:760-783 | s2u keeps every such size from the quantum on |
| `RunSizes.RunIsClass` | jemalloc-android11-platform-release/src/arena.c:3727-3727 | the size of a run for a small class is a size class |
| `RunSizes.NoClass` | jemalloc-android11-platform-release/src/arena.c:3727-3727 | for a larger one, with redzones, it is not |
| `Decay.LastExtended` | jemalloc-android11-platform-release/src/arena.c:1311-1332 | shifting and clearing the backlog is extending the history, with zeros for skipped epochs |
| `Decay.WeightedOne` | jemalloc-android11-platform-release/src/arena.c:1275-1301 | the pages of one epoch count with the weight of its age |
| `Decay.LimitNeverRises` | jemalloc-android11-platform-release/src/arena.c:1275-1301 | with nondecreasing weights and no pages added the limit never rises |
| `Decay.Clock.Limit` | jemalloc-android11-platform-release/src/arena.c:1275-1301 | the limit is the weighted sum over the last epochs of the history |
| `Decay.Clock.BacklogUpdate` | jemalloc-android11-platform-release/src/arena.c:1303-1332 | the backlog is the tail of the extended history |
| `Decay.Clock.Advance` | jemalloc-android11-platform-release/src/arena.c:1334-1358 | the epoch moves by a positive number of whole intervals to the one that contains the time, and the deadline lies beyond it |
| `Decay.Clock.AdvancePurge` | jemalloc-android11-platform-release/src/arena.c:1360-1368 | what remains is purged if it is above the limit, and remembered |
| `Decay.Clock.EpochAdvance` | jemalloc-android11-platform-release/src/arena.c:1370-1376 | the history gets the pages that became dirty since the last advance |
| `EventList.RoundTripIff` | logging-platform-12.0.0_r1/liblog/log_event_list.cpp:354-535 | an encoded event reads back as its elements if and only if its lists have at most 127 elements and are nested at most eight deep |
| `EventList.ReadsEvent` | logging-platform-12.0.0_r1/liblog/log_event_list.cpp:354-535 | an event inside a message reads as its elements and leaves the reader after it |
| `EventList.ReadsUnreadable` | logging-platform-12.0.0_r1/liblog/log_event_list.cpp:464-514 | an event with a list too deep or too long agrees only up to some element |
| `EventList.ReadStaysInside` | logging-platform-12.0.0_r1/liblog/log_event_list.cpp:354-535 | reading any message stays within it |
| `EventList.PeekIsNext` | logging-platform-12.0.0_r1/liblog/log_event_list.cpp:537-543 | peeking gives the next element and changes nothing |
| `EventList.CompleteIsLast` | logging-platform-12.0.0_r1/liblog/log_event_list.cpp:381-400 | exactly the last element of a message is marked complete |
| `EventList.Unambiguous` | logging-platform-12.0.0_r1/liblog/log_event_list.cpp:354-535 | different events read as different elements |
| `EventList.SignedLE` | logging-platform-12.0.0_r1/liblog/log_event_list.cpp:418-462 | little-endian fields read back with their sign |
| `EventList.WireFormat` | logging-platform-12.0.0_r1/liblog/log_event_list.cpp:133-257 | the bytes of an event: its type, then the number with its low byte first, or a length and the text, or a count and the elements |
| `EventWriter.Writer.constructor` | logging-platform-12.0.0_r1/liblog/log_event_list.cpp:48-80 | an empty message has a list header |
| `EventWriter.Writer.WriteFixed` | logging-platform-12.0.0_r1/liblog/log_event_list.cpp:164-202 | appends and counts the element, or overflows and changes nothing else |
| `EventWriter.Writer.WriteString` | logging-platform-12.0.0_r1/liblog/log_event_list.cpp:204-233 | appends as much as fits; the position is beyond the payload exactly when the string was cut |
| `EventWriter.Writer.ListBegin` | logging-platform-12.0.0_r1/liblog/log_event_list.cpp:133-162 | opens a list, or overflows at the depth or size limit; past the size limit nothing is counted, at the depth limit it is |
| `EventWriter.Writer.ListEnd` | logging-platform-12.0.0_r1/liblog/log_event_list.cpp:259-281 | patches the count into the list's header, or overflows; either way an open list is closed |
| `EventWriter.Writer.WriteEvent` | logging-platform-12.0.0_r1/liblog/log_event_list.cpp:133-281 | the calls for an event that fits append exactly its encoding |
| `EventWriter.Writer.Buffer` | logging-platform-12.0.0_r1/liblog/log_event_list.cpp:318-345 | the message, without the outer list if there is at most one element; an overrun if and only if lists are closed and the position is beyond the payload |
| `EventReader.ReadContext.Next` | logging-platform-12.0.0_r1/liblog/log_event_list.cpp:354-535 | the reading steps in place are those of the specification |
| `EventReader.BuildMessage` | logging-platform-12.0.0_r1/liblog/log_event_list.cpp:318-345 | writing elements and taking the buffer yields their encoding |
| `EventReader.MessageReadsBackIff` | logging-platform-12.0.0_r1/liblog/log_event_list.cpp:133-162 | a written message reads back if and only if it and its lists have at most 127 elements and it has one element or is nested less than eight deep |
| `EventReader.DeepMessageLost` | logging-platform-12.0.0_r1/liblog/log_event_list.cpp:133-162 | a message that can be written and is nested too deep to be read |
| `EventReader.LongMessageLost` | logging-platform-12.0.0_r1/liblog/log_event_list.cpp:259-281 | one whose list is too long |
| `Pmsg.Strnrchr` | logging-platform-12.0.0_r1/liblog/pmsg_writer.cpp:172-180 | the last occurrence after the first character, or the length |
| `Pmsg.ProgressIff` | logging-platform-12.0.0_r1/liblog/pmsg_writer.cpp:224-243 | a fragment fits, and is never empty if and only if a packet has room for two characters |
| `Pmsg.FileWrite` | logging-platform-12.0.0_r1/liblog/pmsg_writer.cpp:183-255 | fragments fit and concatenate to exactly the bytes that the result counts; each but the last ends at the last line break of the packet, or fills it |
| `Pmsg.Collect` | logging-platform-12.0.0_r1/liblog/pmsg_reader.cpp:352-376 | the sorted list holds, for each sequence number, the entry written last |
| `Pmsg.LatestIsLast` | logging-platform-12.0.0_r1/liblog/pmsg_reader.cpp:352-376 | what counts for a sequence number is the last accepted entry that has it, and there is one whenever any entry does |
| `Pmsg.Reassemble` | logging-platform-12.0.0_r1/liblog/pmsg_reader.cpp:381-448 | the buffer is the fragments up to the highest number, with a form feed for each missing one |
| `Pmsg.FileRead` | logging-platform-12.0.0_r1/liblog/pmsg_reader.cpp:352-448 | the same, from the entries in any order |
| `Pmsg.FileRoundTrip` | logging-platform-12.0.0_r1/liblog/pmsg_reader.cpp:381-448 | when all fragments survive the file is read back as written |
| `Hashmap.Map.constructor` | libcutils-android12-release/hashmap.cpp:42-75 | an empty map with more buckets than four thirds of the capacity, and no more than are needed |
| `Hashmap.Map.Get` | libcutils-android12-release/hashmap.cpp:224-237 | looks the key up in the map |
| `Hashmap.Map.Put` | libcutils-android12-release/hashmap.cpp:192-222 | updates the map and returns the old value; only a new key without memory fails; the table doubles exactly if a new key takes it above three quarters and memory is granted |
| `Hashmap.Map.Remove` | libcutils-android12-release/hashmap.cpp:239-259 | removes the key from the map and returns its value |
| `Hashmap.Map.ExpandIfNecessary` | libcutils-android12-release/hashmap.cpp:100-129 | doubling keeps the map, and happens exactly above three quarters if memory is granted |
| `Hashmap.Map.Rehash` | libcutils-android12-release/hashmap.cpp:110-123 | every entry is in its bucket of the larger table, once |
| `Hashmap.Map.ForEach` | libcutils-android12-release/hashmap.cpp:261-274 | every pair is visited exactly once |
| `Hashmap.Map.ForEachWith` | libcutils-android12-release/hashmap.cpp:261-274 | with a callback that removes entries and may stop: pairs are visited once, all of them unless it stops, and exactly those it removed are gone |
| `StrParms.PrintParseIff` | libcutils-android12-release/str_parms.cpp:331-359 | printing and parsing gives the map back if and only if keys are not empty without "=" and ";" and values have no ";" |
| `StrParms.ParseClean` | libcutils-android12-release/str_parms.cpp:139-204 | whatever is parsed has such keys and values |
| `StrParms.PairOfToken` | libcutils-android12-release/str_parms.cpp:158-176 | a token is its key, "=" and its value; one without "=" is a key with an empty value |
| `StrParms.StoreLast` | libcutils-android12-release/str_parms.cpp:154-191 | of the tokens with one key the last is stored |
| `StrParms.TokensSplit` | libcutils-android12-release/str_parms.cpp:154-191 | semicolons separate: each part of a text is read as if it stood alone |
| `StrParms.CreateStr` | libcutils-android12-release/str_parms.cpp:139-204 | none exactly if the map is refused; the parsed pairs, later ones overriding earlier ones, are in the hash map, except those whose entry is refused |
| `StrParms.Del` | libcutils-android12-release/str_parms.cpp:119-126 | exactly the key is removed |
| `StrParms.DelAll` | libcutils-android12-release/str_parms.cpp:128-137 | everything is removed |
| `StrParms.ToStr` | libcutils-android12-release/str_parms.cpp:354-359 | the text is the pairs in the map's order, and parses back exactly for clean maps |

## Left out

- Update in place of page maps: a chunk's page map is a sequence that the methods replace, so aliasing of page map arrays is not captured.
- Red-black trees, pairing heaps, bitmaps and linked chains are sets, sequences and minima under the source's orders.
- Contents of memory below the page: junk filling, and the bytes that `arena_ralloc_large_grow` clears in the last old page.
- The unzeroed bits are proved never to promise too much; that they do not promise too little is not.
- Statistics, Valgrind, logging and formatting of output.
- Huge allocations, `arena_reset`, the dss allocator, mallctl and option parsing.
- Purging: when `arena_maybe_purge` calls it, and the loop of `arena_maybe_purge_ratio` around it, are not modelled.
- ArenaPurge.StashDirty: cached extents are taken to be committed, so that taking them out of the cache cannot fail.
- ArenaPurge.PurgeToLimit: no other thread intervenes; `ArenaPurge.FinishPurge` starts from any state that leaves the stashed runs alone.
- The order of the dirty ring is a parameter of purging; the arena's state keeps its elements only.
- ArenaObject.Arena.MallocLarge: one thread; `ArenaAlloc.AllocRun` has the other threads' effect as a parameter.
- The map entry of the last page of a fresh chunk is exempt from agreement on the decommitted flag, since the source sets it on the first page only.
- ArenaRuns.ChunkDalloc: discards the old spare before it installs the new one, which the source does in the other order under one lock.
- Ckh.EvictRelocInsert: termination of the eviction loop rests on randomness; `fuel` bounds one call and running out of it is a separate outcome.
- Ckh.Table.Insert: says nothing about the table when the eviction loop is still running. Which item a failure loses after the table has grown depends on the random draws: the contract has a case for the new item, and says in general only that one of all is lost.
- ProfDump.RunsAreSafe: ends where a failed insertion loses an old item; what the program does with freed memory is not modelled.
- Prof: `prof_lookup_global` frees the new gctx just after it drops the lock; here both are one step.
- Prof: a dump may pass over any thread's contexts, as it does over those of expired threads.
- Profile accumulation (`opt_prof_accum`), thread data destruction and reset, sampling thresholds and file output.
- Bins: statistics and the junk filling of regions; `arena_run_dalloc` itself is `ArenaRuns.RunDalloc`.
- Extents.Pool.Recycle: other threads may run between giving up and recording the range again; `Extents.Pool.TakeOut` and `Extents.Pool.Record` are proved for any valid pool, and the composition here is one of the possible ones.
- Size arithmetic is unbounded except in `Extents.Pool.Recycle`, `ArenaPurge.StashDirty` and `Decay.Clock.Advance`; sums of sizes are assumed not to wrap elsewhere.
- Layout.RunSizeCalc: requires that a region and a page fit into the largest run, without which its subtractions wrap around.
- RunSizes: `s2u` of sizes above the largest class, which no run has, is not modelled.
- Decay.Clock.EpochAdvance: what purging leaves of the dirty pages is a parameter.
- EventReader.BuildMessage: requires that the encoding fits, so no string is truncated.
- Pmsg.FileWrite: takes the packet length as given and at least one, as the source subtracts from it; the tag and the log entry format are not modelled.
- Pmsg.FileRead: one file at a time; the ordering of several files, prefix filters and failed reallocations are not modelled.
- Hashmap.Map.ForEachWith: the callback may remove the entry that it is called with, as the source allows; other changes by it are not modelled.
- StrParms.CreateStr: the copies of the text that it makes are always granted.
