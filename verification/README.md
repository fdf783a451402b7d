# SimpleSSD, modelled and proved in Dafny

SimpleSSD is a discrete-event simulator of solid-state drives. This project models its layered state machines, from
the flash translation layer to the host's page lists, and proves what each is there to guarantee. Every part comes as
a specification on values, with the theorems about it, and as a class or a method that works step by step, as the C++
does, and is proved to do what the specification says.

| part | files |
|---|---|
| shared by all | Helpers |
| page-mapping FTL with greedy garbage collection | Outcome, Block, FtlSpec, FtlInvariant, FtlTheorems, FtlSpace, FtlLeak, FtlLimits, FtlVictims, FtlRuns, FtlUnshared, FtlMoves, FtlCorrupts, FtlFlash, FtlErasures, Wear, PageMapping |
| set-associative write-back cache | CacheModel, CacheReads, GenericCache, CacheOverFtl |
| DMA FIFO, write and read pipelines | FifoModel, FifoWrite, FifoRead |
| DRAM cycle accounting | DramModel, DramRuns, DramClock, CommandAnalysis |
| flash address conversion | PalModel, PalStripes, PalConvert |
| event engine, host interface, CPU cores | EngineModel, Engine, HilModel, Hil, CpuCore |
| NVMe page list builder | Prp |

`dafny verify dfyconfig.toml` checks everything.

## How to read it

* A panic is a value: an operation returns a result that is either a new state or a fault. The theorems say which
  faults can happen and exactly when; the others are proved unreachable.
* Methods that change state say so in one line, `View() == F(old(View()), ...)`: the class ends where the
  specification function F says. What the source promises is then proved about F, over all states and all runs. The
  FIFO, the host interface and the CPU core keep a ghost history of what arrived and what was called back instead, and
  the invariant of the class relates the two.
* Ticks, counters and sizes are mathematical integers. Bitsets are sets of indices.
* Latencies are inputs: an arbitrary function in the cache and the FIFO, a field of the job in the CPU core. Only
  order and data matter to the theorems.

## What came out

Most promises hold as one would hope. These do not, or not always. For each the project gives the condition that
decides it, for one call or for whole runs, and an input on which it fails:

* A read of a mapped page is silently dropped while its block is still listed in `erased_block_id`. Reading a page
  straight after writing it fails exactly when the write was given a new block that is still listed
  (`FtlLimits.WriteThenRead`). A drive of three two-page blocks gets there in five operations from start-up
  (`FtlRuns.ReadCanBeDropped`).
* The same list makes a lane abandon a recycled block after one page, unless that filled it or another lane holds it.
  Such a block is never written, collected or erased again (`FtlLeak.StrandsExactly`, `FtlLeak.StrandedForever`); on
  the same drive the sixth operation strands one (`FtlRuns.BlockCanBeStranded`).
* `findVictimBlock` sorts one and the same vector on each call, so the victim lists it can produce are exactly those of
  equally light, lightest blocks, in any order and with repetitions (`FtlVictims.ListsIff`). A list with a repetition
  aborts the collection. With room for what these blocks hold, a collection is sure to abort if and only if it asks
  for more victims than there are lightest blocks (`FtlVictims.AbortsForCertainIff`,
  `FtlVictims.RepeatedChoiceAborts`).
* A write hits the panic "Corrupted" exactly when its lane's block is neither in use nor listed as erased
  (`FtlTheorems.WriteKeeps`). A legal run from start-up gets there exactly on the drives with one page per block, three
  lanes or more, more blocks than lanes, and blocks that survive an erasure (`FtlCorrupts.CorruptedIff`, with the few
  drives it leaves open in `FtlCorrupts.Undecided`). The run is built for all of them: every lane takes its turn, one
  block is left, and lanes 0 to 2 hand it round with lane 0's (`FtlCorrupts.PrimedEnds`).
* Under the clean-first policy the read path evicts the first clean way by index, whatever its age; its comment says
  least recently used. The way it picks is the policy's minimum if and only if the first clean way of the set was
  accessed no later than any other clean one (`CacheModel.EvictsMinimumIff`), and there are sets where it was not
  (`CacheModel.EvictsTheYounger`).
* A cache line ends up with what the FTL holds if and only if the FTL does not drop its read; one dropped read is enough
  for cache and FTL to disagree (`CacheOverFtl.FetchedIff`, `CacheOverFtl.FillAgreesIff`,
  `CacheOverFtl.StripeKeeps`).
* A FIFO request larger than the queue is cut, and each piece goes in without a check for room. Whenever a head goes
  in, usage ends up above the capacity if and only if the head was too large for the queue and usage plus one transfer
  unit exceeds the capacity (`FifoWrite.WriteFifo.InsertWrite`, `FifoRead.ReadFifo.TransferRead`). It does so for
  every queue and unit size (`FifoWrite.Overfill`, `FifoRead.Overfill`); while no request that arrived is too large it
  never does (`FifoWrite.WriteFifo.NoLostWakeUp`).
* Cutting a self-refresh into statistics windows is harmless, unless both the last boundary and the exit fall into the
  precharge part of its initial refresh: then `spup_ref_pre_cycles` and `last_pre_cycle` come out too large by what
  the window had booked of that part (`DramRuns.CuttingIsHarmless`, `DramRuns.CutOnce`, `DramRuns.CuttingCanHarm`).
* The host interface loses a wake-up when its queue is empty and a request finishes at the very tick last scheduled,
  as a first request does that finishes at tick 0. Whatever is served later is stuck too, until a request finishes
  before the stuck ones (`HilModel.ArmedIff`, `HilModel.FirstRequestAtZero`, `HilModel.RescuedIff`,
  `HilModel.StuckForever`).

One more is exact as the code uses it, though not by itself: the host interface always reports a served request with
the current tick as its beginning, so requests begin in order and the device busy time is exact
(`HilModel.BusyIsExactInOrder`). Fed out of order it could only come out too small, by exactly the ticks that lie in
earlier idle gaps (`HilModel.BusyIsExactIff`, `HilModel.BusyCanMiss`).

## Model

| member | source | states |
|---|---|---|
| FtlTheorems.RunKeeps | SimpleSSD-Standalone/simplessd/ftl/page_mapping.cc:1824-2134 | for every geometry and over every run of writes, trims and greedy collections the FTL invariant holds and the logical contents are those of a plain map given the same writes and trims; a run can only end early for want of a free block, or, with one page per block and several lanes, because a lane has lost its block |
| FtlTheorems.CollectGarbageKeeps | SimpleSSD-Standalone/simplessd/ftl/page_mapping.cc:1191-1426 | collecting any distinct full blocks leaves the logical contents exactly as they were, no page stays mapped to a victim, every victim leaves the block map, and the panics "Invalid block" and "Invalid mapping table entry" cannot happen; what remains is a shortage of free blocks or a lane that has lost its block |
| FtlSpace.CollectGarbageSucceeds | SimpleSSD-Standalone/simplessd/ftl/page_mapping.cc:1191-1426 | a collection is sure to succeed when there are more free blocks than the victims have valid pages |
| FtlTheorems.CopyPagesKeeps | SimpleSSD-Standalone/simplessd/ftl/page_mapping.cc:1202-1310 | after the page loop over a victim no valid page is left in it, with the deferred reads and writes still to come |
| FtlTheorems.CopyVictimsKeeps | SimpleSSD-Standalone/simplessd/ftl/page_mapping.cc:1191-1318 | the victim loop empties each victim and keeps the contents that the queued I/O will settle |
| FtlTheorems.EraseVictimsKeeps | SimpleSSD-Standalone/simplessd/ftl/page_mapping.cc:1417-1426 | erasing the emptied victims keeps the invariant and the contents; the only failure is inserting into an empty free list |
| FtlTheorems.EraseKeepsPool | SimpleSSD-Standalone/simplessd/ftl/page_mapping.cc:2333-2389 | an erased block returns to the sorted free list once, or is retired once its erase count is reached; the partition of all blocks survives |
| FtlTheorems.InsertPositionSorted | SimpleSSD-Standalone/simplessd/ftl/page_mapping.cc:2356-2385 | the backwards search of the free list inserts a block where the list stays sorted by erase count |
| FtlTheorems.WriteKeeps | SimpleSSD-Standalone/simplessd/ftl/page_mapping.cc:1933-2073 | a write maps its page to the new data, changes no other page, and fails exactly when its lane has lost its block, or needs one and none is free |
| FtlTheorems.TrimKeeps | SimpleSSD-Standalone/simplessd/ftl/page_mapping.cc:2303-2331 | a trim unmaps its page, changes no other, and cannot fail |
| FtlTheorems.ReadReturnsContents | SimpleSSD-Standalone/simplessd/ftl/page_mapping.cc:1719-1815 | a read cannot fail; it returns the contents exactly when the page is mapped and its block is not listed in erased_block_id, and is silently dropped exactly when it is listed |
| FtlTheorems.StartKeeps | SimpleSSD-Standalone/simplessd/ftl/page_mapping.cc:34-85 | start-up succeeds exactly when there is a block for every lane, and yields an empty drive that satisfies the invariant |
| FtlTheorems.BlocksConserved | SimpleSSD-Standalone/simplessd/ftl/page_mapping.cc:2356-2388 | blocks in use, free blocks as counted by nFreeBlocks, and retired ones add up to the whole drive |
| FtlFlash.ErasesBeforeWriting | SimpleSSD-Standalone/simplessd/ftl/page_mapping.cc:1824-2389 | in every legal run each page programmed, by a write or a copy, was erased since it was last programmed; the flash array holds something only in front of the next-write index of a block in use, and nothing in a block just erased |
| FtlFlash.CleanFromStart | SimpleSSD-Standalone/simplessd/ftl/page_mapping.cc:34-85 | so it is in every run from start-up |
| FtlFlash.CollectIsClean | SimpleSSD-Standalone/simplessd/ftl/page_mapping.cc:1191-1426 | the destinations of a collection's copies are distinct erased pages, programmed in order, and the victims hold nothing afterwards |
| FtlErasures.WearIsErasures | SimpleSSD-Standalone/simplessd/ftl/page_mapping.cc:2333-2389 | over every legal run the erase count of a block goes up by exactly the number of collections that list it, and by nothing else; the block is dropped with the erasure that takes it to the threshold, and only then |
| FtlErasures.RetiredForGood | SimpleSSD-Standalone/simplessd/ftl/page_mapping.cc:2333-2389 | a block that has been dropped is never collected again |
| FtlErasures.WearFromStart | SimpleSSD-Standalone/simplessd/ftl/page_mapping.cc:34-85 | from start-up on a block's erase count is the number of collections that have listed it |
| FtlInvariant.GetLastFreeBlockKeeps | SimpleSSD-Standalone/simplessd/ftl/page_mapping.cc:544-582 | a panic "Corrupted" happens exactly when the lane's block is neither in use nor listed as erased, which with two pages per block or a single lane is never; otherwise the only failure is a lane that needs a block while the free list is empty |
| FtlInvariant.LanesTakeTurns | SimpleSSD-Standalone/simplessd/ftl/page_mapping.cc:544-582 | the lanes take turns, one per page; only the lane whose turn it is may get another block, when its own is listed as erased or full; bReclaimMore is set exactly when it was full and not listed |
| FtlInvariant.GetFreeBlockKeeps | SimpleSSD-Standalone/simplessd/ftl/page_mapping.cc:500-542 | a block taken from the free list is blank and not in the map, and the pool stays partitioned |
| FtlInvariant.GetFreeBlockLeastWorn | SimpleSSD-Standalone/simplessd/ftl/page_mapping.cc:507-534 | the block handed to a lane is least worn among the lane's free blocks, or of all when it has none |
| FtlInvariant.ProgramKeeps | SimpleSSD-Standalone/simplessd/ftl/common/block.cc:332-374 | programming an open block at its next-write index cannot panic and keeps pool and lanes |
| FtlInvariant.ProgramMaps | SimpleSSD-Standalone/simplessd/ftl/page_mapping.cc:1984-2016 | mapping the page just programmed keeps table and valid pages in bijection |
| FtlInvariant.InvalidateUnmaps | SimpleSSD-Standalone/simplessd/ftl/page_mapping.cc:1933-1960 | invalidating the old page of an overwritten entry leaves the rest of the bijection intact |
| Blocks.WriteAtNext | SimpleSSD-Standalone/simplessd/ftl/common/block.cc:332-374 | writing at the next-write index of a block with room hits neither of its panics and keeps its bitmaps in step |
| FtlLeak.StrandsExactly | SimpleSSD-Standalone/simplessd/ftl/page_mapping.cc:557-580 | exactly when a write or page copy strands a block (in use, not full, held by no lane), and which block |
| FtlLeak.StrandedForever | SimpleSSD-Standalone/simplessd/ftl/page_mapping.cc:557-580 | a stranded block is lost for good: in every later run it is never written, collected or erased |
| FtlLimits.WriteThenRead | SimpleSSD-Standalone/simplessd/ftl/page_mapping.cc:1719-1800 | reading a page straight after writing it returns the data, unless and only unless the write was given a new block still listed in erased_block_id; the condition is checkable before the write |
| FtlRuns.ReadCanBeDropped | SimpleSSD-Standalone/simplessd/ftl/page_mapping.cc:1792-1797 | a legal run from start-up, on a drive of three two-page blocks, after which a page that is written is not read back |
| FtlRuns.BlockCanBeStranded | SimpleSSD-Standalone/simplessd/ftl/page_mapping.cc:557-580 | one more write strands that page's block for good |
| FtlLimits.CollectGarbageNeedsDistinctVictims | SimpleSSD-Standalone/simplessd/ftl/page_mapping.cc:1191-1426 | a victim list with a repetition always aborts the collection; without one only a shortage of free blocks can, or a lane that has lost its block |
| FtlVictims.ListsIff | SimpleSSD-Standalone/simplessd/ftl/page_mapping.cc:907-968 | the victim lists that calls of findVictimBlock on one vector can produce, however the sort orders ties, are exactly those of lightest blocks |
| FtlVictims.DistinctListIff | SimpleSSD-Standalone/simplessd/ftl/page_mapping.cc:876-889 | n calls can return n different victims if and only if at least n blocks are lightest |
| FtlVictims.RepeatedChoiceAborts | SimpleSSD-Standalone/simplessd/ftl/page_mapping.cc:876-889 | asking this way for more victims than there are lightest blocks always aborts the collection; asking for no more can give a list that only a shortage of free blocks, or a lane that has lost its block, can stop |
| FtlVictims.AbortsForCertainIff | SimpleSSD-Standalone/simplessd/ftl/page_mapping.cc:876-889 | with room for what the lightest blocks hold, the collection is sure to abort if and only if more victims are asked for than there are lightest blocks |
| FtlUnshared.NeverCorrupted | SimpleSSD-Standalone/simplessd/ftl/page_mapping.cc:557-580 | on a drive with no more blocks than lanes, or whose blocks are retired by their first erasure, no legal run from start-up ends in the panic "Corrupted", however few pages a block has |
| FtlCorrupts.CorruptedIff | SimpleSSD-Standalone/simplessd/ftl/page_mapping.cc:544-582 | a legal run from start-up that ends in the panic "Corrupted" exists exactly on the drives with one page per block, three lanes or more, more blocks than lanes, and blocks that survive an erasure; stated for every geometry but those of FtlCorrupts.Undecided |
| FtlCorrupts.PrimedEnds | SimpleSSD-Standalone/simplessd/ftl/page_mapping.cc:544-582 | whatever the numbers of lanes and blocks, once every lane holds a full block of its own, one block of lane 0 is free and lane 0 has just had its turn, some legal run ends in that panic |
| PageMapping.PageMapping.OpenAllLanes | SimpleSSD-Standalone/simplessd/ftl/page_mapping.cc:82-84 | the constructor's loop over lanes, as an in-place loop, does what the start-up function says |
| PageMapping.PageMapping.GetFreeBlock | SimpleSSD-Standalone/simplessd/ftl/page_mapping.cc:500-542 | the in-place list search and removal does what the specification says, from every state |
| PageMapping.PageMapping.GetLastFreeBlock | SimpleSSD-Standalone/simplessd/ftl/page_mapping.cc:544-582 | rotation, replacement of erased and of full blocks, and removal from erased_block_id, as in the specification |
| PageMapping.PageMapping.WritePage | SimpleSSD-Standalone/simplessd/ftl/page_mapping.cc:1933-2073 | writeInternal without its trailing collection refines the specification |
| PageMapping.PageMapping.WriteInternal | SimpleSSD-Standalone/simplessd/ftl/page_mapping.cc:1824-2134 | a write collects garbage if and only if it leaves the ratio of free blocks below the threshold; then from the full blocks with the fewest valid pages, as many as asked for, so that some full block leaves the block map; invariant and contents are those of the write alone, and otherwise the state is exactly that of the write |
| PageMapping.PageMapping.TrimInternal | SimpleSSD-Standalone/simplessd/ftl/page_mapping.cc:2303-2331 | the in-place trim refines the specification |
| PageMapping.PageMapping.ReadInternal | SimpleSSD-Standalone/simplessd/ftl/page_mapping.cc:1719-1815 | the read refines the specification |
| PageMapping.PageMapping.SelectVictimBlock | SimpleSSD-Standalone/simplessd/ftl/page_mapping.cc:779-905 | the greedy choice: distinct full blocks, fewest valid pages first, no other full block with fewer, all of them when there are not enough |
| PageMapping.PageMapping.CopyVictim | SimpleSSD-Standalone/simplessd/ftl/page_mapping.cc:1202-1310 | the page loop over one victim refines the specification |
| PageMapping.PageMapping.EraseBlock | SimpleSSD-Standalone/simplessd/ftl/page_mapping.cc:2333-2389 | erase, retire or re-insert, in place, refines the specification |
| PageMapping.PageMapping.DoQueuedIO | SimpleSSD-Standalone/simplessd/ftl/page_mapping.cc:1395-1415 | all queued reads happen before the queued writes |
| PageMapping.PageMapping.DoGarbageCollection | SimpleSSD-Standalone/simplessd/ftl/page_mapping.cc:1191-1430 | the whole greedy collection refines the specification |
| Wear.CalculateWearLeveling | SimpleSSD-Standalone/simplessd/ftl/page_mapping.cc:2401-2432 | the sums over the block map and the early-stopping reverse loop over the sorted free list are the sums over all blocks, and the factor is at most the ratio of those blocks to the logical ones |
| Wear.WearBound | SimpleSSD-Standalone/simplessd/ftl/page_mapping.cc:2401-2432 | the squared sum of erase counts is at most the number of in-use plus free blocks times the sum of squares |
| Wear.SortedPrefixUnworn | SimpleSSD-Standalone/simplessd/ftl/page_mapping.cc:2414-2422 | in front of a never-erased block of the sorted list there is nothing left to add |
| GenericCache.GenericCache.Read | SimpleSSD-Standalone/simplessd/icl/generic_cache.cc:832-1075 | a read returns what a host must see and leaves every logical address as it was; it is a hit exactly when the address was cached. A hit that triggers no prefetch changes the time stamp and count of the line found and nothing else. A miss without read-ahead puts the address into the one line its set offers, clean, and changes no other; with read-ahead every address of the stripe is cached afterwards if the stripe is no longer than the number of sets. Prefetch trigger and limit are those of the stripe read, and only dirty lines that had to go reach the FTL |
| GenericCache.GenericCache.Write | SimpleSSD-Standalone/simplessd/icl/generic_cache.cc:1323-1512 | after a write the data is in a valid line of the address's set: the one that held it, or the longest-empty way, in a full set after room was made; time stamps, access count and dirty flag are given exactly and no other line changes; the FTL is written at once exactly when the data is longer than a line, a dirty line results exactly when it is not or room had to be made; the result is true exactly when the address was cached or its set had an empty way; a host reads the new data there and the old everywhere else; the panic "Cache corrupted!" is unreachable |
| GenericCache.GenericCache.MakeRoom | SimpleSSD-Standalone/simplessd/icl/generic_cache.cc:1427-1499 | room in a full set: of every I/O position (row, with super pages) that holds a valid line one goes, and without super pages only one; each is the minimum of its position, save at most one that is the minimum of the target set instead, and only when no other of the target set goes; the lines that go are emptied, the others stay, and only dirty ones reach the FTL |
| GenericCache.GenericCache.ListCandidates | SimpleSSD-Standalone/simplessd/icl/generic_cache.cc:1432-1483 | scan, super-page fold and fallback: each I/O position (row) with a valid line has its minimum as candidate, no line is one twice, and one lies in the target set, the fallback being taken only if no minimum does |
| GenericCache.GenericCache.CollectCandidates | SimpleSSD-Standalone/simplessd/icl/generic_cache.cc:1432-1442 | each I/O position's candidate is the policy's minimum over all valid lines that map to it |
| GenericCache.GenericCache.FoldSuperPages | SimpleSSD-Standalone/simplessd/icl/generic_cache.cc:1444-1455 | folding each row onto its last column leaves the minimum of the whole row |
| GenericCache.GenericCache.EvictCache | SimpleSSD-Standalone/simplessd/icl/generic_cache.cc:731-808 | every candidate is written back if dirty and emptied, its time stamps those of its write-back; nothing else changes, evictData is all null again, the FTL changes only at addresses of dirty candidates, and the logical contents stay |
| GenericCache.GenericCache.EvictFunction | SimpleSSD-Standalone/simplessd/icl/generic_cache.cc:149-293 | the policy's first line of a set; under clean-first the first clean way by index, the policy's minimum only among all-dirty ones |
| CacheModel.EvictsMinimumIff | SimpleSSD-Standalone/simplessd/icl/generic_cache.cc:149-293 | no line of the set comes before the one picked, if and only if, under clean-first, the first clean way by index was accessed no later than any other clean one; the condition can be read off the set beforehand |
| CacheModel.EvictsTheYounger | SimpleSSD-Standalone/simplessd/icl/generic_cache.cc:224-244 | a two-way set in which clean-first lets the more recently used line go |
| GenericCache.GenericCache.Compare | SimpleSSD-Standalone/simplessd/icl/generic_cache.cc:166-319 | the compare functions on pointers, null included, pick an argument that the other does not come before |
| GenericCache.GenericCache.GetValidWay | SimpleSSD-Standalone/simplessd/icl/generic_cache.cc:535-551 | the way that holds the address, or waySize exactly when none does |
| GenericCache.GenericCache.GetEmptyWay | SimpleSSD-Standalone/simplessd/icl/generic_cache.cc:473-492 | the longest-empty way, the first of those, or waySize exactly when every way is valid |
| GenericCache.GenericCache.ReadAhead | SimpleSSD-Standalone/simplessd/icl/generic_cache.cc:890-1035 | reading a stripe, or one address, changes nothing a host can read and fetches the value it must see; which addresses are queued, on which lines, and what is in them afterwards is given exactly, and so are prefetch trigger and limit |
| GenericCache.GenericCache.ReserveLines | SimpleSSD-Standalone/simplessd/icl/generic_cache.cc:928-980 | the first loop of a read miss: distinct addresses in order, each with a clean line of its set, even when a reserved line is taken again; over a stretch no longer than the number of sets exactly those not cached, each on the longest-empty way or the one the policy evicts |
| GenericCache.GenericCache.FillLines | SimpleSSD-Standalone/simplessd/icl/generic_cache.cc:982-1020 | the second loop: whatever was queued last for a line is in it, clean, with the FTL's value, and the cache agrees with the FTL again |
| GenericCache.GenericCache.ClaimLine | SimpleSSD-Standalone/simplessd/icl/generic_cache.cc:939-968 | a read takes the longest-empty way of the set, and evicts the policy's choice exactly when no way is empty |
| CacheReads.FetchedAll | SimpleSSD-Standalone/simplessd/icl/generic_cache.cc:928-1016 | after reading a stretch no longer than the number of sets every address of it is cached, one that was not in a clean line just filled |
| CacheReads.FetchedOne | SimpleSSD-Standalone/simplessd/icl/generic_cache.cc:922-1016 | reading a single address that was not cached changes exactly one line |
| CacheModel.ChosenLeave | SimpleSSD-Standalone/simplessd/icl/generic_cache.cc:1427-1499 | what the candidates say about the lines that leave: one for each I/O position, no two share one without super pages, at most one besides the minima |
| CacheModel.FallbackSuffices | SimpleSSD-Standalone/simplessd/icl/generic_cache.cc:1457-1483 | the fallback line may take the place of its position's candidate: every position still has one and no line is one twice |
| CacheModel.WriteBackAddress | SimpleSSD-Standalone/simplessd/icl/generic_cache.cc:465-471 | the I/O position determines the unit, and the address written back, page tag / units and unit row, decodes to exactly the evicted tag |
| CacheModel.FlushKeeps | SimpleSSD-Standalone/simplessd/icl/generic_cache.cc:743-794 | emptying a line after writing it back if dirty keeps cache and FTL in agreement, tags unique and lines in their sets |
| CacheModel.FillKeeps | SimpleSSD-Standalone/simplessd/icl/generic_cache.cc:985-1016 | filling a reserved line from the FTL keeps the agreement |
| CacheModel.StoreKeeps | SimpleSSD-Standalone/simplessd/icl/generic_cache.cc:1360-1424 | a write into a hit or empty line keeps the agreement with the one changed address |
| CacheModel.PolicyIsOrder | SimpleSSD-Standalone/simplessd/icl/generic_cache.cc:166-319 | every compare function is a strict weak order |
| CacheModel.BestFold | SimpleSSD-Standalone/simplessd/icl/generic_cache.cc:1444-1455 | the best of two column ranges' bests is the best of their union |
| CacheOverFtl.StripeKeeps | SimpleSSD-Standalone/simplessd/icl/generic_cache.cc:890-1035 | when the FTL drops none of the reads of a stripe, every line of it is filled with the value a host must see, and cache and FTL agree again |
| CacheOverFtl.FetchedIff | SimpleSSD-Standalone/simplessd/ftl/page_mapping.cc:1719-1815 | a line ends up with what the FTL holds, whatever was in it before, if and only if the FTL's read is not dropped |
| CacheOverFtl.FillAgreesIff | SimpleSSD-Standalone/simplessd/icl/generic_cache.cc:982-1020 | after one fill cache and FTL agree if and only if the read was not dropped, or the line happened to hold the value already |
| CacheOverFtl.StaysBehind | SimpleSSD-Standalone/simplessd/ftl/page_mapping.cc:1824-2134 | through every run the FTL goes on holding what the map holds that the cache takes it for |
| FifoModel.PiecesTile | SimpleSSD-Standalone/simplessd/util/fifo.cc:109-162 | cutting a request of any size ends, and tiles it: contiguous non-empty pieces in order that add up to it, each fitting the queue, exactly the final one marked last; Drain and the invariants of both pipelines say that these are the segments that go through |
| FifoModel.CutExpands | SimpleSSD-Standalone/simplessd/util/fifo.cc:118-140 | a cut that insertion makes is one that the pieces of the whole request foresee |
| FifoModel.CutKeeps | SimpleSSD-Standalone/simplessd/util/fifo.cc:118-140 | cutting one segment in two changes neither the shape of the stream nor the requests it carries |
| FifoModel.CallbacksArePrefix | SimpleSSD-Standalone/simplessd/util/fifo.cc:206-232 | the callbacks made are those of the first requests that arrived, in order and once each; all of them when nothing is left |
| FifoModel.CalcSizeBounds | SimpleSSD-Standalone/simplessd/util/fifo.cc:99-107 | the room a segment takes is at least its size, less than one unit more, and never zero |
| FifoWrite.WriteFifo.NoLostWakeUp | SimpleSSD-Standalone/simplessd/util/fifo.cc:109-232 | usage is the sum over the transfer queue, and within capacity if no request that arrived is larger than the queue; while anything is in flight an event is outstanding; a waiting head faces a really full queue; transfer never begins on an empty queue |
| FifoWrite.WriteFifo.CallbacksInOrder | SimpleSSD-Standalone/simplessd/util/fifo.cc:206-232 | on the write side each request's callback is made exactly once, in order of arrival |
| FifoWrite.WriteFifo.DmaWrite | SimpleSSD-Standalone/simplessd/util/fifo.cc:408-420 | a request joins the stream unless it is empty; one that meets an empty wait queue and fits goes in at once exactly when there is room; every invariant is kept |
| FifoWrite.WriteFifo.InsertWrite | SimpleSSD-Standalone/simplessd/util/fifo.cc:109-162 | the head goes in when there is room for it and no insertion is under way, or cut, without that check, when it is larger than the queue, and otherwise nothing changes; it takes whole transfer units of room, its insertion ends after their latency and the first transfer begins after that of one unit; usage then exceeds the capacity if and only if it was larger and usage plus one unit exceeds it |
| FifoWrite.WriteFifo.InsertWriteDone | SimpleSSD-Standalone/simplessd/util/fifo.cc:164-173 | the head leaves the wait queue and the next one goes in exactly when it may; the transfer side, done segments and callbacks included, is untouched |
| FifoWrite.WriteFifo.TransferWrite | SimpleSSD-Standalone/simplessd/util/fifo.cc:175-187 | the transfer event finds a non-empty queue and keeps the invariant |
| FifoWrite.WriteFifo.TransferWriteDone | SimpleSSD-Standalone/simplessd/util/fifo.cc:189-204 | a transferred segment is done at once or at the tick its insertion plus one unit's time allows |
| FifoWrite.WriteFifo.TransferWriteDoneNext | SimpleSSD-Standalone/simplessd/util/fifo.cc:206-232 | the front segment leaves, its callback is made exactly if it is the last of its request, and exactly then the requests it hands in, but for empty ones, join those that have arrived |
| FifoWrite.WriteFifo.Drain | SimpleSSD-Standalone/simplessd/util/fifo.cc:109-232 | in whatever order the outstanding events fire, everything drains after finitely many: every request accepted is called back, and the segments that went through are exactly the pieces of the requests, in order |
| FifoWrite.Overfill | SimpleSSD-Standalone/simplessd/util/fifo.cc:109-162 | for every queue and unit size one request takes usage above the capacity |
| FifoRead.ReadFifo.ListedIffHalfDone | SimpleSSD-Standalone/simplessd/util/fifo.cc:288-365 | readCompletion holds an id, once, exactly when one of its DMA and its insertion has ended and the other has not |
| FifoRead.ReadFifo.CompleteInOrder | SimpleSSD-Standalone/simplessd/util/fifo.cc:288-393 | read segments complete once each, in order, and only after both halves have ended; callbacks come in order of arrival |
| FifoRead.ReadFifo.NoLostWakeUp | SimpleSSD-Standalone/simplessd/util/fifo.cc:234-393 | as on the write side, with an insertion under way, waiting for its DMA, or about to begin |
| FifoRead.ReadFifo.TransferRead | SimpleSSD-Standalone/simplessd/util/fifo.cc:234-286 | the head's DMA starts, with the next id, when there is room and no other runs, or cut, without that check, when it is larger than the queue, and otherwise nothing changes; insertion begins after the latency of one unit; usage then exceeds the capacity if and only if it was larger and usage plus one unit exceeds it |
| FifoRead.ReadFifo.InsertRead | SimpleSSD-Standalone/simplessd/util/fifo.cc:315-334 | insertion of the front begins unless one is under way, and ends after the latency of the room it takes |
| FifoRead.ReadFifo.TransferReadDone | SimpleSSD-Standalone/simplessd/util/fifo.cc:288-313 | the end of a DMA is recorded with its tick and the time of a unit, and then the next head is tried; or, exactly if the insertion had ended, the segment is done now or that time later |
| FifoRead.ReadFifo.InsertReadDone | SimpleSSD-Standalone/simplessd/util/fifo.cc:336-349 | the end of an insertion is recorded with its tick and the time of a unit; or, exactly if the DMA had ended, the segment is done now or when that time has passed since the end of the DMA |
| FifoRead.ReadFifo.InsertReadDoneMerge | SimpleSSD-Standalone/simplessd/util/fifo.cc:351-365 | the merged segment completes now or at the tick its DMA plus one unit's time allows, its entry leaves the list, and the next insertion begins unless it is due anyway |
| FifoRead.ReadFifo.InsertReadDoneNext | SimpleSSD-Standalone/simplessd/util/fifo.cc:367-393 | the front leaves, its callback is made exactly if it is the last of its request, and exactly then the requests it hands in, but for empty ones, join those that have arrived |
| FifoRead.ReadFifo.SubmitCompletion | SimpleSSD-Standalone/simplessd/util/fifo.cc:367-393 | when the merged segment's time has come it leaves, and no half of any other segment ends |
| FifoRead.ReadFifo.Drain | SimpleSSD-Standalone/simplessd/util/fifo.cc:234-393 | as on the write side: everything drains after finitely many events, every request is called back, and the pieces are those of the requests, in order |
| FifoRead.Overfill | SimpleSSD-Standalone/simplessd/util/fifo.cc:234-286 | for every queue and unit size one request takes usage above the capacity |
| DramModel.CommandBooksTime | SimpleSSD-Standalone/lib/drampower/src/CmdHandlers.cc:59-568 | every legal command adds to the counters exactly the time by which it moves the accounted-for tick on, so each cycle is booked under one counter |
| DramModel.NopEndBooksTime | SimpleSSD-Standalone/lib/drampower/src/CmdHandlers.cc:572-627 | the closing update brings the account up to the clock, unless something is booked beyond it |
| DramClock.CommandBooksUnder | SimpleSSD-Standalone/lib/drampower/src/CmdHandlers.cc:59-353 | a legal command other than REF and SREX adds the time by which it moves the accounted-for tick on to one counter alone: active if a bank is active, precharged if none is, and the one of the power-down mode when powered down; the tick moves to that of the command, unless the counter stays the same |
| DramClock.RefreshBooksUnder | SimpleSSD-Standalone/lib/drampower/src/CmdHandlers.cc:111-137 | a refresh adds the idle time before it to precharged and RFC-RP to active |
| DramClock.ExitBooksUnder | SimpleSSD-Standalone/lib/drampower/src/CmdHandlers.cc:371-568 | an exit from self-refresh adds the stretches since the last window to its three counters, and what is left of the initial refresh to the power-up counters |
| DramClock.NopEndBooksUnder | SimpleSSD-Standalone/lib/drampower/src/CmdHandlers.cc:572-627 | the closing update adds the time up to the clock to the counter of the power state it finds |
| DramClock.CommandMoves | SimpleSSD-Standalone/lib/drampower/src/CmdHandlers.cc:59-568 | each legal command changes power state and active banks as its name says |
| DramClock.WindowsReportTheClock | SimpleSSD-Standalone/lib/drampower/src/CommandAnalysis.cc:92-154 | in every legal run, refreshes and self-refreshes included and however it is cut into windows, every window reports under each of the eleven counters exactly what a clock tells that follows only power state and active banks |
| DramClock.FromTheStart | SimpleSSD-Standalone/lib/drampower/src/CommandAnalysis.cc:92-154 | so from a fresh start, with a clock set to tick 0 |
| DramModel.CutKeeps | SimpleSSD-Standalone/lib/drampower/src/CommandAnalysis.cc:92-154 | the window reset keeps the account consistent and starts the next window where this one ended |
| DramRuns.WindowsPartitionTime | SimpleSSD-Standalone/lib/drampower/src/CommandAnalysis.cc:92-154 | however a legal run is cut into windows, each window's counters add up to the stretch it accounts for, and the stretches follow one another without gap or overlap |
| DramRuns.PlainCountersAreElapsedTime | SimpleSSD-Standalone/lib/drampower/src/CmdHandlers.cc:59-353 | in a run without refreshes, active, precharged and the four power-down counters add up to the time since the last boundary, in every window |
| DramRuns.SelfRefreshWindow | SimpleSSD-Standalone/lib/drampower/src/CmdHandlers.cc:598-626 | a window inside a self-refresh books its part of the active refresh, of the precharge and of the rest, which add up to its length |
| DramRuns.CutSelfRefresh | SimpleSSD-Standalone/lib/drampower/src/CmdHandlers.cc:371-568 | over all windows a self-refresh books min(d, RFC-RP) active, the next min(., RP) precharged and the remainder as plain self-refresh, wherever it is cut |
| DramRuns.CuttingIsHarmless | SimpleSSD-Standalone/lib/drampower/src/CmdHandlers.cc:371-568 | cutting changes nothing at all if and only if the exit does not fall into the precharge part of the initial refresh after a boundary did; the four main counters never change |
| DramRuns.CutOnce | SimpleSSD-Standalone/lib/drampower/src/CmdHandlers.cc:497-509 | in that case the power-up counter and last_pre_cycle are too large by what the window had booked of the precharge part |
| DramRuns.CuttingCanHarm | SimpleSSD-Standalone/lib/drampower/src/CmdHandlers.cc:497-509 | a concrete cut, of a self-refresh entered from a fresh start, that books one cycle too many |
| CommandAnalysis.CommandAnalysis.EvaluateCommands | SimpleSSD-Standalone/lib/drampower/src/CommandAnalysis.cc:208-264 | the dispatch loop, in place, does to the state what folding the handlers over the list does, and stops exactly on an unknown command; EvaluateWindow says what that counts |
| CommandAnalysis.EvaluateWindow | SimpleSSD-Standalone/lib/drampower/src/CommandAnalysis.cc:208-264 | evaluating a window of legal commands and its closing entry counts under each counter what the clock of power states and active banks tells |
| CommandAnalysis.CommandAnalysis.EndWindow | SimpleSSD-Standalone/lib/drampower/src/CommandAnalysis.cc:92-154 | final update and reset: each counter reported is what the clock of power states and active banks tells, together they add up to the time the window accounts for, and the clock goes on in the next window |
| CommandAnalysis.CommandAnalysis.NActiveBanks | SimpleSSD-Standalone/lib/drampower/src/CAHelpers.cc:75-86 | the count is the number of active banks |
| CommandAnalysis.CommandAnalysis.HandleSREx | SimpleSSD-Standalone/lib/drampower/src/CmdHandlers.cc:371-568 | the three exit contexts, in place, refine the specification |
| CommandAnalysis.CommandAnalysis.HandleNopEnd | SimpleSSD-Standalone/lib/drampower/src/CmdHandlers.cc:572-627 | the closing update, in place, refines the specification |
| CommandAnalysis.CommandAnalysis.HandlePreA | SimpleSSD-Standalone/lib/drampower/src/CmdHandlers.cc:188-226 | precharging all banks, in place, refines the specification |
| CommandAnalysis.CommandAnalysis.ClearStats | SimpleSSD-Standalone/lib/drampower/src/CommandAnalysis.cc:92-154 | the reset, in place, refines the specification |
| PalModel.LocateThenFind | SimpleSSD-Standalone/simplessd/pal/pal_old.cc:195-331 | for every allocation order, superblock mask and multi-plane setting, the address of a unit of a superblock lies in the geometry (plane 0 in multi-plane operation) and determines both indices |
| PalModel.FindThenLocate | SimpleSSD-Standalone/simplessd/pal/pal_old.cc:195-331 | every physical address is that of some unit of some superblock in range: the numbering is onto |
| PalModel.LocateIsInjective | SimpleSSD-Standalone/simplessd/pal/pal_old.cc:195-331 | no two units share an address |
| PalStripes.FieldsOfUnit | SimpleSSD-Standalone/simplessd/pal/pal_old.cc:195-331 | each field of an address is the digit of one index at its place in the order: the unit's index for dimensions of the superblock, so that the one named first changes from unit to unit, the superblock's for the others, and the block number is what is left; the plane is 0 in multi-plane operation |
| PalModel.EncodeDecode | SimpleSSD-Standalone/simplessd/pal/pal_old.cc:195-250 | what the digits of a number encode to is that number |
| PalModel.DecodeEncode | SimpleSSD-Standalone/simplessd/pal/pal_old.cc:195-250 | decoding an encoded address writes back exactly its digits |
| PalModel.ProductIsVolume | SimpleSSD-Standalone/simplessd/pal/pal.cc:52-88 | the product of the digits' sizes does not depend on their order |
| PalConvert.Pal.constructor | SimpleSSD-Standalone/simplessd/pal/pal.cc:30-95 | superBlock and pageInSuperPage, multiplied up and divided down step by step, are the number of superblocks and of units for every allocation order |
| PalConvert.PalOld.ConvertCPDPBP | SimpleSSD-Standalone/simplessd/pal/pal_old.cc:169-331 | the list has one address for every set flag, in order of the flags, each that of its unit; the size panic on random I/O happens exactly on a wrong flag count, the closing one never |
| PalConvert.PalOld.Sweep | SimpleSSD-Standalone/simplessd/pal/pal_old.cc:257-326 | the nested loops over any number of dimensions visit the flags in order and list exactly the set ones |
| PalConvert.Config.ParseAllocation | SimpleSSD-Standalone/simplessd/pal/config.cc:207-253 | an allocation string is refused exactly when the first four of the characters CcWwDdPp in it do not include one of each letter; otherwise entry k is channel, package, die or plane exactly as character k of them is C, W, D or P |
| PalConvert.Config.PlaneToFront | SimpleSSD-Standalone/simplessd/pal/config.cc:255-268 | the first plane entry moves to the front and the entries before it up by one; without one nothing changes |
| PalConvert.Config.ParseSuperblock | SimpleSSD-Standalone/simplessd/pal/config.cc:270-296 | a dimension is in a mask that is set exactly if one of its two characters occurs in the setting, the plane always in multi-plane operation; an empty setting leaves the mask as it was |
| PalConvert.Config.Update | SimpleSSD-Standalone/simplessd/pal/config.cc:207-296 | an accepted string yields a sane layout whose order is what its first four letters name, C the channel, W the package, D the die and P the plane, with the plane moved to the front in multi-plane operation, which leaves the numbering that of the order as written; the mask has exactly the dimensions whose letters occur in the superblock setting, and the plane in multi-plane operation |
| PalConvert.RotationKeepsDigits | SimpleSSD-Standalone/simplessd/pal/config.cc:255-268 | in multi-plane operation it does not matter where the plane stands in the order |
| EngineModel.FiresInOrder | SimpleSSD-Standalone/sim/engine.cc:179-228 | whatever calls are made, by callbacks or others, events fire in order of their ticks, and at equal ticks in the order they were scheduled |
| EngineModel.FiresOnceWhenDue | SimpleSSD-Standalone/sim/engine.cc:179-228 | no event is lost or repeated: a queued event that no later call concerns fires exactly once and at its tick, or is still queued |
| EngineModel.NeverPanics | SimpleSSD-Standalone/sim/engine.cc:179-228 | a run in which every call names an existing event never panics, dispatch included |
| EngineModel.StepKeeps | SimpleSSD-Standalone/sim/engine.cc:36-228 | every call keeps the queue sorted, events unique and registered, and no queued tick in the past; it panics exactly when it names an event that does not exist |
| EngineModel.ScheduleKeeps | SimpleSSD-Standalone/sim/engine.cc:36-75 | insert-then-erase leaves the other entries in order and puts the event behind everything due no later |
| Engine.Engine.InsertEvent | SimpleSSD-Standalone/sim/engine.cc:36-75 | the one-pass scan, insertion and erasure, in place, refine the specification |
| Engine.Engine.RemoveEvent | SimpleSSD-Standalone/sim/engine.cc:77-91 | the scan and erasure refine the specification |
| Engine.Engine.ScheduleEvent | SimpleSSD-Standalone/sim/engine.cc:122-152 | a time in the past is taken as now; panics exactly on an unregistered event |
| Engine.Engine.DeallocateEvent | SimpleSSD-Standalone/sim/engine.cc:180-191 | the event leaves queue and list; panics exactly when unregistered |
| Engine.Engine.DoNextEvent | SimpleSSD-Standalone/sim/engine.cc:193-228 | whenever something is queued and the engine is not stopped the front event is dispatched at its tick; the panic is unreachable |
| Engine.Engine.AllocateEvent | SimpleSSD-Standalone/sim/engine.cc:112-120 | event numbers are never reused, so allocation does not fail |
| Engine.Engine.IsScheduled | SimpleSSD-Standalone/sim/engine.cc:93-104 | reports whether, and for when, an event is queued |
| HilModel.BusyIsExactInOrder | SimpleSSD-Standalone/simplessd/hil/hil.cc:184-196 | for intervals that begin in order, as the interface's do, overlaps and nesting included, the busy time is exactly the number of ticks in which something was served |
| HilModel.BusyIsExactIff | SimpleSSD-Standalone/simplessd/hil/hil.cc:184-196 | in any order the busy time never exceeds that number, and equals it if and only if no interval serves ticks before the latest end that had been idle |
| HilModel.BusyCountsTicks | SimpleSSD-Standalone/simplessd/hil/hil.cc:184-196 | the difference is exactly those missed ticks |
| HilModel.BusyCanMiss | SimpleSSD-Standalone/simplessd/hil/hil.cc:184-196 | two intervals out of order of which the second is missed |
| HilModel.ArmedIff | SimpleSSD-Standalone/simplessd/hil/hil.cc:211-218 | a new request leaves the completion event scheduled for the earliest finish, if and only if it does not finish at the tick last scheduled with nothing else waiting |
| HilModel.StuckForever | SimpleSSD-Standalone/simplessd/hil/hil.cc:211-218 | otherwise the wake-up is lost for good: no later request that finishes no earlier schedules it either |
| HilModel.RescuedIff | SimpleSSD-Standalone/simplessd/hil/hil.cc:211-218 | a request that finishes before the stuck ones, and it alone, brings the wake-up back |
| HilModel.FirstRequestAtZero | SimpleSSD-Standalone/simplessd/hil/hil.cc:28-28 | it happens to a first request that finishes at tick 0 |
| Hil.BusyTimes.UpdateBusyTime | SimpleSSD-Standalone/simplessd/hil/hil.cc:184-196 | the in-place update keeps the busy time exact for intervals that begin in order |
| Hil.Hil.LaterIsSafe | SimpleSSD-Standalone/simplessd/hil/hil.cc:211-218 | whenever the interface is between events, a request that finishes strictly after the current tick leaves the event scheduled exactly for the earliest finish |
| Hil.Hil.Push | SimpleSSD-Standalone/simplessd/hil/hil.cc:61-66 | a served request is queued, and the wake-up is lost exactly when nothing else waits and it finishes at the tick last scheduled, or had been lost before and it does not finish earlier; otherwise the event is set for the earliest finish |
| Hil.Hil.Completion | SimpleSSD-Standalone/simplessd/hil/hil.cc:220-237 | when the event fires every request that finishes now, and none other, is called and removed, each exactly once and at its own tick, in order; what the callbacks made have pushed is called too or still waits, and nothing else is pushed or lost |
| CpuCore.FinishIsLongestChain | SimpleSSD-Standalone/simplessd/cpu/cpu.cc:90-131 | finish times follow a closed form: the latest, over all jobs up to this one, of the tick a job was ready plus all work from it to this one |
| CpuCore.Core.SubmitJob | SimpleSSD-Standalone/simplessd/cpu/cpu.cc:90-98 | the queue is served in order of submission; the core is busy exactly when a job is queued and due to finish it at max(previous finish, submission + delay) + latency |
| CpuCore.Core.JobDone | SimpleSSD-Standalone/simplessd/cpu/cpu.cc:118-131 | the job finishes at exactly that tick, jobs submitted by its callback wait behind it, and the next one starts |
| CpuCore.Core.HandleJob | SimpleSSD-Standalone/simplessd/cpu/cpu.cc:100-116 | the remaining delay is added exactly when it has not passed yet |
| CpuCore.Core.AddStat | SimpleSSD-Standalone/simplessd/cpu/cpu.cc:133-136 | work reported without a job adds to the busy time and holds up no job |
| CpuCore.LeastBusyCPU | SimpleSSD-Standalone/simplessd/cpu/cpu.cc:641-669 | the first idle core with the least accumulated busy time if there is an idle one, otherwise the last one with the fewest jobs |
| Prp.PRP.constructor | SimpleSSD-Standalone/sil/nvme/prp.cc:32-118 | for every size the device finds as many pages as the size asks for, aligned, in order, distinct, inside the region and none a list; data and lists fill the region exactly |
| Prp.PRP.Count | SimpleSSD-Standalone/sil/nvme/prp.cc:38-70 | the counting loop agrees with the number of data pages, and no last list ever has a single entry |
| Prp.PRP.Fill | SimpleSSD-Standalone/sil/nvme/prp.cc:92-117 | the filling loop ends with its page pointer exactly at memory + capacity; the closing zero past a full list falls on a zero word |
| Prp.WalkFrom | SimpleSSD-Standalone/sil/nvme/prp.cc:92-117 | a device walk (NVM Express 1.3, section 4.3) from any list finds exactly the data pages from there on |
| Prp.DeviceWalks | SimpleSSD-Standalone/sil/nvme/prp.cc:72-118 | the whole transfer, from the two pointers of the command, for sizes over two pages |

## Left out

FTL:

- The mapping cache (CMT), the shadow cache, optimal replacement and dead-on-arrival prediction: with the mapping cache on a write hit leaves the table behind, so there is no table invariant to keep.
- `CACHED_GC`, the ghost cache, moving pages back into the cache, and the random, d-choice, cost-benefit and hot-block policies.
- `PageMapping::format`, the initial fill of the drive, and the early return of garbage collection once the simulation is over.
- FtlCorrupts.CorruptedIff: leaves open drives of one page per block with two lanes, and, with three lanes or more, those whose blocks survive a single erasure only, unless the number of blocks is one more than a multiple of the lanes and the random tweak is off. On two lanes the answer depends on the numbers of blocks and of erasures together.
- FtlSpace.CollectGarbageSucceeds: sufficient, not necessary, because page copies need no new block while their lane's has room.
- Several I/O units per page: block validity is read from a bitmap that only exists for one unit per page, so greedy collection needs `ioUnitInPage == 1`, which the model fixes.
- PageMapping.PageMapping.SelectVictimBlock: the number of blocks to reclaim is a parameter, because the source takes it from the configuration or a floating-point threshold; the order of ties, which std::sort leaves open, stays open.
- PageMapping.PageMapping.WriteInternal: the free-block threshold is compared over reals, because rounding is not the point.
- Page payloads are not in the source. The model gives each page a value, so that losing or mixing up data would show.
- Erasing with an empty free list steps back from the end of an empty list, which C++ leaves undefined; here it is the fault EmptyFreeList.
- Wear.CalculateWearLeveling: the factor is a real number, because rounding to float is not the point.

Cache:

- `flush`, `trim`, `format`, the random policy, and configurations with read or write caching off.
- Sequential-access detection: whether a read counts as sequential is a parameter.
- Writes of part of a line replace its whole value; latencies are one arbitrary function.
- Lines carry a value the source does not have. The FTL behind the cache is a map from page and unit to value; that the FTL's contents behave like such a map is FtlTheorems.RunKeeps.
- GenericCache.GenericCache.Read: takes every read of the FTL to deliver what the FTL holds; CacheOverFtl says when a stripe's reads do.
- CacheReads.FetchedAll: covers stripes no longer than the number of sets; in a longer one an address can lose its line to a later one of the same stripe.
- The tick sentinel `max` of an eviction scan is taken as infinity.

FIFO:

- The DMA engine upstream reports completion in an event of its own, as the simulator's do, not from within the call that starts it. The statistics time stamps `arrivedAt`, `insertBeginAt` and, when reading, `insertEndAt` of entries.

DRAM:

- `getCommands` with its auto-precharge expansion and sorting, per-bank active cycles, idle and power-up timing counters, command counts, CmdScheduler, energy and power.
- DramModel.CommandBooksTime: holds for commands the protocol allows in the state they meet; on others the source prints a warning and counts on.

Flash address conversion:

- 32-bit overflow of sizes and products, packing of the order into one integer, timing parameters, and the order setting's default when the configuration has none.
- PalConvert.PalOld.Sweep: the five copies of the loop nest, for zero to four dimensions, are one nest of variable depth.
- PalConvert.Config.Update: after a refused string the source stops, so nothing is said about the array then.

Engine, host interface, CPU cores:

- Locks, the stopwatch, statistics, and warnings about rescheduling.
- Engine.Engine.DoNextEvent: the function of the event is not part of the model; what it does to the engine are the calls that follow.
- Hil.Hil.Completion: which of several requests with equal finish ticks goes first is left to the first one found, because the standard heap's order among equals is not promised; a callback's push never displaces the request being completed, as in a binary heap.
- CpuCore.LeastBusyCPU: the choice of the core list by namespace and the instruction tables are left out, because they are lookups.

NVMe page lists:

- Prp.PRP.constructor: allocation is taken to succeed at a page-aligned address; `ptrList` and the data copies are left out, and so is 32-bit overflow of the list count.

Not modelled at all: traces, regular expressions, configuration files, logging, disk images, the NVMe, SATA and UFS
controllers, and the flash timing model.
