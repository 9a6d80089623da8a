# GR8OS kernel: models and proofs

GR8OS is a small x86 kernel. This project models the parts of it that keep intricate state and proves what
every run of that state keeps, what one call undoes, and what a call delivers. `dafny verify dfyconfig.toml`
checks everything.

| component | files | main results |
|---|---|---|
| Kernel heap (`kernel/ex.cpp`) | `HeapMemory`, `HeapState`, `HeapSplice`, `HeapSteps`, `HeapResize`, `Heap`, `HeapTheorems`, `HeapRuns` | every operation keeps a byte-exact invariant of the arena (headers with correct checksums, fill patterns, tiling, both list orders, no two neighbouring free blocks); best fit; reallocation keeps the contents, with the exact condition under which it does not; over whole runs, callers that keep to what they hold never stop the system and find every byte they wrote |
| File cache and FAT reader (`kernel/cc.cpp`, `kernel/builtin/fsfat/fsfat.cpp`) | `CacheContent`, `CacheWrites`, `FileCache`, `CacheTheorems`, `Fat` | reads deliver the logical file for any mix of cached and missing pages, flushing changes no byte, forced rebuilds end, chain walks agree with the chain, and end to end a file read gives the file's bytes |
| Debugger link (`kernel/kd.cpp`) | `KdLink`, `KdPort` | exactly-once, in-order delivery over lossy channels on every run; the byte-level receiver refines the abstract one |
| Object namespace (`kernel/ob.cpp`) | `NamespaceWalk`, `Namespace` | every lookup ends although links restart the parse, over any list of creations names stay stable, printing a name and looking it up is the identity |
| Physical page database (`kernel/mm.cpp`) | `PageLists`, `PageDatabase` | pages are on exactly the list their location names, and every operation conserves them |
| Scheduler and events (`kernel/ps.cpp`, `kernel/ps386.asm`, `kernel/kernel.cpp`) | `SchedulerState`, `Scheduler` | threads are on exactly the list their state says, events wake exactly the right threads, round robin |
| Exception unwinding (`kernel/except.cpp`) | `Unwinding` | exactly the finally blocks inside the chosen scope run over all frames, inner ones first, none twice; the innermost scope that takes the exception is chosen |
| Number formatting (`kernel/runtime.cpp`) | `NumberFormat` | the digits printed evaluate back, widths are exact, nothing is written past the end |

Code that updates state is a class or a method with loops; the functions those methods are proved against, and
the theorems about them, stand beside them. Each class keeps the fields of the source and, where the source
threads its state through memory, ghost sequences that say what the memory means (`st` of the heap, `lists` of
the page database, `pages` of the cache). A class invariant `Valid` (or `Good`) that the constructor
establishes and every method requires and ensures holds over every run of those methods. Where a run says more than
its steps, it is stated over sequences of calls (`HeapRuns`, `KdLink`, `KernelNamespace`, `SchedulerState`).

**Heap memory.** The arena is an array of 16-byte paragraphs. A paragraph holds plain bytes or one half of a
block header (the two `LIST_ENTRY`s of a header fall into different halves), so that the header moves of
reallocation, which overlap the header they move, are moves between paragraphs. A call ends in a pointer, NULL,
a system stop, or `Overrun`: a fill that starts in front of the block's own data.

**What the code does that its comments do not say.** The model follows the code. Where a promised property is
false, the exact condition under which it holds is proved:

- A request above `0xFFFFFFF0` wraps in `ALIGN_UP`; the heap then fills memory in front of the block
  (`KernelHeap.UnitsHoldRequest`, `KernelHeap.Heap.AllocateHeap`).
- Shrinking by exactly one header with no free neighbour behind (`kernel/ex.cpp:773-799`) adds the padding the
  comment would replace. `HeapTheorems.ReallocKeepsExactly` gives the condition under which the contents
  survive, `HeapTheorems.ReallocGrantsExactly` the one under which the size asked for is granted;
  `HeapTheorems.TightCaseReached` and `HeapTheorems.TightCaseLosesByte` reach from a new heap a call that writes in
  front of the block, and one that returns a pointer and overwrites kept bytes.
- The write of a page reports only its last cluster: `CacheWrites.StoredAgreesExactly` says when the device
  nevertheless holds the page, `CacheWrites.RefusalGoesUnnoticed` shows it failing. A write into the cache marks only its last page, and only if that was cached:
  `CacheTheorems.WriteKeepsClean` says byte by byte when the cache still agrees
  with the device, `CacheTheorems.WriteKeepsCleanBefore` what of that can be told before the call,
  `CacheTheorems.UnmarkedChange` shows it failing.
- Reading counts its bytes anew behind each page that was missing; `Counted` (`CacheContent.dfy`) says what count is left.
- A forced rebuild never ends if no page can be evicted (`FileCache.CacheMap.RebuildRounds`), and ends otherwise.
- The FAT16 row of the cluster table has constants of five digits, so no FAT16 chain ever ends
  (`Fat.Fat16HasNoChains`); some FAT12 volumes have clusters whose numbers read as reserved
  (`Fat.NumbersAreNoCodes`, `Fat.NumberThatIsACode`). The byte count read for a last cluster that the file fills is
  zero (`Fat.LastByteCount`).
- Before the first RESET the two ends of the debugger link never agree on an id (`KdLink.StartedNeverDelivers`).
- `MmAllocatePhysicalPages` for no pages stores behind its array when a page is free
  (`PageDatabase.Database.AllocatePhysicalPages`).
- `PspUnwaitThread` ignores threads that wait for time, so a delayed thread never runs again
  (`SchedulerState.DelayedIsStuck`, `SchedulerState.NeverWakes` and the `StillDelayed` clause of every operation).
- A synchronization event stays signalled after it has woken its thread (`KernelScheduler.Scheduler.SetEvent`).
- `MmFreeMmd` unlocks pages after their last mapping stored the index 0xFFFFFFFF in them, and marks that entry of
  the working set (`PageDatabase.Database.FreeMmd`).
- An exception stays pending when a handler takes it, so the next one the thread raises ends the thread
  (`Unwinding.FrameList.Dispatch`).
- The try level stored once a handler is chosen is that of the first scope of the table
  (`Unwinding.StoredTryLevel`), and `RtlUnwind` leaves the list head on the last frame it unwound
  (`Unwinding.FrameList.Unwind`).

## Model

| member | source | states |
|---|---|---|
| `KernelHeap.UnitsHoldRequest` | kernel/inc/ke.h:613 | Rounding a request up to whole paragraphs leaves room for it exactly when it is at most 0xFFFFFFF0; the rounding is less than a paragraph |
| `HeapMemory.UnlinkedRing` | kernel/inc/ke.h:213-224 | RemoveEntryList leaves the circular list without that entry and changes nothing but list pointers |
| `HeapMemory.LinkedRing` | kernel/inc/ke.h:263-292 | Head and tail insertion leave the list with the new entry in its place and change nothing but list pointers |
| `HeapMemory.MovedRing` | kernel/ex.cpp:734-747 | A list whose entry was copied elsewhere, with both neighbours pointed to the copy, is the list with the entry replaced |
| `HeapSplice.SpliceCore` | kernel/ex.cpp:264-371 | Replacing a run of blocks by good blocks that fill the same space, lists following, keeps the whole heap consistent |
| `HeapSteps.SummedIsStored` | kernel/ex.cpp:101-110 | Recomputing the checksum makes a complete header of whatever the fields say |
| `HeapSteps.ErasedFails` | kernel/ex.cpp:186-212 | A header overwritten by the freed pattern never passes the checksum test, wherever it lies |
| `KernelHeap.ErasedIsStale` | kernel/ex.cpp:486-545 | The header of a block that was merged away fails validation and its type reads as the freed pattern |
| `HeapSteps.OrderNeighbours` | kernel/ex.cpp:479-520 | The memory-order pointers of a block lead to its neighbours in memory or to the list head, which never reads as a free block |
| `HeapTheorems.ChecksumTellsSums` | kernel/ex.cpp:87-97 | Two headers at one address have the same checksum exactly when the sums of their fields agree |
| `HeapTheorems.SumFromChecksum` | kernel/ex.cpp:87-97 | The checksum and the address of a header give back the sum of its fields |
| `HeapTheorems.ChecksumTellsAddress` | kernel/ex.cpp:87-97 | Equal fields at two different addresses have different checksums, so a header copied elsewhere never passes |
| `HeapTheorems.DamagedFieldFails` | kernel/ex.cpp:186-212 | A header in which one of size, type and padding size alone was damaged never passes validation |
| `KernelHeap.Heap.InitializeHeap` | kernel/ex.cpp:114-143 | The arena becomes one free block with all lists in order, and the heap invariant holds |
| `KernelHeap.Heap.CheckBlockValid` | kernel/ex.cpp:167-256 | Passes exactly when the cookie is the heap's, both magics equal the checksum, and the bytes of a free block (below 1 MB) or the padding of an allocated one have their pattern; the cookie is compared first |
| `KernelHeap.FreeListWalk` | kernel/ex.cpp:375-412 | Following the free list's pointers from its head meets the free blocks in order and ends at the head |
| `KernelHeap.Heap.AllocateInBlock` | kernel/ex.cpp:266-371 | The block is taken whole, or cut with a new free block behind it; all other blocks keep address and bytes; fails into other memory exactly for wrapped requests |
| `KernelHeap.Heap.AllocateHeap` | kernel/ex.cpp:375-454 | NULL exactly when no free block is large enough, and then nothing changes; otherwise a free block of least sufficient size is taken, and the invariant and every other block are kept |
| `HeapTheorems.TakenPadding` | kernel/ex.cpp:273-300 | A served request leaves a block of exactly the size asked for with at most 47 bytes of padding, which fits its byte |
| `HeapTheorems.TakenExactly` | kernel/ex.cpp:266-371 | The block is cut exactly if that leaves a free block of at least a paragraph behind it; which blocks there are then, and that no other changes |
| `KernelHeap.Heap.MergeBlocks` | kernel/ex.cpp:486-545 | Two neighbouring free blocks become one, the header between them erased, lists consistent |
| `KernelHeap.Heap.RebuildFreeBlocks` | kernel/ex.cpp:458-547 | A freed block is joined with its free neighbours, at most one on each side, and no two neighbours are free afterwards |
| `KernelHeap.Heap.FreeHeapBlock` | kernel/ex.cpp:551-580 | The block becomes free, filled and merged; every other block keeps address and bytes |
| `KernelHeap.Heap.FreeHeap` | kernel/ex.cpp:585-622 | Frees an allocated block; stops the system, changing nothing, for a locked block, a free block, or a stale pointer to an erased or reused header that fails validation |
| `HeapTheorems.FreeUndoesAllocate` | kernel/ex.cpp:266-371 | Allocating and freeing again restores every block but for the stale padding field |
| `HeapTheorems.TotalIsExtent` | kernel/ex.cpp:114-143 | The blocks, headers included, add up to the arena |
| `HeapTheorems.SpaceIsConserved` | kernel/ex.cpp:458-547 | All states of one heap account for the same space |
| `HeapTheorems.AllFreeIsOneBlock` | kernel/ex.cpp:458-547 | Once every block is free there is one block of the initial size |
| `HeapTheorems.UsersAreApart` | kernel/ex.cpp:266-371 | The data of different blocks never overlap and lie inside the arena |
| `HeapResize.OwnerMayWrite` | kernel/ex.cpp:214-256 | Whatever an owner writes into its own bytes, the heap stays valid and no other block changes |
| `KernelHeap.Heap.WriteByte` | kernel/ex.cpp:214-256 | A byte written below the user size is stored there and keeps the heap invariant |
| `HeapResize.MoveRings` | kernel/ex.cpp:845-858 | A header moved in place, even by a single paragraph over itself, keeps its place in both lists it is on and leaves the third alone |
| `KernelHeap.Heap.ShrinkIntoNext` | kernel/ex.cpp:728-771 | The end of the block joins the free block behind it, whose header moves back; contents and all other blocks kept |
| `KernelHeap.Heap.CutBlockOff` | kernel/ex.cpp:801-834 | The end of the block becomes a free block; contents and all other blocks kept |
| `KernelHeap.Heap.GrowIntoNext` | kernel/ex.cpp:836-872 | The block takes room from the free block behind it, whose header moves ahead; contents and all other blocks kept |
| `KernelHeap.Heap.MoveBlock` | kernel/ex.cpp:874-908 | A best-fitting block receives the bytes and the old one is freed; without one, NULL and no change |
| `KernelHeap.Heap.ReallocHeap` | kernel/ex.cpp:649-908 | Which of the six paths is taken when, and what each makes of memory and blocks; failures change nothing; misuse stops the system |
| `HeapTheorems.ReallocKeepsExactly` | kernel/ex.cpp:649-908 | A successful reallocation keeps the first min(old, new) bytes and all other blocks, except in the tight case, where it does exactly when the old padding covers the rounding |
| `HeapTheorems.ReallocGrantsExactly` | kernel/ex.cpp:649-908 | A successful reallocation returns room for the size asked for, except in the tight case, where it does exactly when the old padding lies between the rounding and 32 plus twice the rounding |
| `HeapTheorems.ReallocMovesOnly` | kernel/ex.cpp:649-908 | A block stays in its place whenever it is large enough or the free block behind it makes it so; NULL only if then no free block could hold it |
| `HeapTheorems.TightCaseRoom` | kernel/ex.cpp:773-799 | In the tight case the kept bytes fit exactly when the old padding covers the rounding, and only one old padding leaves the size asked for |
| `HeapTheorems.TightCaseOverruns` | kernel/ex.cpp:773-799 | In any heap, a used block of 48 bytes without padding and with no free block behind, asked down to 10, is overrun in front |
| `HeapTheorems.TightCaseLoses` | kernel/ex.cpp:773-799 | In any heap, such a block of 288 bytes asked down to 250 is returned with 38 bytes left and the others overwritten |
| `HeapTheorems.TightCaseReached` | kernel/ex.cpp:773-799 | Three calls on a new heap that end in the overrun |
| `HeapTheorems.TightCaseLosesByte` | kernel/ex.cpp:773-799 | Calls on a new heap after which a byte written by the caller inside the kept size is gone |
| `KernelHeap.Heap.LockHeapBlock` | kernel/ex.cpp:913-948 | Locks an allocated block and changes no data; stops the system for locked or free blocks and stale pointers |
| `KernelHeap.Heap.UnlockHeapBlock` | kernel/ex.cpp:953-980 | Unlocks a locked block and changes no data; stops the system for any other |
| `HeapRuns.Perform` | kernel/ex.cpp:417-980 | Every call on a valid heap is one step of a run, or overruns |
| `HeapRuns.StepIntact` | kernel/ex.cpp:417-980 | A call by a caller that keeps to what it holds never stops the system, and what all callers hold stays as they wrote it |
| `HeapRuns.HeldIsCallable` | kernel/ex.cpp:417-980 | Whatever callers hold can be passed in again |
| `HeapRuns.RunIntact` | kernel/ex.cpp:417-980 | Over every run of such calls: every byte written is there until given up, through reallocations and everyone else's calls, no call stops the system, the invariant holds and no space is gained or lost |
| `CacheContent.WholeExactly` | kernel/cc.cpp:50-62 | Of the accepted cluster sizes exactly those between 17 and 4095 have clusters that fill a page |
| `CacheContent.StopsAt` | kernel/cc.cpp:289-343 | Where the loop over a page's clusters stops decides the page's status |
| `CacheContent.PageStatusIs` | kernel/cc.cpp:289-343 | Over the clusters themselves: the end of the file makes a success of a page, a missing medium is its status, and a page without either has the status of its last cluster |
| `CacheContent.OneMissingPage` | kernel/cc.cpp:674-774 | A read within one missing page succeeds as far as the page can be read; a failure counts, delivers and caches nothing |
| `CacheContent.FilledKeeps` | kernel/cc.cpp:692-774 | Reading changes no known byte of the logical file, and nothing at all outside the pages read |
| `FileCache.CacheMap.constructor` | kernel/cc.cpp:20-98 | A new map has 32 empty slots and shows the device |
| `FileCache.CacheMap.CacheFilePage` | kernel/cc.cpp:153-253 | A page not cached yet is added once or, for want of memory or slots, not at all, and with plenty of memory always; marks are kept; for want of slots only when the map failed to grow |
| `FileCache.FullShows` | kernel/cc.cpp:170-200 | Slots hold distinct pages, so a full map has at least as many pages as slots |
| `FileCache.CacheMap.FindAndReadWrite` | kernel/cc.cpp:587-688 | Moves the bytes of all pages up to the first missing one between cache and buffer and says where it stopped |
| `FileCache.CacheMap.ActualReadPage` | kernel/cc.cpp:289-343 | A page read successfully agrees with the device in every byte the device has; the status, over the clusters themselves, is that of the one the loop ended on |
| `FileCache.CacheMap.ActualRead` | kernel/cc.cpp:692-774 | The request's bytes are those of the device page and of the logical file behind it; pages read are kept at most once |
| `FileCache.CacheMap.CacheReadFile` | kernel/cc.cpp:841-910 | The buffer holds exactly the requested bytes of the logical file for any mix of cached and missing pages; status and exact count; within one missing page the status by its clusters, and nothing counted, delivered or cached on a failure; with plenty of memory every readable page of the request is kept; marks and other pages kept; ends |
| `CacheTheorems.ReadGivesFile` | kernel/cc.cpp:841-910 | Where the file's bytes are known a read gives that slice of the file |
| `CacheTheorems.CleanShowsDevice` | kernel/cc.cpp:289-343 | A clean cache shows the device's bytes whatever is cached |
| `FileCache.CacheMap.CacheWriteFile` | kernel/cc.cpp:950-1014 | Bytes written are in every page of the request that stays cached, all others are as before, and only a cached last page is marked; status and count as for reads; with plenty of memory every readable page of the request is kept |
| `CacheTheorems.ReadYourWrites` | kernel/cc.cpp:778-836 | A written byte is what a read gives next as far as its page was kept; all other bytes read as before |
| `CacheTheorems.WrittenReadsBack` | kernel/cc.cpp:778-836 | With plenty of memory and pages that are cached or can be read, every byte written reads back and all pages of the request are cached |
| `CacheTheorems.UncachedByte` | kernel/cc.cpp:289-343 | Byte r of cluster q is byte q * ClusterSize + r of the file; where its page is not cached, exactly when it is known, and when a read leaves the buffer alone |
| `CacheWrites.OneMissingWrite` | kernel/cc.cpp:778-836 | A write within one missing page that cannot be read changes nothing in the cache and counts nothing |
| `CacheTheorems.WriteKeepsClean` | kernel/cc.cpp:663-677 | A write keeps the cache in agreement with the device exactly when every byte stored in a page that is not marked is the byte the device has there |
| `CacheTheorems.WriteKeepsCleanBefore` | kernel/cc.cpp:663-677 | Told before the call: bytes the device has already keep the cache clean, and exactly these do when all pages of the request are cached |
| `CacheTheorems.UnmarkedChange` | kernel/cc.cpp:215 | One changed byte in a page that is not marked breaks the agreement |
| `CacheWrites.AgreesByPieces` | kernel/cc.cpp:257-285 | A page agrees with the device exactly when each of its clusters holds its piece |
| `CacheWrites.StoredAgreesExactly` | kernel/cc.cpp:257-285 | After writing a page the device agrees with it exactly when every refused cluster already held its piece |
| `CacheWrites.RefusalGoesUnnoticed` | kernel/cc.cpp:257-285 | A page whose first cluster is refused: success is reported and the device does not hold it |
| `FileCache.CacheMap.ActualWritePage` | kernel/cc.cpp:257-285 | Each accepted cluster holds its piece of the page, other clusters are untouched, and the status is the last cluster's, whatever the others' were |
| `FileCache.CacheMap.PurgeCacheFile` | kernel/cc.cpp:525-580 | Succeeds exactly when every modified page is accepted; then no page is marked; failed pages keep their mark |
| `CacheTheorems.FlushKeepsFile` | kernel/cc.cpp:525-580 | Flushing a clean cache with honest reports changes no byte of the logical file |
| `CacheTheorems.PurgedIsDurable` | kernel/cc.cpp:103-149 | Once a clean cache with modified pages is written back wholly and honestly, the device alone gives every byte of the file as the cache showed it before |
| `FileCache.CacheMap.RebuildPage` | kernel/cc.cpp:385-500 | A page goes exactly when its aged use count is within the threshold, it is due, and it is clean or could be written and never failed |
| `FileCache.CacheMap.StaysStuck` | kernel/cc.cpp:503-515 | A pass over pages none of which can go leaves none that can |
| `FileCache.CacheMap.RebuildRounds` | kernel/cc.cpp:503-515 | With no page that can go, after any number of rounds of a forced rebuild none has gone and none can |
| `FileCache.CacheMap.RebuildCacheMap` | kernel/cc.cpp:348-519 | A forced rebuild ends and evicts a page if one can go; modified or failed pages are never lost |
| `FileCache.CacheMap.FreeCacheMap` | kernel/cc.cpp:103-149 | Writes everything back and then frees every page; fails exactly when a modified page is refused |
| `Fat.CountIsExact` | kernel/builtin/fsfat/fsfat.cpp:814-838 | The cluster count is the number of clusters that fit exactly when the sectors in front of them do |
| `Fat.InFrontOfClusters` | kernel/builtin/fsfat/fsfat.cpp:813-847 | In front of the clusters lie the reserved sectors, the tables, and as few sectors as hold the root directory; the kind of table goes by the number of clusters alone |
| `Fat.NumbersAreNoCodes` | kernel/builtin/fsfat/fsfat.cpp:840-847 | No cluster number of a volume is taken for a code exactly when there are at most 0xFEE clusters (FAT12) or 0x0FFFFFEE (FAT32) |
| `Fat.TopEntriesAreCodes` | kernel/builtin/fsfat/fsfat.cpp:961-993 | Of a FAT12 or FAT32 table exactly the sixteen highest entries are codes: seven reserved, one bad, eight ends of a file |
| `Fat.NumberThatIsACode` | kernel/builtin/fsfat/fsfat.cpp:840-847 | A volume of 4080 clusters, read as FAT12, one of whose clusters reads as reserved |
| `Fat.Entry12IsTwelveBits` | kernel/builtin/fsfat/fsfat.cpp:850-905 | A FAT12 entry is the twelve bits at bit 12 times its index |
| `Fat.PackedEntry` | kernel/builtin/fsfat/fsfat.cpp:850-905 | Reading an entry of a packed table gives the entry that was packed, for every index |
| `Fat.WideEntries` | kernel/builtin/fsfat/fsfat.cpp:850-905 | The bytes of a FAT16 or FAT32 entry are in the table with the low byte first, without the top four bits of a FAT32 entry |
| `Fat.Fat16HasNoChains` | kernel/builtin/fsfat/fsfat.cpp:970-975 | No entry of a FAT16 volume ends a chain |
| `Fat.ChainIsAcyclic` | kernel/builtin/fsfat/fsfat.cpp:996-1039 | No cluster occurs twice in a chain |
| `Fat.ChainIsUnique` | kernel/builtin/fsfat/fsfat.cpp:996-1039 | A cluster starts at most one chain |
| `Fat.FileClusterByPos` | kernel/builtin/fsfat/fsfat.cpp:996-1039 | On any table, also one that links in a circle: the k-th cluster from the head on, or the code of what ends the chain before it |
| `Fat.SizeOfClusterChain` | kernel/builtin/fsfat/fsfat.cpp:1043-1085 | The number of clusters of the chain |
| `Fat.CircleHasNoChain` | kernel/builtin/fsfat/fsfat.cpp:1043-1085 | A table that leads back to a cluster passed has no chain from there, so counting its clusters never ends |
| `Fat.PerformRead` | kernel/builtin/fsfat/fsfat.cpp:1128-1232 | What the disk gives at the byte offset of the chain's cluster, counted from cluster 2, in 32-bit arithmetic; the end of the file or a failure, as the chain says; and the byte count in every case |
| `Fat.LastByteCount` | kernel/builtin/fsfat/fsfat.cpp:1205-1215 | The byte count of the last cluster is what the file has there exactly when the file does not fill it |
| `Fat.FileSize` | kernel/builtin/fsfat/fsfat.cpp:1089-1118 | The concatenated clusters are as long as the chain times the cluster size |
| `Fat.FileByteAt` | kernel/builtin/fsfat/fsfat.cpp:1089-1118 | Byte r of the q-th cluster is byte q times the cluster size plus r of the file |
| `Fat.FileByteOnDevice` | kernel/builtin/fsfat/fsfat.cpp:1128-1232 | What the cache sees of a readable file is the file's bytes |
| `Fat.FileOnDisk` | kernel/builtin/fsfat/fsfat.cpp:1087-1120 | On a disk below 4 GB that can be read, byte q * ClusterSize + r of the file is byte r behind the sector that lies chain[q] - 2 clusters behind the first one |
| `Fat.ReadFile` | kernel/builtin/fsfat/fsfat.cpp:1236-1299 | Through any clean cache, reading at any offset and size inside the chain gives that slice of the file's bytes, which on a disk below 4 GB are the bytes of the disk where its clusters lie |
| `KdLink.StepKeeps` | kernel/kd.cpp:613-901 | Sending, taking, losing and damaging packets keep the link invariant |
| `KdLink.RunKeeps` | kernel/kd.cpp:613-1012 | The invariant holds over every run |
| `KdLink.AcceptedIsPrefix` | kernel/kd.cpp:613-1012 | From RESET on, on every run, the accepted payloads are a prefix of those sent, short by at most one |
| `KdLink.ReturnMeansAccepted` | kernel/kd.cpp:919-1012 | When a send returns on its acknowledgement, every payload sent so far has been accepted exactly once, in order |
| `KdLink.CanFinish` | kernel/kd.cpp:919-1012 | From every state the link can reach the send under way can still complete |
| `KdLink.NothingBeforeReset` | kernel/kd.cpp:703-765 | Without a RESET nothing is ever accepted and the first send never returns |
| `KdLink.StartedNeverDelivers` | kernel/kd.cpp:703-765 | The same from the ids the kernel starts with |
| `KdPort.CheckSumPacket` | kernel/kd.cpp:412-438 | The sum of the bytes, modulo 2 to the 32 |
| `KdPort.OneByteChangesSum` | kernel/kd.cpp:412-438 | Changing one byte changes the checksum |
| `KdPort.Port.ReceiveString` | kernel/kd.cpp:443-477 | All bytes asked for, or a timeout with fewer; bytes on the wire arrive as they are |
| `KdPort.Port.ReceiveLeader` | kernel/kd.cpp:526-607 | Finds the first four equal leader bytes in a row unless a break-in byte comes first |
| `KdPort.Port.SendControl` | kernel/kd.cpp:497-518 | Puts the sixteen bytes of a control packet on the wire: four leader bytes, type, zero count, id, zero checksum |
| `KdPort.Port.SendData` | kernel/kd.cpp:919-942 | Puts the bytes of exactly one data packet on the wire: four leader bytes, type, count, current id, checksum, body, trailing byte |
| `KdPort.Port.ReceiveOne` | kernel/kd.cpp:613-901 | Given a frame on the wire, one round of the receive loop does what the frame function says: result, ids, bytes consumed, answers; after a break-in byte, after silence, and on whatever else lies on the wire: which ids may change and what may be answered |
| `KdPort.Port.ReceivePacket` | kernel/kd.cpp:613-901 | Given frames on the wire, the loop ends at the first that has a result and does what all up to it do together: ids, answers, bytes read; a RESET sets both ids to the initial one and is answered by the sixteen bytes of a RESET, whatever was asked for; on any input, timeouts and requests to send again leave the ids alone and only an acceptance flips the expected one |
| `KdPort.AcceptedAfterReset` | kernel/kd.cpp:745-748 | After a RESET the next intact data frame with the initial id is accepted, whatever the ids were |
| `KdPort.AcceptedExactly` | kernel/kd.cpp:777-901 | Data is accepted exactly if data is wanted and type, size, id and checksum are right; it is acknowledged then |
| `KdPort.IdsChange` | kernel/kd.cpp:725-901 | Which frames other than RESET change the id expected and the id sent next, and to what |
| `KdPort.AnsweredHow` | kernel/kd.cpp:725-901 | Control packets other than RESET are not answered; each data packet gets one answer, the request to send again exactly if it cannot be used as it is |
| `KdLink.IdBits` | kernel/kd.cpp:725-759 | The two ids differ in their last bit alone, and the bit that marks a first packet is cleared alone |
| `KdPort.ReceivingIsOnData` | kernel/kd.cpp:777-901 | Receiving data frames is the receiver of the abstract link |
| `KdPort.WaitingIsOnControl` | kernel/kd.cpp:725-759 | Waiting for an acknowledgement is the sender of the abstract link |
| `KdPort.DamageIsNoticed` | kernel/kd.cpp:870-879 | A data frame with one damaged body byte is never accepted |
| `KdPort.SentIsAccepted` | kernel/kd.cpp:919-942 | A frame sent and carried unharmed is accepted as it was by a port that expects its id |
| `KernelNamespace.Namespace.FindObjectInDirectory` | kernel/ob.cpp:767-800 | The first object of that name in the directory's list |
| `KernelNamespace.Namespace.ReferenceObjectByName` | kernel/ob.cpp:806-1014 | The parse with its restarts at links ends and gives what the walk through the namespace gives |
| `NamespaceWalk.WalkConcat` | kernel/ob.cpp:860-990 | Walking a path is walking its first part and going on from there |
| `NamespaceWalk.ReparseIsWalk` | kernel/ob.cpp:36-74 | Putting a link's target in front of the rest and starting over is following the link |
| `NamespaceWalk.LinkFollowed` | kernel/ob.cpp:36-74 | Every link's target resolves using older links only |
| `NamespaceWalk.InsertedValid` | kernel/ob.cpp:291-314 | Creating objects, directories and links that resolve keeps the namespace well-formed |
| `KernelNamespace.Namespace.CreateObject` | kernel/ob.cpp:238-314 | The new object comes last in its directory and nothing else changes |
| `KernelNamespace.Namespace.CreateSymbolicLink` | kernel/ob.cpp:95-192 | Created exactly when its target resolves now and its directory is found and is one; otherwise nothing changes |
| `KernelNamespace.LinkNamesTarget` | kernel/ob.cpp:95-192 | A new link under an unused name resolves to what its target names |
| `NamespaceWalk.WalkStable` | kernel/ob.cpp:291-314 | What once resolved resolves to the same object after any insertions |
| `KernelNamespace.LookupStable` | kernel/ob.cpp:806-1014 | A path that once resolved resolves to the same object after any insertions |
| `KernelNamespace.GrowthGrows` | kernel/ob.cpp:291-314 | Over any list of creations the namespace stays well-formed and only grows |
| `KernelNamespace.ResolvesEverAfter` | kernel/ob.cpp:806-1014 | Over any list of creations a path that resolves at some time resolves to the same object at every later time |
| `KernelNamespace.Namespace.QueryObjectName` | kernel/ob.cpp:1075-1120 | The names of the directories above and of the object, joined by backslashes; the buffer is always large enough |
| `KernelNamespace.NameResolves` | kernel/ob.cpp:1075-1120 | The printed name of a visible object walks to that object at any depth |
| `KernelNamespace.PrintedNameResolves` | kernel/ob.cpp:806-1120 | Looking up the printed name gives the object |
| `KernelNamespace.PathMeans` | kernel/ob.cpp:806-1014 | What a path means name by name: a device takes whatever follows, other objects have nothing below them, in a directory the first object of the name counts, and a link, unless it is to be opened itself, means what its target means |
| `PageLists.UnlinkKeeps` | kernel/mm.cpp:981-1023 | Unlinking takes the page out of its list and leaves all lists in order |
| `PageLists.LinkKeeps` | kernel/mm.cpp:1027-1039 | Linking puts a loose page first in its list |
| `PageLists.OffListKeeps` | kernel/mm.cpp:1044-1071 | The words of a page on no list may hold anything |
| `PageDatabase.OnItsList` | kernel/mm.cpp:981-1071 | A page is on a list exactly when its location names it |
| `PageDatabase.Database.UnlinkPpd` | kernel/mm.cpp:981-1023 | Neighbours and list head point past the page, nothing else changes |
| `PageDatabase.Database.ChangePageLocation` | kernel/mm.cpp:1044-1071 | The page leaves the list it is on and is put first on the new one, or gets the words of an active page |
| `PageDatabase.Database.AllocatePhysicalPages` | kernel/mm.cpp:1154-1320 | Exactly min(n, free + zeroed) pages, page by page the free ones first, all active, the rest of both lists in order, no other list touched; fails, changing nothing, exactly for more pages than there are or want of memory; asking for none overruns exactly if a page is free |
| `PageDatabase.TakenDistinct` | kernel/mm.cpp:1154-1320 | The pages allocated are distinct and were free or zeroed |
| `PageDatabase.Database.FreePhysicalPages` | kernel/mm.cpp:1326-1352 | Every page of the descriptor ends on the free list, nothing else moves |
| `PageDatabase.AllocateFreeConserves` | kernel/mm.cpp:1154-1352 | Allocating and freeing again leaves the same pages on the free and zeroed lists together |
| `PageDatabase.Database.ZeroPass` | kernel/mm.cpp:2001-2047 | Every free page moves to the zeroed list |
| `PageDatabase.Database.TrimPage` | kernel/mm.cpp:1872-1910 | A dirty page is marked and goes to the modified list, a clean one to standby; no other page moves |
| `PageDatabase.Database.TrimmedFault` | kernel/mm.cpp:325-348 | A trimmed page is taken back from whatever list it is on |
| `PageDatabase.Database.MapPage` | kernel/mm.cpp:126-160 | The share count goes up and the first mapping, and no other, stores the words of an active page; nothing but that descriptor changes and all lists stay in order |
| `PageDatabase.Database.UnmapPage` | kernel/mm.cpp:200-225 | The share count goes down and the last unmapping, and no other, stores no working-set index and clears the entry the page had; nothing but that descriptor changes and all lists stay in order |
| `PageDatabase.Database.UnmapPages` | kernel/mm.cpp:1856-1867 | Each page loses one mapping and nothing else changes |
| `PageDatabase.Database.FreeMmd` | kernel/mm.cpp:1533-1570 | Unmapping and unlocking before freeing never writes active words over list links; owned pages end on the free list, the others keep their descriptors; which working-set entries the unlocking marks |
| `PageDatabase.UnmapFitsOnlyOffList` | kernel/mm.cpp:1533-1570 | The word stored on unmapping fits the lists exactly when the page is on none |
| `KernelScheduler.Scheduler.constructor` | kernel/ps.cpp:624-683 | The initial thread runs alone |
| `KernelScheduler.Scheduler.FindReadyThread` | kernel/ps.cpp:149-246 | The first ready thread other than the current one; it only meets ready threads; fails exactly when there is none and the current cannot go on |
| `KernelScheduler.Scheduler.ReadyThread` | kernel/ps.cpp:251-262 | Moves the thread to the end of the ready list |
| `KernelScheduler.Scheduler.UnwaitThread` | kernel/ps.cpp:349-380 | Wakes a thread that waits for an object, to the front of the ready list; leaves one that waits for time |
| `KernelScheduler.Scheduler.ProcessWaitList` | kernel/ps.cpp:385-431 | Every delay counts down by one, wrapping at zero, and no one is woken |
| `KernelScheduler.Scheduler.SwapContext` | kernel/ps386.asm:90-145 | The thread runs with its quantum and dynamic increment |
| `KernelScheduler.Scheduler.SwapThread` | kernel/ps386.asm:167-200 | The current thread goes last if it is ready, the first other thread runs with its quantum and increment, or the system stops; no other thread changes but for delays |
| `KernelScheduler.Scheduler.QuantumEnd` | kernel/ps386.asm:202-208 | The ready list rotates and its next thread runs; waiting threads and events are untouched |
| `KernelScheduler.RoundRobin` | kernel/ps386.asm:150-208 | Every ready thread runs within as many quantum ends as there are ready threads |
| `KernelScheduler.Scheduler.WaitForSingleObject` | kernel/kernel.cpp:604-696 | No wait for a signalled event; otherwise the thread joins the end of the event's list and another runs, or the system stops |
| `KernelScheduler.Scheduler.SetEvent` | kernel/kernel.cpp:456-581 | The first waiter of a synchronization event alone, or all waiters of a notification event, become ready in front of the list with the increment and leave the event; no other thread changes; the event stays signalled |
| `KernelScheduler.Scheduler.PulseEvent` | kernel/kernel.cpp:587-599 | Exactly the same threads become ready and the event is left unsignalled |
| `KernelScheduler.Scheduler.DelayThreadExecution` | kernel/ps.cpp:701-770 | The thread waits for time and leaves the ready list |
| `SchedulerState.DelayedIsStuck` | kernel/ps.cpp:349-380 | A delayed thread is not ready and on no event's list |
| `SchedulerState.NeverWakes` | kernel/ps.cpp:349-431 | Over any run of operations that each keep delayed threads delayed, a thread that ever waits for time is never ready or running again |
| `SchedulerState.DelayGoesDown` | kernel/ps.cpp:385-431 | However often the wait list is processed, a delay has gone down by as much, through zero, and nothing else about any thread has changed |
| `KernelScheduler.Scheduler.ExitThread` | kernel/ps.cpp:56-89 | The thread leaves all lists and another runs, or the system stops |
| `KernelScheduler.Scheduler.CreateThread` | kernel/ps.cpp:460-500 | The new thread is the first of the ready ones |
| `Unwinding.LevelsDescend` | kernel/except.cpp:69-108 | Going outwards the try level strictly decreases, so no scope is met twice |
| `Unwinding.LevelsLinked` | kernel/except.cpp:69-108 | The scopes around a point are the one it is in, the one that lies in, and so on up to one that lies in none |
| `Unwinding.InsideThenRest` | kernel/except.cpp:69-108 | The scopes around a point are those strictly inside one of them, then that one and those around it |
| `Unwinding.FrameList.LocalUnwind` | kernel/except.cpp:69-108 | Runs exactly the finally blocks of the scopes strictly inside the given one and leaves that try level |
| `Unwinding.FrameList.Unwind` | kernel/except.cpp:113-206 | Every frame from the list head to before the target is unwound wholly, innermost first, others untouched; where the list head is left; a target passed already is refused |
| `Unwinding.HandlersRunExactly` | kernel/except.cpp:224-350 | Exactly the finally blocks of the frames before the chosen one, those of the chosen frame strictly inside the chosen scope, and the handler are run: inner frames first, inner scopes first, none twice |
| `Unwinding.ChosenIsInnermost` | kernel/except.cpp:224-350 | The chosen scope says to execute its handler or to continue; every scope inside it, and every scope if none is chosen, is a finally block or says to search on |
| `Unwinding.DecidedExactly` | kernel/except.cpp:387-493 | Over the filters' answers: a handler runs only for a scope that says so, an exception is resumed only for one that says so, with every scope of the frames before and every scope inside it a finally block or searching on; nobody handles it exactly when all scopes of all frames are |
| `Unwinding.FrameList.ExceptHandler` | kernel/except.cpp:224-350 | The innermost scope whose filter does not search on decides, by its answer; a handler runs after all inner frames and scopes are unwound; what is left of every frame, and when the try level stored is right |
| `Unwinding.FrameList.Dispatch` | kernel/except.cpp:387-493 | The innermost frame with such a scope decides, and what is left of every frame; an exception nobody takes, a resumed one that must not be, and one raised while another is pending end the thread; which exceptions stay pending |
| `Unwinding.StoredTryLevel` | kernel/except.cpp:326 | The try level stored is that around the chosen scope exactly when no other scope is around it |
| `NumberFormat.DigitsEvaluate` | kernel/runtime.cpp:79-85 | The digits repeated division gives evaluate back to the number |
| `NumberFormat.DigitCount` | kernel/runtime.cpp:79-85 | A number below 2 to the k has at most k digits in any base |
| `NumberFormat.Convert` | kernel/runtime.cpp:136-145 | The scratch array holds the digits; 32 of its 66 places suffice |
| `NumberFormat.SkipAtoi` | kernel/runtime.cpp:88-95 | The value of the leading decimal digits, all of which are passed over |
| `NumberFormat.NumberReadsBack` | kernel/runtime.cpp:88-189 | What is printed in base ten reads back as the number |
| `NumberFormat.TextReadsBack` | kernel/runtime.cpp:99-189 | In every base and for all flags the text is blanks, sign, prefix, digits and blanks, and reads back as the number with the sign flag, as its bits taken for an unsigned number without |
| `NumberFormat.TextWidth` | kernel/runtime.cpp:99-189 | The text is as wide as asked, or as sign, prefix and digits or precision need |
| `NumberFormat.Number` | kernel/runtime.cpp:99-189 | For every value, base, width, precision and flags: exactly the text as far as the buffer goes, nothing past its end, the position advanced by the text's length; NULL for a bad base |

## Left out

Kernel heap:

- The guard table and its log (`ExLogAllocation` and its companions), locks and interrupts, heap dumps.
- The list heads are paragraphs of their own below the arena, and what the code reads in front of a head as a block type is taken not to be "free".
- The pointers of a header that was never linked are not looked at, as the code does not look at them.
- KernelHeap.Heap.CheckBlockValid: a header whose checksums are right and whose block or padding runs outside memory is not read. So pointers passed in lead to current blocks or to memory that fails validation; a forged header that passes is not modelled. After `Overrun` the run ends.
- HeapTheorems.SpaceIsConserved: is about any two states that keep the invariant over the same arena; `HeapRuns.RunIntact` states it over calls.
- HeapRuns.RunIntact: reallocations that hit the tight case without being granted what they ask for are left out of the run, since their caller no longer holds what it asked for.

File cache and FAT:

- FileCache.CacheMap.constructor: cluster sizes that do not fill a page are excluded here, because reading such a page leaves its status uninitialised; `CacheContent.WholeExactly` says which they are. The error returns of `CcInitializeFileCaching` are left out.
- FileCache.CacheMap.CacheReadFile: a NULL buffer and running out of memory for the temporary page are left out.
- FileCache.CacheMap.CacheWriteFile: write-through, which can add a page that is already cached, is left out.
- FileCache.CacheMap.WriteCluster: whether a cluster can be written is fixed per cluster for a run.
- FileCache.CacheMap.CacheFilePage: the page is not cached yet, as it always is without write-through; counts are unbounded (no wrap of `CachedPages`), page buffers are values of the slots, and growing or finding a buffer may fail at any time unless the map was made with plenty of memory.
- FileCache.CacheMap.RebuildCacheMap: a forced rebuild with no page that can go is `RebuildRounds`, for it does not end; the body compiled out by a flag in `kernel/inc/common.h`; nothing calls it here, as in the build.
- Fat.PerformRead: entries beyond the loaded part of the table are not read.
- Fat.SizeOfClusterChain: on a table that links in a circle, and on FAT16, the count does not end; chains are finite here.
- Mounting, directories and file creation of the FAT driver, mutexes, and `CcRequestCachedPage`.

Debugger link:

- KdLink.StepKeeps: one direction with one packet type; data crossing in both directions while an acknowledgement is awaited, mixed types and the give-up returns of the retry loop are left out. Damage to a header shows as an unreadable packet, not as the other valid id, which no checksum covers.
- KdPort.Port.ReceiveOne: a read past the last byte is a timeout, bytes may be received in error, and the three reads of the rest of a header are one read of ten bytes.
- Command handlers, state reports and the port itself.

Object namespace:

- KernelNamespace.Namespace.ReferenceObjectByName: reference counts, access from user mode and memory failures are left out.
- KernelNamespace.Namespace.QueryObjectName: the buffer is given as its size; the 16-bit length of a `UNICODE_STRING` does not wrap here, and names of types with a name routine of their own are left out.
- KernelNamespace.Namespace.CreateSymbolicLink: a path in front of the link that names no directory gives `NoDirectory`, where the code would go on with an object that is none.
- Deletion, handles and temporary objects.

Physical pages:

- PageDatabase.Database.MapPage: page table bits are left out; of the working-set array only the indices are modelled that the code clears and marks, -1 among them.
- Searches for free mappings, file views, the image loader and `MmReservePhysicalAddressRange`.

Scheduler:

- KernelScheduler.Scheduler.WaitForSingleObject: a thread waits for one object; waits for several, mutexes and interrupt levels are left out.
- KernelScheduler.RoundRobin: no wake-ups or creations happen meanwhile, since both put threads in front of the list.
- `PsTerminateThread`, processes and context frames.

Exceptions and numbers:

- Unwinding.FrameList.Unwind: a target address between two frames is left out; filters answer without side effects, and handlers raise nothing.
- Unwinding.FrameList.Dispatch: gathering the exception record and the context is left out.
- NumberFormat.SkipAtoi: a number of more digits than an int holds does not overflow here.
- NumberFormat.Number: width and precision are integers without overflow; floating point, strings and the format parser are left out.

Port input and output, disks, keyboard, console, boot loader and descriptor tables are not part of this model.
