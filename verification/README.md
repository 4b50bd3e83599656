# Models and proofs for the VirtualBox host drivers

This project models six parts of the VirtualBox host support driver and its runtime library, and
proves what their code and documentation promise. Every module says which file it models.

- **The simple heap** (`HeapView`, `HeapMemory`, `HeapAlloc`, `HeapFree`, `HeapMove`, `HeapWords`,
  `SimpleHeap`, `HeapRuns`, `HeapCalls`). `SimpleHeap.Heap` runs the allocator on an array of 32-byte granules, with
  the block list and the free list threaded through it. `HeapView` is the block map it represents;
  runs of calls are reasoned about on the map, and `HeapCalls` proves that the memory follows them.
- **The handle table** (`HandleView`, `HandleTable`, `HandleRaces`). `HandleTable.Table` is the
  two-level table with its in-place free list. `HandleRaces` interleaves any number of allocations and
  frees, one step per locked region, with the same region functions.
- **Object references and semaphores** (`RefView`, `ObjRefs`, `SemHandles`). `ObjRefs.DevExt` changes the
  usage and object lists in place; other threads and destructors run wherever the lock is free.
  `SemHandles` puts the semaphore handles on top of table and counts.
- **Event notification** (`MpNotify`). The walk over a pointer list that others change during every
  callback, addresses being reused.
- **The network filter** (`NetFltTrunk`, `NetFltLifetime`). Draining a trunk, and the lifetime of
  instances in the static configuration, as interleaved steps.
- **Checksums and UUID text** (`Checksum`, `ChecksumHeaders`, `ChecksumPackets`, `Uuid`).

`Sequences` holds what several of them need of lists. `dafny verify dfyconfig.toml` checks everything; the
proofs are kept small enough for a resource limit of two million (`--resource-limit 2000000`), with and
without `--warn-contradictory-assumptions`.

## Conventions

- The heap is the 64-bit one, without the strict-build checks (`AssertAll` models them apart). Offsets
  and sizes are granules of 32 bytes: a header takes one, the anchor two, the free-list links share the
  first granule behind a header. Pointers are granule addresses and 0 is NULL. The unsigned
  subtraction of the search (common/alloc/heapsimple.c:507) is kept as coded. When it wraps and a block
  smaller than its gap is picked, or a size that was rounded to 0 is searched for, the result is `Wild`
  and the model stops there, before the code writes outside the block or hands out too small a one.
- Pointers are checked as in a 64-bit x86 kernel (`RT_VALID_PTR`, include/iprt/cdefs.h:1798).
- A retain callback, memory that may be missing, and what other threads do while a lock is free are
  parameters of the methods. A native call has an arbitrary result.
- Locked regions and atomic operations are single steps; what one thread does without touching shared
  state is part of the step before or after it.
- Registered objects and filter instances have numbers that are not reused; their addresses may be.
  `MpNotify` keeps addresses, and gives registrations serial numbers to tell them apart.

## Where the code differs from its documentation

- The heap search can accept a block that does not hold the aligned payload: `HeapRuns.WrapExample`,
  `HeapRuns.WrapExactly`, `HeapRuns.NeverMisfitsExactly`.
- A size above 2^64 - 32 is rounded to 0: `HeapWords.RoundedSizeExact`.
- Session cleanup does not mark the objects it unlinks as dead, so AddRef cannot see them coming:
  `RefView.AddRefSafeExactly`, `RefView.AddRefRaceExample`. It also destroys a semaphore under an operation
  in flight: `SemHandles.SemaphoresOutliveTheirUsers`, `SemHandles.DestroyedUnderWaitExample`.
- A failed initialization of a filter instance frees it whatever its reference count:
  `NetFltLifetime.SafeRunsExactly`, `NetFltLifetime.InitFailureExample`.
- A one-byte segment that completes a word leaves the odd flag set, and an empty segment with the flag set
  is read beyond its end: `Checksum.SplitRightExactly`.
- The IPv6 pseudo header sum has the protocol number in the wrong byte: `ChecksumPackets.Pseudo6RightExactly`.
- The IPv4 header test refuses one of the two forms of zero: `ChecksumHeaders.ChecksumTestExactly`,
  `ChecksumHeaders.RefusedExample`.

## Model

| member | source | states |
|---|---|---|
| HeapView.AcceptedFitsUnlessShort | common/alloc/heapsimple.c:498-508 | the coded size test and the intended one (gap and payload both fit) differ exactly on free blocks with cb <= size < gap |
| HeapView.GapBounds | common/alloc/heapsimple.c:500-506 | skipping the gap puts the payload on the alignment, and the gap is less than the alignment |
| HeapView.DonatedKeeps | common/alloc/heapsimple.c:512-561 | giving the gap to the block in front, or making it a used block at the heap start, keeps blocks tiling the area, no two free neighbours, and the minimum size |
| HeapView.DonatedSum | common/alloc/heapsimple.c:540-553 | the free bytes go down by exactly the gap, whoever gets it |
| HeapView.CarvedKeeps | common/alloc/heapsimple.c:569-605 | splitting keeps the block map well formed; the rest can always hold a free block |
| HeapView.CarvedSum | common/alloc/heapsimple.c:593-603 | the free bytes go down by the used part and its header |
| HeapView.TakenKeeps | common/alloc/heapsimple.c:607-628 | taking a block whole keeps the block map well formed and the free bytes go down by its size |
| HeapView.ReleasedKeeps | common/alloc/heapsimple.c:684-793 | freeing with two-sided coalescing leaves a well formed map: tiled, no two free neighbours |
| HeapView.ReleasedSum | common/alloc/heapsimple.c:743-792 | the free bytes after a free go up by the size of the joined block less those of the free neighbours |
| HeapMemory.UnlinkedListed | common/alloc/heapsimple.c:612-619 | taking a block off the free list leaves an address-ordered doubly linked list of exactly the other free blocks, with the right head and tail |
| HeapMemory.MovedListed | common/alloc/heapsimple.c:545-561 | moving a free block up within its gap keeps the list of the free blocks, in order, forwards and backwards |
| HeapMemory.InsertedListed | common/alloc/heapsimple.c:726-764 | linking a block between its two free neighbours in address order gives the list of the larger set |
| HeapMemory.SplitChained | common/alloc/heapsimple.c:576-581 | the new header in the middle of a block leaves the block list running through all headers both ways |
| HeapMemory.JoinedChained | common/alloc/heapsimple.c:743-747 | taking a header out leaves the block list running through the remaining ones |
| HeapMemory.ShiftedChained | common/alloc/heapsimple.c:525-550 | moving a header up, its front neighbour growing, keeps the block list |
| HeapMemory.PayloadsGrow | common/alloc/heapsimple.c:476-636 | payloads untouched by one step and by the next, live blocks only growing, are untouched by both |
| HeapMemory.OutsidePayloads | common/alloc/heapsimple.c:110-159 | headers and the inside of free blocks are never part of a live payload |
| HeapMemory.StoredSound | common/alloc/heapsimple.c:110-159 | whatever a caller stores in a live payload, the heap stays sound: 32 bytes are enough room for the free-list links |
| HeapAlloc.DonateSound | common/alloc/heapsimple.c:512-561 | the memory after the alignment move, header copied over itself, represents the donated map; no live payload is written |
| HeapAlloc.CarveSound | common/alloc/heapsimple.c:569-605 | the memory after the split represents the carved map; the write behind the used part hits no payload |
| HeapAlloc.TakeSound | common/alloc/heapsimple.c:607-628 | the memory after taking a block whole represents the taken map |
| HeapAlloc.SearchFailed | common/alloc/heapsimple.c:488-508 | a search that ends has seen no fitting block |
| HeapAlloc.SearchStopped | common/alloc/heapsimple.c:488-508 | a search that stops at a block has skipped every lower one |
| HeapAlloc.AllocatedGranted | common/alloc/heapsimple.c:476-636 | an allocation is aligned, at least as large as asked and at most 32 bytes larger, inside the former free block, and no other block becomes or stops being live |
| HeapFree.InsertPending | common/alloc/heapsimple.c:726-764 | the free block linked in, with all but its own cached size right |
| HeapFree.LeftPending | common/alloc/heapsimple.c:743-750 | the block joined to the free one on its left: links, map and free bytes |
| HeapFree.RightPending | common/alloc/heapsimple.c:770-785 | the free block on the right joined: links, map and free bytes |
| HeapFree.SizedSound | common/alloc/heapsimple.c:790-792 | with its size computed from the next header, the block makes the heap sound again |
| HeapFree.ReleasedInSteps | common/alloc/heapsimple.c:684-793 | the left join or insert, then the right join, amount to one free with both neighbours |
| HeapFree.ScanEnd | common/alloc/heapsimple.c:698-717 | the walk to the right finds the nearest free blocks on both sides in address order |
| HeapMove.ShiftedSound | common/alloc/heapsimple.c:338-385 | relocation is a translation: same blocks, free list and counters at the new base, no payload byte changed |
| HeapMove.ShiftedBack | common/alloc/heapsimple.c:338-385 | relocating by d and then by -d restores every link |
| HeapWords.RoundedSizeExact | common/alloc/heapsimple.c:389-421 | sizes below 32 become 32; from there up rounding adds less than 32 bytes, exactly up to 2^64 - 32; above, the sum wraps and the size becomes 0 |
| HeapWords.LowestPlace | common/alloc/heapsimple.c:389-508 | the block first fit picks holds, behind its gap, the lowest address of all free blocks with room for the bytes asked for on the alignment asked for |
| HeapWords.NothingFitsNoPlace | common/alloc/heapsimple.c:389-508 | when no block fits in granules, no address in any free block has room for the request in bytes |
| HeapWords.PlaceFits | common/alloc/heapsimple.c:389-508 | an aligned byte range inside a free block is found by the search in granules |
| HeapWords.Pow2Multiple | common/alloc/heapsimple.c:389-421 | alignments below 32 divide 32, larger ones are multiples of it |
| HeapWords.InitAcceptsExactly | common/alloc/heapsimple.c:289-291 | the three checks (page size, RT_VALID_PTR, wrapping sum) accept exactly ranges of a page or more that start in either half of the address space, outside its first and last page, and do not wrap |
| HeapWords.AddWrappedExact | common/alloc/heapsimple.c:355-358 | wrapping pointer addition is the true translation when both places fit the address space |
| SimpleHeap.Heap.constructor | common/alloc/heapsimple.c:297-334 | the fresh heap: aligned into the given range, at least 127 granules, past the first page, one free block behind the anchor, everything valid |
| SimpleHeap.Heap.Init | common/alloc/heapsimple.c:280-334 | fails exactly on short ranges, invalid pointers and wrapping ranges, otherwise gives a valid fresh heap inside the range |
| SimpleHeap.Heap.Donate | common/alloc/heapsimple.c:512-561 | the memory follows the donated map; payloads kept |
| SimpleHeap.Heap.Carve | common/alloc/heapsimple.c:569-605 | the memory follows the carved map; payloads kept |
| SimpleHeap.Heap.Take | common/alloc/heapsimple.c:607-628 | the memory follows the taken map; payloads kept |
| SimpleHeap.Heap.AllocBlock | common/alloc/heapsimple.c:476-636 | first fit: NULL means nothing fits; a block is the lowest accepted one and is granted; Wild exactly when the lowest accepted block is smaller than its gap or the size is 0; payloads kept |
| SimpleHeap.Heap.Alloc | common/alloc/heapsimple.c:389-421 | in bytes, for every size and alignment: a block is the lowest address with room for it, aligned as asked, with less than 64 bytes to spare; NULL exactly says that there is no such address; no wrong answer up to alignment 32; and the call is the step Allocate of a run |
| SimpleHeap.Heap.FreeNeighbours | common/alloc/heapsimple.c:698-718 | finds the nearest free blocks, or the block itself when it is free already |
| SimpleHeap.Heap.FreeBlock | common/alloc/heapsimple.c:684-798 | a double free changes nothing; otherwise block and free neighbours become one free block; live payloads kept |
| SimpleHeap.Heap.Free | common/alloc/heapsimple.c:639-674 | NULL is ignored, otherwise as FreeBlock |
| SimpleHeap.Heap.Size | common/alloc/heapsimple.c:832-861 | the payload bytes of the block |
| SimpleHeap.Heap.GetFreeSize | common/alloc/heapsimple.c:880-891 | the counter is the sum of all free payload bytes |
| SimpleHeap.Heap.Store | common/alloc/heapsimple.c:110-159 | a caller may write any live payload without harm to the heap |
| SimpleHeap.Heap.Relocate | common/alloc/heapsimple.c:338-385 | accepts exactly the true displacement and then holds the same blocks at the new base; refuses without change otherwise |
| SimpleHeap.Heap.RelocateBlocks | common/alloc/heapsimple.c:363-375 | the walk, over links it has just changed, shifts exactly the headers and free links |
| SimpleHeap.Heap.AssertAll | common/alloc/heapsimple.c:806-828 | every check of the strict-build walk holds on a valid heap |
| HeapRuns.AllocationIsApply | common/alloc/heapsimple.c:476-636 | what the heap does on a successful allocation is the step of a run |
| HeapRuns.RunKeeps | common/alloc/heapsimple.c:476-798 | every run of allocations and frees keeps the block map well formed |
| HeapRuns.Conservation | common/alloc/heapsimple.c:307-326 | after any run the anchor and 32 + cb over all blocks add up to the heap size |
| HeapRuns.FreeingAll | common/alloc/heapsimple.c:726-792 | freeing all live blocks, in any order, leaves one free block, and padding at the heap start as the only residue |
| HeapRuns.FullCircle | common/alloc/heapsimple.c:307-326 | a fresh heap after default-aligned allocations and frees and the free of all live blocks is the fresh heap |
| HeapRuns.LargeRequestsNeverWrap | common/alloc/heapsimple.c:507 | requests of at least the alignment minus 32 are never given a block that cannot hold them |
| HeapRuns.NeverMisfitsExactly | common/alloc/heapsimple.c:496-508 | for a size and an alignment: on no heap, whatever calls came before, does the search settle for a block that cannot hold the request, if and only if the size is not 0 after rounding and at least the alignment minus 32 |
| HeapRuns.HoleRun | common/alloc/heapsimple.c:476-798 | two allocations and a free on a fresh heap leave a hole of any wanted size below a large block |
| HeapRuns.WrapExample | common/alloc/heapsimple.c:507 | on every heap at such an address, those calls with one-granule blocks: 32 bytes aligned to 128 are then given the hole, although the aligned payload lies beyond it and another block fits |
| HeapRuns.WrapExactly | common/alloc/heapsimple.c:507 | the picked block holds the aligned payload if and only if it is not smaller than its gap |
| HeapCalls.Call | common/alloc/heapsimple.c:476-798 | one call on the memory is one step of a run on the block map |
| HeapCalls.Calls | common/alloc/heapsimple.c:476-798 | any sequence of allocations and frees on the memory: the block map is that of the run, and each block live at the start and not freed on the way is still live with the same contents |
| HeapCalls.CallsInBytes | common/alloc/heapsimple.c:389-674 | any sequence of RTHeapSimpleAlloc(cb, 0) and RTHeapSimpleFree follows a default-aligned run; and whenever nothing is live after it, a heap that was fresh is fresh again |
| HeapCalls.LiveKeptOn | common/alloc/heapsimple.c:476-798 | payload preservation composes over calls |
| HandleView.FreeWordRoundTrip | common/misc/handletable.h:39-49 | a tagged free index reads back and is told from an aligned pointer |
| HandleView.PointersAreNotFree | common/misc/handletable.h:39-49 | a word divisible by four is never a free-list link; the links are exactly the tagged indexes |
| HandleView.HandleRoundTrip | common/misc/handletable.h:160-214 | index to handle and back, though base plus index may wrap |
| HandleView.HandleRoundTripBack | common/misc/handletable.h:160-214 | handle to index and back |
| HandleView.GrabbedKeeps | common/misc/handletablectx.c:70-91 | taking the free head keeps: free queue without repeats and live indexes split the entries, counts add up |
| HandleView.WithTableKeeps | common/misc/handletablectx.c:170-198 | a new second-level table keeps that |
| HandleView.ReleasedKeeps | common/misc/handletablectx.c:298-321 | freeing keeps that |
| HandleView.PlanMakesRoom | common/misc/handletablectx.c:107-115 | the first level planned before the lock is dropped has room for the next table and stays within cMax |
| HandleView.FoundIsMapLookup | common/misc/handletablectx.c:218-258 | lookup is that of a map from handles to object and context; anything else gives NULL |
| HandleView.GrabbedHandles | common/misc/handletablectx.c:70-91 | allocation adds one handle that was not in use and changes no other |
| HandleView.ReleasedHandles | common/misc/handletablectx.c:298-321 | a free removes exactly its handle |
| HandleView.WithTableHandles | common/misc/handletablectx.c:170-198 | expansion changes no handle |
| HandleView.IssuedInOrder | common/misc/handletablectx.c:70-91 | indexes are handed out in queue order |
| HandleView.FreedIsReissuedLast | common/misc/handletablectx.c:298-321 | a freed index is reissued after everything that was free before it: first in, first out |
| HandleTable.GrabbedEntries | common/misc/handletablectx.c:70-91 | unlinking the head entry leaves the entries and both list ends representing the new queue |
| HandleTable.ReleasedEntries | common/misc/handletablectx.c:298-321 | so does linking a freed entry behind the tail |
| HandleTable.AddedEntries | common/misc/handletablectx.c:177-197 | so does linking a fresh table behind the tail |
| HandleTable.RoundedMaxExact | common/misc/handletable.c:63-71 | cMax is rounded up to whole tables, or capped at 0xfffff800 |
| HandleTable.Table.constructor | common/misc/handletable.c:76-103 | a fresh table is valid and empty |
| HandleTable.Table.CreateEx | common/misc/handletable.c:46-115 | refuses exactly unknown flags and an empty or wrapping handle range, fails for want of memory or of the spinlock of a locked table, and otherwise gives a valid empty table |
| HandleTable.Table.LookupWithCtx | common/misc/handletablectx.c:218-258 | the found object when the retain callback agrees, otherwise NULL |
| HandleTable.Table.FreeWithCtx | common/misc/handletablectx.c:262-330 | frees exactly the entry of a found, non-NULL, retained object |
| HandleTable.Table.LinkFree | common/misc/handletablectx.c:298-321 | the entry joins the queue at the tail, through the tagged links |
| HandleTable.Table.Grab | common/misc/handletablectx.c:70-91 | the head entry is used; list ends and count follow |
| HandleTable.Table.InstallLevel1 | common/misc/handletablectx.c:146-161 | the larger first level holds the same tables, the rest null; a racer that was faster is left alone |
| HandleTable.Table.LinkEntries | common/misc/handletablectx.c:177-184 | the entries of a new table form a list in index order |
| HandleTable.Table.InstallTable | common/misc/handletablectx.c:170-198 | the table is in, distinct from all others, and its entries joined to the queue |
| HandleTable.Table.AllocWithCtx | common/misc/handletablectx.c:45-211 | undisturbed allocation: which entry is used, and each failure exactly when it is due, without change |
| HandleTable.Table.Expand | common/misc/handletablectx.c:100-208 | one undisturbed pass either lacks memory and changes nothing, or adds a table |
| HandleTable.Table.DeleteAll | common/misc/handletable.c:160-198 | destruction calls back for exactly the live handles, in order, despite leaving off when the count runs out |
| HandleTable.OwedComplete | common/misc/handletable.c:160-198 | once as many used entries were seen as are allocated, none is left |
| HandleTable.OwedOnce | common/misc/handletable.c:160-198 | every live handle gets its callback, with its own object and context |
| HandleTable.OwedDistinct | common/misc/handletable.c:160-198 | and no handle gets two |
| HandleRaces.StepKeeps | common/misc/handletablectx.c:63-211 | every region of every interleaved allocation, and every free, keeps table and owners consistent |
| HandleRaces.LoserWasOvertaken | common/misc/handletablectx.c:170-205 | a thread finds no room for its table only if cCur grew by a table since it looked |
| HandleRaces.HandlesAreUnique | common/misc/handletablectx.c:63-211 | in every interleaving no handle is held by two callers, and each finds its own object |
| HandleRaces.AllocationIsBounded | common/misc/handletablectx.c:65-209 | one allocation enters at most cMax / 2048 expansion passes whatever the others do, and takes a bounded number of steps |
| HandleRaces.AllocationGoesOn | common/misc/handletablectx.c:65-209 | a thread that has not returned can always take its next step |
| HandleRaces.FullMeansFull | common/misc/handletablectx.c:95-99 | "no more handles" is answered only when all cMax entries are in use |
| HandleRaces.AnswersByStep | common/misc/handletablectx.c:45-211 | a thread answers out of memory only by its own failed allocation, bad object only for a tagged one, and no more handles exactly when all cMax entries are in use as it looks |
| HandleRaces.AllocationSucceeds | common/misc/handletablectx.c:45-211 | in every interleaving a thread that returned without a failed allocation of its own has its handle, unless its object is tagged or it saw the table full; losing an expansion race is no exception |
| HandleRaces.ServedAtOnce | common/misc/handletablectx.c:67-205 | a look is served when any entry is free and plans a table exactly when none is and there may be more; with its table a thread is served unless another one grew cCur, and then it looks again |
| HandleRaces.HeldUntilFreed | common/misc/handletablectx.c:262-330 | a handle stays with its holder until it is freed under its context |
| HandleRaces.AllocationHandles | common/misc/handletablectx.c:63-211 | to everyone else an allocation is atomic: one unused handle appears exactly when it returns success |
| HandleRaces.FreeHandles | common/misc/handletablectx.c:262-330 | a free removes its own handle or nothing |
| RefView.RegisteredKeeps | vboxdrv/SUPDrv.c:1849-1880 | registration keeps all counts right |
| RefView.ReferencedKeeps | vboxdrv/SUPDrv.c:1944-2021 | AddRef on a protected object keeps all counts right |
| RefView.DroppedKeeps | vboxdrv/SUPDrv.c:707-751 | giving up a record, with or without unlinking the object, keeps all counts right |
| RefView.ReleasedKeeps | vboxdrv/SUPDrv.c:2061-2128 | Release keeps all counts right |
| RefView.StepKeeps | vboxdrv/SUPDrv.c:707-2128 | at every release of the spinlock each linked object counts the sum of its sessions' records, no session has two for one object, and none names an unlinked object |
| RefView.RunKeeps | vboxdrv/SUPDrv.c:707-2128 | and so in every run of any sessions |
| RefView.DestructedOnceAfterLastReference | vboxdrv/SUPDrv.c:707-2128 | in every run a destructor is called at most once, only with no reference left anywhere, and is due or called once there is none |
| RefView.DueWithLastReference | vboxdrv/SUPDrv.c:707-2128 | the step that takes the last reference is exactly the one that makes the destructor due |
| RefView.RegisteredCounts | vboxdrv/SUPDrv.c:1813-1882 | one reference, of the registering session, to an object nobody referred to |
| RefView.ReferencedCounts | vboxdrv/SUPDrv.c:1978-2008 | AddRef adds one reference of this session to this object and nothing else |
| RefView.ReleasedCounts | vboxdrv/SUPDrv.c:2061-2128 | Release takes one away if there is one, and nothing else |
| RefView.ReleasedLast | vboxdrv/SUPDrv.c:2087-2110 | the object is unlinked exactly when that was the last reference of all sessions |
| RefView.ReleaseUndoesAddRef | vboxdrv/SUPDrv.c:1978-2120 | a release undoes a successful AddRef and destroys nothing |
| RefView.RecordsConserved | vboxdrv/SUPDrv.c:707-2128 | usage records in use and spare ones together change only by the record that is allocated and the one that the cleanup frees |
| RefView.LastReleaseMarks | vboxdrv/SUPDrv.c:2087-2110 | the release of the last reference of all marks the object, which is still in memory |
| RefView.NoReferenceAfterLastRelease | vboxdrv/SUPDrv.c:1947-2110 | in every run after it, as long as the object is in memory, it is marked, and no AddRef of any session counts a reference to it |
| RefView.AddRefSafeExactly | vboxdrv/SUPDrv.c:1936-2008 | on an object still in memory, AddRef keeps the counts right exactly when the object is linked or marked dead (or no record was to be had): the cleanup path does not mark what it unlinks |
| RefView.AddRefRaceExample | vboxdrv/SUPDrv.c:726-738 | a run from the start, register and cleanup, after which AddRef on the object still in memory breaks the counts |
| RefView.CleanedExactly | vboxdrv/SUPDrv.c:707-756 | undisturbed cleanup takes away exactly the session's references and destroys exactly the objects that had no others; destructors that are due elsewhere stay due |
| ObjRefs.DevExt.constructor | vboxdrv/SUPDrv.c:382-410 | no objects, no references |
| ObjRefs.DevExt.ObjRegister | vboxdrv/SUPDrv.c:1813-1882 | the counts and lists after registration, with others running while the record is allocated |
| ObjRefs.DevExt.ObjAddRefEx | vboxdrv/SUPDrv.c:1924-2021 | each outcome exactly when it is due and the new counts, with others running across the lock drop; a marked object is refused without change; the invariant exactly when the object is linked or marked when the lock is taken for the last time, or nothing was recorded |
| ObjRefs.DevExt.TakeReference | vboxdrv/SUPDrv.c:1978-2018 | the reference is counted in object and session, in a new record if need be, or the call gives up unchanged |
| ObjRefs.DevExt.FindRecord | vboxdrv/SUPDrv.c:1985-1990 | the walk finds the first record for the object |
| ObjRefs.DevExt.Unlink | vboxdrv/SUPDrv.c:2097-2109 | the object leaves the list, the others keep their order |
| ObjRefs.DevExt.DropRecord | vboxdrv/SUPDrv.c:2077-2110 | the record goes to the spare ones, and when it was the last the object is unlinked and marked as dead |
| ObjRefs.DevExt.ObjRelease | vboxdrv/SUPDrv.c:2039-2132 | invalid exactly without a reference of the session, destroyed exactly when it was the last of all; then the object stays marked whatever others do, and the destructor is called once while they run |
| ObjRefs.DevExt.Destroy | vboxdrv/SUPDrv.c:2118-2128 | whatever others do before and during it, the destructor is called once and the memory freed after it |
| ObjRefs.DevExt.CleanupOnce | vboxdrv/SUPDrv.c:714-751 | one iteration drops the first record, the destructor called with the lock free |
| ObjRefs.DevExt.CleanupObjects | vboxdrv/SUPDrv.c:707-756 | the loop ends with no reference of the session, though destructors and others may add some, and whatever destructors were due before; undisturbed it is Cleaned |
| SemHandles.StepKeeps | vboxdrv/SUPDrvSem.c:67-155 | every interleaved step of create, close, signal, wait and session cleanup, the emptying of the session's list included, keeps the composed invariant |
| SemHandles.StepOfDevice | vboxdrv/SUPDrv.c:707-2128 | on the device every such step is one of RefView or none, so all its results hold here |
| SemHandles.SemaphoresOutliveTheirUsers | vboxdrv/SUPDrvSem.c:67-155 | in every run, cleanup included: a semaphore counts one for its handle plus those of operations in flight, until the emptying of its session's list takes its record; and while handle or operation refers to it, exactly that makes its destructor due |
| SemHandles.LostInStep | vboxdrv/SUPDrv.c:714-751 | in one step: only the owning session's own Pop takes a semaphore from under an operation, and what is unlinked stays so |
| SemHandles.PopOwnKeeps | vboxdrv/SUPDrv.c:714-751 | taking a record away keeps the composed invariant, operations in flight or not |
| SemHandles.HeldWhileEmptying | vboxdrv/SUPDrv.c:714-751 | while the list is emptied, operations give their references back with those counted, but for that Pop |
| SemHandles.LookupSucceedsExactly | vboxdrv/SUPDrv.c:895-900 | lookup succeeds exactly for a live handle of the right kind, with its semaphore, and changes nothing otherwise: the non-blocking retain never answers try-again |
| SemHandles.UseGivesBack | vboxdrv/SUPDrvSem.c:131-155 | a lookup and its release leave every count, the table and the destructors as they were |
| SemHandles.FoundIsSemaphore | vboxdrv/SUPDrvSem.c:131-155 | what a lookup finds is a linked semaphore of the kind asked for |
| SemHandles.CloseHoldsTwo | vboxdrv/SUPDrvSem.c:103-128 | the two references that close asserts and releases are there, until the session's list is emptied |
| SemHandles.CloseSucceedsExactly | vboxdrv/SUPDrvSem.c:103-128 | close succeeds exactly for a live handle of the right kind, with or without a spare record, and takes exactly that handle away; otherwise nothing changes |
| SemHandles.CloseRuns | vboxdrv/SUPDrvSem.c:103-128 | a whole close: the handle is gone, the thread done, and the semaphore destroyed, or about to be, exactly when no other operation uses it |
| SemHandles.CreateGivesHandle | vboxdrv/SUPDrvSem.c:67-100 | create ends with a handle that nobody had, for the new semaphore under its kind |
| SemHandles.FailedCreateLeavesNothing | vboxdrv/SUPDrvSem.c:94 | without a handle the new semaphore is given back, and destroyed, or about to be, exactly when nobody else holds it |
| SemHandles.ClosedIsGone | vboxdrv/SUPDrvSem.c:103-128 | after a successful close no lookup finds the handle |
| SemHandles.HeldIsLinked | vboxdrv/SUPDrvSem.c:131-155 | a semaphore held by a handle or an operation is linked, alive and not destroyed, as long as its session's record for it was not taken away |
| SemHandles.CloseKeeps | vboxdrv/SUPDrvSem.c:115-128 | the handle free with its retain moves the table's reference to the closing thread |
| SemHandles.DeleteNextKeeps | vboxdrv/SUPDrv.c:912-918 | the delete callback gives the table's reference back |
| SemHandles.ForeignKeepsCounts | vboxdrv/SUPDrv.c:707-2128 | what other objects and sessions do changes no reference to a semaphore |
| SemHandles.CleanupDestroysUnderOperations | vboxdrv/SUPDrv.c:698-757 | after the table is gone, emptying the session's list undisturbed makes a semaphore's destructor due or called under an operation if and only if one is in flight |
| SemHandles.ClosingUnderOperation | vboxdrv/SUPDrv.c:698-757 | wherever an operation is in flight, the steps of the cleanup lead to a state in which it refers to a semaphore that is destroyed or about to be |
| SemHandles.DestroyedUnderWaitExample | vboxdrv/SUPDrvSem.c:131-155 | a run from a fresh session: create, look up, close the session; the semaphore goes while the thread is in the wait |
| SemHandles.QuietCleanupIsSafe | vboxdrv/SUPDrv.c:698-757 | with nobody racing the closing session, every semaphore has lost its last reference by the delete callbacks, its destructor called once or due |
| MpNotify.UnlinkedChain | r0drv/mpnotification-r0drv.c:255-262 | unlinking keeps the list of the others, and their done bits |
| MpNotify.LinkedChain | r0drv/mpnotification-r0drv.c:190-214 | a new record at the tail, all its bits set |
| MpNotify.Notifier.Search | r0drv/mpnotification-r0drv.c:247-254 | the walk finds the record of the pair and the one before it |
| MpNotify.Notifier.RegisterPair | r0drv/mpnotification-r0drv.c:162-226 | the registration is appended, or the call fails without change, each for its reason; the generation counts the change |
| MpNotify.Notifier.DeregisterPair | r0drv/mpnotification-r0drv.c:230-276 | the registration is removed, or the call fails without change |
| MpNotify.Notifier.Terminate | r0drv/mpnotification-r0drv.c:296-325 | the list is taken away and every record freed, none left over |
| MpNotify.Notifier.Interfere | r0drv/mpnotification-r0drv.c:140-148 | whatever is done while the lock is free, the list is what those acts make of it, old records keep the event's bit, new ones have it set, and the generation tells whether the list changed |
| MpNotify.MarkKeeps | r0drv/mpnotification-r0drv.c:135-139 | test-and-set of the bit and the call keep track of what is pending |
| MpNotify.EvolvedKeeps | r0drv/mpnotification-r0drv.c:140-148 | changes during a callback keep it too |
| MpNotify.LastWasCalled | r0drv/mpnotification-r0drv.c:149-155 | leaving the walk after the last record misses nothing, even if the list changed meanwhile |
| MpNotify.Notifier.ClearBits | r0drv/mpnotification-r0drv.c:123-125 | every linked record has the bit clear |
| MpNotify.Notifier.Walk | r0drv/mpnotification-r0drv.c:128-155 | one walk: the saved next pointer is followed only while the generation stands, so no freed record is read; a NULL end means nothing is pending; undisturbed it calls all in order |
| MpNotify.Notifier.CallBack | r0drv/mpnotification-r0drv.c:135-150 | one callback: the bit is set before, the record was linked, and what it leaves of bits and generation |
| MpNotify.Notifier.DoCallbacks | r0drv/mpnotification-r0drv.c:92-158 | each call is to a different registration of the event's start, linked when called; every one linked from start to end, and every one that others spare, is called; undisturbed all are, once and in order; at most N calls and N + 1 walks; the list is changed by the others only, and the done bit moved on by one and by what other events add |
| MpNotify.SparedStays | r0drv/mpnotification-r0drv.c:140-148 | a registration that nobody deregisters stays linked unless the list is terminated |
| MpNotify.BitsRotate | r0drv/mpnotification-r0drv.c:110-117 | the next 63 events have done bits of their own |
| NetFltTrunk.StepKeeps | vboxnetflt/VBoxNetFlt.c:375-897 | every interleaved step keeps: cBusy counts the threads inside, one rediscovery at a time, no waiter left behind |
| NetFltTrunk.RunKeeps | vboxnetflt/VBoxNetFlt.c:375-897 | and so in every run |
| NetFltTrunk.BusyNeverRises | vboxnetflt/VBoxNetFlt.c:814-897 | once the trunk is disconnecting, cBusy never rises |
| NetFltTrunk.IdleStays | vboxnetflt/VBoxNetFlt.c:467-492 | after pfnWaitForIdle succeeded no thread is between a try-retain and its release, no rediscovery is pending, and that stays |
| NetFltTrunk.PendingIsBusy | vboxnetflt/VBoxNetFlt.c:397-421 | a pending rediscovery holds a busy reference |
| NetFltTrunk.SuccessMeansIdle | vboxnetflt/VBoxNetFlt.c:483-489 | success is reported only with no thread inside, also after a leftover signal |
| NetFltTrunk.RetainGranted | vboxnetflt/VBoxNetFlt.c:814-897 | an active trunk grants every retain, an inactive one those of receivers only, a disconnecting one none; a refusal changes nothing |
| NetFltTrunk.SendersWereLetIn | vboxnetflt/VBoxNetFlt.c:814-838 | in every run a sender that is inside got in while the trunk was active |
| NetFltTrunk.RediscoversExactly | vboxnetflt/VBoxNetFlt.c:375-421 | a sender tries to find a gone interface again exactly when it may, five seconds went by and no thread is at it; the interface counts as found exactly when that succeeded |
| NetFltTrunk.StepDrains | vboxnetflt/VBoxNetFlt.c:452-458 | while disconnecting every step of a thread inside brings it nearer to its release |
| NetFltTrunk.DrainIsBounded | vboxnetflt/VBoxNetFlt.c:375-489 | the threads inside take no more steps in any run than were left to them |
| NetFltTrunk.DrainGoesOn | vboxnetflt/VBoxNetFlt.c:730-747 | a busy trunk always has such a step, and a waiter on an idle one has the event signalled or about to be |
| NetFltLifetime.StepKeeps | vboxnetflt/VBoxNetFlt.c:649-1279 | every step but an initialization failure with another holder keeps: counts are references, nobody touches freed memory, one destroyer, names unique |
| NetFltLifetime.InstancesLiveRight | vboxnetflt/VBoxNetFlt.c:649-1279 | in every such run no thread deals with a freed instance, no destructor is entered twice, no two instances on the chain have one name |
| NetFltLifetime.DestroyedWithLastReference | vboxnetflt/VBoxNetFlt.c:742-747 | an instance is being destroyed exactly when no reference keeps it alive |
| NetFltLifetime.ProbeKeeps | vboxnetflt/VBoxNetFlt.c:1127-1131 | a probe finds the count positive exactly when a reference keeps the instance alive |
| NetFltLifetime.ProbeOfZeroIsUndone | vboxnetflt/VBoxNetFlt.c:1180-1200 | a probe that raised a zero count takes it back and changes nothing |
| NetFltLifetime.ReleaseKeeps | vboxnetflt/VBoxNetFlt.c:710-750 | the last release enters the destructor, once |
| NetFltLifetime.UnlinkKeeps | vboxnetflt/VBoxNetFlt.c:675-685 | the destroyer unlinks under the mutex, when nobody else knows the instance |
| NetFltLifetime.FreeMemKeeps | vboxnetflt/VBoxNetFlt.c:687-692 | and then frees it |
| NetFltLifetime.InsertKeeps | vboxnetflt/VBoxNetFlt.c:1032-1038 | an instance goes on the chain only under a free name |
| NetFltLifetime.NamesDecide | vboxnetflt/VBoxNetFlt.c:1035-1127 | an instance is linked exactly when its name is free, and freed otherwise; a search stops at the instance of the name exactly when there is one |
| NetFltLifetime.StatesAreRight | vboxnetflt/VBoxNetFlt.c:649-1279 | in every run an instance is initializing, disconnecting or destroyed exactly while its maker or destroyer is at that place, and a connected or unconnected one is kept alive or just entered its destructor |
| NetFltLifetime.ConnectedExactly | vboxnetflt/VBoxNetFlt.c:1252-1270 | an instance becomes connected exactly when a thread that got hold of it to connect it finds it unconnected, and stops by the disconnection or the destructor |
| NetFltLifetime.SafeRunsExactly | vboxnetflt/VBoxNetFlt.c:649-1279 | a run never leaves anybody with a freed instance if and only if no initialization fails while somebody else holds the instance |
| NetFltLifetime.InitFailureSafeExactly | vboxnetflt/VBoxNetFlt.c:1043-1087 | the failed initialization frees the instance whatever its count: safe, for the invariant and for every thread, if and only if the count is 1 |
| NetFltLifetime.InitFailureExample | vboxnetflt/VBoxNetFlt.c:1043-1087 | a run in which a second thread is left with a reference to freed memory |
| Checksum.SumFromJoin | common/checksum/ipv4.c:299-339 | the sum of a string in two parts, the second starting on an odd or even byte |
| Checksum.AddDataChecksum | common/checksum/ipv4.c:299-339 | the 32-bit sum goes up by the words of the segment, the pending byte completed; and what the odd flag is left at |
| Checksum.FlagRightExactly | common/checksum/ipv4.c:301-314 | the flag tells the parity of the bytes so far exactly unless a single byte completes a word |
| Checksum.SegmentsAreTheWhole | common/checksum/ipv4.c:299-339 | for every good split the segmented sum is that of the whole buffer, and no call reads a byte it was not given |
| Checksum.SplitRightExactly | common/checksum/ipv4.c:299-339 | no call gets an empty segment with the odd flag set, and the sum is right for all data, if and only if the split is good: no empty segment with a byte pending, and a byte that completes a word comes last |
| Checksum.AddSegments | common/checksum/ipv4.c:299-339 | calls over a list of segments, the flag carried along, end at the sum of the whole data for every good split, without wrapping behind up to 200 bytes of headers |
| Checksum.SumBound | common/checksum/ipv4.c:299-339 | a sum of n bytes is at most 0xffff times half of n, rounded up |
| ChecksumHeaders.FinalizeIsComplement | common/checksum/ipv4.c:365-371 | folding any 32-bit sum gives the complement of its value modulo 0xffff |
| ChecksumHeaders.ByteOrderDoesNotMatter | common/checksum/ipv4.c:365-371 | a little-endian machine gets the byte swap of what a big-endian one gets, for every byte string |
| ChecksumHeaders.AccumulatorIsWideEnough | common/checksum/ipv4.c:510-519 | the accumulator cannot wrap for the headers and 65535 bytes of data |
| ChecksumHeaders.UnrolledIsLoop | common/checksum/ipv4.c:48-76 | the unrolled switch is the loop over 2 * ip_hl words, for 5 to 15 |
| ChecksumHeaders.HeaderSumIsSum | common/checksum/ipv4.c:45-83 | the header sum is that of its bytes with the checksum field cleared |
| ChecksumHeaders.StampedIsValid | common/checksum/ipv4.c:99-130 | a header with its own checksum passes the checksum test, the other tests as before |
| ChecksumHeaders.StampedSumsToOnes | common/checksum/ipv4.c:45-83 | and all its words sum to 0xffff |
| ChecksumHeaders.HeaderTestsExactly | common/checksum/ipv4.c:99-117 | the other tests in bytes: first byte 0x45 to 0x4f, that many words mapped, total length not above the limit |
| ChecksumHeaders.ChecksumTestExactly | common/checksum/ipv4.c:122-127 | the test accepts what the all-ones rule of RFC 1071 accepts, but for all ones in the field where the checksum is 0 |
| ChecksumHeaders.RefusedExample | common/checksum/ipv4.c:122-127 | a header of twenty bytes that sums to all ones and is refused, on either byte order |
| ChecksumHeaders.CompletesExactly | common/checksum/ipv4.c:365-371 | a field is the checksum of the rest exactly when all sums to all ones, but for that form |
| ChecksumPackets.Pseudo4IsPseudoHeader | common/checksum/ipv4.c:139-153 | the pseudo header taken from an IPv4 header sums the 12 bytes of RFC 793 |
| ChecksumPackets.Pseudo4BitsIsPseudoHeader | common/checksum/ipv4.c:178-192 | so does the one from components in host byte order |
| ChecksumPackets.Pseudo6Offset | common/checksum/ipv6.c:41-65 | the IPv6 pseudo header has the protocol number in the wrong byte of its word |
| ChecksumPackets.Pseudo6RightExactly | common/checksum/ipv6.c:41-65 | checksums made from it are those of RFC 2460 if and only if the protocol number is 0 |
| ChecksumPackets.UDPChecksum | common/checksum/ipv4.c:398-404 | on top of any 32-bit sum, the complement of what UDP header without its checksum and data add to it |
| ChecksumPackets.TCPChecksum | common/checksum/ipv4.c:536-542 | the same for TCP, with options and data of any size |
| ChecksumPackets.IPv4UDPChecksum | common/checksum/ipv4.c:419-426 | the UDP checksum from the two headers and the data |
| ChecksumPackets.IPv4TCPChecksum | common/checksum/ipv4.c:510-519 | the TCP checksum from the two headers and the data |
| ChecksumPackets.UdpStampedSumsToOnes | common/checksum/ipv4.c:398-426 | a UDP packet with its own checksum sums to all ones with its pseudo header |
| ChecksumPackets.TcpStampedSumsToOnes | common/checksum/ipv4.c:510-542 | so does a TCP packet |
| Uuid.ToStr | generic/uuid-generic.c:179-245 | fails exactly on a short buffer, otherwise prints the text with its terminator and leaves the rest alone; the UTF-16 form alike |
| Uuid.ValueOfHex | generic/uuid-generic.c:203-212 | reading printed digits gives the number back |
| Uuid.HexOfValue | generic/uuid-generic.c:259-337 | printing read digits gives them back in lower case |
| Uuid.ParsePrinted | generic/uuid-generic.c:249-340 | parsing what was printed returns the same UUID, narrow or wide |
| Uuid.PrintParsed | generic/uuid-generic.c:249-340 | printing what was parsed returns the lower-cased text |
| Uuid.AcceptedLength | generic/uuid-generic.c:259-298 | only strings of 36 characters are accepted |
| Uuid.WideAgrees | generic/uuid-generic.c:414-505 | the UTF-16 parser takes exactly the byte strings the narrow one takes, to the same UUID |
| Uuid.CompareIsTextOrder | generic/uuid-generic.c:91-131 | the sign of the comparison is the lexicographic order of the texts, NULL counting as the nil UUID |
| Uuid.CompareIsTotalPreorder | generic/uuid-generic.c:91-131 | a total preorder in which only NULL and the nil UUID are equal without being the same |

## Left out

- SimpleHeap.Heap.AllocBlock: what the code does with a block that cannot hold the request is not modelled; `Wild` says exactly when that happens.
- SimpleHeap.Heap.Alloc: the same for sizes above 2^64 - 32, which the code rounds to 0.
- SimpleHeap.Heap.Relocate: neither place touches the end of the address space, where the end pointer would be 0; displacements are multiples of 32, and the bytes have been moved already.
- HeapRuns.RunKeeps: allocations that end in `Wild` are not part of a run.
- HeapCalls.Calls: neither are they part of a sequence of calls.
- HeapCalls.CallsInBytes: sizes that rounding wraps, and alignments above 32.
- HandleTable.Table.FreeWithCtx: an object pointer of NULL can be allocated and looked up but never freed, as in the code.
- HandleTable.Table.AllocWithCtx: it runs alone; `HandleRaces` has the interleavings, on the table's view.
- HandleTable.Table.Expand: so does a single pass of it.
- HandleTable.Table.CreateEx: the pointer checks of its arguments.
- ObjRefs.DevExt.ObjAddRefEx: the object is in memory whenever the call looks at it; its documentation leaves the destructor race to the caller.
- MpNotify.Notifier.RegisterPair: registrations of one pair do not race each other, so the second search meets no duplicate; its duplicate branch frees the wrong record.
- MpNotify.Notifier.DoCallbacks: fewer than 2^32 things happen during one callback, and no other running event has the same done bit.
- NetFltTrunk.StepKeeps: the internal network serializes its calls, so the trunk state is not set during a wait for idle; instance references are in `NetFltLifetime`.
- NetFltLifetime.StepKeeps: connection and disconnection are single steps; host attachment and the waits between searches are idle steps.
- Checksum.AddDataChecksum: an empty segment for an odd pending byte is excluded; the code reads a byte it was not given.
- ChecksumPackets.UDPChecksum: the length field is at least the header's; a computed zero is not replaced by all ones, as RFC 768 wants and the code does not.
- Uuid.FromStr: or-ed nibbles are written as sums of digits; RTUuidCompareStr and its relatives only add the parser's errors.
- The usage counters are unbounded; 32-bit overflow of a reference count is not modelled.
- Spare usage records are counted, not followed: one is lost when AddRef finds its object destroyed.
- Semaphore create can return success without a handle when the object cannot be registered.
- The waiting inside semaphores, time-outs, signals and the kernel's own objects.
- RTHeapSimpleAllocZ clears the payload of an allocation; the dump and the magic numbers of the heap.
- The variant of the handle table without contexts differs in the context test only.
- `r0drv/powernotification-r0drv.c` is the algorithm of `MpNotify` once more.
- The image loader, memory bundles, ioctls, timers and component factories of `vboxdrv/SUPDrv.c`.
- The dynamic configuration of the network filter, and its host-specific parts.
- Memory order and interrupts.
