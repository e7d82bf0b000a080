# Verified models of the kernels and the logger

The repository vendors two small real-time kernels and a logger, and builds its cache and thread pools on top of them.
This project models the parts where the hard code is, and proves what that code is for:

- the three heaps of RT-Thread: the first-fit heap of `mem.c` (`SmallHeap`, `SmallHeapLaws`, `HeapMemory`, `SmallMem`,
  over the block layouts of `Layout`), the heap with a block ring and a free ring of `memheap.c` (`MemHeap`,
  `MemHeapLaws`, `MemHeapCode`), and the slab allocator of `slab.c` with its page list (`Pages`, `Zones`, `ZoneLists`,
  `Slab`, `SlabLaws`, `SlabZoneLaws`, `SlabCode`);
- mailboxes, message queues and the mutex of `ipc.c` (`Ipc`, `Mailbox`, `MailboxLaws`, `MessageQueue`,
  `MessageQueueLaws`, `MessageQueueCode`, `Mutex`, `MutexLaws`), the scheduler and the thread states under them
  (`Bitmap`, `Scheduler`, `KernelCode`), the circular lists of `rtservice.h` and the thread lists made of them
  (`CircularList`, `ThreadLists`), the timers of `timer.c` (`Timer`, `TimerLaws`, `TimerCode`), and the clock interrupt
  over both (`Clock`);
- the task and event tables of uC/OS-II (`PrioTable`, `Ucos`, `UcosLaws`, `UcosInterrupts`, `UcosExamples`, `UcosCode`),
  its mutex (`UcosMutex`, `UcosMutexLaws`, and `UcosCode`), event flags (`EventFlags`, `EventFlagsLaws`,
  `EventFlagsCode`), the doubly linked lists under both (`DoubleList`), and its message queue (`UcosQueue`,
  `UcosQueueLaws`, `UcosQueueCode`);
- the buffers of the logger (`LineCopy`, `AsyncLog`, `BufLog`) and the work queue of the pthread pool (`PthreadPool`).

## How the models are built

Each part has two layers. The first is a value of a datatype and a function for every critical section of the source: a
region with interrupts disabled, or between `OS_ENTER_CRITICAL` and `OS_EXIT_CRITICAL`, or under a lock, is one step. A
service with several sections is several steps: the two of `OSTaskDel`, the one `OSTimeTick` has for every task, the two
of a message-queue operation and every byte copied in between. The laws are lemmas about these functions and about whole
runs of them, for every interleaving of the steps of all threads, from initial states that are shown to meet the
invariants. For every service one law says, branch by branch, when the branch is taken, what it changes and that nothing
else does; it speaks of blocks, lists, owners, priorities and result codes, not of the code. The second layer is a class
with the fields of the source, links, arrays, counters and flags, whose methods do what the code does statement by
statement and loop by loop (the few lists that are kept as sequences there are named under "Left out"); each method ends
in exactly the state that the function gives for the old one, so the laws hold of the code. Ghost fields hold the
abstract lists. A hidden definition (`hide`) only keeps it away from a proof that does not need it.

Threads that wait are modelled in full: a woken thread checks again, a timeout or a reset may come at any point, and in
uC/OS-II a task whose timeout has expired is still in the wait table until it runs.

Machine integers are modelled where they matter: sizes and the alignment macro in 32-bit arithmetic, timer ticks modulo
2^32, the 8-bit counter of the thread pool, ready groups and table rows as sequences of bits.

## Where a promise does not hold

These are properties of the code as it is; each has a concrete input, or the exact condition under which the promise
holds.

- `mem.c`: rounding a request up to the alignment wraps round at 2^32, so a request of more than 0xFFFFFFFC bytes is
  served with a tiny payload (`SmallHeapLaws.PayloadCoversRequestIff`); an exact fit that ends at the end of the heap is
  never taken (`MallocFailsIff`); a shrinking `rt_realloc` does not lower `lfree` (`ShrinkKeepsLowestIff`,
  `ShrinkExample`), so a later request can miss a free block; in an arena below `MIN_SIZE_ALIGNED` the search does not
  end (`SearchEndsIff`).
- `memheap.c`: the shrinking path cuts without asking whether the rest has room for a header (`MemHeap.ShrinkKeeps`);
  even a reallocation to the size a block has cuts (`MemHeap.SameSizeExample`, `MemHeap.SameSizeLoops`).
- `slab.c`: the comment at line 151 promises that all allocations of a power of two are aligned to it; that holds
  exactly up to the page size (`Slab.AlignedAnywhereIff`, `Slab.UnalignedExample`).
- `ipc.c`: with the FIFO flag a released mutex can go to a thread less urgent than one still waiting
  (`Mutex.ReleaseKeepsNoInversionIff`). A message queue reports full while cells are between two critical sections
  (`MessageQueue.FullIff`, `MessageQueue.FullExample`).
- `timer.c`: the comment at line 279 says that of two timers with the same timeout the one inserted early is called
  early; that holds for two, but the third of three is called second (`Timer.LastAmongEqualsIff`,
  `Timer.ThirdGoesSecond`). A callback that starts its own timer again after having stopped it, and does not stop it
  after that, leaves the list broken (`Timer.FinishKeepsIff`, `Timer.RestartExample`). A due periodic timer with period
  zero, and nothing else, keeps the check from ending when the callbacks do nothing (`Timer.CheckNeverEndsIff`,
  `Timer.ZeroPeriodExample`).
- uC/OS-II: interrupts are open between the two sections of `OSTaskDel`; if one suspends and resumes the task that is
  being deleted, a ready bit is left that stands for no task, and `OS_Sched` loads a null pointer
  (`UcosInterrupts.DeleteAgreesIff`, `UcosExamples.NullTask`). A task that timed out but has not run is not made ready
  again when it is suspended and resumed (`Ucos.SuspendResumeIff`, `UcosExamples.LeftBehind`). Consuming event flags
  wakes nobody: when a waiter for set bits clears them a waiter for clear bits can be left waiting for what is there,
  and the other way round (`EventFlags.StepNoneLeftIff`, `EventFlags.LeftWaitingExample`,
  `EventFlags.LeftWaitingForSetExample`).
- `elog_async.c`: an empty text put into an empty buffer makes it look full (`AsyncLog.Buffer.Put`); a line read
  contains a newline at the physical end of the buffer when that is the first one and the read goes beyond it
  (`AsyncLog.InnerNewlineIff`, `AsyncLog.InnerNewlineExample`). `elog_buf.c`: a text logged after the buffered mode was
  switched off overtakes what is still buffered (`BufLog.KeepsOrderIff`, `BufLog.OvertakenExample`).
- `pthread_pool.c`: with a multiple of 256 queued tasks the 8-bit count is zero and a worker goes to sleep
  (`PthreadPool.WaitsWithTasksIff`), for good if nobody is on the way (`PthreadPool.StepKeepsIff`,
  `PthreadPool.LostAt256`); as long as no worker takes the lock just then, nobody waits in vain
  (`PthreadPool.NoStallUnwrapped`).

## Model

| member | source | states |
|---|---|---|
| SmallHeapLaws.InitInv | thread_pool/rt-thread/src/mem.c:174-221 | a fresh heap of at least MIN_SIZE_ALIGNED bytes is well formed, and lfree is its lowest free block |
| SmallHeap.PlugHolesKeeps | thread_pool/rt-thread/src/mem.c:126-164 | plug_holes restores "no two neighbours are free" when only the given free block broke it, changes no block in use and no counter, keeps the tiling and lfree a free block, and keeps lfree lowest |
| SmallHeap.MallocAllocates | thread_pool/rt-thread/src/mem.c:236-364 | a non-NULL rt_malloc returns an aligned payload of at least the rounded request inside the arena, disjoint from every block in use; exactly one block goes into use; used_mem grows by its extent and max_mem is the running maximum; the heap stays well formed |
| SmallHeapLaws.MallocIs | thread_pool/rt-thread/src/mem.c:266-357 | what a non-NULL rt_malloc makes of the layout: the new block starts where the first large enough free block from lfree on starts; it has exactly the size searched for when the rest makes a block of its own, which stays free, and else is that whole block, larger than the request by less than a header and MIN_SIZE_ALIGNED; no other block changes |
| SmallHeapLaws.MallocHint | thread_pool/rt-thread/src/mem.c:334-341 | lfree stays unless it pointed to the block taken; then it moves to the next free block, or to heap_end |
| SmallHeapLaws.MallocFailsIff | thread_pool/rt-thread/src/mem.c:243-275 | rt_malloc of a non-zero size returns NULL exactly when the rounded size exceeds the arena or every large enough free block from lfree on is an exact fit that ends at heap_end |
| SmallHeapLaws.MallocFailsIffFull | thread_pool/rt-thread/src/mem.c:243-275 | the same without the hint, over all free blocks of the heap, when lfree is the lowest free block |
| SmallHeapLaws.PayloadCoversRequestIff | thread_pool/rt-thread/src/mem.c:252-264 | the returned payload holds the requested size exactly when rounding it up does not wrap round at 2^32 |
| SmallHeapLaws.OversizedRequestExample | thread_pool/rt-thread/src/mem.c:252-264 | a request of 0xFFFFFFFE bytes is served with a payload of 12 bytes |
| SmallHeapLaws.FreeUndoesMalloc | thread_pool/rt-thread/src/mem.c:236-364 | rt_free of what rt_malloc just returned restores the layout and used_mem, and lfree too when it was lowest |
| SmallHeap.FreeReleases | thread_pool/rt-thread/src/mem.c:494-548 | rt_free of a live payload takes exactly its block out of use, lowers used_mem by its extent, coalesces, and keeps lfree lowest |
| SmallHeapLaws.FreeIs | thread_pool/rt-thread/src/mem.c:494-548 | rt_free ignores null and foreign pointers; a live block goes into a free block that covers it, and lfree becomes the lower of itself and that block |
| SmallHeap.ShrinkKeeps | thread_pool/rt-thread/src/mem.c:420-443 | shrinking in place keeps the heap well formed and replaces the block by its front part of the new size |
| SmallHeapLaws.ShrinkKeepsLowestIff | thread_pool/rt-thread/src/mem.c:420-443 | lfree stays the lowest free block over a shrinking rt_realloc exactly when it lay below the cut, or pointed at the free right neighbour that the cut-off tail merges with |
| SmallHeapLaws.ShrinkExample | thread_pool/rt-thread/src/mem.c:420-443 | two allocations on a fresh heap of 256 bytes and a shrinking rt_realloc of the first leave a free block below lfree |
| SmallHeapLaws.ReallocOfLive | thread_pool/rt-thread/src/mem.c:375-456 | rt_realloc of a live payload fails and changes nothing, or replaces its block by one of at least the new size that overlaps no other block in use and is a front part of the old block or disjoint from it |
| SmallHeapLaws.ReallocIs | thread_pool/rt-thread/src/mem.c:375-456 | rt_realloc case by case: too large fails, null is rt_malloc, a foreign pointer comes back, the same size stays, a block larger by more than a header and MIN_SIZE_ALIGNED is cut behind the new size, every other one moves to where rt_malloc finds room, or fails and stays |
| SmallHeapLaws.Run | thread_pool/rt-thread/src/mem.c:236-548 | every run of rt_malloc, rt_free and rt_realloc calls with live, null or foreign pointers keeps the heap well formed: tiling, alignment, coalescing, a sane lfree, exact used_mem |
| SmallHeapLaws.RunKeepsLowest | thread_pool/rt-thread/src/mem.c:334-341 | in every run without rt_realloc lfree is the lowest free block, or heap_end |
| SmallHeapLaws.MaxIsPeak | thread_pool/rt-thread/src/mem.c:310-328 | over every run max_mem is the maximum of used_mem at any point, the moment counted when both blocks of a moving rt_realloc are in use |
| SmallHeapLaws.SearchEndsIff | thread_pool/rt-thread/src/mem.c:269-275 | on a fresh heap the search loop ends exactly when the arena has at least MIN_SIZE_ALIGNED bytes; below that the unsigned subtraction wraps |
| Layout.Canonical | thread_pool/rt-thread/src/mem.c:126-164 | a coalesced tiling is determined by its blocks in use: coalescing leaves no freedom |
| SmallMem.Memory.constructor | thread_pool/rt-thread/src/mem.c:174-221 | the code of rt_system_heap_init builds the initial heap; it is well formed exactly when the arena has at least MIN_SIZE_ALIGNED bytes |
| SmallMem.Memory.PlugHoles | thread_pool/rt-thread/src/mem.c:126-164 | the code over the offset-linked headers computes the merges of the layout and changes no byte of a block in use |
| SmallMem.Memory.Search | thread_pool/rt-thread/src/mem.c:269-275 | the search loop over the next fields ends and finds the first block from lfree on that fits below the limit |
| SmallMem.Memory.TakeBlock | thread_pool/rt-thread/src/mem.c:280-341 | splitting, marking, accounting and the walk of lfree compute the abstract step; what goes into use is larger than the request and its header by less than a header and MIN_SIZE_ALIGNED; no byte of another block in use changes |
| SmallMem.Memory.Malloc | thread_pool/rt-thread/src/mem.c:236-364 | rt_malloc over headers and bytes computes the abstract rt_malloc; used_mem grows by less than the rounded request, two headers and MIN_SIZE_ALIGNED; the bytes of every block in use stay; the assertions of the function hold |
| SmallMem.Memory.Free | thread_pool/rt-thread/src/mem.c:494-548 | rt_free computes the abstract rt_free; the bytes of every other block in use stay |
| SmallMem.Memory.ShrinkBlock | thread_pool/rt-thread/src/mem.c:420-443 | the shrinking path of rt_realloc computes the abstract shrink, and keeps the bytes of every block in use, its own kept front included |
| SmallMem.Memory.MoveBlock | thread_pool/rt-thread/src/mem.c:446-455 | allocate, copy, free: the new payload starts with the first min(old, new) bytes of the old one, the other blocks in use keep theirs |
| SmallMem.Memory.Realloc | thread_pool/rt-thread/src/mem.c:375-456 | rt_realloc computes the abstract rt_realloc; a live payload keeps its first min(old, new) bytes, and every other block in use all of them |
| SmallMem.Memory.Write | thread_pool/rt-thread/src/mem.c:356-357 | a client that writes inside its payload disturbs no header and no other payload |
| MemHeap.InitInv | thread_pool/rt-thread/src/memheap.c:48-119 | a fresh memheap is well formed: one free block, in the free ring |
| MemHeap.AllocKeeps | thread_pool/rt-thread/src/memheap.c:134-276 | an allocation keeps the heap well formed; on success one aligned block of at least the request, disjoint from every block in use, goes into use |
| MemHeapLaws.AllocIs | thread_pool/rt-thread/src/memheap.c:157-262 | an allocation takes the first block of the free ring that has room; when the rest makes a block of its own it goes to the head of the ring and the new block has exactly the size asked for, else the whole block goes into use |
| MemHeap.AllocFailsIff | thread_pool/rt-thread/src/memheap.c:150-180 | an allocation fails exactly when the request is not below available_size, or no free block is large enough |
| MemHeap.FreeKeeps | thread_pool/rt-thread/src/memheap.c:391-481 | rt_memheap_free with its left and right merges takes exactly one block out of use and keeps block ring, free ring and available_size in agreement |
| MemHeapLaws.FreeRing | thread_pool/rt-thread/src/memheap.c:422-472 | what a free does to the ring: a free right neighbour leaves it; the block goes to its head, unless it becomes a part of the free block in front of it, which stays where it is |
| MemHeap.ShrinkKeeps | thread_pool/rt-thread/src/memheap.c:328-381 | for every size the code accepts: the cut of a shrinking rt_memheap_realloc and the state after it are well formed exactly when the rest has room for a header; then the block keeps its front part and nothing else changes hands |
| MemHeap.ShrinkTilesIff | thread_pool/rt-thread/src/memheap.c:328-348 | the unguarded cut of rt_memheap_realloc leaves a tiling of the pool exactly when the rest has room for a header |
| MemHeap.ShrunkIff | thread_pool/rt-thread/src/memheap.c:350-381 | the state after the merge alone is well formed exactly when the rest has room for a header or the right neighbour is free |
| MemHeapLaws.ShrinkRing | thread_pool/rt-thread/src/memheap.c:350-375 | what shrinking does to the ring: the rest of the block goes to its head, and a free right neighbour leaves it |
| MemHeap.SameSizeExample | thread_pool/rt-thread/src/memheap.c:306-348 | on a fresh memheap of 240 bytes, reallocating a block of 100 bytes to 100 bytes cuts off a block of no size, without room for its header |
| MemHeap.SameSizeLoops | thread_pool/rt-thread/src/memheap.c:338-348 | the stores of the cut then make the header behind the block its own successor and predecessor |
| MemHeap.FreeUndoesAlloc | thread_pool/rt-thread/src/memheap.c:134-481 | freeing what was just allocated restores the layout, available_size and the set of free blocks in the ring |
| MemHeap.Run | thread_pool/rt-thread/src/memheap.c:134-481 | in every reachable state the free ring holds exactly the blocks not marked used, no two neighbours are free, the block ring tiles the pool and available_size is the sum of the free payloads |
| MemHeapCode.Object.constructor | thread_pool/rt-thread/src/memheap.c:48-119 | rt_memheap_init builds both rings of the initial heap |
| MemHeapCode.Object.FreeInsert | thread_pool/rt-thread/src/memheap.c:466-472 | linking a header behind free_list puts it at the head of the free ring |
| MemHeapCode.Object.FreeRemove | thread_pool/rt-thread/src/memheap.c:210-214 | unlinking a header takes exactly that one out of the free ring |
| MemHeapCode.Object.BlockInsert | thread_pool/rt-thread/src/memheap.c:198-208 | the stores of a split put the new header behind the cut block in the block ring |
| MemHeapCode.Object.Search | thread_pool/rt-thread/src/memheap.c:164-175 | the loop over the free ring ends and finds the first header with enough room |
| MemHeapCode.Object.SplitItem | thread_pool/rt-thread/src/memheap.c:187-220 | the stores of a split, in the order of the code, leave both rings showing the cut layout, with the rest at the head of the free ring |
| MemHeapCode.Object.DiscountRight | thread_pool/rt-thread/src/memheap.c:350-357 | the room of a free right neighbour is taken off available_size before it is merged |
| MemHeapCode.Object.TakeItem | thread_pool/rt-thread/src/memheap.c:182-253 | split or whole, with the ring surgery and the counters, is the abstract step |
| MemHeapCode.Object.Alloc | thread_pool/rt-thread/src/memheap.c:134-276 | rt_memheap_alloc over the two rings computes the abstract allocation |
| MemHeapCode.Object.MergeNext | thread_pool/rt-thread/src/memheap.c:445-464 | the merge with the right neighbour happens exactly when it is free, and leaves both rings showing the merged layout |
| MemHeapCode.Object.Free | thread_pool/rt-thread/src/memheap.c:391-481 | rt_memheap_free over the two rings computes the abstract free |
| MemHeapCode.Object.Shrink | thread_pool/rt-thread/src/memheap.c:328-381 | with room for a header, the shrinking path of rt_memheap_realloc over the two rings computes the abstract shrink |
| Pages.AllocTakes | thread_pool/rt-thread/src/slab.c:236-270 | rt_page_alloc takes n free pages and leaves all others as they were, or changes nothing |
| Pages.AllocFailsIff | thread_pool/rt-thread/src/slab.c:236-270 | it fails exactly when the request is zero or longer than every free run |
| Pages.AllocLowest | thread_pool/rt-thread/src/slab.c:236-270 | an allocation takes the n consecutive free pages with the lowest address, and finds them wherever there are any |
| Pages.FreeAdds | thread_pool/rt-thread/src/slab.c:272-322 | rt_page_free adds exactly the pages of the run, through the single and double merges |
| Pages.FreeSorted | thread_pool/rt-thread/src/slab.c:272-322 | the page list stays address-sorted and disjoint, and no two of its entries touch |
| Pages.Canonical | thread_pool/rt-thread/src/slab.c:236-322 | two such lists with the same free pages are the same list |
| Pages.FreeUndoesAlloc | thread_pool/rt-thread/src/slab.c:236-322 | rt_page_free of what rt_page_alloc returned restores the list |
| Pages.ObtainKeeps | thread_pool/rt-thread/src/slab.c:236-270 | every page is free or in exactly one allocated run, and an allocation keeps that |
| Pages.ReturnKeeps | thread_pool/rt-thread/src/slab.c:272-322 | so does every valid release |
| Pages.HeaderSane | thread_pool/rt-thread/src/slab.c:286-289 | the assertions of rt_page_free hold for every header it meets |
| Pages.PageList.PageAlloc | thread_pool/rt-thread/src/slab.c:236-270 | the loop with the pointer to the previous link field computes the abstract allocation |
| Pages.PageList.PageFree | thread_pool/rt-thread/src/slab.c:272-322 | the loop with its merges computes the abstract release |
| Zones.ZoneIndexIs | thread_pool/rt-thread/src/slab.c:401-459 | zoneindex gives the least of the 72 chunk sizes that holds the request, and its number |
| Zones.SameZoneIff | thread_pool/rt-thread/src/slab.c:401-459 | two requests share a zone index exactly when they are rounded to the same size |
| Zones.ChooseSizes | thread_pool/rt-thread/src/slab.c:374-383 | the loop of rt_system_heap_init ends with a zone_size that is a power of two of pages, and a zone_limit, in their bounds |
| Zones.RoomForTwo | thread_pool/rt-thread/src/slab.c:630-645 | a new zone always has at least two chunks |
| Zones.ChunkInside | thread_pool/rt-thread/src/slab.c:630-650 | every chunk of a zone lies behind the zone header and inside the zone |
| Zones.TakeChunkOk | thread_pool/rt-thread/src/slab.c:548-573 | handing out a chunk, from the never used ones or from z_freechunk, gives one nobody holds and keeps the counts of the zone |
| Zones.GiveChunkOk | thread_pool/rt-thread/src/slab.c:851-867 | giving a chunk back keeps the counts of the zone |
| Zones.OutCount | thread_pool/rt-thread/src/slab.c:546-573 | chunks handed out and z_nfree make up z_nmax; z_nfree is z_nmax exactly when nothing is handed out |
| Slab.InitInv | thread_pool/rt-thread/src/slab.c:344-395 | a heap without zones is well formed |
| Slab.ChunksApart | thread_pool/rt-thread/src/slab.c:561-573 | chunks in the hands of the client never overlap |
| Slab.ChunkApartFromLarge | thread_pool/rt-thread/src/slab.c:498-526 | nor does a chunk overlap a block of pages of its own |
| Slab.LookupIs | thread_pool/rt-thread/src/slab.c:816-853 | for every chunk in the hands of the client the memusage lookup of rt_free leads to its own zone and its own number |
| Slab.MallocSmall | thread_pool/rt-thread/src/slab.c:544-661 | a small request gets a chunk that nobody holds, of the smallest size that holds the request; nothing else changes hands |
| SlabZoneLaws.MallocSmallIs | thread_pool/rt-thread/src/slab.c:544-661 | which chunk a small request gets: of the first zone of its list the next one never handed out, or else the one that came back last, and the zone leaves the list with its last free chunk; when the list is empty, the first chunk of a new zone, made of the first one in reserve before fresh pages |
| Slab.MallocLargeBlock | thread_pool/rt-thread/src/slab.c:498-526 | a large request that is served gets pages of its own, and they cover it; one whose rounding wraps round asks for no pages and is never served |
| Zones.PowerChunk | thread_pool/rt-thread/src/slab.c:401-459 | a request for a power of two gets chunks of just that size, and of 8 bytes below that |
| Slab.ChunkAlignedIff | thread_pool/rt-thread/src/slab.c:633-650 | a chunk whose size is a power of two is aligned to it exactly when the size is not above a page or the zone happens to be aligned |
| Slab.AlignedAnywhereIff | thread_pool/rt-thread/src/slab.c:149-153 | what rt_malloc returns for a power of two is aligned to it wherever the heap starts exactly when it is not above a page |
| Slab.MallocAlignedIff | thread_pool/rt-thread/src/slab.c:149-153 | for one start of the heap: it is aligned exactly when it is not above a page, or the zone or block of pages that serves it happens to be aligned |
| Slab.UnalignedExample | thread_pool/rt-thread/src/slab.c:149-153 | a fresh heap of 32 pages with the table in the first serves 8192 bytes at address 4096 |
| Slab.MallocKeeps | thread_pool/rt-thread/src/slab.c:478-674 | rt_malloc keeps the heap well formed: zone_array[i] holds exactly the zones of index i with free chunks, memusage is right for every block, pages are conserved |
| Slab.FreeChunkKeeps | thread_pool/rt-thread/src/slab.c:846-922 | so does giving back a chunk, with the zone coming back into its list, retiring to zone_free and being released |
| Slab.FreeChunkAt | thread_pool/rt-thread/src/slab.c:816-922 | rt_free of the address of a chunk gives back exactly that chunk |
| SlabZoneLaws.FreeChunkIs | thread_pool/rt-thread/src/slab.c:846-922 | what giving back a chunk does: the zone comes back to the head of its list if it had left it; all free and not alone there, it leaves the list for zone_free, and when that has two zones already its pages go back to the page allocator; nothing else changes |
| SlabZoneLaws.FreshOneIdle | thread_pool/rt-thread/src/slab.c:869-922 | after every run from a heap without zones each list of zone_array holds at most one zone that is all free |
| Slab.FreeLargeKeeps | thread_pool/rt-thread/src/slab.c:817-841 | rt_free of a large block keeps the heap well formed |
| SlabLaws.FreeLargeNoLeak | thread_pool/rt-thread/src/slab.c:817-841 | it gives exactly the pages of that block back to the page allocator |
| SlabLaws.RunNoLeak | thread_pool/rt-thread/src/slab.c:478-925 | after every run each page the page allocator has handed out belongs to a zone, to one of at most ZONE_RELEASE_THRESH zones in reserve, or to a block of the client: no page is lost |
| SlabLaws.MallocFailsIff | thread_pool/rt-thread/src/slab.c:478-674 | rt_malloc returns NULL exactly on an empty request, a large one that finds no run of pages, or a small one without a free chunk of its index, without a zone in reserve and without pages for a new zone |
| Slab.RunOps | thread_pool/rt-thread/src/slab.c:478-925 | every run of rt_malloc and rt_free of what is held keeps the heap well formed |
| Slab.RunCounts | thread_pool/rt-thread/src/slab.c:478-925 | after every run, in every zone, chunks handed out and z_nfree make up z_nmax |
| SlabCode.Allocator.constructor | thread_pool/rt-thread/src/slab.c:344-395 | the initial page list, lists and table |
| SlabCode.Allocator.MallocFrom | thread_pool/rt-thread/src/slab.c:544-582 | a chunk of the first zone of a list, taking the zone off the list with its last chunk |
| SlabCode.Allocator.GetZone | thread_pool/rt-thread/src/slab.c:595-625 | a spare zone, or one of fresh pages entered into memusage by a loop |
| SlabCode.Allocator.MallocNew | thread_pool/rt-thread/src/slab.c:584-661 | a new zone with its first chunk handed out |
| SlabCode.Allocator.Malloc | thread_pool/rt-thread/src/slab.c:478-674 | rt_malloc over the linked lists of zone_array and zone_free, memusage and the page list computes the abstract rt_malloc |
| ZoneLists.Heads.Push | thread_pool/rt-thread/src/slab.c:652-654 | the stores that put a zone at the head of a list linked through z_next |
| ZoneLists.Heads.Pop | thread_pool/rt-thread/src/slab.c:550-554 | the stores that take the first zone off a list |
| ZoneLists.Heads.Unlist | thread_pool/rt-thread/src/slab.c:883-886 | the loop that follows the links to the retired zone, and the store that leads past it, take exactly that zone out |
| ZoneLists.Heads.NotAlone | thread_pool/rt-thread/src/slab.c:875-876 | a zone of a list has a successor or is not the first exactly when it is not the only one |
| SlabCode.Allocator.RetireZone | thread_pool/rt-thread/src/slab.c:882-894 | a zone goes from its list to zone_free |
| SlabCode.Allocator.FreeChunk | thread_pool/rt-thread/src/slab.c:846-922 | giving back a chunk computes the abstract step |
| SlabCode.Allocator.Free | thread_pool/rt-thread/src/slab.c:783-925 | rt_free computes the abstract rt_free |
| Ipc.EnqueueSorts | thread_pool/rt-thread/src/ipc.c:93-118 | a PRIO suspend list stays sorted and a newcomer goes behind its equals |
| Ipc.EnqueueIs | thread_pool/rt-thread/src/ipc.c:81-124 | with the FIFO flag a newcomer goes last; with the PRIO flag in front of the first waiter that is less urgent; the others keep their order |
| Ipc.ListSuspend | thread_pool/rt-thread/src/ipc.c:81-124 | the loop of rt_ipc_list_suspend computes the FIFO or PRIO insertion; with the FIFO flag the newcomer goes last |
| MessageQueue.InitInv | thread_pool/rt-thread/src/ipc.c:1718-1765 | after rt_mq_init all cells are free and the invariant holds |
| MessageQueue.StepKeeps | thread_pool/rt-thread/src/ipc.c:1904-2258 | every critical section of send, urgent, receive, timeout and reset, and every byte of the copies in between, keeps the invariant |
| MessageQueue.StepPartitions | thread_pool/rt-thread/src/ipc.c:1904-2258 | every cell is free, queued, held by a sender or held by a receiver; they add up to max_msgs |
| MessageQueue.StepIntact | thread_pool/rt-thread/src/ipc.c:1938-1942 | a queued cell carries its message, and a cell between two sections what its thread has copied, whatever the other threads do |
| MessageQueue.ResetKeeps | thread_pool/rt-thread/src/ipc.c:2221-2252 | a reset empties the queue and the suspend list, puts the queued cells on the free list, and leaves the calls between two sections alone |
| MessageQueue.NobodySleepsOnAMessage | thread_pool/rt-thread/src/ipc.c:2106-2185 | after every run from rt_mq_init: while a receiver sleeps, the receivers resumed but not yet re-checking number at least the queued messages: no lost wake-up |
| MessageQueue.FullIff | thread_pool/rt-thread/src/ipc.c:1920-1930 | a send finds no cell exactly when every cell is queued or between the two sections of some call |
| MessageQueue.FullExample | thread_pool/rt-thread/src/ipc.c:1920-1930 | in a queue of one cell, while one send is between its two sections, a second one finds the empty queue full |
| MessageQueueLaws.SendIs | thread_pool/rt-thread/src/ipc.c:1913-1936 | first section of a send: too long is an error, no free cell is full, and nothing changes; else the thread gets the first free cell, and queue and waiters stay |
| MessageQueueLaws.CommitIs | thread_pool/rt-thread/src/ipc.c:1944-1972 | second section: the message goes to the back, an urgent one to the front, and the first waiter is resumed |
| MessageQueueLaws.RecvIs | thread_pool/rt-thread/src/ipc.c:2096-2196 | one round of a receive: it succeeds exactly when a message is queued, and takes the first; on an empty queue it blocks exactly when time is left, and the thread joins the suspend list and is not woken; without time it leaves with an error, and suspend list, queue and cells stay |
| MessageQueueLaws.FinishIs | thread_pool/rt-thread/src/ipc.c:2190-2196 | the cell of a received message becomes the first free one |
| MessageQueueLaws.TimeOutIs | thread_pool/rt-thread/src/thread.c:628-649 | a waiter whose time is over leaves the suspend list, where the others keep their order |
| MessageQueueLaws.NoOvertaking | thread_pool/rt-thread/src/ipc.c:81-172 | over every run: while a receiver waits, sends resume only threads that were in front of it and, with the PRIO flag, more urgent ones; so with the FIFO flag receivers are resumed in the order they began to wait, whatever times out, and no reset comes |
| MessageQueueLaws.FirstComeFirstResumed | thread_pool/rt-thread/src/ipc.c:81-172 | over every run with the FIFO flag, timeouts and resets apart, the receivers resumed and then still waiting are those that waited and then began to wait, in that order |
| MessageQueueLaws.LeavingIs | thread_pool/rt-thread/src/ipc.c:1944-1972 | a step resumes a thread exactly when it is the second section of a send and somebody waits, and then the first one |
| MessageQueue.DeliveredWhole | thread_pool/rt-thread/src/ipc.c:2185-2196 | what a receiver copies out is the message it took, up to the shorter length |
| MessageQueue.StepMessages | thread_pool/rt-thread/src/ipc.c:1944-1962 | the queue is a deque: a send appends, an urgent send prepends, a receive takes the front |
| MessageQueue.FifoRun | thread_pool/rt-thread/src/ipc.c:1904-2201 | over every run without urgent sends and resets, messages leave in the order in which they were linked |
| MessageQueue.ConservedRun | thread_pool/rt-thread/src/ipc.c:1904-2201 | over every run without resets no message is lost, doubled or altered |
| MessageQueue.ReceiverRun | thread_pool/rt-thread/src/ipc.c:2185-2196 | a message taken by a receiver stays its own until it is copied out, whatever the others do |
| MessageQueueCode.Object.constructor | thread_pool/rt-thread/src/ipc.c:1718-1765 | the pool loop builds the free list of all cells |
| MessageQueueCode.Object.SendEnter | thread_pool/rt-thread/src/ipc.c:1920-1936 | first section of rt_mq_send and rt_mq_urgent over msg_queue_free |
| MessageQueueCode.Object.SendCopy | thread_pool/rt-thread/src/ipc.c:1938-1942 | one byte of the copy into the cell |
| MessageQueueCode.Object.SendLeave | thread_pool/rt-thread/src/ipc.c:1944-1972 | second section: linking at the tail or the head, entry, and the resumed receiver |
| MessageQueueCode.Object.RecvEnter | thread_pool/rt-thread/src/ipc.c:2096-2185 | one round of the loop of rt_mq_recv: take the head exactly when the entry count is positive, else wait if time is left, else give up; head and tail agree |
| MessageQueueCode.Object.RecvCopy | thread_pool/rt-thread/src/ipc.c:2187-2188 | one byte of the copy out of the cell |
| MessageQueueCode.Object.RecvLeave | thread_pool/rt-thread/src/ipc.c:2190-2196 | second section of rt_mq_recv: the cell goes back to the free list |
| MessageQueueCode.Object.Reset | thread_pool/rt-thread/src/ipc.c:2221-2252 | the two loops of the reset move all queued cells to the free list and resume all receivers with an error |
| Mailbox.RunKeeps | thread_pool/rt-thread/src/ipc.c:1384-1689 | after every run: no receiver sleeps on mail and no sender on a free slot, unless enough woken threads are about to re-check; timeouts, stolen mail and resets included |
| Mailbox.FifoRun | thread_pool/rt-thread/src/ipc.c:1384-1654 | first in, first out, and nothing lost, over every run without resets |
| MailboxLaws.SendIs | thread_pool/rt-thread/src/ipc.c:1413-1495 | one round of a send: it succeeds exactly when a slot is free, the mail goes last and the first waiting receiver is resumed; on a full mailbox it blocks exactly when time is left, and else gives up and changes nothing |
| MailboxLaws.RecvIs | thread_pool/rt-thread/src/ipc.c:1558-1645 | one round of a receive: it succeeds exactly when there is mail, and the first waiting sender is resumed; on an empty mailbox it blocks exactly when time is left, and else gives up and changes nothing |
| MailboxLaws.TimeOutIs | thread_pool/rt-thread/src/thread.c:628-649 | a waiter whose time is over leaves its list, where the others keep their order |
| MailboxLaws.ResetIs | thread_pool/rt-thread/src/ipc.c:1671-1689 | after a reset there is no mail and nobody waits |
| MailboxLaws.NoOvertaking | thread_pool/rt-thread/src/ipc.c:81-172 | over every run and on both sides: while a thread waits, only threads in front of it and, with the PRIO flag, more urgent ones are resumed; so with the FIFO flag threads are resumed in the order they began to wait |
| MailboxLaws.FirstComeFirstResumed | thread_pool/rt-thread/src/ipc.c:81-172 | over every run with the FIFO flag, timeouts and resets apart, on either side: the threads resumed and then still waiting are those that waited and then began to wait, in that order |
| Mailbox.Object.Send | thread_pool/rt-thread/src/ipc.c:1413-1495 | one round of rt_mb_send_wait over the ring computes the abstract step |
| Mailbox.Object.Recv | thread_pool/rt-thread/src/ipc.c:1558-1645 | one round of rt_mb_recv over the ring computes the abstract step, and returns the oldest mail |
| Mailbox.Object.ResetAll | thread_pool/rt-thread/src/ipc.c:1671-1689 | the reset resumes everybody with an error and empties the ring |
| Bitmap.TableLowest | thread_pool/rt-thread/src/scheduler.c:234-254 | the table entry of a non-zero byte is the number of its lowest bit |
| Bitmap.Lowest32Is | thread_pool/rt-thread/src/scheduler.c:237-261 | the byte-wise search of rt_schedule finds the lowest bit of the ready group |
| Scheduler.InsertOk | thread_pool/rt-thread/src/scheduler.c:314-350 | bit p of the ready group is set exactly when list p is not empty, over rt_schedule_insert_thread |
| Scheduler.RemoveOk | thread_pool/rt-thread/src/scheduler.c:359-397 | and over rt_schedule_remove_thread |
| Scheduler.SuspendIs | thread_pool/rt-thread/src/thread.c:545-573 | rt_thread_suspend changes the state of that thread only, and keeps lists and group in agreement |
| Scheduler.SuspendOrder | thread_pool/rt-thread/src/thread.c:545-573 | it takes exactly that thread out of the list of its priority |
| Scheduler.ResumeIs | thread_pool/rt-thread/src/thread.c:583-619 | rt_thread_resume changes the state of that thread only, and keeps lists and group in agreement |
| Scheduler.ResumeOrder | thread_pool/rt-thread/src/thread.c:583-619 | it puts the thread behind the ready threads of its priority |
| Scheduler.ChangePriorityIs | thread_pool/rt-thread/src/thread.c:476-517 | a priority change moves a ready thread between lists and keeps list, bit and mask in agreement |
| Scheduler.ChangePriorityOrder | thread_pool/rt-thread/src/thread.c:476-517 | a ready thread leaves its list and goes last in that of its new priority, the others keep their order; for a thread that is not ready no list changes |
| Scheduler.YieldOrder | thread_pool/rt-thread/src/thread.c:368-402 | a yield puts the running thread behind the others of its priority, whether it was first or not; alone, or not ready, nothing changes |
| Scheduler.NothingToDo | thread_pool/rt-thread/src/thread.c:545-619 | suspending changes nothing exactly for a thread that is not ready, resuming exactly for one that is not suspended; rt_schedule does nothing while the scheduler is locked |
| Scheduler.ScheduleIs | thread_pool/rt-thread/src/scheduler.c:220-305 | rt_schedule runs the first ready thread of the most urgent priority |
| Scheduler.RoundRobin | thread_pool/rt-thread/src/thread.c:368-402 | threads of equal priority take turns: after k yields the k-th thread of the list runs, and after as many yields as there are threads the list is as it was |
| Scheduler.GroupZeroIff | thread_pool/rt-thread/src/scheduler.c:220-305 | the group is zero exactly when no thread is ready |
| Mutex.InitInv | thread_pool/rt-thread/src/ipc.c:513-533 | with the idle thread running and the mutex just initialised the invariant holds |
| Mutex.SpawnKeeps | thread_pool/rt-thread/src/thread.c:194-225 | starting a new thread keeps the mutex invariant, and makes it ready at its own priority |
| Mutex.TakeOkIff | thread_pool/rt-thread/src/ipc.c:656-690 | a take succeeds exactly when nobody else owns the mutex, and a nested take is undone by a release |
| MutexLaws.TakeIs | thread_pool/rt-thread/src/ipc.c:641-742 | rt_mutex_take branch by branch: the owner nests; a free mutex goes to the caller; while another thread owns it, a caller without time gets a timeout and changes nothing, and one with time is suspended and joins the suspend list, with the owner at the more urgent of its own priority and the caller's; nothing else changes |
| MutexLaws.ReleaseIs | thread_pool/rt-thread/src/ipc.c:779-840 | rt_mutex_release branch by branch: by a thread that does not own the mutex an error that changes nothing; an inner one counts down; the outermost gives the owner its priority back, and the first waiter runs and owns the mutex, or nobody does |
| MutexLaws.TimeOutIs | thread_pool/rt-thread/src/thread.c:628-649 | a waiter whose time is over runs and leaves the suspend list, where the others keep their order |
| MutexLaws.NoOvertaking | thread_pool/rt-thread/src/ipc.c:631-840 | over every run: while a thread waits, the mutex goes only to threads that were in front of it and, with the PRIO flag, to more urgent ones; so with the FIFO flag waiters get it in the order they came |
| MutexLaws.FirstComeFirstServed | thread_pool/rt-thread/src/ipc.c:631-840 | over every run with the FIFO flag, timeouts apart, the waiters that have got the mutex and those that still wait are those that waited and then began to wait, in that order |
| Mutex.StepKeeps | thread_pool/rt-thread/src/ipc.c:656-835 | taking, releasing, timing out, sleeping, waking, yielding and scheduling keep the mutex invariant, and with the PRIO flag the owner at least as urgent as every waiter |
| Mutex.NoInversionScheduled | thread_pool/rt-thread/src/ipc.c:656-742 | after any run with the PRIO flag, while the owner is ready, rt_schedule never runs a thread less urgent than a waiter |
| Mutex.ReleaseRestores | thread_pool/rt-thread/src/ipc.c:792-803 | the outermost release gives the thread back the priority it ran at before it took the mutex, whatever happened in between |
| Mutex.ReleaseKeepsNoInversionIff | thread_pool/rt-thread/src/ipc.c:792-835 | a release keeps the absence of inversion exactly when the next owner is at least as urgent as everybody behind it |
| Mutex.FifoInversionExample | thread_pool/rt-thread/src/ipc.c:805-834 | with the FIFO flag a release can hand over to a thread less urgent than one still waiting |
| ThreadLists.Queues.InsertBefore | thread_pool/rt-thread/inc/rtservice.h:67-74 | linking a node in front of another keeps every other ready or suspend list, and puts the thread at that place of its list |
| ThreadLists.Queues.Remove | thread_pool/rt-thread/inc/rtservice.h:80-86 | rt_list_remove takes a thread out of whichever list it is in, and no other |
| ThreadLists.Queues.HasOthers | thread_pool/rt-thread/src/thread.c:380-381 | next and prev of a node differ exactly when its list holds another thread |
| KernelCode.Core.constructor | thread_pool/rt-thread/src/scheduler.c:127-154 | the list heads, the idle thread and the mutex: the mutex invariant holds of what is built |
| KernelCode.Core.StartThread | thread_pool/rt-thread/src/thread.c:194-225 | rt_thread_startup of a new thread over the list nodes, the invariant kept |
| KernelCode.FirstTake | thread_pool/rt-thread/src/ipc.c:631-675 | on a fresh kernel a thread is started, scheduled and takes the mutex: the services can be called |
| KernelCode.Core.InsertThread | thread_pool/rt-thread/src/scheduler.c:314-350 | the stores that link the list node of the thread in front of the list head keep all lists linked and compute the abstract insertion; if nothing but the thread was missing, the scheduler state is valid again |
| KernelCode.Core.RemoveThread | thread_pool/rt-thread/src/scheduler.c:359-397 | unlinking the node, with the test of the list head, keeps all lists linked and computes the abstract removal |
| KernelCode.Core.Reschedule | thread_pool/rt-thread/src/scheduler.c:220-305 | the byte-wise search and the link of the list head make the first thread of the most urgent non-empty list current: it is ready, and no ready thread is more urgent |
| KernelCode.Core.SuspendThread | thread_pool/rt-thread/src/thread.c:545-573 | rt_thread_suspend takes the node out of its ready list, and leaves a valid scheduler state |
| KernelCode.Core.ResumeThread | thread_pool/rt-thread/src/thread.c:583-619 | rt_thread_resume takes the node off the suspend list it may be in and puts it behind the ready threads of its priority; the scheduler state stays valid |
| KernelCode.Core.SetPriority | thread_pool/rt-thread/src/thread.c:476-517 | the node of a ready thread moves from one circle to another; the scheduler state stays valid |
| KernelCode.Core.YieldThread | thread_pool/rt-thread/src/thread.c:368-402 | the test next != prev tells whether the thread is alone in its list; the node goes to the end, and the scheduler state stays valid |
| KernelCode.Core.ListSuspend | thread_pool/rt-thread/src/ipc.c:81-124 | rt_ipc_list_suspend moves the node of the running thread from its ready list to its place in the suspend list; with the FIFO flag that is the end |
| KernelCode.Core.FindPlace | thread_pool/rt-thread/src/ipc.c:99-119 | the loop over the nodes of the suspend list finds the place behind all that are at least as urgent |
| KernelCode.Core.MutexTake | thread_pool/rt-thread/src/ipc.c:631-750 | rt_mutex_take over the list nodes, with the change of the owner's priority, computes the abstract step, and keeps the mutex invariant and the absence of inversion; it succeeds exactly when nobody else owns the mutex, blocks only with time left, and times out only without, changing nothing |
| KernelCode.Core.MutexRelease | thread_pool/rt-thread/src/ipc.c:761-845 | rt_mutex_release over the list nodes computes the abstract step and keeps the mutex invariant, and with the PRIO flag the absence of inversion; it fails exactly for a thread that does not own the mutex, and then changes nothing |
| KernelCode.Core.MutexTimeout | thread_pool/rt-thread/src/thread.c:628-649 | rt_thread_timeout takes the node of a waiting thread off the suspend list; the invariant and the absence of inversion stay |
| CircularList.InsertAfterIs | thread_pool/rt-thread/inc/rtservice.h:52-59 | the four stores insert the node behind the given one of a circle |
| CircularList.InsertBeforeIs | thread_pool/rt-thread/inc/rtservice.h:67-74 | or in front of it; in front of the head means at the end |
| CircularList.RemoveIs | thread_pool/rt-thread/inc/rtservice.h:80-86 | rt_list_remove takes the node out of its circle and makes it a circle of its own |
| CircularList.IsEmptyIff | thread_pool/rt-thread/inc/rtservice.h:92-95 | rt_list_isempty holds exactly for a head on its own |
| CircularList.Nodes.ListInsertAfter | thread_pool/rt-thread/inc/rtservice.h:52-59 | the stores, one by one, and no other node touched |
| CircularList.Nodes.ListInsertBefore | thread_pool/rt-thread/inc/rtservice.h:67-74 | the stores, one by one, and no other node touched |
| CircularList.Nodes.ListRemove | thread_pool/rt-thread/inc/rtservice.h:80-86 | the stores, one by one, and no other node touched |
| Timer.InitInv | thread_pool/rt-thread/src/timer.c:70-90 | with an empty list and no timer started the invariant holds |
| Timer.PlaceIs | thread_pool/rt-thread/src/timer.c:274-297 | the loop of rt_timer_start finds the place behind all earlier and in front of all later timeouts modulo 2^32 |
| Timer.StartKeeps | thread_pool/rt-thread/src/timer.c:237-318 | the list stays sorted by remaining time, the new timer has its whole time left, the other timers what they had |
| Timer.StopKeeps | thread_pool/rt-thread/src/timer.c:328-352 | rt_timer_stop takes exactly the timer off the sorted list |
| TimerLaws.StartDoes | thread_pool/rt-thread/src/timer.c:237-318 | starting an active timer is an error and changes nothing; an inactive one gets its whole time from now on and stands behind everything earlier and in front of everything later; nothing else changes |
| TimerLaws.StopDoes | thread_pool/rt-thread/src/timer.c:328-352 | stopping an inactive timer is an error and changes nothing; an active one leaves the list, where the others keep their order |
| TimerLaws.ControlDoes | thread_pool/rt-thread/src/timer.c:364-396 | the two commands that change a timer change its one field, of that timer only |
| Timer.LastAmongEqualsIff | thread_pool/rt-thread/src/timer.c:279-291 | a new timer goes behind all timers with the same timeout exactly when there is at most one of them |
| Timer.ThirdGoesSecond | thread_pool/rt-thread/src/timer.c:279-291 | the third of three equal timeouts is called second |
| Timer.FinishKeepsIff | thread_pool/rt-thread/src/timer.c:421-447 | a round leaves the list well formed exactly when its callback does not start its own timer again after having stopped it, with no stop behind that start |
| Timer.OwnIs | thread_pool/rt-thread/src/timer.c:237-352 | what a sequence of starts and stops makes of the timer whose callback runs: listed again exactly when a start follows a stop and no stop follows |
| Timer.RestartExample | thread_pool/rt-thread/src/timer.c:421-447 | a timer with one tick is started, falls due, and its callback stops and starts it: a periodic one is then linked twice, a one-shot one linked but not active |
| Timer.FireKeeps | thread_pool/rt-thread/src/timer.c:409-449 | one round of rt_timer_check keeps the list sorted and makes no other timer due: the due timers decrease, so the loop ends |
| TimerLaws.FireDoes | thread_pool/rt-thread/src/timer.c:421-447 | what becomes of the timer of a round: after the callback a periodic one begins anew with its whole time, unless the callback has stopped it; every other one is inactive and off the list |
| TimerLaws.CheckFires | thread_pool/rt-thread/src/timer.c:398-455 | so over the whole check, for a due timer that no callback has to do with: periodic, it is listed with its whole period left; one-shot, it is inactive and off the list |
| Timer.CheckNeverEndsIff | thread_pool/rt-thread/src/timer.c:398-455 | with callbacks that do nothing, rt_timer_check makes any number of rounds exactly when some timer in the list is due, periodic and has period zero; it ends otherwise |
| Timer.ZeroPeriodNeverEnds | thread_pool/rt-thread/src/timer.c:435-441 | such a timer keeps the check going for any number of rounds, whatever else is in the list |
| Timer.ZeroPeriodExample | thread_pool/rt-thread/src/timer.c:435-441 | a periodic timer with period zero is started on an empty list and the next tick comes: the check does not end |
| Timer.CheckIs | thread_pool/rt-thread/src/timer.c:398-455 | rt_timer_check fires only due timers, each once and in the order of their timeouts, every due timer that no callback stops, and leaves no due timer |
| Timer.ClockTickIs | thread_pool/rt-thread/src/timer.c:398-455 | the timers of rt_tick_increase: a tick fires exactly the timers with at most one tick left that no callback stops, and takes one tick from every other one |
| Timer.NeverEarly | thread_pool/rt-thread/src/timer.c:237-455 | over any run a pending timer that nobody stops does not fire before its time, however the others are started, stopped and fired |
| Timer.OnTime | thread_pool/rt-thread/src/timer.c:237-455 | a timer started with d > 0 ticks and not stopped fires at the d-th tick from then on, and not before |
| TimerLaws.EveryPeriod | thread_pool/rt-thread/src/timer.c:398-455 | a periodic timer that fires at one tick, and that nobody stops, fires again exactly its period later and not before |
| Timer.MissedChecksExample | thread_pool/rt-thread/src/timer.c:279-291 | when four ticks pass without a check the order breaks: a new timer goes in front of an overdue one |
| TimerCode.Timers.constructor | thread_pool/rt-thread/src/timer.c:575-577 | the empty timer list |
| TimerCode.Timers.InitTimer | thread_pool/rt-thread/src/timer.c:70-90 | a new timer is inactive and linked to itself |
| TimerCode.Timers.Insert | thread_pool/rt-thread/src/timer.c:274-297 | the loop over the list nodes inserts at the specified place |
| TimerCode.Timers.Start | thread_pool/rt-thread/src/timer.c:237-318 | rt_timer_start over the list nodes computes the abstract start |
| TimerCode.Timers.Stop | thread_pool/rt-thread/src/timer.c:328-352 | rt_timer_stop over the list nodes computes the abstract stop |
| TimerCode.Timers.Fire | thread_pool/rt-thread/src/timer.c:421-447 | one round of the check over the list nodes, the callback included |
| TimerCode.Timers.Check | thread_pool/rt-thread/src/timer.c:398-455 | the loop of rt_timer_check ends and computes the abstract check |
| TimerCode.Timers.TickIncrease | thread_pool/rt-thread/src/timer.c:398-455 | the timers of rt_tick_increase: the tick and the check together |
| Clock.SpendIs | thread_pool/rt-thread/src/clock.c:80-91 | the time slice of rt_tick_increase: it gets shorter by one tick, or the running thread goes behind the other threads of its priority, the next one runs, and the slice is whole again |
| Clock.SpendDoes | thread_pool/rt-thread/src/clock.c:80-91 | one tick of the time slice, whichever thread runs: until it is over only the slice changes; then the thread gets a new slice and goes behind the others of its priority, and if it has company and the scheduler is not locked the first thread of the most urgent priority runs |
| Clock.TimeShared | thread_pool/rt-thread/src/clock.c:73-95 | round robin with time slices: as long as nothing but the clock happens, the k-th thread of the most urgent list runs from the tick at which the slices before it end, for as many ticks as its own slice has |
| Clock.AfterSlices | thread_pool/rt-thread/src/clock.c:73-95 | after the slices of the first k threads the list has gone round k times, and all slices are whole |
| Clock.StartShares | thread_pool/rt-thread/src/idle.c:176-190 | on a fresh kernel the idle thread leads and has its slice |
| Clock.Ticker.YieldThread | thread_pool/rt-thread/src/thread.c:368-402 | rt_thread_yield with its call of rt_schedule, which it makes only when the thread is not alone in its list |
| Clock.Ticker.SpendSlice | thread_pool/rt-thread/src/clock.c:80-91 | the countdown in unsigned arithmetic, the new slice and the yield over the list nodes |
| Clock.Ticker.TickIncrease | thread_pool/rt-thread/src/clock.c:73-95 | rt_tick_increase: the tick, the time slice and the timer check, over the ready lists and the timer list |
| PrioTable.SetAgrees | thread_pool/ucos2/source/os_core.c:626-634 | setting the two bits of a priority adds exactly that member; group bit y is set exactly when row y is not zero |
| PrioTable.ClearAgrees | thread_pool/ucos2/source/os_core.c:652-659 | clearing them removes exactly that member |
| PrioTable.HighestIs | thread_pool/ucos2/source/os_core.c:576-590 | the double OSUnMapTbl lookup finds the least member, and the group is zero exactly when the table is empty |
| Ucos.InitInv | thread_pool/ucos2/source/os_core.c:72-237 | with only the idle task the tables agree |
| Ucos.EntryKeeps | thread_pool/ucos2/source/os_task.c:171-189 | claiming a free priority for a task to be created, and giving it up, keeps the tables in agreement |
| Ucos.CreateKeeps | thread_pool/ucos2/source/os_core.c:957-967 | the second section of OS_TCBInit, for a claimed priority, keeps the tables in agreement, and the idle task last in the chain |
| UcosLaws.CreateIs | thread_pool/ucos2/source/os_core.c:957-967 | the new task is ready, waits for nothing and is first in the chain; the others are as before |
| Ucos.DeleteBeginKeeps | thread_pool/ucos2/source/os_task.c:382-409 | the first section of OSTaskDel keeps the tables in agreement: the dying task is in no wait table and locks the scheduler |
| UcosLaws.DeleteBeginIs | thread_pool/ucos2/source/os_task.c:386-405 | the dying task is not ready and in no wait table; the others are as before |
| Ucos.DeleteEndKeepsIff | thread_pool/ucos2/source/os_task.c:411-427 | the tables agree after the second section of OSTaskDel exactly when the dying task is not ready again |
| UcosLaws.DeleteEndIs | thread_pool/ucos2/source/os_task.c:417-427 | the priority is free and the task not in the chain; the tables and the others are as before |
| UcosInterrupts.DeleteAgreesIff | thread_pool/ucos2/source/os_task.c:382-427 | whatever interrupts do between the two sections of OSTaskDel, the tables agree again exactly when the dying task was not resumed after it had last been suspended in between |
| UcosInterrupts.FateIs | thread_pool/ucos2/source/os_task.c:409-411 | resumed after the last suspension: that last suspension exists, and a resume follows it |
| UcosExamples.NullTask | thread_pool/ucos2/source/os_task.c:405-427 | from the start of the kernel: a task is created and runs, deletes itself, interrupts suspend and resume it in between, and then the most urgent ready priority belongs to no task |
| Ucos.SuspendKeeps | thread_pool/ucos2/source/os_task.c:663-702 | OSTaskSuspend keeps the tables in agreement |
| UcosLaws.SuspendIs | thread_pool/ucos2/source/os_task.c:693-696 | the suspended task is not ready, and still in the wait table it was in; the others are as before |
| Ucos.ResumeKeeps | thread_pool/ucos2/source/os_task.c:536-568 | OSTaskResume keeps the tables in agreement |
| UcosLaws.ResumeIs | thread_pool/ucos2/source/os_task.c:554-563 | a resumed task is ready exactly when it waits for no event and no time; the others are as before |
| Ucos.SuspendResumeIff | thread_pool/ucos2/source/os_task.c:554-563 | suspending and resuming a ready task makes it ready again exactly when it had not timed out on an event without having run since |
| UcosExamples.LeftBehind | thread_pool/ucos2/source/os_core.c:498-512 | from the start of the kernel: a task is created and waits with a timeout, the tick comes, and before it runs it is suspended and resumed; it is not ready, not suspended, has no delay, and is still linked to the event |
| Ucos.WaitKeeps | thread_pool/ucos2/source/os_core.c:626-634 | OS_EventTaskWait keeps the tables in agreement |
| UcosLaws.WaitIs | thread_pool/ucos2/source/os_core.c:626-634 | the running task is not ready any more and is added to the wait table of the event; the others are as before |
| Ucos.PostKeeps | thread_pool/ucos2/source/os_core.c:576-608 | OS_EventTaskRdy keeps the tables in agreement |
| UcosLaws.PostIs | thread_pool/ucos2/source/os_core.c:576-608 | the most urgent waiter gets the event, even when its timeout has expired; it is ready unless suspended; the others are as before |
| Ucos.TimedOutKeeps | thread_pool/ucos2/source/os_core.c:652-659 | OS_EventTO keeps the tables in agreement |
| UcosLaws.TimedOutIs | thread_pool/ucos2/source/os_core.c:652-659 | the timed-out task was still in the wait table, leaves it and goes on running; the others are as before |
| Ucos.DelayKeeps | thread_pool/ucos2/source/os_time.c:35-51 | OSTimeDly of the running task keeps the tables in agreement |
| UcosLaws.DelayIs | thread_pool/ucos2/source/os_time.c:35-51 | the delayed task is not ready; the others are as before |
| UcosLaws.NothingToDo | thread_pool/ucos2/source/os_task.c:536-568 | resuming changes nothing exactly for a task that is not suspended; a delay of no ticks changes nothing; OS_Sched changes nothing but the current task, and that neither in an interrupt nor in a deletion |
| Ucos.TickOneKeeps | thread_pool/ucos2/source/os_core.c:496-512 | each critical section of OSTimeTick keeps the tables in agreement; the loop goes on to the next task of the chain and ends at the idle task |
| UcosLaws.TickOneIs | thread_pool/ucos2/source/os_core.c:498-510 | one section counts down the task it has come to, makes it ready if its delay ends and it is not suspended, and leaves the others as they were |
| UcosInterrupts.OneTick | thread_pool/ucos2/source/os_core.c:496-512 | with any interrupts between its sections, the loop has counted down exactly the tasks it has passed, each once; a task it has not come to is as it was |
| UcosInterrupts.WholeTick | thread_pool/ucos2/source/os_core.c:483-513 | from the beginning of OSTimeTick to its end every task is counted down once, whatever interrupts do to the others |
| UcosInterrupts.TickIs | thread_pool/ucos2/source/os_core.c:483-513 | so does the loop without interrupts, which ends |
| UcosInterrupts.Untouched | thread_pool/ucos2/source/os_core.c:483-972 | a step that is not about a task leaves its TCB and its readiness as they were |
| Ucos.SchedIs | thread_pool/ucos2/source/os_core.c:735-754 | OS_Sched switches to the ready task with the least priority number, unless an interrupt or a deletion is under way |
| Ucos.OtherStep | thread_pool/ucos2/source/os_core.c:483-972 | a step that does not use an event brings no task into its wait table and leaves the priorities of all others |
| Ucos.RunAgrees | thread_pool/ucos2/source/os_core.c:483-972 | after any run, between the sections of OSTaskDel and OSTimeTick too: a task that is not dying is in an event's wait table exactly when its TCB names that event, even after a timeout, and a dying one is in none; no task is suspended and ready; the ready list has a most urgent task |
| DoubleList.LinkFirst | thread_pool/ucos2/source/os_core.c:959-964 | the stores that link a node at the head of a list with null ends keep it linked in both directions |
| DoubleList.UnlinkAt | thread_pool/ucos2/source/os_task.c:418-424 | linking the two neighbours of a node, or the list head and one, takes exactly that node out |
| UcosCode.Tables.constructor | thread_pool/ucos2/source/os_core.c:72-237 | the initial tables, and the idle task alone in the chain |
| UcosCode.Tables.Schedule | thread_pool/ucos2/source/os_core.c:735-754 | OS_Sched by the two nesting counters and the table lookups computes the abstract choice |
| UcosCode.Tables.ClaimPrio | thread_pool/ucos2/source/os_task.c:171-189 | OSTaskCreate claims a priority exactly when it is unused |
| UcosCode.Tables.UnclaimPrio | thread_pool/ucos2/source/os_task.c:185-188 | OSTaskCreate gives the priority back when there was no TCB |
| UcosCode.Tables.CreateTask | thread_pool/ucos2/source/os_core.c:957-967 | OS_TCBInit over the global tables and the doubly linked chain |
| UcosCode.Tables.DeleteTaskBegin | thread_pool/ucos2/source/os_task.c:382-409 | the first section of OSTaskDel over the global tables, with the scheduler lock |
| UcosCode.Tables.DeleteTaskEnd | thread_pool/ucos2/source/os_task.c:411-427 | the second section, with the stores that unlink the TCB from the chain |
| UcosCode.Tables.SuspendTask | thread_pool/ucos2/source/os_task.c:693-696 | OSTaskSuspend over the global tables |
| UcosCode.Tables.ResumeTask | thread_pool/ucos2/source/os_task.c:554-563 | OSTaskResume over the global tables |
| UcosCode.Tables.EventTaskWait | thread_pool/ucos2/source/os_core.c:626-634 | OS_EventTaskWait over the global tables |
| UcosCode.Tables.EventTaskRdy | thread_pool/ucos2/source/os_core.c:576-608 | OS_EventTaskRdy over the global tables |
| UcosCode.Tables.EventTimeout | thread_pool/ucos2/source/os_core.c:652-659 | OS_EventTO over the global tables |
| UcosCode.Tables.TickStep | thread_pool/ucos2/source/os_core.c:498-511 | one section of OSTimeTick over the tables, and the link to the next TCB |
| UcosCode.Tables.TimeTick | thread_pool/ucos2/source/os_core.c:496-512 | the loop over the links of the chain, when no interrupt comes in between, ends and computes the abstract tick |
| UcosMutex.CreateKeeps | thread_pool/ucos2/source/os_mutex.c:129-169 | a new mutex is free and its PIP reserved |
| UcosMutexLaws.CreateDoes | thread_pool/ucos2/source/os_mutex.c:129-169 | OSMutexCreate fails exactly when the PIP is taken or reserved, and then changes nothing; else it reserves the PIP and makes a free mutex |
| UcosMutexLaws.AcceptIs | thread_pool/ucos2/source/os_mutex.c:59-92 | OSMutexAccept takes a free mutex, and changes nothing when somebody owns it |
| UcosMutex.OwnerOutranksWaiters | thread_pool/ucos2/source/os_mutex.c:340-367 | the owner is more urgent than every task that waits |
| UcosMutex.MovePrioKeeps | thread_pool/ucos2/source/os_mutex.c:343-364 | moving a task to another priority keeps ready bits, OSTCBPrioTbl and the TCB in agreement |
| UcosMutex.PendKeeps | thread_pool/ucos2/source/os_mutex.c:306-380 | OSMutexPend, with the promotion of the owner to the PIP, keeps the mutex invariant |
| UcosMutexLaws.PendIs | thread_pool/ucos2/source/os_mutex.c:331-368 | OSMutexPend branch by branch: a free mutex goes to the caller; else the caller waits with its timeout, and the owner moves to the PIP, as ready as before, when the caller outranks its recorded priority; when it does not, the owner's TCB, its ready bit and the priority table stay; other tasks never change |
| UcosMutexLaws.RaisedRun | thread_pool/ucos2/source/os_mutex.c:331-457 | over every run: the owner runs at the PIP exactly when a task that outranks its recorded priority has pended since it took the mutex, and at the recorded priority otherwise |
| UcosMutex.PostAcceptsIff | thread_pool/ucos2/source/os_mutex.c:419-426 | the test of OSMutexPost by priorities accepts exactly the owning task |
| UcosMutex.RestoreIs | thread_pool/ucos2/source/os_mutex.c:427-442 | OSMutexPost puts the owner back to the priority recorded when it took the mutex, and reserves the PIP again |
| UcosMutex.HandOverKeeps | thread_pool/ucos2/source/os_mutex.c:443-454 | the most urgent waiter becomes the owner at its own priority, or the mutex is free |
| UcosMutexLaws.PostIs | thread_pool/ucos2/source/os_mutex.c:419-457 | OSMutexPost branch by branch: by a task that does not own the mutex an error that changes nothing; the owner gets its recorded priority back and the PIP entry is reserved again; then the most urgent waiter owns the mutex at its own priority and waits no longer, or the mutex is free |
| UcosMutex.RunCalls | thread_pool/ucos2/source/os_mutex.c:59-457 | over every run: while the mutex is owned, its owner runs at its recorded priority or the PIP, and at the PIP whenever a waiter outranks the recorded one |
| UcosMutex.NoInversion | thread_pool/ucos2/source/os_mutex.c:306-457 | after any run, while the owner is ready, the scheduler runs a task more urgent than every waiter |
| UcosCode.MutexObject.constructor | thread_pool/ucos2/source/os_mutex.c:129-169 | OSMutexCreate over the tables |
| UcosCode.MutexObject.Accept | thread_pool/ucos2/source/os_mutex.c:59-92 | OSMutexAccept computes the abstract step |
| UcosCode.MutexObject.Pend | thread_pool/ucos2/source/os_mutex.c:331-368 | OSMutexPend computes the abstract step, and succeeds at once exactly when nobody owns the mutex |
| UcosCode.MutexObject.Post | thread_pool/ucos2/source/os_mutex.c:399-457 | OSMutexPost computes the abstract step, and succeeds exactly for the owner |
| EventFlags.InitInv | thread_pool/ucos2/source/os_flag.c:193-222 | in a new group nobody waits |
| EventFlags.PostIs | thread_pool/ucos2/source/os_flag.c:556-646 | OSFlagPost unlinks exactly the waiters whose condition holds on the new flags, keeps the others in order, hands each woken task its flags and makes exactly the unsuspended ones ready |
| EventFlags.PostKeeps | thread_pool/ucos2/source/os_flag.c:556-646 | a task pends exactly while it has one node in the list |
| EventFlagsLaws.SatisfiedIff | thread_pool/ucos2/source/os_flag.c:410-470 | a wait is over when all bits of its mask are set, some bit is, all are clear, or some bit is, by its kind |
| EventFlagsLaws.PostDoes | thread_pool/ucos2/source/os_flag.c:556-646 | OSFlagPost sets or clears exactly its bits; the tasks of the satisfied waiters go on with the bits they waited for, all other tasks keep everything, and the waiters that stay keep their order |
| EventFlags.PendIs | thread_pool/ucos2/source/os_flag.c:410-483 | OSFlagPend gets through exactly when its condition holds; consuming makes the condition false and touches no other bit; else the task is first in the list, not ready, with its timeout |
| EventFlagsLaws.PendDoes | thread_pool/ucos2/source/os_flag.c:410-483 | OSFlagPend returns at once exactly when its condition holds, and clears, or sets, exactly the bits of its mask if it consumes; else the task joins the wait list at its head with its timeout, and nothing else changes |
| EventFlagsLaws.AcceptDoes | thread_pool/ucos2/source/os_flag.c:77-165 | OSFlagAccept changes nothing but the bits it consumes, and those only when its condition holds |
| EventFlags.ResumeIs | thread_pool/ucos2/source/os_flag.c:485-512 | a task that runs again with its node still in the list has timed out: it takes exactly its node along and changes no flag; else it consumes just the flags it was given |
| EventFlagsLaws.ResumeDoes | thread_pool/ucos2/source/os_flag.c:485-512 | a task that runs again while it pends has timed out, and just its node leaves the list; else it consumes exactly the bits it was given |
| EventFlags.ConsumeKeepsIff | thread_pool/ucos2/source/os_flag.c:414-470 | consuming leaves no queued waiter satisfied exactly when it spares each: bits that are cleared may not be what a queued waiter for clear bits waits for, any or the last missing ones of all, and bits that are set not what a queued waiter for set bits waits for |
| EventFlags.LeftWaitingExample | thread_pool/ucos2/source/os_flag.c:429-437 | a task that waits for a clear bit stays queued while another clears it by consuming |
| EventFlags.LeftWaitingForSetExample | thread_pool/ucos2/source/os_flag.c:461-470 | a task that waits for a set bit stays queued while another sets it by consuming |
| EventFlags.DeleteKeeps | thread_pool/ucos2/source/os_task.c:398-403 | OSTaskDel takes exactly the node of the task along, wherever it is in the list |
| EventFlagsLaws.TasksDo | thread_pool/ucos2/source/os_task.c:398-702 | suspending, resuming, timing out and deleting change the one task and its readiness; deleting takes just its node along |
| EventFlags.PostedRunsOnceResumed | thread_pool/ucos2/source/os_flag.c:826-848 | a task that is suspended while it waits does not run when it is posted to or resumed alone; it runs again once both have happened |
| EventFlags.StepNoneLeftIff | thread_pool/ucos2/source/os_flag.c:73-646 | of all steps, posts, timeouts, suspensions, resumptions, deletions and creations of tasks included, exactly a consumption that does not spare every queued waiter leaves one satisfied |
| EventFlags.RunNoneLeft | thread_pool/ucos2/source/os_flag.c:73-646 | in every run whose consumptions spare the queued waiters no queued waiter is left satisfied |
| EventFlags.SetRunsHarmless | thread_pool/ucos2/source/os_flag.c:73-646 | all consumptions do when all waits are for set bits |
| EventFlagsCode.Object.Unlink | thread_pool/ucos2/source/os_flag.c:868-894 | OS_FlagUnlink relinks the neighbours, leaves the links of the node as they were and clears OSTCBFlagNode |
| EventFlagsCode.Object.WakeOne | thread_pool/ucos2/source/os_flag.c:595-635 | one node: the loop goes on through the link of the node it may just have unlinked |
| EventFlagsCode.Object.WakeAll | thread_pool/ucos2/source/os_flag.c:593-636 | the loop visits every node once although it unlinks the one it stands on |
| EventFlagsCode.Object.Post | thread_pool/ucos2/source/os_flag.c:556-646 | OSFlagPost over the doubly linked list computes the abstract post |
| EventFlagsCode.Object.Pend | thread_pool/ucos2/source/os_flag.c:410-483 | OSFlagPend up to the call of OS_Sched computes the abstract step |
| EventFlagsCode.Object.Block | thread_pool/ucos2/source/os_flag.c:732-757 | OS_FlagBlock links the node at the head with consistent links |
| EventFlagsCode.Object.Resume | thread_pool/ucos2/source/os_flag.c:485-512 | OSFlagPend after the task runs again computes the abstract step |
| EventFlagsCode.Object.Accept | thread_pool/ucos2/source/os_flag.c:77-165 | OSFlagAccept computes the abstract step |
| EventFlagsCode.Object.DeleteTask | thread_pool/ucos2/source/os_task.c:398-403 | OSTaskDel finds the node through OSTCBFlagNode and unlinks it |
| EventFlagsCode.Object.ResumeTask | thread_pool/ucos2/source/os_task.c:554-563 | OSTaskResume of a task that waits for flags |
| UcosQueue.InitInv | thread_pool/ucos2/source/os_q.c:91-135 | an empty queue on a kernel that has just started |
| UcosQueue.HandOffIs | thread_pool/ucos2/source/os_q.c:419-424 | a message posted while tasks wait goes to the most urgent of them, which had none, even when its timeout has expired; it is ready unless suspended |
| UcosQueueLaws.PostDoes | thread_pool/ucos2/source/os_q.c:400-438 | a post hands the message to the most urgent waiting task if there is one, and goes into the ring otherwise, at the back or at the front; it fails, and changes nothing, exactly when nobody waits and the ring is full |
| UcosQueueLaws.PostOptDoes | thread_pool/ucos2/source/os_q.c:548-600 | a broadcast reaches every waiting task and leaves the ring alone; with no waiting task, or without the option, it is a post |
| UcosQueueLaws.PendDoes | thread_pool/ucos2/source/os_q.c:348-366 | a pend takes the oldest message, or waits exactly when there is none |
| UcosQueueLaws.ReturnDoes | thread_pool/ucos2/source/os_q.c:367-378 | a task that runs again takes the message it was given; without one it has timed out and waits no longer |
| UcosQueueLaws.FlushDoes | thread_pool/ucos2/source/os_q.c:267-290 | a flush empties the ring and leaves the tasks and their messages alone |
| UcosQueue.BroadcastIs | thread_pool/ucos2/source/os_q.c:568-574 | a broadcast reaches every waiting task and no other; the loop ends |
| UcosQueue.KernelKeeps | thread_pool/ucos2/source/os_q.c:348-378 | the other steps of the kernel keep messages and waiters apart |
| UcosQueue.RunCalls | thread_pool/ucos2/source/os_q.c:39-600 | in every reachable state the ring is empty or nobody waits |
| UcosQueue.ConservedRun | thread_pool/ucos2/source/os_q.c:39-600 | over every run without flush, broadcast and deletion of a receiver, each accepted message is received once, in the ring or with one task |
| UcosQueue.FifoRun | thread_pool/ucos2/source/os_q.c:348-438 | messages leave the ring in the order in which they were appended, over every run without posts to the front and flushes |
| UcosQueue.FrontIsNext | thread_pool/ucos2/source/os_q.c:481-501 | a message posted to the front leaves next |
| UcosQueueCode.Object.constructor | thread_pool/ucos2/source/os_q.c:91-135 | an empty ring |
| UcosQueueCode.Object.Accept | thread_pool/ucos2/source/os_q.c:39-69 | OSQAccept over the ring pointers computes the abstract step |
| UcosQueueCode.Object.Pend | thread_pool/ucos2/source/os_q.c:348-366 | OSQPend up to the call of OS_Sched |
| UcosQueueCode.Object.Return | thread_pool/ucos2/source/os_q.c:367-378 | OSQPend when the task runs again |
| UcosQueueCode.Object.Post | thread_pool/ucos2/source/os_q.c:548-600 | OSQPost, OSQPostFront and OSQPostOpt over the ring pointers; OSQIn stays OSQOut + OSQEntries modulo the size |
| UcosQueueCode.Object.Flush | thread_pool/ucos2/source/os_q.c:267-290 | OSQFlush |
| Ring.Put | thread_pool/ucos2/source/os_q.c:430-434 | writing at OSQIn appends |
| Ring.Get | thread_pool/ucos2/source/os_q.c:349-354 | reading at OSQOut takes the oldest |
| Ring.PutFront | thread_pool/ucos2/source/os_q.c:493-498 | writing in front of OSQOut prepends |
| LineCopy.CopyLenIs | elog/src/elog_utils.c:67-81 | a line copy stops behind the first newline sign, or takes everything |
| LineCopy.Cpyln | elog/src/elog_utils.c:67-81 | the loop of elog_cpyln copies exactly that much and nothing else |
| AsyncLog.LineIs | elog/src/elog_async.c:161-201 | a line read of a one-character newline sign reads something when it can, ends in a newline or reads min(size, used), and contains no other newline except at the physical end of the buffer |
| AsyncLog.InnerNewlineIff | elog/src/elog_async.c:161-201 | a line read contains a newline before its end exactly when it goes beyond the physical end of the buffer and the first newline in the buffer is the last character in front of it |
| AsyncLog.InnerNewlineExample | elog/src/elog_async.c:161-201 | in a buffer of two characters, after one has gone in and out, a newline and a letter are read as one line |
| AsyncLog.FifoRun | elog/src/elog_async.c:119-243 | over every run what is read and then still buffered is what was buffered and then accepted, in order |
| AsyncLog.DrainIs | elog/src/elog_async.c:267-293 | the polling loop with a non-zero size ends and has read the exact content |
| AsyncLog.PutGetIs | elog/src/elog_async.c:119-243 | a put takes the whole text or fills the buffer; a chunk read takes what it asks for or all there is |
| AsyncLog.LooksFull | elog/src/elog_async.c:88-149 | clearing the empty flag of an empty buffer makes it look full |
| AsyncLog.Buffer.GetUsed | elog/src/elog_async.c:88-100 | the used size is the length of the content, and equal indices mean exactly one of full and empty |
| AsyncLog.Buffer.Put | elog/src/elog_async.c:119-149 | a put appends the longest prefix that fits; the flags stay right exactly unless nothing is put into an empty buffer |
| AsyncLog.Buffer.Get | elog/src/elog_async.c:211-243 | a get copies out and removes the longest prefix that is asked for |
| AsyncLog.Buffer.GetLine | elog/src/elog_async.c:161-201 | a line get copies out and removes the specified prefix |
| BufLog.FillKeepsAll | elog/src/elog_buf.c:62-78 | bytes output followed by bytes buffered are all bytes logged |
| BufLog.FillIs | elog/src/elog_buf.c:62-78 | every output of the loop is one full buffer, and the end of a text is always buffered |
| BufLog.FlushIs | elog/src/elog_buf.c:84-93 | a flush is one more output, after which the buffer is empty and all bytes are in order |
| BufLog.KeepsOrderIff | elog/src/elog_buf.c:54-79 | the order of the bytes is kept for all texts exactly when the mode is enabled or the buffer empty |
| BufLog.OvertakenExample | elog/src/elog_buf.c:54-103 | the mode is switched on, "ab" logged, the mode switched off, and "c" is output before "ab" |
| BufLog.RunIs | elog/src/elog_buf.c:54-103 | over every run that switches the mode off only with an empty buffer, output and buffer are all bytes logged, in order |
| BufLog.Buffer.Output | elog/src/elog_buf.c:54-79 | the while (true) loop ends by the pair (size, buf_write_size), though a round may copy nothing, and computes the abstract step |
| BufLog.Buffer.Flush | elog/src/elog_buf.c:84-93 | elog_flush |
| BufLog.Buffer.Enable | elog/src/elog_buf.c:101-103 | elog_buf_enabled changes the mode and leaves the buffer as it is |
| PthreadPool.InitInv | thread_pool/pthread/pthread_pool.c:35-62 | a new pool has no task, and its workers are on their way to the lock |
| PthreadPool.StepCounts | thread_pool/pthread/pthread_pool.c:74-205 | every step keeps curWaitThreadNum at the queue length modulo 256, and every worker in one place |
| PthreadPool.StepKeepsIff | thread_pool/pthread/pthread_pool.c:74-205 | if a worker waits, woken workers and addTask callers yet to signal number at least the queued tasks; a step keeps that exactly unless a worker goes to sleep on a queue of a multiple of 256 tasks and too few others are on their way |
| PthreadPool.NoStallUnwrapped | thread_pool/pthread/pthread_pool.c:170-205 | after every run from the start in which no worker takes the lock while a positive multiple of 256 tasks is queued: no wake-up is lost, and while tasks are queued, some worker is on its way or runs, or somebody is about to signal |
| PthreadPool.NoStallFewTasks | thread_pool/pthread/pthread_pool.c:170-205 | so too after every run in which fewer than 256 tasks are added |
| PthreadPool.NoStall | thread_pool/pthread/pthread_pool.c:170-205 | and after every run in which each worker that goes to sleep on queued tasks leaves enough others on their way |
| PthreadPool.FifoRun | thread_pool/pthread/pthread_pool.c:84-199 | over every run, wrapped counts included, tasks are started in the order in which they were added |
| PthreadPool.AtMostOnce | thread_pool/pthread/pthread_pool.c:186-199 | over every run every task is started at most once |
| PthreadPool.WaitsWithTasksIff | thread_pool/pthread/pthread_pool.c:176-188 | the assertions of threadJob hold; a worker waits with tasks queued exactly when their number is a multiple of 256 |
| PthreadPool.LostAt256 | thread_pool/pthread/pthread_pool.c:176-188 | a run from the start of a pool with one worker: 256 tasks are added before the worker takes the lock; it goes to sleep on them, and only another task or a wake-up without a signal can change that |
| PthreadPool.TaskQueue.AddTask | thread_pool/pthread/pthread_pool.c:81-97 | the walk to the tail appends, and counts modulo 256 |
| PthreadPool.TaskQueue.TakeTask | thread_pool/pthread/pthread_pool.c:176-193 | the first task is taken, or none when the count is zero |

## Left out

- Context switches, stacks, interrupt entry, hooks, debug output and `rt_kprintf`: a critical section is one atomic
  step.
- The heap semaphores and the locks of the allocators, and the failure path of `slab.c` that releases the semaphore
  twice: each allocator call is one step.
- Addresses: pointers are offsets from the start of the heap, and headers are records; in `mem.c` they are also encoded
  into the bytes of the arena. Payload bytes are modelled for `mem.c` only.
- `rt_calloc` of all three heaps, `rt_realloc` of `slab.c`, the growing path of `rt_memheap_realloc` (allocate, copy,
  free), the fallback to other memheaps, `rt_memheap_detach`: compositions of the modelled calls.
- `used_mem` and `max_mem` of `slab.c`, and the module hooks in it.
- MemHeapCode.Object.Shrink: requires room for a header behind the cut, which the code does not check. Without it the
  new header is written over the next one, and headers that overlap are not modelled (`MemHeap.ShrinkKeeps` says exactly
  when).
- MemHeap.Run: shrinks leave room for a header, for the same reason; `MemHeap.ShrunkIff` speaks of the values of the
  headers and not of the bytes they share.
- SmallHeapLaws.RunKeepsLowest: runs without `rt_realloc`, since shrinking does not lower `lfree`
  (`SmallHeapLaws.ShrinkKeepsLowestIff` says when it stays lowest).
- SmallHeap.PlugHolesKeeps: the prev field of `heap_end` is stale in the source and not part of the invariant.
- `rt_page_alloc` and `rt_page_free` with a null or foreign address: the assertions of the source exclude them.
- SlabCode.Allocator.MallocFrom: the list behind `z_freechunk` is a sequence of chunk numbers, not links in the chunks.
- The suspend lists of mailboxes and message queues are sequences in `Mailbox.Object` and `MessageQueueCode.Object`; the
  suspend list of the mutex is linked (`KernelCode.Core.ListSuspend`). The work queue of the pthread pool, the timer
  list, the chain of task control blocks and the wait lists of event flags are linked.
- The test `(size | (size - 1)) + 1 == size << 1` of `slab.c` is modelled as "size is a power of two".
- Semaphores, events, and creating, detaching and deleting IPC objects and threads; the error codes of resumed threads.
- Scheduler.ScheduleIs: up to 32 priorities, the configured case; the two-level group for more is not modelled.
- Mutex.StepKeeps: one mutex, and nobody else changes priorities while it is used; counters do not overflow.
- KernelCode.Core.ResumeThread: the timer of the thread, which the code also takes off its list, is not part of this
  state.
- Mutex.NoInversionScheduled: for the PRIO flag; with FIFO it is false (`Mutex.FifoInversionExample`).
- Timer.OnTime: for timers in the hard timer list with a check on every tick, delays below RT_TICK_MAX/2, and callbacks
  that do not restart their own timer; the clock does not advance while the check runs. Soft timers, `rt_tick_set`,
  `rt_timer_detach` and `rt_timer_delete` are not modelled.
- Timer.ClockTickIs: the timers of `rt_tick_increase`; its time slice is in `Clock`, and `Clock.Ticker.TickIncrease` is
  all of it.
- Clock.TimeShared: while nothing but the clock happens; what timer callbacks do to threads is not modelled.
- Timer.StartKeeps: `rt_timer_start` tests the flag and reads the clock before it disables interrupts (timer.c:245,
  255); both are part of the one step here.
- Callbacks are arbitrary sequences of starting, stopping and changing timers; what else they do is not modelled.
- Ucos.RunAgrees: `OSTaskChangePrio`, `OSSchedLock`, nested interrupts, and the statistics task are not modelled.
  `OSTimeTick` is called by the interrupt of the clock. While it runs, or a deletion is under way, no task pends, delays
  or is switched to. A deletion ends with the dying task not ready (`Ucos.DeleteEndKeepsIff` says why); a second one
  does not begin before. Waits for event flags, which also clear and set ready bits, are not among its steps; they have
  runs of their own (`EventFlags.RunNoneLeft`).
- Tasks are named by identity, not by priority: what `OSTaskDel`, `OSTaskSuspend` and `OSTaskResume` do with a priority
  that is unused, or reserved for a mutex or a creation, is not modelled. The list of free TCBs is not modelled:
  `OS_TCBInit` finds one, or `UcosCode.Tables.UnclaimPrio` gives the priority back.
- UcosMutex.RunCalls: one mutex; its owner is not deleted and does not pend elsewhere, and the PIP is above every
  competitor, as the comments of `OSMutexPend` demand. `OSMutexDel` is not modelled.
- EventFlags.RunNoneLeft: runs whose consumptions spare the queued waiters; without that it is false
  (`EventFlags.LeftWaitingExample`). One group; deleting groups is not modelled. Of `OSTaskDel` the first section is
  modelled, after which a task is nothing to a group.
- UcosQueue.ConservedRun: flushing, a broadcast to waiting tasks, and deleting a task that was just handed a message do
  not conserve messages. `OSQDel` and `OSQQuery` are not modelled.
- The bounded tick and delay counters of uC/OS-II and the counters of RT-Thread objects do not wrap round.
- AsyncLog.LineIs: for a newline sign of one character, the configured case; `LineCopy.CopyLenIs` holds for any sign.
- The output thread, its semaphore and `elog_port_output`: outputs are recorded in order.
- PthreadPool.NoStall: before shutdown; `destroy` sets its flag outside the lock and is not modelled, nor is running the
  tasks.
- Memory models weaker than locks, and fairness: what is proved is that nobody waits in vain, not that somebody is
  scheduled.
- The cache, the refresher, the RT-Thread thread pool, memory pools, modules, devices and the object system.
