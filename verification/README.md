# A verified model of the kernel's memory manager, scheduler and locks

The repository is a small 32-bit x86 kernel. This project models its cores in Dafny and proves
what they are for.

**The heap, in three layers.**
`BitRuns` and `BitmapAllocator` are the first-fit bit allocator of `bitmap.c` over its byte array.
`IntrusiveList` is `list.c` at the level of addresses: nodes are two words in somebody else's
storage. `Paging` is the hardware's two-level walk, the recursive slot and the page-table edits of
`memory.c`; `WordBits` has its masked expressions on 32-bit words; `Boot` is the loader's `setup_page`,
from which the memory manager's assumptions are proved. `Pages` pairs virtual pages with frames, and
`Window` says what becomes of the directory when the pool reaches into the recursive window.
`SlabLayout`, `SlabState`, `SlabSteps`, `SlabUsers`, `HeapPages`, `HeapSteps` and `KernelHeap` are the
slab heap: `KernelHeap.Heap` holds the methods, `SlabState.Sound` the invariant, `SlabUsers` what users may rely on. The heap's memory is
flat words at virtual addresses; `HeapMirror` proves that they are what the heap's frames hold, under
stores and under everything the page layer does. `HeapClients` has the runs: the heap as a set of
independent buffers, at the virtual addresses and in physical memory. `ZeroPages` is about the requests
whose page count wraps to 0. `MemoryInit` goes from the loader's tables to a heap that serves calls.

**Threads.** `Scheduling` is the round-robin scheduler, as a class and as functions on its state, with
its invariant, bounded bypass and rotation. `Locks` is `lock.c` as a transition system over that
scheduler: any number of threads and locks, one shared-memory action or one section with
interrupts off per step, a timer tick anywhere in between. `Stranding` has the lost wakeups of whole
runs, `LostWakeup` one concrete run of that kind. `LockCalls` says what each call does when it runs alone, how
counts move over runs, and that every thread can get through `spin_lock`.
`ContextSwitch` is `switch.s` with the frame that `kthread_create` forges.

**Two smaller cores.** `FormattedOutput` is `itoa` and `vsprintf` against a rendering function;
`FsLayout` is the layout arithmetic of `fs_format` and the inode numbers of `fs_mount`.

Each module's methods follow the source's own steps; the functions and lemmas beside them say what
they compute and what holds over all runs. Check everything with `dafny verify dfyconfig.toml`.

## What the proofs found

- The loader points directory entries 0 and 768 at the same page table, so mapping a heap page below
  0xC0400000 also maps its twin below 4 MB (`Boot.TwinAppears`). `Boot.HeapMapExact` states exactly
  which translations a heap mapping changes.
- The comment on the virtual bitmap allows for the whole kernel gigabyte, but the heap starts 1 MB into
  it and the last 4 MB are the recursive window: of the bitmap's 0x40000 pages only the first 0x3FB00
  are usable. `page_malloc(PF_KERNEL, 0xFFC00000, 1)` finds its page free and overwrites directory
  entry 0 (`Window.DirectoryOverwritten`). `Window.DirectorySurvives` and `Window.WiredExact` give the exact
  condition, `MemoryInit.PoolInit` which requests meet it on the fresh pool; the page layer and the heap
  are proved for every request that does.
- A fixed address below the pool wraps its index: `page_malloc(PF_KERNEL, v, 1)` with v in the low megabyte
  finds a bit of the bitmap and remaps the kernel's own page (`Window.FixedPages`, `Window.LowRemapped`).
- A request of more than 0xFFFFEFF4 bytes wraps the page count. From 0xFFFFFFF5 on it is served with the
  rest of one page (`SlabLayout.ServedExact`, `SlabLayout.HugeRequestWraps`). The 4096 sizes before count as
  no page: `bitmap_acquire` then answers with the place behind a used page, and the header is stored there,
  in a live allocation if that is the second page of one (`KernelHeap.Heap.MallocNothing`,
  `ZeroPages.HeaderInUse`, `ZeroPages.SecondPageHit`).
- A thread preempted between `spin_unlock` and `kthread_block` can miss its wakeup and is then never
  woken (`LostWakeup.WakeupLost`). `Locks.AwaitedExactly` and, over runs, `Stranding.AwaitedRun` give the
  exact condition, the status test of `kthread_unblock`; mutual exclusion, node lifetime and semaphore
  conservation do not depend on it.
- Until its first preemption the main thread must not yield or block: it is on the ready list while it
  runs (`Scheduling.LeaveExactly`, `Scheduling.EarlyLeave`).
- A `%` alone at the end of a format makes `vsprintf` read on behind the format (`FormattedOutput.LonePercent`).
- `fs_mount` wraps its inode numbers (`FsLayout.MountExact`).
- `fs_format` wraps its byte count at 2^23 free sectors (`FsLayout.FormatExact`).
- `setup_page` does not clear the page tables behind entries 769 to 1022, nor entries 256 and up of page
  table 0; that heap pages start unmapped is a precondition of the page layer.

## Model

| member | source | states |
|---|---|---|
| BitmapAllocator.Bitmap.constructor | code/kernel/src/bitmap.c:12-15 | binds the caller's bytes without clearing them; the abstract bits are the ones the bytes hold |
| BitmapAllocator.Bitmap.Reset | code/kernel/src/bitmap.c:17 | clears every bit |
| BitmapAllocator.Bitmap.Set | code/kernel/src/bitmap.c:19-28 | changes exactly bit idx of the abstract bit sequence |
| BitmapAllocator.Bitmap.Check | code/kernel/src/bitmap.c:30-34 | returns bit idx |
| BitmapAllocator.SetBit | code/kernel/src/bitmap.c:19-28 | the or / and-not with a shifted one changes that bit of the byte and no other |
| BitmapAllocator.MaskTests | code/kernel/src/bitmap.c:30-34 | and-ing with a shifted one tests exactly that bit |
| BitmapAllocator.Bitmap.FirstClear | code/kernel/src/bitmap.c:41-54 | the byte scan and the bit scan stop at the lowest clear bit, or at the end when all are set |
| BitmapAllocator.Bitmap.FindRun | code/kernel/src/bitmap.c:63-81 | the scan from there finds the lowest run of cnt clear bits, or -1 when there is none; for no bits it stops behind the first set bit that follows |
| BitmapAllocator.Bitmap.Acquire | code/kernel/src/bitmap.c:36-91 | exactly first fit for cnt >= 1: lowest start of a clear run and just those bits set, or -1 with the bitmap unchanged iff no such run exists; for cnt 0 nothing is marked and the answer is the place behind the first set bit that follows a clear one |
| BitmapAllocator.Bitmap.Release | code/kernel/src/bitmap.c:93-105 | clears exactly the given bits, all of which the source asserts to be set |
| BitRuns.ScanStep | code/kernel/src/bitmap.c:68-81 | one more bit either completes the first-fit run or keeps the scan's invariant |
| BitRuns.OneZeroFit | code/kernel/src/bitmap.c:63-81 | the search for a run of no bits has one answer |
| BitRuns.AcquireKeepsUnion | code/kernel/src/bitmap.c:36-91 | marking a free run keeps the set bits the disjoint union of the outstanding regions |
| BitRuns.ReleaseKeepsUnion | code/kernel/src/bitmap.c:93-105 | so does giving a region back |
| BitRuns.RunKeepsUnion | code/kernel/src/bitmap.c:36-105 | over any run of acquire and release the set bits are the disjoint union of the regions still held |
| IntrusiveList.InitRefines | code/lib/src/list.c:11-17 | list_init's four stores make an empty list and touch nothing else |
| IntrusiveList.InsertRefines | code/lib/src/list.c:19-25 | list_insert's stores insert the element at that position of the sequence, with prev and next mutually inverse; words outside the list's nodes and the new node keep their values |
| IntrusiveList.RemoveRefines | code/lib/src/list.c:27-31 | list_remove's stores delete that element and no other |
| IntrusiveList.ListFrame | code/lib/src/list.c:11-88 | a list survives any change of memory outside its own nodes |
| IntrusiveList.ContentsUnique | code/lib/src/list.c:11-88 | the words determine the elements: one memory holds one sequence at a list head |
| IntrusiveList.Init | code/lib/src/list.c:11-17 | writes exactly list_init's words |
| IntrusiveList.Insert | code/lib/src/list.c:19-25 | writes exactly list_insert's words, rereading prev as the source does |
| IntrusiveList.Remove | code/lib/src/list.c:27-31 | removes the k-th element |
| IntrusiveList.Append | code/lib/src/list.c:33-36 | appends |
| IntrusiveList.Push | code/lib/src/list.c:38-41 | prepends |
| IntrusiveList.Pop | code/lib/src/list.c:43-55 | returns and removes the first element, or returns NULL and changes nothing |
| IntrusiveList.Empty | code/lib/src/list.c:57-60 | true iff the sequence is empty |
| IntrusiveList.Len | code/lib/src/list.c:62-73 | terminates with the length of the sequence |
| IntrusiveList.Find | code/lib/src/list.c:75-88 | terminates with membership |
| WordBits.SourceMasks | code/kernel/src/memory.c:102-138 | on every 32-bit address and entry the masked expressions of pde_ptr, pte_ptr, addr_v2p, block2arena, the flagged entry, the cleared one and the test of the present bit are the model's arithmetic |
| Paging.PtePtrWalk | code/kernel/src/memory.c:117-123 | with PDE[1023] pointing at the directory the two-level walk of pte_ptr(v) lands on v's own table entry |
| Paging.PdePtrWalk | code/kernel/src/memory.c:102-106 | pde_ptr(v) is pte_ptr applied twice, and its walk lands on v's directory entry |
| Paging.Mmu.AddrV2P | code/kernel/src/memory.c:134-138 | reads v's entry through the window; for a mapped v the result is v's translation |
| Paging.Mmu.TablePresent | code/kernel/src/memory.c:257 | the test of v's directory entry through the window |
| Paging.Mmu.PageTableAdd | code/kernel/src/memory.c:250-269 | where the page table is present: stores the flagged frame into v's entry and nowhere else |
| Paging.Mmu.PageTableRemove | code/kernel/src/memory.c:277-283 | clears the present bit of v's entry and nothing else |
| Paging.Mmu.PageTableAddNew | code/kernel/src/memory.c:257-268 | where the page table is missing: the new directory entry, the cleared table, the page's entry, and nothing else |
| Paging.NewTableMaps | code/kernel/src/memory.c:257-268 | with a spare frame for the missing table the page becomes mapped and no other translation below the window changes |
| Paging.NewTableBits | code/kernel/src/memory.c:257-268 | both entries it stores are present, writable and the user's |
| Paging.SameEntryIff | code/kernel/src/memory.c:117-123 | which addresses share one table entry |
| Paging.AddMaps | code/kernel/src/memory.c:250-269 | afterwards v + o translates to p + o for o < 4096; any other translation, a fault included, changes only under the same table entry |
| Paging.EntryBits | code/kernel/src/memory.c:250-290 | the stored entry is the frame with present, writable and user bit, and page_table_remove takes nothing but the present bit from it |
| Paging.RemoveUnmaps | code/kernel/src/memory.c:277-283 | afterwards v's page faults; any other translation, a fault included, changes only under the same table entry |
| Paging.FlatStore | code/kernel/src/memory.c:250-269 | a store to a data frame moves no translation and is seen at its own address only, so mapped memory behaves as flat memory |
| Boot.SetupPage | code/boot/loader.s:218-266 | the loops leave the loader's directory and the identity entries of page table 0, and write nothing else |
| Boot.ClearDirectory | code/boot/loader.s:219-227 | all 1024 entries are zero |
| Boot.FillKernelSlots | code/boot/loader.s:238-246 | entries 769 to 1022 point at the tables behind page table 0 |
| Boot.FillLowTable | code/boot/loader.s:254-264 | 256 entries map the low megabyte onto itself |
| Boot.DirectoryReady | code/boot/loader.s:229-252 | the memory manager's assumptions hold: recursive slot, a table for every kernel address, all tables below the pools |
| Boot.BootBits | code/boot/loader.s:229-266 | every entry that setup_page stores is present, writable and the supervisor's |
| Boot.LowMemoryMapped | code/boot/loader.s:229-264 | the low megabyte is mapped onto itself and at 0xC0000000 |
| Boot.BootEntrySharing | code/boot/loader.s:229-246 | two addresses share a table entry exactly when they are on one page, or on a kernel page of the first 4 MB and its twin below 4 MB |
| Boot.HeapMapExact | code/kernel/src/memory.c:250-269 | exactly which translations mapping a heap page changes, among all addresses: its own and, below 0xC0400000, its low twin's |
| Boot.HeapUnmapExact | code/kernel/src/memory.c:277-283 | the same for unmapping |
| Boot.TwinAppears | code/kernel/src/memory.c:250-269 | the promise that no other page changes fails: mapping 0xC0100000 also maps 0x00100000 |
| Window.KernelPool | code/kernel/src/memory.c:443-455 | of the 0x40000 pages in pool_init's bitmap the first 0x3FB00 lie below the recursive window, the next 0x400 in it, and the others behind the end of the address space |
| Window.WindowEntry | code/kernel/src/memory.c:117-123 | in the window an address's table entry is an entry of the page directory |
| Window.DirectorySurvives | code/kernel/src/memory.c:250-269 | for every pool page with a 32-bit address: page_table_add leaves the loader's directory as it was if and only if the page is below index 0x3FB00 |
| Window.WiredExact | code/kernel/src/memory.c:311-328 | page_acquire's loop, whatever frames it gets, keeps the loader's directory if and only if the run it wires ends below the window |
| Window.DirectoryOverwritten | code/kernel/src/memory.c:569-582 | the failing call page_malloc(PF_KERNEL, 0xFFC00000, 1): its page is in the bitmap, and the new frame replaces directory entry 0, so addresses below 4 MB go through what the frame holds |
| Window.FixedPages | code/kernel/src/memory.c:169-170 | the unchecked index of a fixed address lies in the bitmap if and only if the address is in the pool or in the low megabyte |
| Window.LowRemapped | code/kernel/src/memory.c:569-582 | page_malloc at a page of the low megabyte replaces that page's identity mapping and the kernel's own mapping of it, and no other translation |
| Window.SafeIff | code/kernel/src/memory.c:158-168 | with a null address a request stays below a limit if and only if some run that serves it does, or no run serves it at all |
| Window.FreshSafe | code/kernel/src/memory.c:452-455 | on the fresh pool exactly the requests for up to 0x3FB00 pages, or for more than the bitmap has, stay below the window |
| Pages.PageLayer.constructor | code/kernel/src/memory.c:402-463 | empty bitmaps and no mapped heap page make a consistent page layer |
| Pages.PageLayer.VaddrAny | code/kernel/src/memory.c:163-168 | first fit over the whole virtual bitmap, the address computed in 32 bits, or NULL with nothing marked |
| Pages.PageLayer.VaddrFixed | code/kernel/src/memory.c:169-182 | for every address whose 32-bit index lies in the bitmap: succeeds iff every page is free; a refusal leaves the free pages before the first used one marked |
| Pages.PageLayer.VaddrAcquire | code/kernel/src/memory.c:158-184 | both modes: the answer, and exactly which bits change |
| Pages.PageLayer.VaddrRelease | code/kernel/src/memory.c:200-206 | clears exactly the range's bits |
| Pages.PageLayer.Palloc | code/kernel/src/memory.c:214-225 | the lowest free frame, or NULL iff none is free |
| Pages.PageLayer.Pfree | code/kernel/src/memory.c:233-239 | clears exactly that frame's bit |
| Pages.PageLayer.WireOne | code/kernel/src/memory.c:314-326 | one turn: one frame taken and mapped, or failure with no change |
| Pages.PageLayer.WirePages | code/kernel/src/memory.c:312-328 | all pages wired iff enough frames are free; otherwise as many as there were frames, and no frame is left |
| Pages.PageLayer.PageAcquire | code/kernel/src/memory.c:298-329 | keeps the one-to-one relation between mapped pages and set frame bits on every path; succeeds iff both pools can serve; on success exactly the requested pages become marked and mapped; a failure for want of frames leaves the bits marked and as many pages wired as there were frames, one for want of pages leaves nothing, or at a fixed address the bits in front of the first used page |
| Pages.FramesLeft | code/kernel/src/memory.c:298-329 | with no virtual bit set from some page on, no more frames than that many are taken |
| Pages.PageLayer.UnwireOne | code/kernel/src/memory.c:347-358 | one turn: the page's own frame is freed and its entry cleared |
| Pages.PageLayer.UnwirePages | code/kernel/src/memory.c:346-358 | exactly the given pages lose their frames |
| Pages.PageLayer.PageRelease | code/kernel/src/memory.c:341-364 | exactly the given pages become unmapped and their virtual bits clear; the relation is kept |
| Pages.PageLayer.AcquireRelease | code/kernel/src/memory.c:298-364 | a successful page_acquire then page_release restores both bitmaps and the mapped pages exactly |
| Pages.ViewAfterAdd | code/kernel/src/memory.c:250-269 | mapping pool page i changes entry i of the pool's translations only |
| Pages.ViewAfterRemove | code/kernel/src/memory.c:277-283 | unmapping pool page i changes entry i only |
| Pages.FramesDetermined | code/kernel/src/memory.c:298-364 | the frame bitmap is determined by which pages are mapped where |
| SlabLayout.BlocksFill | code/kernel/src/memory.c:664-668 | blocks_per_arena is what fits behind the header, and the blocks stay inside the page |
| SlabLayout.SizesDouble | code/kernel/src/memory.c:662-668 | the seven block sizes double from 16 to 1024 bytes |
| SlabLayout.BlockByIndex | code/kernel/src/memory.c:469-472 | arena2block's address arithmetic names the idx-th block |
| SlabLayout.BlockInPage | code/kernel/src/memory.c:479-481 | every block lies behind the header inside its page, and block2arena maps it back to the header |
| SlabLayout.BlocksApart | code/kernel/src/memory.c:469-472 | two blocks of an arena do not overlap |
| SlabLayout.ClassOf | code/kernel/src/memory.c:625-631 | the smallest class whose block size holds the request |
| SlabLayout.PageCountExact | code/kernel/src/memory.c:612 | the page count covers header and request exactly when size <= 0xFFFFEFF4, and is then the least that does |
| SlabLayout.HugeRequestWraps | code/kernel/src/memory.c:612 | a request of 0xFFFFFFF5 bytes is granted one page |
| SlabLayout.ServedExact | code/kernel/src/memory.c:612 | for every 32-bit size: the caller gets all the bytes it asked for if and only if the request is at most 0xFFFFEFF4; the next 4096 sizes count as no page, the others as one |
| SlabState.TwoBlocks | code/kernel/src/memory.c:469-481 | two different blocks, of whatever arenas, do not overlap |
| SlabState.ListChange | code/kernel/src/memory.c:497-562 | rewriting one class's list leaves every other list, all descriptors and all headers as they were |
| SlabSteps.TakeBooks | code/kernel/src/memory.c:521-531 | popping and handing out a block keeps the books; its arena has one free block less, no other changes |
| SlabSteps.TakeMemory | code/kernel/src/memory.c:521-531 | pop, memset and cnt-- leave memory holding the new books |
| SlabSteps.GiveBooks | code/kernel/src/memory.c:547-548 | appending a freed block keeps the books; its arena has one free block more, no other changes |
| SlabSteps.FullArena | code/kernel/src/memory.c:554 | cnt equal to blocks_per_arena means every block of the arena is on the list and none is in use |
| SlabSteps.WithoutOne | code/kernel/src/memory.c:556-559 | removing one block from the filtered list filters it too: the others stay, in order |
| SlabSteps.ForgetBooks | code/kernel/src/memory.c:554-561 | an arena whose blocks are all unlinked can be forgotten |
| SlabSteps.ArenaBooks | code/kernel/src/memory.c:508-512 | a fresh page can become an arena |
| SlabSteps.SpanFrame | code/kernel/src/memory.c:509-512 | whatever is written into fresh pages, the rest of the heap's structure is kept |
| SlabSteps.LargeBooks | code/kernel/src/memory.c:611-623 | a large allocation on fresh pages keeps the books |
| SlabSteps.UnlargeBooks | code/kernel/src/memory.c:651-652 | dropping one keeps them too |
| SlabUsers.LiveKind | code/kernel/src/memory.c:600-659 | block2arena finds the header of every returned pointer, small or large; the allocation lies behind it and holds at least the requested bytes |
| SlabUsers.LiveApart | code/kernel/src/memory.c:600-659 | live allocations occupy pairwise disjoint byte ranges |
| SlabUsers.LiveFreeApart | code/kernel/src/memory.c:600-659 | no live allocation overlaps a free block |
| SlabUsers.LiveHeaderApart | code/kernel/src/memory.c:600-659 | no live allocation overlaps an arena header |
| SlabUsers.UserWrites | code/kernel/src/memory.c:53-62 | a user that writes only inside its allocation cannot harm the heap |
| SlabUsers.FreeListExact | code/kernel/src/memory.c:497-562 | each free list is duplicate-free and holds exactly the blocks of its class's arenas that are not allocated |
| SlabUsers.ArenaCount | code/kernel/src/memory.c:45-51 | every arena's cnt equals the number of its unallocated blocks, and 0 <= cnt < blocks_per_arena between calls |
| SlabUsers.ArenaInUse | code/kernel/src/memory.c:543-562 | an arena exists only while one of its blocks is in use |
| SlabUsers.NothingLive | code/kernel/src/memory.c:543-562 | when nothing is live every list is empty and no arena or large allocation is left |
| HeapPages.FreeIsFresh | code/kernel/src/memory.c:497-517 | pages whose virtual bits are free belong to no arena and no large allocation |
| HeapPages.OwnedMapped | code/kernel/src/memory.c:497-562 | every byte of an arena or large allocation is mapped |
| HeapPages.OwnedApart | code/kernel/src/memory.c:298-329 | different heap pages lie on different frames, all above the page tables |
| HeapPages.HeapStore | code/kernel/src/memory.c:298-329 | a store to one heap word through the page tables is seen at that word and at no other heap word |
| HeapPages.OwnsNothing | code/kernel/src/memory.c:543-562 | a heap without arenas and large allocations owns no page |
| HeapSteps.Taken | code/kernel/src/memory.c:521-531 | behind the pop: invariant, zeroed block, users' bytes untouched |
| HeapSteps.FillStep | code/kernel/src/memory.c:515-518 | one list_append of the carving loop |
| HeapSteps.Filled | code/kernel/src/memory.c:514-519 | after the loop all blocks of the fresh arena, and nothing else, are on the list, and the next pop takes from it |
| HeapSteps.FreshArena | code/kernel/src/memory.c:503-512 | the fresh page with its header is ready to be carved |
| HeapSteps.GiveStep | code/kernel/src/memory.c:547-548 | append and cnt++: the count says one more, users' bytes untouched |
| HeapSteps.UnlinkStep | code/kernel/src/memory.c:556-559 | one list_remove of the demolition loop |
| HeapSteps.Unlinked | code/kernel/src/memory.c:554-561 | after the loop the arena can go: no list leads into its page, the others keep their blocks in order |
| HeapSteps.LargeStep | code/kernel/src/memory.c:611-623 | a large allocation keeps the invariant and is zeroed |
| KernelHeap.MemBlockInit | code/kernel/src/memory.c:662-673 | the seven descriptors with their block sizes, counts and empty lists |
| KernelHeap.Heap.constructor | code/kernel/src/memory.c:676-682 | the invariant holds at the start, with no arena and no allocation |
| KernelHeap.Heap.TakeBlock | code/kernel/src/memory.c:521-531 | pop, memset, cnt--: the head of the list is handed out zeroed |
| KernelHeap.Heap.FillArena | code/kernel/src/memory.c:514-518 | the loop links every block of a fresh arena |
| KernelHeap.Heap.NewArena | code/kernel/src/memory.c:502-519 | NULL iff no page is left, with the heap unchanged; otherwise a filled arena more; the new page is zero but for its header and the list nodes in it |
| KernelHeap.Heap.MemAcquire | code/kernel/src/memory.c:497-532 | NULL iff the list is empty and no page is left, with the heap and all of its memory unchanged; otherwise the head of the list, both pools untouched, or the first block of a new arena whose other blocks become the list in order; zeroed, everybody else's bytes kept |
| KernelHeap.Heap.UnlinkArena | code/kernel/src/memory.c:555-559 | the loop takes exactly the arena's blocks off the list |
| KernelHeap.Heap.DropArena | code/kernel/src/memory.c:554-561 | blocks off the list, page back to the pools, the rest of the list in order |
| KernelHeap.Heap.MemRelease | code/kernel/src/memory.c:543-562 | the exact new state: block appended, or its arena gone when that was its last block |
| KernelHeap.Heap.FindClass | code/kernel/src/memory.c:626-631 | the search loop finds the smallest fitting class |
| KernelHeap.Heap.MallocPages | code/kernel/src/memory.c:611-623 | the branch over 1024 bytes: page count, cleared pages, header; NULL leaves memory unchanged |
| KernelHeap.Heap.Malloc | code/kernel/src/memory.c:600-639 | for every size that does not count as no page: NULL iff the request cannot be served, with the heap and every word of its memory unchanged; otherwise a new disjoint allocation, zero, as large as asked or, over 0xFFFFEFF4 bytes, the rest of one page; a request that fits the largest block gets a block of the smallest class that holds it, from the head of that class's list with both pools untouched or from a new arena, any other gets pages of its own; everybody else's bytes and everything outside the heap's pages are kept; the slab invariant is preserved |
| KernelHeap.Heap.MallocNothing | code/kernel/src/memory.c:611-623 | the sizes that count as no page: nothing is marked or mapped, the header goes to the page behind the first used one that follows a free one, and the heap's structure survives if and only if no arena and no large allocation starts there |
| ZeroPages.ZeroPagesExact | code/kernel/src/memory.c:611-623 | what that header does to the heap, on every state: the invariant is kept exactly when the page is not the first of an arena or large allocation |
| ZeroPages.HeaderInUse | code/kernel/src/memory.c:611-623 | the header lands in a live allocation exactly when the page is a later page of a large one |
| ZeroPages.ZeroPagesApart | code/kernel/src/memory.c:611-623 | on a page outside the heap it overwrites no live allocation's bytes |
| ZeroPages.SecondPageHit | code/kernel/src/memory.c:611-623 | so such a request writes into a live allocation as soon as the first used page behind a free one starts one of two pages or more |
| KernelHeap.Heap.Free | code/kernel/src/memory.c:642-659 | exactly that allocation goes away, and its arena exactly when no other allocation lies in it; the slab invariant is preserved, everybody else's bytes and everything outside the heap's pages are kept |
| HeapSteps.FreedExactly | code/kernel/src/memory.c:543-562 | a freed block goes to the end of its class's list while another allocation lies in its arena; otherwise the page leaves the heap and its blocks the list, which keeps its order |
| KernelHeap.Heap.PageMalloc | code/kernel/src/memory.c:569-582 | whole pages for another user: NULL iff the pools cannot serve or the flag is not PF_KERNEL; the pages lie apart from every arena and large allocation, and the heap's invariant is kept |
| KernelHeap.Heap.PageFree | code/kernel/src/memory.c:585-597 | another user's pages go back without touching the heap's |
| KernelHeap.Heap.LiveMapped | code/kernel/src/memory.c:600-659 | every byte of a live allocation is mapped |
| KernelHeap.Heap.ListMapped | code/kernel/src/memory.c:497-562 | no free list reaches an unmapped page |
| KernelHeap.Heap.Drained | code/kernel/src/memory.c:543-562 | with nothing live the lists are empty and no page is the heap's |
| KernelHeap.Heap.UserStore | code/kernel/src/memory.c:53-62 | a client's store to its own allocation keeps the heap's invariant |
| HeapClients.HoldsStore | code/kernel/src/memory.c:600-639 | a store to one buffer is seen there and in no other buffer |
| HeapClients.RunCalls | code/kernel/src/memory.c:569-659 | any sequence of sys_malloc, sys_free, page_malloc and page_free with the clients' own stores in between: the heap is a set of independent zeroed buffers; its memory, and physical memory read through the page tables, hold what each owner stored last; frames of pages that others had are untouched, page runs stay disjoint; once everything is given back and no call was refused, the lists are empty and both bitmaps and the mapped pages are as at the start; a run stops only in front of a call that would reach the recursive window, and not at all when the pages it asks for fit below it; no call is refused when they also fit into the frames |
| HeapMirror.MirrorStore | code/kernel/src/memory.c:298-329 | every word of an arena or large allocation, read through the page tables, is the heap's word: a store through the tables keeps that |
| HeapMirror.ReplayShows | code/kernel/src/memory.c:298-329 | so does any sequence of such stores, and no other frame changes |
| HeapMirror.ReplayExact | code/kernel/src/memory.c:298-329 | physical memory afterwards is determined by the heap's words alone, whatever the stores were and in whatever order they came |
| HeapMirror.MirrorAcquire | code/kernel/src/memory.c:298-329 | a page_acquire for the heap keeps every old word mirrored, and the fresh pages show what their frames hold |
| HeapMirror.OthersBackNothing | code/kernel/src/memory.c:298-329 | no frame of another user's page backs a heap word |
| HeapClients.PhysicalFreed | code/kernel/src/memory.c:642-659 | physical memory shows the heap's words behind sys_free, whose page_release follows its stores |
| HeapClients.PhysicalGranted | code/kernel/src/memory.c:600-639 | and behind sys_malloc, whose stores follow page_acquire; the frames of others are untouched |
| HeapMirror.MirrorKept | code/kernel/src/memory.c:341-364 | so do page_release, failed calls and those of other users |
| MemoryInit.PoolSizes | code/kernel/src/memory.c:383-408 | kernel and user pool lie one behind the other above the page tables, inside memory, with less than a page unused; the kernel's has half the frames, at most 1 GB |
| MemoryInit.NewBitmap | code/kernel/src/memory.c:417-430 | whatever the storage held, every bit is clear |
| MemoryInit.LoadTables | code/boot/loader.s:218-266 | setup_page writes no table entry of a heap page, so the heap starts unmapped if and only if those entries were clear before |
| MemoryInit.PoolInit | code/kernel/src/memory.c:378-463 | with the 0x8000-byte virtual bitmap the page layer's invariant holds, both pools are free and no heap page is mapped; the kernel's frames are half of those behind the page tables, at most 1 GB, in whole bytes of the bitmap; a null-address request is safe iff it is for at most 0x3FB00 pages or for more than the bitmap has, a fixed one iff it ends by page 0x3FB00 |
| MemoryInit.Start | code/kernel/src/memory.c:676-682 | from the loader's tables to a heap whose invariant holds and that has handed out nothing |
| MemoryInit.StartAndServe | code/kernel/src/memory.c:569-682 | from the loader through any sequence of calls: all are made when they ask for at most 0x3FB00 pages together, and none is refused when the kernel's share of memory has as many frames |
| Scheduling.NeverEmpty | code/kernel/src/sched.c:54-61 | the fallback is taken only while idle is BLOCKED, so the pop never meets an empty list |
| Scheduling.ScheduleInv | code/kernel/src/sched.c:43-70 | from any state schedule may be entered in, exactly one task runs afterwards and the ready list holds exactly the READY tasks, each once |
| Scheduling.ApplyInv | code/kernel/src/thread.c:146-243 | yield, block, unblock, run and timer tick keep that invariant |
| Scheduling.RunKeepsInv | code/kernel/src/thread.c:146-243 | so does every run of them |
| Scheduling.OpEffects | code/kernel/src/thread.c:146-243 | what each operation does to status, slice and place of every task, written out: who gets the CPU, who goes where in the queue, and that only a used-up slice and kthread_run give a new one, of 10000 ticks |
| Scheduling.FirstDispatch | code/kernel/src/thread.c:245-253 | whatever main runs, unblocks and is ticked for before it is first preempted, the invariant does not hold, main being on the ready list while it runs, and of its 10000 ticks those are used up; the first schedule establishes the invariant, dispatches idle and leaves main and the new tasks in order |
| Scheduling.RunConsistent | code/kernel/src/thread.c:146-160 | kthread_run keeps the ready list consistent if and only if its task is not READY already |
| Scheduling.LeaveExactly | code/kernel/src/thread.c:188-243 | a task may yield or block if and only if it is not on the ready list already |
| Scheduling.EarlyLeave | code/kernel/src/thread.c:188-253 | so main may do neither until it is first preempted |
| Scheduling.StepBypass | code/kernel/src/sched.c:43-70 | how each operation moves a task waiting at index k of the ready list |
| Scheduling.Bypass | code/kernel/src/sched.c:43-70 | over any run a waiting task's index is k + pushes - schedule calls |
| Scheduling.DispatchedExactly | code/kernel/src/sched.c:43-70 | a task at index k is dispatched by exactly the (k + 1 + u)-th schedule call, u counting the kthread_unblock pushes meanwhile |
| Scheduling.TurnRotates | code/kernel/src/thread.c:227-243 | a yield or a preemption rotates running task and queue by one |
| Scheduling.TurnRound | code/kernel/src/sched.c:43-70 | with only yields and preemptions every ready task runs once per round, in order, and a full round restores the queue |
| Scheduling.TicksLeft | code/kernel/src/timer.c:82-87 | as many ticks as the current task has left only shorten its slice |
| Scheduling.PreemptedAt | code/kernel/src/timer.c:82-87 | exactly the next one preempts it: it goes to the back with 10000 ticks |
| Scheduling.RoundRobin | code/kernel/src/sched.c:43-70 | in a run of yields and ticks the running task is the one that was as many places behind as there were schedule calls, and a full round restores the queue; the first j tasks are through once as many operations have passed as they had ticks, and one each; under the timer alone not one tick earlier |
| Scheduling.TurnComes | code/kernel/src/timer.c:82-87 | the timer alone gives every ready task the CPU, at a tick that follows from the slices before it |
| Scheduling.CycleDistinct | code/kernel/src/sched.c:43-70 | running task and queue hold every runnable task exactly once |
| Scheduling.Scheduler.constructor | code/kernel/src/thread.c:245-253 | the state kthread_init leaves |
| Scheduling.Scheduler.Schedule | code/kernel/src/sched.c:43-70 | requeue, idle fallback, dispatch |
| Scheduling.Scheduler.Unblock | code/kernel/src/thread.c:208-225 | a parked task becomes READY at the front; any other is left alone |
| Scheduling.Scheduler.Yield | code/kernel/src/thread.c:227-243 | to the back without a fresh slice, then schedule |
| Scheduling.Scheduler.Block | code/kernel/src/thread.c:188-206 | the three parked states are entered, any other argument does nothing |
| Scheduling.Scheduler.Run | code/kernel/src/thread.c:146-160 | a task that is not READY goes to the back, READY with a full slice |
| Scheduling.Scheduler.Tick | code/kernel/src/timer.c:69-88 | a used-up slice preempts the task, which goes to the back with 10000 ticks; otherwise the slice is one shorter and nothing else changes |
| Locks.StartBase | code/kernel/src/lock.c:57-95 | freshly initialised locks satisfy the invariant |
| Locks.StepKeeps | code/kernel/src/lock.c:67-209 | every step of every thread keeps the invariant, with the timer free to preempt anywhere |
| Locks.RunKeeps | code/kernel/src/lock.c:67-209 | so does every run |
| Locks.MutualExclusion | code/kernel/src/lock.c:97-149 | at most one thread is between mutex_lock's return and mutex_unlock's entry, and it is the recorded owner |
| Locks.ExecExclusive | code/kernel/src/lock.c:67-88 | the spin lock admits one thread at a time |
| Locks.OnlyUnderSlock | code/kernel/src/lock.c:97-209 | owner, count and wait list change only in steps of the thread that holds the lock's spin lock |
| Locks.ExecOwnership | code/kernel/src/lock.c:97-149 | the recorded owner is exactly the thread that took the mutex last |
| Locks.NodeLifetime | code/kernel/src/lock.c:40-44 | a node on a wait list belongs to a distinct thread still inside that call; a thread back at its loop top, or returning, has its node unlinked |
| Locks.WokenByPopper | code/kernel/src/lock.c:137-145 | a thread blocked in mutex_lock or sema_down turns READY only by the kthread_unblock of the thread that popped its node |
| Locks.ExecConserved | code/kernel/src/lock.c:158-209 | count equals initial value plus increments minus decrements and never goes below zero |
| Locks.AwaitedExactly | code/kernel/src/lock.c:117-126 | no wakeup is lost exactly as long as no kthread_unblock meets a thread that has not blocked yet: the step keeps every sleeper linked or about to be woken if and only if it is not such a one |
| Locks.SupplyExec | code/kernel/src/lock.c:97-209 | while threads wait, as many popped ones are on their way back as acquire calls could succeed |
| Locks.NoLostWakeup | code/kernel/src/lock.c:97-209 | a free mutex, or a semaphore with permits, that has waiters has a popped thread awake and coming back, or about to be woken, or a releasing thread about to pop one |
| Locks.GapFreeRunSafe | code/kernel/src/lock.c:117-126 | on every run from freshly initialised locks in which no thread is preempted between spin_unlock and kthread_block, no wakeup is lost |
| Locks.MissLoses | code/kernel/src/lock.c:137-145 | a kthread_unblock that comes too early leaves its thread about to block with nobody to wake it |
| Stranding.StrandedStep | code/kernel/src/lock.c:97-209 | a sleeper that is neither on the wait list nor about to be woken stays so under every step of every thread |
| Stranding.StrandedForever | code/kernel/src/lock.c:97-209 | and so over every further run |
| Stranding.AwaitedRun | code/kernel/src/lock.c:97-209 | over every run in which nobody is stranded at the start: nobody is at the end if and only if no step on the way was a kthread_unblock that came too early |
| Stranding.StartedRun | code/kernel/src/lock.c:57-209 | so it is for every run from freshly initialised locks |
| LostWakeup.WakeupLost | code/kernel/src/lock.c:117-145 | a concrete run, with a preemption in that gap, ends with the mutex free, its wait list empty and a thread blocked in mutex_lock; after every further run it is still blocked there |
| Locks.NobodyStranded | code/kernel/src/lock.c:97-209 | on such runs, when a mutex is free or a semaphore has permits and a thread sleeps in the acquire call, that thread or a popped one is about to be woken or coming back, or a releasing thread is about to pop one |
| Locks.FifoStep | code/kernel/src/lock.c:121-145 | a step leaves a wait list alone, appends the running thread, or pops the first node for the popper to wake |
| Locks.FirstComeFirstServed | code/kernel/src/lock.c:121-145 | over any run a waiting thread moves up one place with every pop |
| Locks.PoppedInTurn | code/kernel/src/lock.c:121-145 | a thread at place i of a wait list is popped by exactly the (i + 1)-th pop |
| LockCalls.PermitStep | code/kernel/src/lock.c:158-209 | a semaphore's count is one more exactly behind a step at count++, one less exactly behind one at count-- |
| LockCalls.PermitRun | code/kernel/src/lock.c:158-209 | over any run it is what it was, plus the steps at count++, minus those at count-- |
| LockCalls.AcquireCall | code/kernel/src/lock.c:97-188 | mutex_lock or sema_down, made with the spin lock free and run without a preemption: it returns as the owner, or with one permit taken, exactly when the mutex is free or a permit there; otherwise its caller is blocked at the end of the wait list; nothing else changes |
| LockCalls.ReleaseCall | code/kernel/src/lock.c:128-209 | mutex_unlock or sema_up in the same way: the mutex is free or the count one more, and the first waiter, if any, is off the list and READY |
| LockCalls.StepSched | code/kernel/src/lock.c:67-209 | what a step of lock.c does to the scheduler: spin_lock yields between two looks, kthread_block blocks, kthread_unblock puts its thread in front, and no other step does anything |
| LockCalls.SpinStep | code/kernel/src/lock.c:67-84 | only its own steps move a thread on in spin_lock; with the lock free each brings it one nearer, with the lock taken it looks and yields in turn |
| LockCalls.EntersInTime | code/kernel/src/lock.c:67-84 | whatever the others do meanwhile, a thread that finds the spin lock free in its own steps holds it after at most three of them |
| LockCalls.GetsIn | code/kernel/src/lock.c:67-126 | from every state the calls can lead to, some run of timer ticks, steps of the holder and its own brings any thread that is awake on its way into a critical section in |
| LockCalls.RetryArrives | code/kernel/src/lock.c:97-188 | so every popped thread that NoLostWakeup names can come to its test of the lock |
| ContextSwitch.Cpu.PushRegs | code/kernel/src/switch.s:46-50 | the four pushes |
| ContextSwitch.Cpu.SwapStacks | code/kernel/src/switch.s:52-55 | esp is saved to cur->kstack and loaded from next->kstack |
| ContextSwitch.Cpu.PopRegs | code/kernel/src/switch.s:57-63 | the four pops and the return |
| ContextSwitch.Cpu.SwitchTo | code/kernel/src/switch.s:45-63 | memory and registers after switch_to are the specified functions of those before |
| ContextSwitch.SwitchResumes | code/kernel/src/switch.s:45-63 | the next thread goes on with the registers, return address and stack it left, and everybody else stays suspended as they were |
| ContextSwitch.ContextPreserved | code/kernel/src/switch.s:45-63 | over any run of switches, computation and thread creation a resumed thread sees the callee-saved registers, return address and stack it had at its own switch_to call |
| ContextSwitch.FirstDispatch | code/kernel/src/thread.c:119-144 | a first dispatch enters kernel_thread with fn and fn_arg as its arguments |
| ContextSwitch.Cpu.Current | code/kernel/src/thread.c:111-117 | the page of esp; after a dispatch that is the dispatched task (SwitchResumes) |
| ContextSwitch.KthreadCreate | code/kernel/src/thread.c:119-144 | cleared control block, forged frame at the end of the page, nothing written outside it |
| ContextSwitch.FreshSuspended | code/kernel/inc/thread.h:99-125 | the forged frame is a suspended thread about to enter kernel_thread |
| FormattedOutput.Itoa | code/lib/src/stdio.c:53-72 | writes exactly the digits at the cursor and advances it behind them |
| FormattedOutput.DigitsParse | code/lib/src/stdio.c:53-72 | the digits parse back to the value, in every base from 2 to 16 |
| FormattedOutput.NoLeadingZero | code/lib/src/stdio.c:53-72 | no leading zero, except for zero itself |
| FormattedOutput.DigitsInBase | code/lib/src/stdio.c:53-72 | every character written is a digit of the base |
| FormattedOutput.PutDecimal | code/lib/src/stdio.c:110-118 | writes the sign and the digits of the absolute value in 32-bit arithmetic |
| FormattedOutput.DecimalParses | code/lib/src/stdio.c:110-118 | %d is right for every 32-bit integer, the minimum included |
| FormattedOutput.Convert | code/lib/src/stdio.c:98-124 | one conversion writes exactly its text and moves the cursor behind it |
| FormattedOutput.Strcpy | code/lib/src/string.c:73-79 | copies the text in front of the first NUL, and a NUL, and nothing else |
| FormattedOutput.CStringEnds | code/lib/src/string.c:73-79 | that text is the longest prefix without a NUL |
| FormattedOutput.Vsprintf | code/lib/src/stdio.c:77-132 | the buffer holds the one text that the format, as far as the loop reads it, prints, then a NUL; the return value is the length before it |
| FormattedOutput.PrintsExactly | code/lib/src/stdio.c:77-132 | that text, for every format: plain characters as they are, for %d the decimal numeral of the slot as a signed word, for %x the hexadecimal one in capitals, neither with a leading zero, for %c the low byte, for %s the characters up to the NUL, and nothing for any other character |
| FormattedOutput.NumeralUnique | code/lib/src/stdio.c:53-72 | a number has one numeral in a base, and itoa's digits are it |
| FormattedOutput.LonePercent | code/lib/src/stdio.c:86-127 | that NUL is the format's own exactly when no % stands alone at its end; otherwise the loop reads on behind it |
| FormattedOutput.PlainText | code/lib/src/stdio.c:88-94 | a format without % prints itself |
| FormattedOutput.RenderAppend | code/lib/src/stdio.c:77-132 | renderings compose, the second format going on with the slots the first left |
| FsLayout.SuperBlock.Format | code/kernel/src/fs.c:126-147 | the layout fields, computed in 32-bit arithmetic in the source's order |
| FsLayout.FormatGood | code/kernel/src/fs.c:126-147 | bitmap, table, block bitmap and data blocks are consecutive, end inside the partition with fewer than 8 sectors unused; the inode bitmap and table are just large enough, the block bitmap has a bit for every block and is the smallest for the blocks that would fit without it |
| FsLayout.FormatExact | code/kernel/src/fs.c:137-144 | the layout is a partition as promised if and only if the partition has at least the 515 fixed sectors and fewer than 2^23 others |
| FsLayout.WrappedCounts | code/kernel/src/fs.c:139-144 | with 2^23 or more free sectors the byte count wraps and at least 4 GB stay unused |
| FsLayout.MountTable.Mount | code/kernel/src/fs.c:263-267 | a first mount takes the next range of inode numbers, in 32-bit arithmetic, a remount changes nothing |
| FsLayout.MountExact | code/kernel/src/fs.c:263-267 | a mount keeps all ranges apart and below the counter if and only if its numbers fit 32 bits |
| FsLayout.MountsKeep | code/kernel/src/fs.c:263-267 | over any sequence of mounts whose numbers fit 32 bits bases are kept once given, ranges of different partitions are disjoint and none contains 0 |

## Left out

- KernelHeap.Heap.Malloc: requests whose pages would reach the recursive window, and, in a method of their own (`KernelHeap.Heap.MallocNothing`), the sizes whose page count wraps to 0; in the runs of `HeapClients` those are not requested.
- KernelHeap.Heap.PageMalloc: at least one page, and none of the recursive window.
- KernelHeap.Heap.Free: the argument must be a live allocation; the source trusts its caller too.
- KernelHeap.Heap: sequential, each call one step; the descriptors' mutexes are not taken, and `sys_free` uses the descriptor it read at entry, where the source reads the arena again after its page may be gone.
- KernelHeap.Heap: its memory is a store of its own, by virtual address; physical memory is carried beside it by `HeapClients`, call by call, as what the operation's stores leave there (`HeapMirror.ReplayExact`).
- KernelHeap.Heap: memory is aligned 32-bit words, so `is_page_cnt` is a word; the contents of fresh pages are arbitrary.
- `Words`: stored words are unbounded integers; 32-bit arithmetic is written out where it can wrap (page counts, digits, the disk layout, masks).
- Paging.Mmu.PageTableAdd: the branch for a missing page table is `Paging.Mmu.PageTableAddNew`, which takes the frame that `palloc` supplies; the source does not check that it got one. No kernel address takes that branch.
- Paging.Mmu.PageTableRemove: the translation cache and `invlpg` are not modelled.
- Pages.PageLayer.PageAcquire: a request must not reach the recursive window, and a fixed address must lie in the pool, neither of which the source checks (`Window.WiredExact`, `Window.DirectoryOverwritten` and `Window.LowRemapped` say what happens otherwise); the equivalence for success is stated for at least one page; what a failed call has marked stays marked, as in the source.
- Pages.PageLayer.VaddrFixed: addresses whose index lies behind the bitmap, where the source reads and writes whatever is stored there.
- Pages.PageLayer.PageRelease: the one-to-one relation is claimed between whole calls; inside, the frame is freed before the entry is cleared.
- MemoryInit.PoolInit: the user pool is sized but not used, as in the source.
- HeapClients.RunCalls: the client's data are whole words of the bytes asked for; what a client of the run stores in pages from `page_malloc` is not followed.
- BitmapAllocator.Bitmap.Acquire: the full-bitmap test is taken short-circuit, where the source reads one byte past the end.
- Scheduling.Scheduler: the ready list is a sequence, its pointer form is `IntrusiveList`; the list of all tasks and the jiffies counter are left out.
- Scheduling.Scheduler.Run: running a READY task, which would link its tag twice (`Scheduling.RunConsistent`); in the runs of `Scheduling.Apply` every task is run once.
- `kthread_exit`: unlinks a tag that is on no list and frees the page it runs on; no claim is made across it.
- Locks: a transition system on values, not a class, because its threads interleave; a list operation on a wait list, made under the spin lock, is one step, and `IntrusiveList` has its stores.
- Locks: threads that are inside a lock call are unblocked only by lock.c, the idle thread takes no lock, only the owner unlocks a mutex, and increments do not wrap 32 bits.
- LockCalls.GetsIn: that a run to there exists, not that every run goes there, since the timer may always strike while the lock is taken; interrupt handlers that call `sema_up`.
- ContextSwitch.KthreadCreate: the page comes from the page layer; the thread's name is arbitrary words; entering `kernel_thread` enables interrupts, which is not modelled.
- ContextSwitch.Cpu.SwitchTo: flags and caller-saved registers, which the calling convention lets a call destroy.
- FormattedOutput.Vsprintf: argument strings are values that do not overlap the buffer, ended by their first NUL; the argument pointer is an index into the slots; a loop that never meets a NUL is left out.
- FsLayout.SuperBlock.Format: the bitmaps, inode and directory blocks that `fs_format` writes, and the disk transfers.
- FsLayout.MountTable.Mount: inode counts are fixed per partition; the rest of mounting is left out.
- `BitRuns`, `SlabSteps` and the other value modules: their functions are specifications of the methods in the classes and are not cited on their own.
- Plain string and memory helpers, timer units, console, interrupt and disk plumbing, system call stubs, boot sector and ELF loading would only add easy members.
