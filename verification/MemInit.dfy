/** mem_init and pool_init of memory.c: from the loader's page tables to a heap that serves calls. */
module MemoryInit {
  import opened Words
  import opened BitRuns
  import opened BitmapAllocator
  import opened Paging
  import opened Boot
  import opened Pages
  import opened Window
  import opened SlabLayout
  import opened SlabState
  import opened KernelHeap
  import opened HeapClients
  import opened HeapMirror

  const USED_MEM := 0x20_0000      // the low megabyte and 256 pages of page tables
  const POOL_LIMIT := 0x4_0000     // the kernel pool is limited to 1 GB of frames

  /** The two physical pools: where they start and how many frames they have. */
  datatype FramePools = FramePools(kStart: int, kPages: int, uStart: int, uPages: int)

  /** The sizes that pool_init computes from the installed memory. */
  method PoolSizes(memTotal: int) returns (p: FramePools)
    requires USED_MEM <= memTotal < ADDR_SPACE
    ensures p.kStart == USED_MEM == TABLES_END && p.uStart == p.kStart + p.kPages * PG_SIZE
    ensures memTotal - PG_SIZE < p.uStart + p.uPages * PG_SIZE <= memTotal
    ensures 0 <= p.kPages <= p.uPages && p.kPages <= POOL_LIMIT
    ensures p.kPages == POOL_LIMIT || p.uPages <= p.kPages + 1
  {
    var freeMem := memTotal - USED_MEM;
    var allFreePages := freeMem / PG_SIZE;
    var kernelFreePages := allFreePages / 2;
    if kernelFreePages > POOL_LIMIT {
      kernelFreePages := POOL_LIMIT;
    }
    var userFreePages := allFreePages - kernelFreePages;
    var kStart := USED_MEM;
    var uStart := kStart + kernelFreePages * PG_SIZE;
    p := FramePools(kStart, kernelFreePages, uStart, userFreePages);
  }

  /** n frames: half of those behind the page tables, at most 1 GB of them, in whole bytes of a bitmap. */
  predicate KernelShare(memTotal: int, n: int) {
    var half := (memTotal - 0x20_0000) / 0x1000 / 2;
    n % 8 == 0 && 0 <= n <= (if half > 0x4_0000 then 0x4_0000 else half) < n + 8
  }

  lemma ShareExact(memTotal: int, p: FramePools)
    requires USED_MEM <= memTotal < ADDR_SPACE
    requires p.kStart == USED_MEM && p.uStart == p.kStart + p.kPages * PG_SIZE
    requires memTotal - PG_SIZE < p.uStart + p.uPages * PG_SIZE <= memTotal
    requires 0 <= p.kPages <= p.uPages && p.kPages <= POOL_LIMIT && (p.kPages == POOL_LIMIT || p.uPages <= p.kPages + 1)
    ensures KernelShare(memTotal, p.kPages / 8 * 8)
  {
    assert (memTotal - 0x20_0000) / 0x1000 == p.kPages + p.uPages;
    assert p.kPages == if (p.kPages + p.uPages) / 2 > 0x4_0000 then 0x4_0000 else (p.kPages + p.uPages) / 2;
  }

  /** Where the loader's directory keeps heap page v's table entry. */
  function HeapPte(v: int): int { PAGE_TABLE + (PdeIdx(v) - KERNEL_SLOT) * PG_SIZE + PteIdx(v) * 4 }

  /** The entries of the pool's pages are not present. setup_page does not see to that. */
  ghost predicate HeapUnmapped(m: Words, n: nat) {
    forall i | 0 <= i < n :: !Present(m(HeapPte(PoolAddr(HEAP_START, i))))
  }

  lemma PoolIndices(i: nat)
    requires i < SAFE_PAGES
    ensures var v := PoolAddr(HEAP_START, i);
            && HEAP_START <= v < WINDOW && KERNEL_SLOT <= PdeIdx(v) < SELF_SLOT && 0 <= PteIdx(v) < 1024
            && (PdeIdx(v) == KERNEL_SLOT ==> PteIdx(v) >= 256)
  {}

  /** The loader writes no entry of a heap page. */
  lemma HeapPteKept(i: nat)
    requires i < SAFE_PAGES
    ensures !BootWord(HeapPte(PoolAddr(HEAP_START, i)))
  {
    PoolIndices(i);
  }

  lemma HeapFaults(m: Words, i: nat)
    requires BootDirectory(m) && i < SAFE_PAGES && !Present(m(HeapPte(PoolAddr(HEAP_START, i))))
    ensures Walk(m, PAGE_DIR, PoolAddr(HEAP_START, i)) == Fault
  {
    PoolIndices(i);
    var v := PoolAddr(HEAP_START, i);
    assert m(PAGE_DIR + PdeIdx(v) * 4) == BootPde(PdeIdx(v));
    TableFrame(PdeIdx(v));
  }

  lemma TableFrame(i: int)
    requires KERNEL_SLOT <= i < SELF_SLOT
    ensures Frame(BootPde(i)) == PAGE_TABLE + (i - KERNEL_SLOT) * PG_SIZE
  {}

  lemma NothingTranslates(m: Words, pStart: int, n: nat)
    requires BootDirectory(m) && HeapUnmapped(m, n) && n <= SAFE_PAGES
    ensures Translates(PoolView(m, HEAP_START, n), pStart, map[])
  {
    forall i | 0 <= i < n ensures PoolView(m, HEAP_START, n)[i] == Fault {
      PoolViewAt(m, HEAP_START, n, i);
      HeapFaults(m, i);
    }
  }

  /** setup_page leaves the heap's table entries as they were: the heap's pages are unmapped behind it exactly
      when their entries were clear before. */
  method LoadTables(physical: Ram, n: nat)
    requires n <= SAFE_PAGES
    modifies physical
    ensures BootDirectory(physical.w) && (HeapUnmapped(physical.w, n) <==> old(HeapUnmapped(physical.w, n)))
    ensures forall i | 0 <= i < n ::
              physical.w(HeapPte(PoolAddr(HEAP_START, i))) == old(physical.w(HeapPte(PoolAddr(HEAP_START, i))))
  {
    SetupPage(physical);
    hide Present, HeapPte, PoolAddr;
    forall i | 0 <= i < n
      ensures physical.w(HeapPte(PoolAddr(HEAP_START, i))) == old(physical.w(HeapPte(PoolAddr(HEAP_START, i))))
    {
      HeapPteKept(i);
    }
  }

  /** bitmap_init and bitmap_reset over storage with arbitrary contents. */
  method NewBitmap(bytes: nat) returns (b: Bitmap)
    requires bytes * 8 < INT_BITS
    ensures fresh(b) && fresh(b.bits) && b.Valid() && |b.Bits()| == bytes * 8 && RunFree(b.Bits(), 0, bytes * 8)
  {
    var storage := new bv8[bytes];
    b := new Bitmap(storage, bytes);
    b.Reset();
  }

  const V_BITMAP_BYTES := 0x8000   // the virtual bitmap's length, as pool_init binds it

  /** pool_init over tables whose heap entries are clear. A request is safe when it stays among the first
      0x3FB00 pages of the 0x40000 in the bitmap. */
  method PoolInit(physical: Ram, memTotal: int) returns (pages: PageLayer)
    requires USED_MEM <= memTotal < ADDR_SPACE
    requires BootDirectory(physical.w) && HeapUnmapped(physical.w, SAFE_PAGES)
    ensures fresh(pages) && fresh(pages.vmap) && fresh(pages.pmap) && fresh(pages.vmap.bits) && fresh(pages.pmap.bits)
    ensures pages.Valid() && pages.vStart == HEAP_START && pages.mmu.ram == physical && pages.frameOf == map[]
    ensures |pages.vmap.Bits()| == POOL_PAGES && pages.Limit() == SAFE_PAGES && RunFree(pages.vmap.Bits(), 0, POOL_PAGES)
    ensures pages.pStart == 0x20_0000 && KernelShare(memTotal, |pages.pmap.Bits()|)
    ensures FreeCount(pages.pmap.Bits()) == |pages.pmap.Bits()|
    ensures forall cnt: nat | cnt >= 1 :: pages.Safe(NULL, cnt) <==> cnt <= SAFE_PAGES || cnt > POOL_PAGES
    ensures forall v, cnt: nat | v != NULL :: pages.Safe(v, cnt) <==> HEAP_START <= v && pages.Index(v) + cnt <= SAFE_PAGES
  {
    hide BootDirectory, HeapUnmapped, Translates, OneToOne, PoolView, FitsBelow, Reach, IndexIn, KernelShare;
    KernelPool();
    NothingTranslates(physical.w, USED_MEM, SAFE_PAGES);
    var p := PoolSizes(memTotal);
    ShareExact(memTotal, p);
    var kBitmap := NewBitmap(p.kPages / 8);
    var vBitmap := NewBitmap(V_BITMAP_BYTES);
    FreeCountAll(kBitmap.Bits());
    var mmu := new Mmu(physical, PAGE_DIR);
    pages := new PageLayer(vBitmap, HEAP_START, kBitmap, p.kStart, mmu);
    forall cnt: nat | cnt >= 1 ensures pages.Safe(NULL, cnt) <==> cnt <= SAFE_PAGES || cnt > POOL_PAGES {
      FreshSafe(pages.vmap.Bits(), cnt);
    }
  }

  /** From the loader to a heap that serves calls: setup_page, then mem_init. physical is memory by
      physical address, heapWords the kernel's view of its heap. */
  method Start(physical: Ram, heapWords: Ram, memTotal: int, base: int) returns (h: Heap)
    requires physical != heapWords && DescsFit(base)
    requires USED_MEM <= memTotal < ADDR_SPACE
    requires HeapUnmapped(physical.w, SAFE_PAGES)
    modifies physical, heapWords
    ensures h.Valid() && h.s == EMPTY && h.books.held == {} && h.books.other == map[]
    ensures fresh(h) && fresh(h.pages) && h.ram == heapWords && h.pages.mmu.ram == physical
    ensures fresh(h.pages.vmap) && fresh(h.pages.pmap) && fresh(h.pages.vmap.bits) && fresh(h.pages.pmap.bits)
    ensures h.pages.Limit() == SAFE_PAGES && |h.pages.vmap.Bits()| == POOL_PAGES && FreeFrom(h.pages.vmap.Bits(), 0)
    ensures h.pages.pStart == 0x20_0000 && KernelShare(memTotal, |h.pages.pmap.Bits()|)
    ensures FreeCount(h.pages.pmap.Bits()) == |h.pages.pmap.Bits()|
  {
    hide BootDirectory, HeapUnmapped, DescsFit, PageLayer.Valid, Heap.Valid, Reach, KernelShare;
    LoadTables(physical, SAFE_PAGES);
    var pages := PoolInit(physical, memTotal);
    h := new Heap(heapWords, pages, base);
    assert h.books.held == {};
  }

  /** From the loader through any sequence of clients' calls. Calls that ask for at most 0x3FB00 pages in all
      are served to the end; others at least up to the first that would reach the recursive window. */
  method StartAndServe(physical: Ram, heapWords: Ram, memTotal: int, base: int, calls: seq<HeapCall>)
    returns (h: Heap, rs: seq<int>, cl: Client, ghost phys: Words)
    requires physical != heapWords && DescsFit(base)
    requires USED_MEM <= memTotal < ADDR_SPACE
    requires HeapUnmapped(physical.w, SAFE_PAGES)
    requires forall c | c in calls :: Legal(c)
    modifies physical, heapWords
    ensures h.Valid() && h.ram == heapWords && h.pages.mmu.ram == physical
    ensures |rs| <= |calls| && cl == Ideal(calls, rs) && Holds(cl.bufs, heapWords.w, h.s.live)
    ensures Agree(physical.w, phys) && InPhysical(cl.bufs, phys)
    ensures (forall c | c in calls :: Anywhere(c)) && Demand(calls) <= SAFE_PAGES ==> |rs| == |calls|
    ensures KernelShare(memTotal, |h.pages.pmap.Bits()|)
    ensures (forall c | c in calls :: Anywhere(c)) && Demand(calls) <= SAFE_PAGES && Demand(calls) <= |h.pages.pmap.Bits()| ==>
              !SomeRefused(calls, rs)
    ensures |rs| < |calls| ==> !Admissible(h, calls[|rs|])
  {
    hide HeapUnmapped, DescsFit, Heap.Valid, Ideal, Holds, Legal, Anywhere, Admissible, Reach, RunsHeld, SamePools,
         SomeRefused, InPhysical, FramesKept;
    h := Start(physical, heapWords, memTotal, base);
    rs, cl, phys := RunCalls(h, calls, 0, physical.w);
  }
}
