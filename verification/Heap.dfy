/** The kernel heap of memory.c: sys_malloc and sys_free over block arenas and whole pages.
    Memory is the kernel's virtual words; the page layer supplies and takes back pages. */
module KernelHeap {
  import opened Words
  import opened IntrusiveList
  import opened Paging
  import opened Boot
  import opened BitRuns
  import opened Pages
  import opened SlabLayout
  import opened SlabState
  import opened SlabSteps
  import opened SlabUsers
  import opened HeapPages
  import opened HeapSteps
  import opened ZeroPages

  ghost const EMPTY := Slab([[], [], [], [], [], [], []], map[], map[], map[])

  ghost predicate DescReady(m: Words, base: int, c: int) {
    && m(Desc(base, c)) == BlockSize(c) && m(Desc(base, c) + 4) == BlocksPer(c)
    && ListAt(m, FreeList(base, c), [])
  }

  /** The first n descriptors are ready, and the heap's own words are as before. */
  ghost predicate DescsTo(m: Words, n: Words, base: int, k: int) {
    && (forall c | 0 <= c < k :: DescReady(n, base, c))
    && (forall w | w >= HEAP_START :: n(w) == m(w))
  }

  function DescInit(m: Words, base: int, c: int): Words {
    InitWords(Store(Store(m, Desc(base, c), BlockSize(c)), Desc(base, c) + 4, BlocksPer(c)), FreeList(base, c))
  }

  /** One turn of mem_block_init's loop. */
  method InitDesc(ram: Ram, base: int, c: int, blockSize: int)
    requires DescsFit(base) && IsClass(c) && blockSize == BlockSize(c)
    modifies ram
    ensures ram.w == DescInit(old(ram.w), base, c)
  {
    BlocksFill(c);
    DescAligned(base, c);
    hide Aligned, DescsFit, Desc, FreeList, BlockSize, BlocksPer, Store, InitWords;
    ram.Put(Desc(base, c), blockSize);
    ram.Put(Desc(base, c) + 4, (PG_SIZE - ARENA_HDR) / blockSize);
    IntrusiveList.Init(ram, FreeList(base, c));
  }

  /** A descriptor does not notice the initialisation of another. */
  lemma DescKept(m: Words, base: int, c: int, d: int)
    requires DescsFit(base) && IsClass(c) && IsClass(d) && c != d && DescReady(m, base, d)
    ensures DescReady(DescInit(m, base, c), base, d)
  {
    var p := FreeList(base, d);
    forall i | 0 <= i < 2 ensures Nodes(p, [])[i] == p + 8 * i {}
    ListFrame(m, DescInit(m, base, c), p, []);
  }

  lemma OneDesc(m: Words, n: Words, base: int, c: int)
    requires DescsFit(base) && IsClass(c) && DescsTo(m, n, base, c)
    ensures DescsTo(m, DescInit(n, base, c), base, c + 1)
  {
    hide ListAt;
    InitRefines(Store(Store(n, Desc(base, c), BlockSize(c)), Desc(base, c) + 4, BlocksPer(c)), FreeList(base, c));
    forall d | 0 <= d < c ensures DescReady(DescInit(n, base, c), base, d) {
      DescKept(n, base, c, d);
    }
  }

  lemma AllDescs(m: Words, n: Words, base: int)
    requires DescsTo(m, n, base, CLASSES)
    ensures Descs(n, base) && Lists(n, base, EMPTY)
  {
    hide ListAt;
    forall c | IsClass(c) ensures ListAt(n, FreeList(base, c), EMPTY.free[c]) {
      assert DescReady(n, base, c);
    }
    forall c | IsClass(c) ensures n(Desc(base, c)) == BlockSize(c) && n(Desc(base, c) + 4) == BlocksPer(c) {
      assert DescReady(n, base, c);
    }
  }

  /** mem_block_init */
  method MemBlockInit(ram: Ram, base: int)
    requires DescsFit(base)
    modifies ram
    ensures Descs(ram.w, base) && Lists(ram.w, base, EMPTY)
    ensures forall w | w >= HEAP_START :: ram.w(w) == old(ram.w(w))
  {
    hide Descs, Lists, DescReady, DescsFit, DescInit;
    var blockSize := 16;
    var idx := 0;
    while idx < CLASSES
      invariant 0 <= idx <= CLASSES && (idx < CLASSES ==> blockSize == BlockSize(idx))
      invariant DescsTo(old(ram.w), ram.w, base, idx)
    {
      OneDesc(old(ram.w), ram.w, base, idx);
      InitDesc(ram, base, idx, blockSize);
      blockSize := blockSize * 2;
      idx := idx + 1;
    }
    AllDescs(old(ram.w), ram.w, base);
  }

  const PF_KERNEL := 1

  /** How many pages sys_malloc(size) may ask the page layer for. */
  function PagesWanted(size: int): nat
    requires Countable(size)
  {
    if FitsBlock(size) then 1 else PageCount(size)
  }

  lemma SoundParts(m: Words, base: int, s: Slab)
    requires Sound(m, base, s, {})
    ensures Shape(s) && Accounted(s)
  {}

  lemma SoundShape(m: Words, base: int, s: Slab)
    requires Sound(m, base, s, {})
    ensures Shape(s)
  {}

  lemma FreedBlock(m: Words, base: int, s0: Slab, s: Slab, x: int, a: int)
    requires Shape(s0) && a == PageOf(x) && a in s0.arenas && Sound(m, base, s, {}) && Busy(s)
    requires s == BlockFreed(s0, x, a, s0.arenas[a])
    ensures a in s.arenas <==> exists y :: y in s.live && PageOf(y) == PageOf(x)
  {
    hide Shape, Placed, Accounted, Complete, Lists, Descs, Heads, LargeHeads, PageOf, BlockFreed;
    assert |s0.free| == CLASSES && IsClass(s0.arenas[a]) by { ShapeClass(s0, a); }
    FreedExactly(s0, s, x, a, s0.arenas[a]);
  }

  lemma ShapeClass(s: Slab, a: int)
    requires Shape(s) && a in s.arenas
    ensures |s.free| == CLASSES && IsClass(s.arenas[a])
  {}

  lemma ListSet(s: Slab, c: int, ys: seq<int>)
    requires |s.free| == CLASSES && IsClass(c)
    ensures |WithFree(s, c, ys).free| == CLASSES && WithFree(s, c, ys).free[c] == ys
  {}

  lemma FillFits(m: Words, base: int, s0: Slab, u: Slab, a: int, c: int, idx: nat)
    requires Filling(m, base, s0, u, a, c, idx)
    ensures DescsFit(base) && IsClass(c) && |u.free| == CLASSES
  {}

  lemma PoolHeapPage(vStart: int, i: int)
    requires vStart % PG_SIZE == 0 && vStart >= HEAP_START && i >= 0
    ensures HeapPage(PoolAddr(vStart, i))
  {
    PoolIsPage(vStart, i);
  }

  class Heap {
    const ram: Ram
    const pages: PageLayer
    const base: int              // address of k_mem_block
    ghost var s: Slab
    ghost var books: PageBooks

    ghost predicate Shapes()
      reads this, pages, pages.vmap, pages.pmap, pages.vmap.bits, pages.pmap.bits, pages.mmu.ram
    {
      && pages.Valid() && pages.vStart >= HEAP_START && ram != pages.mmu.ram
      && Owns(books, s, pages.vStart) && Splits(books, pages.vmap.Bits(), pages.frameOf)
    }

    ghost predicate Valid()
      reads this, ram, pages, pages.vmap, pages.pmap, pages.vmap.bits, pages.pmap.bits, pages.mmu.ram
    {
      Shapes() && Sound(ram.w, base, s, {}) && Busy(s)
    }

    /** mem_init, once the pools are up; pages already in use are other users'. */
    constructor (ram: Ram, pages: PageLayer, base: int)
      requires DescsFit(base) && pages.Valid() && pages.vStart >= HEAP_START && ram != pages.mmu.ram
      modifies ram
      ensures Valid() && s == EMPTY && this.ram == ram && this.pages == pages && this.base == base
      ensures books.other == pages.frameOf
      ensures books.held == set i | 0 <= i < |pages.vmap.Bits()| && pages.vmap.Bits()[i]
    {
      this.ram, this.pages, this.base := ram, pages, base;
      s := EMPTY;
      books := PageBooks(map[], (set i | 0 <= i < |pages.vmap.Bits()| && pages.vmap.Bits()[i]), pages.frameOf);
      new;
      MemBlockInit(ram, base);
    }

    // ----- mem_acquire -----

    /** memset(b, 0, block_size) */
    method ClearBlock(c: int, x: int)
      requires Descs(ram.w, base) && IsClass(c) && Aligned(Desc(base, c)) && Aligned(x) && Aligned(BlockSize(c))
      modifies ram
      ensures ram.w == Clear(old(ram.w), x, BlockSize(c))
    {
      hide *;
      DescOf(ram.w, base, c);
      BlocksFill(c);
      var blockSize := ram.Get(Desc(base, c));
      ram.Zero(x, blockSize);
    }

    /** a->cnt++ and a->cnt-- */
    method AddCount(a: int, d: int)
      requires Aligned(a + 4)
      modifies ram
      ensures ram.w == Store(old(ram.w), a + 4, Word(old(ram.w), a + 4) + d)
    {
      hide *;
      var cnt := ram.Get(a + 4);
      ram.Put(a + 4, cnt + d);
    }

    /** Pop, memset and cnt-- of mem_acquire. */
    method TakeBlock(c: int, ghost size: nat) returns (x: int)
      requires Sound(ram.w, base, s, {}) && IsClass(c) && s.free[c] != [] && size <= BlockSize(c)
      requires BusyBut(s, PageOf(s.free[c][0]))
      modifies ram, this`s
      ensures x == old(s).free[c][0] && s == BlockTaken(old(s), c, size)
      ensures Sound(ram.w, base, s, {}) && Busy(s)
      ensures x !in old(s).live && BlockOf(s, c, x) && UsersKept(old(ram.w), ram.w, old(s))
      ensures Zeroed(ram.w, x, BlockSize(c))
    {
      hide *;
      ghost var m := ram.w;
      HeadBlock(m, base, s, c);
      x := IntrusiveList.Pop(ram, FreeList(base, c), s.free[c]);
      ghost var m1 := ram.w;
      PopChange(m, m1, base, s, c);
      ClearBlock(c, x);
      AddCount(Block2Arena(x), -1);
      TakeWordsAre(m1, c, x);
      Taken(m, m1, base, s, c, size);
      s := BlockTaken(s, c, size);
    }

    /** One turn of mem_acquire's loop: arena2block and list_append. */
    method FillOne(a: int, c: int, idx: nat, ghost s0: Slab)
      requires Filling(ram.w, base, s0, s, a, c, idx) && idx < BlocksPer(c) && HeapPage(a) && |s.free| == CLASSES && Blank(ram.w, a, s.free[c])
      modifies ram, this`s
      ensures Filling(ram.w, base, s0, s, a, c, idx + 1) && UsersKept(old(ram.w), ram.w, s0)
      ensures |s.free| == CLASSES && Blank(ram.w, a, s.free[c])
    {
      hide *;
      ghost var m, u := ram.w, s;
      FillReads(m, base, s0, u, a, c, idx);
      FillNext(m, base, s0, u, a, c, idx);
      BlockPlace(base, a, c, idx);
      var desc := ram.Get(a);
      var blockSize := ram.Get(desc);
      var b := a + ARENA_HDR + idx * blockSize;
      IntrusiveList.Append(ram, desc + LIST_OFFSET, b, u.free[c]);
      FillStep(m, ram.w, base, s0, u, a, c, idx);
      FillFits(m, base, s0, u, a, c, idx);
      BlankStep(m, ram.w, base, a, c, u.free[c], b);
      s := WithFree(u, c, u.free[c] + [b]);
      ListSet(u, c, u.free[c] + [b]);
    }

    /** The loop that splits a fresh arena into blocks. */
    method FillArena(a: int, c: int)
      requires Filling(ram.w, base, s, s, a, c, 0) && HeapPage(a) && |s.free| == CLASSES && Blank(ram.w, a, s.free[c])
      modifies ram, this`s
      ensures Filling(ram.w, base, old(s), s, a, c, BlocksPer(c)) && UsersKept(old(ram.w), ram.w, old(s))
      ensures |s.free| == CLASSES && Blank(ram.w, a, s.free[c])
    {
      hide *;
      var idx := 0;
      FillReads(ram.w, base, s, s, a, c, 0);
      var total := ram.Get(Desc(base, c) + 4);
      UsersSelf(ram.w, s);
      while idx < total
        invariant 0 <= idx <= total == BlocksPer(c)
        invariant Filling(ram.w, base, old(s), s, a, c, idx) && UsersKept(old(ram.w), ram.w, old(s))
        invariant |s.free| == CLASSES && IsClass(c) && Blank(ram.w, a, s.free[c])
      {
        ghost var m := ram.w;
        FillOne(a, c, idx, old(s));
        UsersChain(old(ram.w), m, ram.w, old(s));
        idx := idx + 1;
        FillReads(ram.w, base, old(s), s, a, c, idx);
        total := ram.Get(Desc(base, c) + 4);
      }
    }

    /** page_acquire for the heap, and whose the pages are afterwards. */
    method ClaimPages(k: nat) returns (a: int)
      requires Shapes() && Shape(s) && k >= 1 && pages.Below(k)
      modifies this`books, pages, pages.vmap, pages.pmap, pages.vmap.bits, pages.pmap.bits, pages.mmu.ram
      ensures pages.Valid() && Splits(books, pages.vmap.Bits(), pages.frameOf)
      ensures a != NULL <==> PagesLeft(old(pages.vmap.Bits()), old(pages.pmap.Bits()), k)
      ensures a == NULL ==> Owns(books, s, pages.vStart) && SameHeapPages(old(books), books)
      ensures a != NULL ==> FreshSpan(s, a, k) && books.held == old(books).held && books.other == old(books).other
      ensures a != NULL ==> forall s' | Adds(s, s', a, k) :: Owns(books, s', pages.vStart)
      ensures Rises(old(pages.vmap.Bits()), pages.vmap.Bits(), k)
      ensures SameFrames(old(pages.frameOf), pages.frameOf)
    {
      hide Shape, Owns, Splits, FreshSpan, Adds, SameHeapPages, PagesTaken, Consistent, SameFrames, Rises, FitsBelow, Reach;
      ghost var vb, f, pb := pages.vmap.Bits(), pages.frameOf, books;
      PoolAligned(vb, pages.pmap.Bits(), pages.mmu.ram.w, pages.vStart, pages.pStart, f, pages.pageOf);
      a := pages.PageAcquire(NULL, k);
      if a == NULL {
        books := Failed(pb, vb, f, pages.vmap.Bits(), pages.frameOf);
        OwnsLost(pb, books, s, pages.vStart);
      } else {
        Acquired(pb, vb, f, pages.vmap.Bits(), pages.frameOf, s, pages.vStart, a, k);
        books := Claimed(pb, IndexIn(pages.vStart, a), k, a);
      }
    }

    /** memset(a, 0, PG_SIZE) and the header of a fresh arena. */
    method InitArena(a: int, c: int, ghost m: Words)
      requires SameBut(m, ram.w, a, PG_SIZE) && DescsFit(base) && Descs(m, base) && HeapPage(a) && IsClass(c)
      modifies ram
      ensures ram.w == ArenaWords(old(ram.w), base, a, c)
    {
      ArenaWordsAre(m, ram.w, base, a, c);
      assert Aligned(PG_SIZE);
      hide *;
      ram.Zero(a, PG_SIZE);
      ram.Put(a, Desc(base, c));
      var total := ram.Get(Desc(base, c) + 4);
      ram.Put(a + 4, total);
      ram.Put(a + 8, 0);
      ArenaWordsBody(old(ram.w), base, a, c);
    }

    /** The part of mem_acquire that runs when the list is empty. */
    method NewArena(c: int) returns (a: int)
      requires Valid() && IsClass(c) && s.free[c] == [] && pages.Below(1)
      modifies this, ram, pages, pages.vmap, pages.pmap, pages.vmap.bits, pages.pmap.bits, pages.mmu.ram
      ensures a != NULL <==> PagesLeft(old(pages.vmap.Bits()), old(pages.pmap.Bits()), 1)
      ensures a == NULL ==> Valid() && s == old(s) && ram.w == old(ram.w) && SameHeapPages(old(books), books)
      ensures a != NULL ==> Shapes() && Sound(ram.w, base, s, {}) && BusyBut(s, a) && s.free[c] != [] && PageOf(s.free[c][0]) == a
      ensures a != NULL ==> s == WithFree(WithArena(old(s), a, c), c, s.free[c]) && UsersKept(old(ram.w), ram.w, s)
      ensures a != NULL ==> FreshSpan(old(s), a, 1) && books.held == old(books).held && books.other == old(books).other
      ensures a != NULL ==> s.free[c] == BlockSeq(a + ARENA_HDR, BlockSize(c), BlocksPer(c)) && Blank(ram.w, a, s.free[c])
      ensures Rises(old(pages.vmap.Bits()), pages.vmap.Bits(), 1)
      ensures SameFrames(old(pages.frameOf), pages.frameOf)
    {
      hide ListAt, Lists, Heads, LargeHeads, Placed, Accounted, Complete, Owns, Splits, UsersKept, Filling, BlocksTo,
           Blocks, FreeOf,
           BusyBut, FreshSpan, SameHeapPages, PagesLeft, Header, SameBut, ArenaWords, Consistent, SameFrames, Rises, FitsBelow, Reach, Blank;
      ghost var m, s0 := ram.w, s;
      a := ClaimPages(1);
      if a == NULL {
        return;
      }
      assert HeapPage(a) by { FreshPage(s0, a, 1); }
      ram.Overwrite(a, PG_SIZE);
      ArenaWordsAre(m, ram.w, base, a, c);
      BlankStart(ram.w, base, a, c);
      InitArena(a, c, m);
      FreshArena(m, ram.w, base, s0, a, c);
      AddsArena(s0, a, c);
      s := WithArena(s0, a, c);
      ghost var m2, s1 := ram.w, s;
      FillArena(a, c);
      Filled(ram.w, base, s1, s, a, c);
      OwnsSame(books, s1, s, pages.vStart);
      UsersChain(m, m2, ram.w, s1);
      SameUsers(m, ram.w, s1, s);
    }

    /** mem_acquire for a class whose list is empty. */
    method AcquireFresh(c: int, ghost size: nat) returns (x: int)
      requires Valid() && IsClass(c) && s.free[c] == [] && size <= BlockSize(c) && pages.Below(1)
      modifies this, ram, pages, pages.vmap, pages.pmap, pages.vmap.bits, pages.pmap.bits, pages.mmu.ram
      ensures Valid()
      ensures x != NULL <==> PagesLeft(old(pages.vmap.Bits()), old(pages.pmap.Bits()), 1)
      ensures x == NULL ==> s == old(s) && ram.w == old(ram.w) && SameHeapPages(old(books), books)
      ensures x != NULL ==> Granted(old(ram.w), ram.w, old(s), s, x, size) && TakenFrom(old(s), s, x, c)
      ensures x != NULL ==> books.held == old(books).held && books.other == old(books).other
      ensures Rises(old(pages.vmap.Bits()), pages.vmap.Bits(), 1)
      ensures SameFrames(old(pages.frameOf), pages.frameOf)
    {
      hide ListAt, Lists, Heads, LargeHeads, Placed, Accounted, Complete, Owns, Splits, UsersKept, BlockOf, Blocks, FreeOf, Busy,
           BusyBut, SameHeapPages, PagesLeft, BlockTaken, Granted, TakenFrom, Consistent, Zeroed, SameFrames, Rises, FitsBelow, Reach;
      ghost var m, s0 := ram.w, s;
      var a := NewArena(c);
      if a == NULL {
        return NULL;
      }
      ghost var m1, u := ram.w, s;
      x := TakeBlock(c, size);
      GrownTaken(s0, u, s, a, c, size);
      FreshNotArena(s0, a, 1);
      TakenFirst(s0, u, a, c, size);
      OwnsSame(books, u, s, pages.vStart);
      UsersChain(m, m1, ram.w, u);
      GrownUsers(m, ram.w, s0, u, s, a, c);
      BlockGranted(m, ram.w, s0, s, c, x, size);
    }

    /** Both pools and the page tables' frames are as before. */
    twostate predicate PoolsKept()
      reads this, pages, pages.vmap, pages.pmap, pages.vmap.bits, pages.pmap.bits
    {
      && pages.vmap.Bits() == old(pages.vmap.Bits()) && pages.pmap.Bits() == old(pages.pmap.Bits())
      && pages.frameOf == old(pages.frameOf)
    }

    /** mem_acquire */
    method MemAcquire(c: int, ghost size: nat) returns (x: int)
      requires Valid() && IsClass(c) && size <= BlockSize(c) && (s.free[c] == [] ==> pages.Below(1))
      modifies this, ram, pages, pages.vmap, pages.pmap, pages.vmap.bits, pages.pmap.bits, pages.mmu.ram
      ensures Valid()
      ensures x != NULL <==> old(s).free[c] != [] || PagesLeft(old(pages.vmap.Bits()), old(pages.pmap.Bits()), 1)
      ensures old(s).free[c] != [] ==> PoolsKept()
      ensures x == NULL ==> s == old(s) && ram.w == old(ram.w) && SameHeapPages(old(books), books)
      ensures x != NULL ==> Granted(old(ram.w), ram.w, old(s), s, x, size) && TakenFrom(old(s), s, x, c)
      ensures x != NULL ==> books.held == old(books).held && books.other == old(books).other
      ensures Rises(old(pages.vmap.Bits()), pages.vmap.Bits(), 1)
      ensures SameFrames(old(pages.frameOf), pages.frameOf)
    {
      hide ListAt, Heads, LargeHeads, Placed, Accounted, Complete, Owns, Splits, UsersKept, BlockOf, Blocks, FreeOf, Busy,
           BusyBut, SameHeapPages, PagesLeft, Granted, TakenFrom, Consistent, Zeroed, SameFrames, Rises, FitsBelow, Reach;
      RisesNot(pages.vmap.Bits(), 1);
      FramesSelf(pages.frameOf);
      ghost var m, s0 := ram.w, s;
      ListOf(m, base, s, c);
      var empty := IntrusiveList.Empty(ram, FreeList(base, c), s.free[c]);
      if empty {
        x := AcquireFresh(c, size);
      } else {
        BusyAll(s, PageOf(s.free[c][0]));
        x := TakeBlock(c, size);
        OwnsSame(books, s0, s, pages.vStart);
        TakenHead(s0, c, size);
        TakenUsers(m, ram.w, s0, s);
        BlockGranted(m, ram.w, s0, s, c, x, size);
      }
    }

    // ----- mem_release -----

    /** page_release for the heap; t is the heap without what started at a. */
    method ReturnPages(a: int, k: nat, ghost t: Slab)
      requires pages.Valid() && Owns(books, s, pages.vStart) && Splits(books, pages.vmap.Bits(), pages.frameOf)
      requires Adds(t, s, a, k) && k >= 1
      modifies this`books, pages, pages.vmap, pages.pmap, pages.vmap.bits, pages.pmap.bits, pages.mmu.ram
      ensures pages.Valid() && Owns(books, t, pages.vStart) && Splits(books, pages.vmap.Bits(), pages.frameOf)
      ensures books.held == old(books).held && books.other == old(books).other
      ensures PagesReturned(old(pages.vmap.Bits()), old(pages.frameOf), pages.vmap.Bits(), pages.frameOf, IndexIn(pages.vStart, a), k)
      ensures Rises(old(pages.vmap.Bits()), pages.vmap.Bits(), 0)
      ensures SameFrames(old(pages.frameOf), pages.frameOf)
    {
      hide Owns, Splits, Adds, Consistent, PagesReturned, SameFrames, Rises, Reach, Span;
      ghost var vb, f, pb := pages.vmap.Bits(), pages.frameOf, books;
      ReleaseReady(pb, vb, f, s, t, pages.vStart, a, k);
      MappedBelow(vb, pages.pmap.Bits(), pages.mmu.ram.w, pages.vStart, pages.pStart, f, pages.pageOf, IndexIn(pages.vStart, a) + k - 1);
      pages.PageRelease(a, k);
      ReleaseSplits(pb, vb, f, pages.vmap.Bits(), pages.frameOf, IndexIn(pages.vStart, a), k);
      books := Released(pb, IndexIn(pages.vStart, a), k);
    }

    /** One turn of mem_release's loop: arena2block and list_remove. */
    method UnlinkOne(a: int, ghost c: int, idx: nat, ghost s0: Slab)
      requires Unlinking(ram.w, base, s0, s, a, c, idx) && idx < BlocksPer(c)
      modifies ram, this`s
      ensures Unlinking(ram.w, base, s0, s, a, c, idx + 1) && UsersKept(old(ram.w), ram.w, s0)
    {
      hide *;
      ghost var m, u := ram.w, s;
      UnlinkReads(m, base, s0, u, a, c, idx);
      ghost var i := UnlinkNext(m, base, s0, u, a, c, idx);
      BlockPlace(base, a, c, idx);
      var desc := ram.Get(a);
      var blockSize := ram.Get(desc);
      var b := a + ARENA_HDR + idx * blockSize;
      DroppedIs(u.free[c], i);
      IntrusiveList.Remove(ram, b, FreeList(base, c), u.free[c], i);
      UnlinkStep(m, ram.w, base, s0, u, a, c, idx, i);
      s := WithFree(u, c, Dropped(u.free[c], i));
    }

    /** The loop that unlinks every block of an arena. */
    method UnlinkArena(a: int, ghost c: int)
      requires Unlinking(ram.w, base, s, s, a, c, 0)
      modifies ram, this`s
      ensures Unlinking(ram.w, base, old(s), s, a, c, BlocksPer(c)) && UsersKept(old(ram.w), ram.w, old(s))
    {
      hide *;
      var idx := 0;
      UnlinkReads(ram.w, base, s, s, a, c, 0);
      var desc := ram.Get(a);
      var total := ram.Get(desc + 4);
      UsersSelf(ram.w, s);
      while idx < total
        invariant 0 <= idx <= total == BlocksPer(c)
        invariant Unlinking(ram.w, base, old(s), s, a, c, idx) && UsersKept(old(ram.w), ram.w, old(s))
      {
        ghost var m := ram.w;
        UnlinkOne(a, c, idx, old(s));
        UsersChain(old(ram.w), m, ram.w, old(s));
        idx := idx + 1;
        UnlinkReads(ram.w, base, old(s), s, a, c, idx);
        desc := ram.Get(a);
        total := ram.Get(desc + 4);
      }
    }

    /** Append and cnt++ of mem_release. */
    method GiveBlock(x: int) returns (a: int, ghost c: int)
      requires Sound(ram.w, base, s, {}) && Busy(s) && x in s.live && PageOf(x) in s.arenas
      modifies ram
      ensures a == PageOf(x) && c == s.arenas[a] && Given(ram.w, base, s, x, a, c)
      ensures UsersKept(old(ram.w), ram.w, WithoutUser(s, x))
    {
      hide *;
      ghost var m := ram.w;
      GiveReads(m, base, s, x);
      a := Block2Arena(x);
      c := s.arenas[PageOf(x)];
      BlockPlace(base, a, c, 0);
      var desc := ram.Get(a);
      IntrusiveList.Append(ram, desc + LIST_OFFSET, x, s.free[c]);
      ghost var m1 := ram.w;
      AddCount(a, 1);
      GiveStep(m, m1, base, s, x, a, c);
    }

    /** The whole of an arena goes back: its blocks off the list, its page to the pools. */
    method DropArena(a: int, ghost c: int)
      requires Unlinking(ram.w, base, s, s, a, c, 0) && Shape(s) && BusyBut(s, a) && Shapes()
      modifies this, ram, pages, pages.vmap, pages.pmap, pages.vmap.bits, pages.pmap.bits, pages.mmu.ram
      ensures Valid() && books.held == old(books).held && books.other == old(books).other
      ensures |old(s).free| == CLASSES && IsClass(c)
      ensures s == Forgotten(WithFree(old(s), c, Without(old(s).free[c], Blocks(a, c))), a)
      ensures UsersKept(old(ram.w), ram.w, old(s))
      ensures Rises(old(pages.vmap.Bits()), pages.vmap.Bits(), 0)
      ensures SameFrames(old(pages.frameOf), pages.frameOf)
    {
      hide Shape, Owns, Splits, BusyBut, Busy, UsersKept, Unlinking, Sound, Blocks, Consistent, Without, Adds, SameFrames, Rises;
      ghost var s0 := s;
      UnlinkReads(ram.w, base, s, s, a, c, 0);
      UnlinkArena(a, c);
      Unlinked(ram.w, base, s0, s, a, c);
      ghost var u, t := s, Forgotten(s, a);
      UnlinkReads(ram.w, base, s0, u, a, c, BlocksPer(c));
      AddsForgotten(u, a);
      OwnsSame(books, s0, u, pages.vStart);
      ReturnPages(a, 1, t);
      s := t;
    }

    /** a->cnt == a->p_mem_block->blocks_per_arena */
    method AllFree(a: int) returns (full: bool)
      requires Aligned(a) && Aligned(a + 4) && Aligned(Word(ram.w, a) + 4)
      ensures full <==> Word(ram.w, a + 4) == Word(ram.w, Word(ram.w, a) + 4)
    {
      hide *;
      var cnt := ram.Get(a + 4);
      var desc := ram.Get(a);
      var total := ram.Get(desc + 4);
      full := cnt == total;
    }

    /** mem_release up to its test. */
    method GiveAndTest(x: int) returns (a: int, ghost c: int, full: bool)
      requires Sound(ram.w, base, s, {}) && Busy(s) && x in s.live && PageOf(x) in s.arenas
      modifies ram
      ensures a == PageOf(x) && c == s.arenas[a] && |s.free| == CLASSES && IsClass(c) && Given(ram.w, base, s, x, a, c)
      ensures UsersKept(old(ram.w), ram.w, WithoutUser(s, x))
      ensures full <==> |FreeOf(GivenBack(s, c, x), a)| == BlocksPer(c)
    {
      hide *;
      a, c := GiveBlock(x);
      GivenReads(ram.w, base, s, x, a, c);
      full := AllFree(a);
    }

    /** mem_release */
    method MemRelease(x: int)
      requires Valid() && x in s.live && PageOf(x) in s.arenas
      modifies this, ram, pages, pages.vmap, pages.pmap, pages.vmap.bits, pages.pmap.bits, pages.mmu.ram
      ensures Valid() && books.held == old(books).held && books.other == old(books).other
      ensures |old(s).free| == CLASSES && IsClass(old(s).arenas[PageOf(x)])
      ensures s == BlockFreed(old(s), x, PageOf(x), old(s).arenas[PageOf(x)])
      ensures UsersKept(old(ram.w), ram.w, WithoutUser(old(s), x))
      ensures Rises(old(pages.vmap.Bits()), pages.vmap.Bits(), 0)
      ensures SameFrames(old(pages.frameOf), pages.frameOf)
    {
      hide Shape, Owns, Splits, BusyBut, Busy, UsersKept, Unlinking, Sound, Blocks, FreeOf, Consistent, Without,
           Given, GivenBack, SameFrames, Rises;
      RisesNot(pages.vmap.Bits(), 0);
      FramesSelf(pages.frameOf);
      ghost var s0 := s;
      var a, full;
      ghost var c;
      a, c, full := GiveAndTest(x);
      ghost var m1 := ram.w;
      GivenSame(s0, x, c);
      s := GivenBack(s0, c, x);
      OwnsSame(books, s0, s, pages.vStart);
      if full {
        GivenFull(m1, base, s0, x, a, c);
        ghost var g := s;
        DropArena(a, c);
        SameUsers(m1, ram.w, g, WithoutUser(s0, x));
        UsersChain(old(ram.w), m1, ram.w, WithoutUser(s0, x));
      } else {
        GivenNotFull(m1, base, s0, x, a, c);
      }
    }

    // ----- sys_malloc and sys_free -----

    /** The search of sys_malloc for the smallest class that fits. */
    method FindClass(size: int) returns (c: int)
      requires DescsFit(base) && Descs(ram.w, base) && 0 <= size && FitsBlock(size)
      ensures c == ClassOf(size)
    {
      c := 0;
      while c < CLASSES
        invariant 0 <= c <= CLASSES && forall d | 0 <= d < c :: BlockSize(d) < size
      {
        DescAligned(base, c);
        DescOf(ram.w, base, c);
        var blockSize := ram.Get(Desc(base, c));
        if size <= blockSize {
          break;
        }
        c := c + 1;
      }
    }

    /** sys_malloc(size) finds room. */
    ghost predicate CanServe(size: int)
      requires Valid() && 0 <= size
      reads this, ram, pages, pages.vmap, pages.pmap, pages.vmap.bits, pages.pmap.bits, pages.mmu.ram
    {
      if FitsBlock(size) then s.free[ClassOf(size)] != [] || PagesLeft(pages.vmap.Bits(), pages.pmap.Bits(), 1)
      else PagesLeft(pages.vmap.Bits(), pages.pmap.Bits(), PageCount(size))
    }

    /** memset and header of a large allocation. */
    method InitLarge(a: int, k: nat, ghost m: Words)
      requires SameBut(m, ram.w, a, k * PG_SIZE) && HeapPage(a) && k >= 1
      modifies ram
      ensures ram.w == LargeWords(old(ram.w), a, k)
    {
      LargeWordsAre(m, ram.w, a, k);
      SpanAligned(k);
      hide Aligned, SameBut, Clear, Store;
      ram.Zero(a, k * PG_SIZE);
      ram.Put(a, 0);
      ram.Put(a + 4, k);
      ram.Put(a + 8, 1);
    }

    /** The branch of sys_malloc for requests over 1024 bytes. */
    method MallocPages(size: int) returns (x: int)
      requires Valid() && !FitsBlock(size) && Countable(size) && pages.Below(PageCount(size))
      modifies this, ram, pages, pages.vmap, pages.pmap, pages.vmap.bits, pages.pmap.bits, pages.mmu.ram
      ensures Valid()
      ensures x != NULL <==> PagesLeft(old(pages.vmap.Bits()), old(pages.pmap.Bits()), PageCount(size))
      ensures x == NULL ==> s == old(s) && ram.w == old(ram.w) && SameHeapPages(old(books), books)
      ensures x != NULL ==> Granted(old(ram.w), ram.w, old(s), s, x, Served(size))
      ensures x != NULL ==> s == WithLarge(old(s), x - ARENA_HDR, PageCount(size), Served(size))
      ensures x != NULL ==> books.held == old(books).held && books.other == old(books).other
      ensures Rises(old(pages.vmap.Bits()), pages.vmap.Bits(), PageCount(size))
      ensures SameFrames(old(pages.frameOf), pages.frameOf)
    {
      hide SameFrames, Rises, FitsBelow, Reach, Shape, InMemory, Owns, Splits, UsersKept, Busy, SameHeapPages,
           PagesLeft, Granted, Consistent, Zeroed, SameBut,
           FreshSpan, PageCount, Served, LargeWords, LargeHeader, IsPage, Descs, Lists, Heads, LargeHeads, Adds;
      ghost var m, s0 := ram.w, s;
      ServedExact(size);
      var k := PageCount(size);
      var a := ClaimPages(k);
      if a == NULL {
        return NULL;
      }
      assert HeapPage(a) by { FreshPage(s0, a, k); }
      ram.Overwrite(a, k * PG_SIZE);
      LargeWordsAre(m, ram.w, a, k);
      InitLarge(a, k, m);
      LargeStep(m, ram.w, base, s0, a, k, Served(size));
      AddsLarge(s0, a, k, Served(size));
      s := WithLarge(s0, a, k, Served(size));
      x := a + ARENA_HDR;
    }

    /** sys_malloc(size) reaches no page of the recursive window. */
    ghost predicate Admits(size: int)
      requires Valid() && 0 <= size
      reads this, ram, pages, pages.vmap, pages.pmap, pages.vmap.bits, pages.pmap.bits, pages.mmu.ram
    {
      if FitsBlock(size) then s.free[ClassOf(size)] != [] || pages.Below(1) else pages.Below(PageCount(size))
    }

    /** sys_malloc. A request over 0xFFFFEFF4 bytes wraps its page count, and is served with less. */
    method Malloc(size: int) returns (x: int)
      requires Valid() && Countable(size) && Admits(size)
      modifies this, ram, pages, pages.vmap, pages.pmap, pages.vmap.bits, pages.pmap.bits, pages.mmu.ram
      ensures Valid()
      ensures x != NULL <==> old(CanServe(size))
      ensures x == NULL ==> s == old(s) && ram.w == old(ram.w) && SameHeapPages(old(books), books)
      ensures x != NULL ==> Granted(old(ram.w), ram.w, old(s), s, x, Served(size))
      ensures x != NULL && size <= BlockSize(CLASSES - 1) ==> SmallGrant(old(s), s, x, size)
      ensures x != NULL && size <= BlockSize(CLASSES - 1) && PageOf(x) in old(s).arenas ==> PoolsKept()
      ensures x != NULL && size > BlockSize(CLASSES - 1) ==>
                s.large == old(s).large[x - ARENA_HDR := PageCount(size)] && s.arenas == old(s).arenas && s.free == old(s).free
      ensures x != NULL ==> books.held == old(books).held && books.other == old(books).other
      ensures Rises(old(pages.vmap.Bits()), pages.vmap.Bits(), PagesWanted(size))
      ensures SameFrames(old(pages.frameOf), pages.frameOf)
    {
      hide SameFrames, Rises, FitsBelow, Reach, Shape, Books, Owns, Splits, UsersKept, Busy, SameHeapPages,
           PagesLeft, Granted, Consistent, PageCount, ClassOf, Lists, Heads, LargeHeads;
      if size > 1024 {
        x := MallocPages(size);
      } else {
        var c := FindClass(size);
        x := MemAcquire(c, size);
      }
    }

    /** sys_malloc for the 4096 sizes whose page count wraps to 0: the pools stay as they are, and unless no
        used page lies behind a free one the header goes to the page behind the first such page, and the caller
        is given its address. The heap's structure survives exactly when no arena and no large allocation starts
        there. */
    method MallocNothing(size: int) returns (x: int)
      requires Valid() && 0 <= size < UINT_RANGE && PageCount(size) == 0 && pages.Below(0)
      modifies ram, pages, pages.vmap, pages.pmap, pages.vmap.bits, pages.pmap.bits, pages.mmu.ram
      ensures Shapes() && pages.vmap.Bits() == old(pages.vmap.Bits()) && pages.pmap.Bits() == old(pages.pmap.Bits())
      ensures pages.frameOf == old(pages.frameOf)
      ensures IsZeroFit(old(pages.vmap.Bits()), if x == NULL then -1 else pages.Index(x - ARENA_HDR))
      ensures x != NULL ==> x - ARENA_HDR == PoolAddr(pages.vStart, pages.Index(x - ARENA_HDR))
      ensures ram.w == if x == NULL then old(ram.w) else LargeWords(old(ram.w), x - ARENA_HDR, 0)
      ensures Valid() <==> x == NULL || !Starts(s, x - ARENA_HDR)
    {
      hide Owns, Splits, Consistent, Busy, Sound, LargeWords, Reach, FitsBelow, SameFrames, Rises, PagesTaken,
           IndexIn, PoolAddr, IsZeroFit;
      ghost var m, f := ram.w, pages.frameOf;
      PoolAligned(pages.vmap.Bits(), pages.pmap.Bits(), pages.mmu.ram.w, pages.vStart, pages.pStart, f, pages.pageOf);
      var k := PageCount(size);
      var a := pages.PageAcquire(NULL, k);
      if a == NULL {
        return NULL;
      }
      IndexOfPage(pages.vStart, a, 0);
      PoolHeapPage(pages.vStart, pages.Index(a));
      ZeroPagesExact(m, base, s, a);
      InitNothing(a);
      x := a + ARENA_HDR;
    }

    /** memset of nothing, and the header. */
    method InitNothing(a: int)
      requires HeapPage(a)
      modifies ram
      ensures ram.w == LargeWords(old(ram.w), a, 0)
    {
      HeaderAligned(a);
      hide Aligned, Clear, Store;
      assert Aligned(0) by { SpanAligned(0); }
      ram.Zero(a, 0);
      ram.Put(a, 0);
      ram.Put(a + 4, 0);
      ram.Put(a + 8, 1);
    }

    /** sys_free of a large allocation: its pages go back. */
    method DropLarge(a: int)
      requires Valid() && a in s.large && Aligned(a + 4) && Word(ram.w, a + 4) == s.large[a] && s.large[a] >= 1
      modifies this, pages, pages.vmap, pages.pmap, pages.vmap.bits, pages.pmap.bits, pages.mmu.ram
      ensures Valid() && s == WithoutLarge(old(s), a) && books.held == old(books).held && books.other == old(books).other
      ensures Rises(old(pages.vmap.Bits()), pages.vmap.Bits(), 0)
      ensures SameFrames(old(pages.frameOf), pages.frameOf)
    {
      hide SameFrames, Rises, Shape, InMemory, Owns, Splits, Busy, Consistent, Without, FreeOf, Blocks, PagesReturned, Adds;
      var k := ram.Get(a + 4);
      UnlargeStep(ram.w, base, s, a);
      AddsUnlarged(s, a);
      ReturnPages(a, k, WithoutLarge(s, a));
      s := WithoutLarge(s, a);
    }

    /** sys_free */
    method Free(x: int)
      requires Valid() && x in s.live
      modifies this, ram, pages, pages.vmap, pages.pmap, pages.vmap.bits, pages.pmap.bits, pages.mmu.ram
      ensures Valid() && books.held == old(books).held && books.other == old(books).other
      ensures s.live == old(s).live - {x} && UsersKept(old(ram.w), ram.w, WithoutUser(old(s), x))
      ensures PageOf(x) !in old(s).arenas ==> s == WithoutLarge(old(s), PageOf(x))
      ensures PageOf(x) in old(s).arenas ==> |old(s).free| == CLASSES && IsClass(old(s).arenas[PageOf(x)])
      ensures PageOf(x) in old(s).arenas ==> s == BlockFreed(old(s), x, PageOf(x), old(s).arenas[PageOf(x)])
      ensures PageOf(x) in old(s).arenas ==> (PageOf(x) in s.arenas <==> exists y :: y in s.live && PageOf(y) == PageOf(x))
      ensures Rises(old(pages.vmap.Bits()), pages.vmap.Bits(), 0)
      ensures SameFrames(old(pages.frameOf), pages.frameOf)
    {
      hide SameFrames, Rises, Shape, InMemory, Owns, Splits, UsersKept, Busy, Consistent, PageOf, Without, FreeOf,
           Blocks, Aligned;
      FreeReads(ram.w, base, s, x);
      var a := Block2Arena(x);
      var isPages := ram.Get(a + 8);
      if isPages != 0 {
        UsersSelf(ram.w, WithoutUser(s, x));
        DropLarge(a);
      } else {
        ghost var s0 := s;
        MemRelease(x);
        FreedBlock(ram.w, base, s0, s, x, a);
      }
    }

    /** A client's own store to a word of its allocation. */
    method UserStore(x: int, w: int, v: int)
      requires Valid() && x in s.live && x <= w && w + 4 <= End(s, x) && Aligned(w)
      modifies ram
      ensures Valid() && ram.w == Store(old(ram.w), w, v) && OffKept(old(ram.w), ram.w, s)
    {
      hide Shape, Accounted, Owns, Splits, Consistent, Books, Busy, Sound, End, OffKept;
      ghost var m := ram.w;
      ram.Put(w, v);
      UserWrites(m, ram.w, base, s, x);
      SoundParts(m, base, s);
      UserOnHeap(m, s, x, w, v);
    }

    /** Is there a block for a request of class c? */
    method HasBlock(c: int) returns (some: bool)
      requires Valid() && IsClass(c)
      ensures some <==> s.free[c] != []
    {
      hide ListAt, Heads, LargeHeads, Placed, Accounted, Complete, Owns, Splits, Busy, Consistent;
      ListOf(ram.w, base, s, c);
      var empty := IntrusiveList.Empty(ram, FreeList(base, c), s.free[c]);
      some := !empty;
    }

    /** A look before the call: would sys_malloc(size) stay below the recursive window? */
    method LookAhead(size: int) returns (ok: bool)
      requires Valid() && Countable(size)
      ensures ok <==> Admits(size)
    {
      hide ListAt, Heads, LargeHeads, Books, Owns, Splits, Busy, Consistent, FitsBelow, PageCount, ClassOf, Lists;
      if size > 1024 {
        ok := pages.StaysBelow(PageCount(size));
      } else {
        var c := FindClass(size);
        ok := HasBlock(c);
        if !ok { ok := pages.StaysBelow(1); }
      }
    }

    // ----- page_malloc and page_free, for other users of the pools -----

    /** page_malloc: whole pages for somebody else, apart from everything of the heap's. */
    method PageMalloc(pf: int, vaddr: int, cnt: nat) returns (r: int)
      requires Valid() && cnt >= 1 && (pf == PF_KERNEL ==> pages.Safe(vaddr, cnt))
      modifies this`books, pages, pages.vmap, pages.pmap, pages.vmap.bits, pages.pmap.bits, pages.mmu.ram
      ensures Valid() && books.owner == old(books).owner
      ensures r == NULL ==> SameHeapPages(old(books), books)
      ensures r != NULL <==> pf == PF_KERNEL && pages.VirtualRoom(old(pages.vmap.Bits()), vaddr, cnt) && FreeCount(old(pages.pmap.Bits())) >= cnt
      ensures r != NULL ==> FreshSpan(s, PoolAddr(pages.vStart, pages.Index(r)), cnt)
      ensures r != NULL ==> books.held == old(books).held + Span(pages.Index(r), cnt)
      ensures r != NULL ==> books.other.Keys == old(books).other.Keys + Span(pages.Index(r), cnt)
      ensures r != NULL ==> forall i | i in old(books).other :: books.other[i] == old(books).other[i]
      ensures r != NULL ==> pages.InPool(r, cnt) && RunFree(old(pages.vmap.Bits()), pages.Index(r), cnt)
      ensures vaddr == NULL ==> Rises(old(pages.vmap.Bits()), pages.vmap.Bits(), cnt)
      ensures SameFrames(old(pages.frameOf), pages.frameOf)
    {
      hide SameFrames, Rises, FitsBelow, Reach, Shape, Owns, Splits, FreshSpan, PagesTaken, Consistent, Sound, Busy,
           RunFree, IsFirstFit, SameHeapPages, Span, PoolAddr, IndexIn, FreeCount;
      if pf != PF_KERNEL {
        RisesNot(pages.vmap.Bits(), cnt);
        FramesSelf(pages.frameOf);
        SameSelf(books);
        return NULL;
      }
      assert Shape(s) by { SoundShape(ram.w, base, s); }
      ghost var vb, f, pb := pages.vmap.Bits(), pages.frameOf, books;
      PoolAligned(vb, pages.pmap.Bits(), pages.mmu.ram.w, pages.vStart, pages.pStart, f, pages.pageOf);
      r := pages.PageAcquire(vaddr, cnt);
      if r == NULL {
        books := Failed(pb, vb, f, pages.vmap.Bits(), pages.frameOf);
        OwnsLost(pb, books, s, pages.vStart);
      } else {
        TakenFree(vb, f, pages.vmap.Bits(), pages.frameOf, pages.Index(r), cnt, cnt);
        books := OthersTake(pb, vb, f, pages.vmap.Bits(), pages.frameOf, s, pages.vStart, pages.Index(r), cnt);
      }
    }

    /** page_free of pages that page_malloc gave. */
    method PageFree(pf: int, vaddr: int, cnt: nat)
      requires Valid()
      requires pf == PF_KERNEL ==> pages.InPool(vaddr, cnt) && Span(pages.Index(vaddr), cnt) <= books.other.Keys
      modifies this`books, pages, pages.vmap, pages.pmap, pages.vmap.bits, pages.pmap.bits, pages.mmu.ram
      ensures Valid()
      ensures books == if pf == PF_KERNEL then OthersReleased(old(books), pages.Index(vaddr), cnt) else old(books)
      ensures Rises(old(pages.vmap.Bits()), pages.vmap.Bits(), 0)
      ensures SameFrames(old(pages.frameOf), pages.frameOf)
    {
      hide Shape, Owns, PagesReturned, Consistent, Sound, Busy, SameFrames, Rises, Reach;
      RisesNot(pages.vmap.Bits(), 0);
      FramesSelf(pages.frameOf);
      if pf == PF_KERNEL {
        ghost var vb, f, pb := pages.vmap.Bits(), pages.frameOf, books;
        pages.PageRelease(vaddr, cnt);
        OthersReleaseSplits(pb, vb, f, pages.vmap.Bits(), pages.frameOf, pages.Index(vaddr), cnt);
        books := OthersReleased(pb, pages.Index(vaddr), cnt);
        OwnsOwner(pb, books, s, pages.vStart);
      }
    }

    // ----- what holds between calls -----

    /** Every byte of a live allocation is mapped. */
    lemma LiveMapped(x: int, y: int)
      requires Valid() && x in s.live && x <= y < End(s, x)
      ensures Walk(pages.mmu.ram.w, PAGE_DIR, y).Mapped?
    {
      hide Shape, Consistent, Owns, Splits, Walk, Placed, Complete, Accounted, Heads, LargeHeads, ListAt, Busy;
      LiveKind(s, x);
      OwnedMapped(books, pages.vmap.Bits(), pages.pmap.Bits(), pages.mmu.ram.w, pages.vStart, pages.pStart, pages.frameOf,
                  pages.pageOf, s, PageOf(x), y);
    }

    /** No free list leads into an unmapped page. */
    lemma ListMapped(c: int, x: int)
      requires Valid() && IsClass(c) && x in s.free[c]
      ensures Walk(pages.mmu.ram.w, PAGE_DIR, x).Mapped? && Walk(pages.mmu.ram.w, PAGE_DIR, x + 4).Mapped?
    {
      hide Consistent, Owns, Splits, Walk, Complete, Accounted, Heads, LargeHeads, ListAt, Busy;
      BlockFacts(s, c, x);
      OwnedMapped(books, pages.vmap.Bits(), pages.pmap.Bits(), pages.mmu.ram.w, pages.vStart, pages.pStart, pages.frameOf,
                  pages.pageOf, s, PageOf(x), x);
      OwnedMapped(books, pages.vmap.Bits(), pages.pmap.Bits(), pages.mmu.ram.w, pages.vStart, pages.pStart, pages.frameOf,
                  pages.pageOf, s, PageOf(x), x + 4);
    }

    lemma PoolLengths()
      requires Valid()
      ensures |pages.vmap.Bits()| == pages.vmap.len * 8 && |pages.pmap.Bits()| == pages.pmap.len * 8
      ensures OneToOne(pages.vmap.Bits(), pages.pmap.Bits(), pages.frameOf, pages.pageOf)
    {
      hide Sound, Owns, Splits, Busy, BootDirectory, Translates;
    }

    /** With nothing live, every list is empty and no page is the heap's. */
    lemma Drained()
      requires Valid() && s.live == map[]
      ensures s.arenas == map[] && s.large == map[] && forall c | IsClass(c) :: s.free[c] == []
      ensures pages.frameOf == books.other
      ensures forall i | 0 <= i < |pages.vmap.Bits()| :: pages.vmap.Bits()[i] <==> i in books.held
    {
      hide Consistent, Shape, Owns, Splits, Placed, Complete, Accounted, InMemory, Busy;
      NothingLive(s);
      OwnsNothing(books, pages.vmap.Bits(), pages.frameOf, s, pages.vStart);
    }
  }
}
