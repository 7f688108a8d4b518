/** The kernel pool against the recursive window. pool_init binds a virtual bitmap of 0x8000 bytes to
    the pool at K_HEAP_START; its last 0x500 pages are at or above 0xFFC00000, where page_table_add
    writes the page directory. */
module Window {
  import opened Words
  import opened BitRuns
  import opened Paging
  import opened Boot
  import opened Pages
  import opened SlabLayout

  const POOL_PAGES := 0x8000 * 8   // bits of the bitmap that pool_init binds
  const SAFE_PAGES := 0x3_FB00     // pages from K_HEAP_START to the window
  const LAST_PAGES := 0x3_FF00     // pages from K_HEAP_START to the end of the address space

  /** What the pool's pages are, to the last one. */
  lemma KernelPool()
    ensures Reach(HEAP_START, POOL_PAGES) == SAFE_PAGES && PoolAddr(HEAP_START, SAFE_PAGES) == WINDOW
    ensures PoolAddr(HEAP_START, LAST_PAGES) == ADDR_SPACE && LAST_PAGES == SAFE_PAGES + 1024 < POOL_PAGES
  {}

  /** In the window the table entry of an address is an entry of the page directory. */
  lemma WindowEntry(m: Words, v: int)
    requires m(PAGE_DIR + SELF_SLOT * 4) == BootPde(SELF_SLOT) && WINDOW <= v < ADDR_SPACE
    ensures PteAddr(m, PAGE_DIR, v) == PAGE_DIR + PteIdx(v) * 4
  {
    assert PdeIdx(v) == SELF_SLOT;
    assert Frame(BootPde(SELF_SLOT)) == PAGE_DIR;
  }

  lemma WindowPage(i: nat)
    requires SAFE_PAGES <= i < LAST_PAGES
    ensures var v := PoolAddr(HEAP_START, i);
            WINDOW <= v < ADDR_SPACE && PteIdx(v) == i - SAFE_PAGES && 0 <= PteIdx(v) < 1024
  {}

  /** A present entry with the flags of page_table_add is none of the loader's. */
  lemma NotBootEntry(pa: int, d: int)
    requires 0 <= d <= SELF_SLOT
    ensures WithFlags(pa) != BootPde(d)
  {
    assert WithFlags(pa) == 8 * (pa / 8) + 7;
    assert BootPde(d) % 8 == 3 || BootPde(d) % 8 == 0;
  }

  /** page_table_add on pool page i leaves the loader's directory as it was exactly when the page lies
      below the window. */
  lemma DirectorySurvives(m: Words, i: nat, pa: int)
    requires BootDirectory(m) && i < LAST_PAGES
    ensures BootDirectory(AddWords(m, PAGE_DIR, PoolAddr(HEAP_START, i), pa)) <==> i < SAFE_PAGES
  {
    var v := PoolAddr(HEAP_START, i);
    if i < SAFE_PAGES {
      DirectoryKept(m, v, WithFlags(pa));
    } else {
      WindowPage(i);
      assert m(PAGE_DIR + SELF_SLOT * 4) == BootPde(SELF_SLOT);
      WindowEntry(m, v);
      NotBootEntry(pa, PteIdx(v));
    }
  }

  // ----- the loop of page_acquire -----

  /** Memory after page_acquire's loop has wired the pool pages from i on to the given frames. */
  function Wired(m: Words, i: nat, frames: seq<int>): Words {
    if frames == [] then m
    else var n := |frames| - 1; AddWords(Wired(m, i, frames[..n]), PAGE_DIR, PoolAddr(HEAP_START, i + n), frames[n])
  }

  /** Directory entry first is no longer the loader's; those from last on still are. */
  ghost predicate Overrun(m: Words, first: nat, last: nat) {
    && first < last <= 1024 && m(PAGE_DIR + first * 4) != BootPde(first)
    && forall d | last <= d <= SELF_SLOT :: m(PAGE_DIR + d * 4) == BootPde(d)
  }

  lemma OverrunStarts(m: Words, i: nat, pa: int)
    requires BootDirectory(m) && SAFE_PAGES <= i < LAST_PAGES
    ensures Overrun(AddWords(m, PAGE_DIR, PoolAddr(HEAP_START, i), pa), i - SAFE_PAGES, i - SAFE_PAGES + 1)
  {
    WindowPage(i);
    assert m(PAGE_DIR + SELF_SLOT * 4) == BootPde(SELF_SLOT);
    WindowEntry(m, PoolAddr(HEAP_START, i));
    NotBootEntry(pa, i - SAFE_PAGES);
  }

  lemma OverrunGrows(m: Words, first: nat, i: nat, pa: int)
    requires SAFE_PAGES <= i < LAST_PAGES && Overrun(m, first, i - SAFE_PAGES)
    ensures Overrun(AddWords(m, PAGE_DIR, PoolAddr(HEAP_START, i), pa), first, i - SAFE_PAGES + 1)
  {
    WindowPage(i);
    WindowEntry(m, PoolAddr(HEAP_START, i));
  }

  lemma {:induction false} WiredParts(m: Words, i: nat, frames: seq<int>)
    requires BootDirectory(m) && i + |frames| <= LAST_PAGES
    ensures frames == [] || i + |frames| <= SAFE_PAGES ==> BootDirectory(Wired(m, i, frames))
    ensures frames != [] && i + |frames| > SAFE_PAGES ==>
              Overrun(Wired(m, i, frames), if i < SAFE_PAGES then 0 else i - SAFE_PAGES, i + |frames| - SAFE_PAGES)
  {
    hide AddWords, BootDirectory, PoolAddr, Overrun;
    if frames != [] {
      var n := |frames| - 1;
      WiredParts(m, i, frames[..n]);
      var w := Wired(m, i, frames[..n]);
      if i + n < SAFE_PAGES {
        DirectorySurvives(w, i + n, frames[n]);
      } else if n == 0 || i + n == SAFE_PAGES {
        OverrunStarts(w, i + n, frames[n]);
      } else {
        OverrunGrows(w, if i < SAFE_PAGES then 0 else i - SAFE_PAGES, i + n, frames[n]);
      }
    }
  }

  /** The loop keeps the loader's directory exactly when the run it wires ends below the window. */
  lemma WiredExact(m: Words, i: nat, frames: seq<int>)
    requires BootDirectory(m) && i + |frames| <= LAST_PAGES
    ensures BootDirectory(Wired(m, i, frames)) <==> frames == [] || i + |frames| <= SAFE_PAGES
  {
    WiredParts(m, i, frames);
  }

  /** The failing call: page_malloc(PF_KERNEL, 0xFFC00000, 1) on the bitmap that pool_init binds. Its page is
      in the bitmap, and page_table_add stores the frame in directory entry 0: from then on the addresses
      below 4 MB are translated by whatever the new page holds. */
  lemma DirectoryOverwritten(m: Words, pa: int, x: int)
    requires BootDirectory(m) && pa % PG_SIZE == 0 && pa >= TABLES_END && 0 <= x < 0x40_0000
    ensures IndexIn(HEAP_START, WINDOW) == SAFE_PAGES < POOL_PAGES
    ensures var m' := AddWords(m, PAGE_DIR, WINDOW, pa);
            && !BootDirectory(m') && Walk(m', PAGE_DIR, WINDOW) == Mapped(pa)
            && Walk(m', PAGE_DIR, x) == if Present(m(pa + PteIdx(x) * 4)) then Mapped(Frame(m(pa + PteIdx(x) * 4)) + x % PG_SIZE) else Fault
  {
    DirectorySurvives(m, SAFE_PAGES, pa);
    assert m(PAGE_DIR + SELF_SLOT * 4) == BootPde(SELF_SLOT);
    WindowEntry(m, WINDOW);
    FlagsFrame(pa);
    assert PdeIdx(x) == 0 && 0 <= PteIdx(x) < 1024;
  }

  // ----- fixed addresses below the pool -----

  /** vaddr_acquire subtracts the pool's start in 32 bits. A fixed address has an index in the bitmap when it
      lies in the pool, and also when it lies in the low megabyte; any other one has an index behind it. */
  lemma FixedPages(v: int)
    requires IsAddr(v)
    ensures RawIndex(HEAP_START, v) < POOL_PAGES <==> v >= HEAP_START || v < LOW_MEM
    ensures v >= HEAP_START ==> RawIndex(HEAP_START, v) == IndexIn(HEAP_START, v)
    ensures v < LOW_MEM ==> RawIndex(HEAP_START, v) == LAST_PAGES + v / PG_SIZE
  {}

  lemma LowPage(v: int)
    requires 0 <= v < LOW_MEM && v % PG_SIZE == 0
    ensures var k := v + 0xC000_0000;
            && PdeIdx(v) == 0 && PdeIdx(k) == KERNEL_SLOT && PteIdx(v) == PteIdx(k) && k % PG_SIZE == 0 && LowTwin(k) == v
  {}

  /** So page_malloc at a page of the low megabyte finds a free bit, and takes that page's identity mapping
      away, and with it the kernel's own view of the page; no other translation changes. */
  lemma LowRemapped(m: Words, v: int, pa: int, x: int)
    requires BootDirectory(m) && 0 <= v < LOW_MEM && v % PG_SIZE == 0 && pa % PG_SIZE == 0 && IsAddr(x)
    ensures Walk(AddWords(m, PAGE_DIR, v, pa), PAGE_DIR, x) ==
            if PageOf(x) == v || PageOf(x) == v + 0xC000_0000 then Mapped(pa + x % PG_SIZE) else Walk(m, PAGE_DIR, x)
  {
    LowPage(v);
    assert m(PAGE_DIR + 0 * 4) == BootPde(0) && m(PAGE_DIR + KERNEL_SLOT * 4) == BootPde(KERNEL_SLOT);
    assert PteAddr(m, PAGE_DIR, v) == PteAddr(m, PAGE_DIR, v + 0xC000_0000);
    HeapMapExact(m, v + 0xC000_0000, pa, x);
  }

  // ----- which requests are safe -----

  /** With a null address a request is safe when some run that serves it ends below the limit, or when no run
      serves it; and in no other case. */
  lemma SafeIff(vb: seq<bool>, cnt: nat, limit: nat)
    requires cnt >= 1
    ensures FitsBelow(vb, cnt, limit) <==>
            (exists s :: RunFree(vb, s, cnt) && s + cnt <= limit) || (forall s :: !RunFree(vb, s, cnt))
  {
    if s :| RunFree(vb, s, cnt) {
      var r := LowestRun(vb, cnt, s);
      OneFit(vb, cnt, r, limit);
    } else {
      assert IsFirstFit(vb, cnt, -1);
      OneFit(vb, cnt, -1, limit);
    }
  }

  lemma {:induction false} LowestRun(vb: seq<bool>, cnt: nat, s: int) returns (r: int)
    requires RunFree(vb, s, cnt)
    ensures 0 <= r <= s && IsFirstFit(vb, cnt, r)
    decreases s
  {
    if t :| t < s && RunFree(vb, t, cnt) {
      r := LowestRun(vb, cnt, t);
    } else {
      r := s;
    }
  }

  /** On a fresh pool: every request for up to 0x3FB00 pages is safe, and so is one that is too large for
      the bitmap. */
  lemma FreshSafe(vb: seq<bool>, cnt: nat)
    requires cnt >= 1 && |vb| == POOL_PAGES && RunFree(vb, 0, POOL_PAGES)
    ensures FitsBelow(vb, cnt, SAFE_PAGES) <==> cnt <= SAFE_PAGES || cnt > POOL_PAGES
  {
    SafeIff(vb, cnt, SAFE_PAGES);
    if cnt <= POOL_PAGES { assert RunFree(vb, 0, cnt); }
  }
}
