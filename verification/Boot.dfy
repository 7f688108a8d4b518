/** setup_page of loader.s: the page directory and the first page table, and what the
    kernel's memory manager may rely on afterwards. */
module Boot {
  import opened Words
  import opened Paging

  const PAGE_DIR := 0x10_0000
  const PAGE_TABLE := 0x10_1000
  const BOOT_FLAGS := 3            // PG_US_S | PG_RW_W | PG_P
  const TABLES_END := 0x20_0000    // directory and 255 page tables end here
  const LOW_MEM := 0x10_0000

  /** The directory entry setup_page stores in slot i. */
  function BootPde(i: int): int {
    if i == 0 || i == KERNEL_SLOT then PAGE_TABLE + BOOT_FLAGS
    else if KERNEL_SLOT < i < SELF_SLOT then PAGE_TABLE + (i - KERNEL_SLOT) * PG_SIZE + BOOT_FLAGS
    else if i == SELF_SLOT then PAGE_DIR + BOOT_FLAGS
    else 0
  }

  /** The directory is the loader's. */
  ghost predicate BootDirectory(m: Words) {
    forall i | 0 <= i <= SELF_SLOT :: m(PAGE_DIR + i * 4) == BootPde(i)
  }

  /** The first 256 entries of page table 0 map the low megabyte. */
  ghost predicate LowEntries(m: Words) {
    forall i | 0 <= i < 256 :: m(PAGE_TABLE + i * 4) == i * PG_SIZE + BOOT_FLAGS
  }

  predicate BootWord(a: int) {
    PAGE_DIR <= a < PAGE_DIR + 4096 || PAGE_TABLE <= a < PAGE_TABLE + 1024
  }

  /** Every word outside the directory and the used part of page table 0 is as before. */
  twostate predicate OnlyBootWords(ram: Ram)
    reads ram
  {
    forall a | !BootWord(a) :: ram.w(a) == old(ram.w(a))
  }

  method ClearDirectory(ram: Ram)
    modifies ram
    ensures forall i | 0 <= i <= SELF_SLOT :: ram.w(PAGE_DIR + i * 4) == 0
    ensures OnlyBootWords(ram)
  {
    var esi, ecx := 0, 1024;
    while ecx != 0
      invariant 0 <= ecx && esi == 1024 - ecx
      invariant forall i | 0 <= i < esi :: ram.w(PAGE_DIR + i * 4) == 0
      invariant OnlyBootWords(ram)
    {
      ram.Put(PAGE_DIR + esi * 4, 0);
      esi, ecx := esi + 1, ecx - 1;
    }
  }

  method FillKernelSlots(ram: Ram)
    requires forall i | 0 <= i <= KERNEL_SLOT :: ram.w(PAGE_DIR + i * 4) == BootPde(i)
    modifies ram
    ensures forall i | 0 <= i < SELF_SLOT :: ram.w(PAGE_DIR + i * 4) == BootPde(i)
    ensures OnlyBootWords(ram)
  {
    var eax := PAGE_TABLE + BOOT_FLAGS + 0x1000;
    var esi, ecx := 769, 254;
    while ecx != 0
      invariant 0 <= ecx <= 254 && esi == 1023 - ecx
      invariant eax == PAGE_TABLE + (esi - KERNEL_SLOT) * PG_SIZE + BOOT_FLAGS
      invariant forall i | 0 <= i < esi :: ram.w(PAGE_DIR + i * 4) == BootPde(i)
      invariant OnlyBootWords(ram)
    {
      ram.Put(PAGE_DIR + esi * 4, eax);
      esi, eax, ecx := esi + 1, eax + 0x1000, ecx - 1;
    }
  }

  method FillLowTable(ram: Ram)
    modifies ram
    ensures LowEntries(ram.w)
    ensures BootDirectory(old(ram.w)) ==> BootDirectory(ram.w)
    ensures OnlyBootWords(ram)
  {
    var eax := 0 + BOOT_FLAGS;
    var esi, ecx := 0, 256;
    while ecx != 0
      invariant 0 <= ecx <= 256 && esi == 256 - ecx && eax == esi * PG_SIZE + BOOT_FLAGS
      invariant BootDirectory(old(ram.w)) ==> BootDirectory(ram.w)
      invariant forall i | 0 <= i < esi :: ram.w(PAGE_TABLE + i * 4) == i * PG_SIZE + BOOT_FLAGS
      invariant OnlyBootWords(ram)
    {
      ram.Put(PAGE_TABLE + esi * 4, eax);
      esi, eax, ecx := esi + 1, eax + 0x1000, ecx - 1;
    }
  }

  /** Every entry that setup_page stores is present, writable and the supervisor's. */
  lemma BootBits(m: Words, i: int)
    requires BootDirectory(m) && LowEntries(m)
    ensures 0 <= i <= SELF_SLOT && Present(m(PAGE_DIR + i * 4)) ==> m(PAGE_DIR + i * 4) == Frame(m(PAGE_DIR + i * 4)) + 3
    ensures 0 <= i < 256 ==> m(PAGE_TABLE + i * 4) == Frame(m(PAGE_TABLE + i * 4)) + 3
  {
    if 0 <= i <= SELF_SLOT {
      assert m(PAGE_DIR + i * 4) == BootPde(i);
    }
    if 0 <= i < 256 {
      assert m(PAGE_TABLE + i * 4) == i * PG_SIZE + BOOT_FLAGS;
      BootFrame(i);
    }
  }

  /** setup_page, loop by loop; the tables behind slots 769 to 1022 are not written. */
  method SetupPage(ram: Ram)
    modifies ram
    ensures BootDirectory(ram.w) && LowEntries(ram.w)
    ensures OnlyBootWords(ram)
  {
    ClearDirectory(ram);
    var eax := PAGE_TABLE + BOOT_FLAGS;
    ram.Put(PAGE_DIR + 0 * 4, eax);
    ram.Put(PAGE_DIR + KERNEL_SLOT * 4, eax);
    FillKernelSlots(ram);
    ram.Put(PAGE_DIR + SELF_SLOT * 4, PAGE_DIR + BOOT_FLAGS);
    FillLowTable(ram);
  }

  /** The memory manager's assumptions hold under the loader's directory: the recursive
      slot, a table for every address from 0xC0000000 on, all tables below the pools. */
  lemma DirectoryReady(m: Words)
    requires BootDirectory(m)
    ensures SelfMapped(m, PAGE_DIR) && TablesBelow(m, PAGE_DIR, TABLES_END)
    ensures forall v | 0xC000_0000 <= v < ADDR_SPACE :: HasTable(m, PAGE_DIR, v)
  {
    forall i | 0 <= i <= SELF_SLOT && Present(m(PAGE_DIR + i * 4))
      ensures Frame(m(PAGE_DIR + i * 4)) + PG_SIZE <= TABLES_END
      ensures i < SELF_SLOT ==> Frame(m(PAGE_DIR + i * 4)) != PAGE_DIR
    {
      assert m(PAGE_DIR + i * 4) == BootPde(i);
    }
    assert m(PAGE_DIR + SELF_SLOT * 4) == BootPde(SELF_SLOT);
    forall v | 0xC000_0000 <= v < ADDR_SPACE
      ensures HasTable(m, PAGE_DIR, v)
    {
      assert KERNEL_SLOT <= PdeIdx(v) <= SELF_SLOT;
      assert m(PAGE_DIR + PdeIdx(v) * 4) == BootPde(PdeIdx(v));
    }
  }

  /** Low memory is mapped twice: onto itself and at 0xC0000000. */
  lemma LowMemoryMapped(m: Words, x: int)
    requires BootDirectory(m) && LowEntries(m) && 0 <= x < LOW_MEM
    ensures Walk(m, PAGE_DIR, x) == Mapped(x) && Walk(m, PAGE_DIR, 0xC000_0000 + x) == Mapped(x)
  {
    var k := x / PG_SIZE;
    LowIndices(x);
    BootFrame(k);
    BootFrame(PAGE_TABLE / PG_SIZE);
    assert m(PAGE_DIR + 0 * 4) == BootPde(0) && m(PAGE_DIR + KERNEL_SLOT * 4) == BootPde(KERNEL_SLOT);
    assert m(PAGE_TABLE + k * 4) == k * PG_SIZE + BOOT_FLAGS;
  }

  lemma BootFrame(k: int)
    ensures Frame(k * PG_SIZE + BOOT_FLAGS) == k * PG_SIZE && Present(k * PG_SIZE + BOOT_FLAGS)
  {
    PageRemainder(k, BOOT_FLAGS);
    OddEntry(k * 2048, BOOT_FLAGS / 2);
  }

  lemma LowIndices(x: int)
    requires 0 <= x < LOW_MEM
    ensures var k, v := x / PG_SIZE, 0xC000_0000 + x;
            && x == k * PG_SIZE + x % PG_SIZE && v % PG_SIZE == x % PG_SIZE && 0 <= k < 256
            && PdeIdx(x) == 0 && PteIdx(x) == k && PdeIdx(v) == KERNEL_SLOT && PteIdx(v) == k
  {}

  /** The page below 4 MB that shares page table 0 with kernel address v. */
  function LowTwin(v: int): int { v - 0xC000_0000 }

  /** Under the loader's directory two mapped-table addresses share an entry exactly when they are
      on one page, or on a kernel page of the first 4 MB and its twin below 4 MB. */
  lemma BootEntrySharing(m: Words, v: int, w: int)
    requires BootDirectory(m) && 0xC000_0000 <= v < WINDOW && IsAddr(w) && HasTable(m, PAGE_DIR, w)
    ensures SameEntry(m, PAGE_DIR, v, w) <==>
            PageOf(v) == PageOf(w) || (PdeIdx(v) == KERNEL_SLOT && PageOf(w) == PageOf(LowTwin(v)))
  {
    SameEntryIff(m, PAGE_DIR, v, w);
    var i, j := PdeIdx(v), PdeIdx(w);
    assert KERNEL_SLOT <= i < SELF_SLOT && 0 <= j <= SELF_SLOT;
    assert m(PAGE_DIR + i * 4) == BootPde(i) && m(PAGE_DIR + j * 4) == BootPde(j);
    assert Frame(BootPde(i)) == PAGE_TABLE + (i - KERNEL_SLOT) * PG_SIZE;
    assert Frame(BootPde(j)) == Frame(BootPde(i)) <==> i == j || (i == KERNEL_SLOT && j == 0);
    PageIffIndices(v, w);
    var t := LowTwin(v);
    assert i == KERNEL_SLOT ==> PdeIdx(t) == 0 && PteIdx(t) == PteIdx(v);
    PageIffIndices(w, t);
  }

  /** Which addresses have a page table under the loader's directory: the first 4 MB, and the kernel's
      gigabyte. */
  lemma BootTables(m: Words, w: int)
    requires BootDirectory(m) && IsAddr(w)
    ensures HasTable(m, PAGE_DIR, w) <==> w < 0x40_0000 || w >= 0xC000_0000
  {
    var i := PdeIdx(w);
    assert 0 <= i <= SELF_SLOT && m(PAGE_DIR + i * 4) == BootPde(i);
    assert i == 0 <==> w < 0x40_0000;
    assert i >= KERNEL_SLOT <==> w >= 0xC000_0000;
    if 0 < i < KERNEL_SLOT {
      assert BootPde(i) == 0;
    } else {
      TablePresent(i);
    }
  }

  lemma TablePresent(i: int)
    requires i == 0 || KERNEL_SLOT <= i <= SELF_SLOT
    ensures Present(BootPde(i))
  {}

  /** Mapping a heap page changes the translation of that page and, in the heap's first 3 MB,
      of its twin below 4 MB; of no other page. */
  lemma HeapMapExact(m: Words, v: int, pa: int, w: int)
    requires BootDirectory(m) && 0xC000_0000 <= v < WINDOW && IsAddr(w)
    requires v % PG_SIZE == 0 && pa % PG_SIZE == 0
    ensures Walk(AddWords(m, PAGE_DIR, v, pa), PAGE_DIR, w) ==
            if PageOf(w) == v || (v < 0xC040_0000 && PageOf(w) == LowTwin(v)) then Mapped(pa + w % PG_SIZE)
            else Walk(m, PAGE_DIR, w)
  {
    DirectoryReady(m);
    AddMaps(m, PAGE_DIR, v, pa, w);
    BootTables(m, w);
    if HasTable(m, PAGE_DIR, w) { BootEntrySharing(m, v, w); }
    FirstTable(v);
    PageBelow(w);
  }

  lemma HeapUnmapExact(m: Words, v: int, w: int)
    requires BootDirectory(m) && 0xC000_0000 <= v < WINDOW && IsAddr(w)
    requires v % PG_SIZE == 0
    ensures Walk(RemoveEntry(m, PAGE_DIR, v), PAGE_DIR, w) ==
            if PageOf(w) == v || (v < 0xC040_0000 && PageOf(w) == LowTwin(v)) then Fault
            else Walk(m, PAGE_DIR, w)
  {
    DirectoryReady(m);
    RemoveUnmaps(m, PAGE_DIR, v, w);
    BootTables(m, w);
    if HasTable(m, PAGE_DIR, w) { BootEntrySharing(m, v, w); }
    FirstTable(v);
    PageBelow(w);
  }

  lemma PageBelow(w: int)
    ensures PageOf(w) <= w < PageOf(w) + PG_SIZE
    ensures w < 0xC000_0000 ==> PageOf(w) < 0xC000_0000
    ensures w >= 0x40_0000 ==> PageOf(w) >= 0x40_0000
  {}

  lemma FirstTable(v: int)
    requires 0xC000_0000 <= v < WINDOW && v % PG_SIZE == 0
    ensures PageOf(v) == v && PageOf(LowTwin(v)) == LowTwin(v)
    ensures PdeIdx(v) == KERNEL_SLOT <==> v < 0xC040_0000
  {}

  /** So the promise that no other page changes fails: the first heap page also appears at 1 MB. */
  lemma TwinAppears(m: Words, pa: int)
    requires BootDirectory(m) && pa % PG_SIZE == 0
    ensures Walk(AddWords(m, PAGE_DIR, 0xC010_0000, pa), PAGE_DIR, 0x0010_0000) == Mapped(pa)
  {
    assert m(PAGE_DIR + 0 * 4) == BootPde(0);
    HeapMapExact(m, 0xC010_0000, pa, 0x0010_0000);
  }
}
