/** Two-level 32-bit paging and its recursive slot: pde_ptr, pte_ptr, addr_v2p,
    page_table_add and page_table_remove of memory.c over physical memory. */
module Paging {
  import opened Words

  const PG_SIZE := 4096
  const ADDR_SPACE := 0x1_0000_0000
  const WINDOW := 0xFFC0_0000      // the recursive window: page tables seen as memory
  const ENTRY_FLAGS := 7           // PG_US_U | PG_RW_W | PG_P_1
  const SELF_SLOT := 1023
  const KERNEL_SLOT := 768         // first directory entry of the kernel's gigabyte

  predicate IsAddr(v: int) { 0 <= v < ADDR_SPACE }

  function PageOf(v: int): int { v - v % PG_SIZE }

  // ----- the address arithmetic of memory.h and memory.c -----

  function PdeIdx(v: int): int { v / 0x40_0000 }

  function PteIdx(v: int): int { v % 0x40_0000 / 0x1000 }

  /** pde_ptr: the virtual address of v's directory entry. */
  function PdePtr(v: int): int { 0xFFFF_F000 + PdeIdx(v) * 4 }

  /** pte_ptr: the virtual address of v's table entry. */
  function PtePtr(v: int): int { 0xFFC0_0000 + (v - v % 0x40_0000) / 0x400 + PteIdx(v) * 4 }

  // ----- the hardware walk (Intel SDM Volume 3A, section 4.3, 4-KByte pages) -----

  datatype Translation = Fault | Mapped(pa: int)

  predicate Present(entry: int) { entry % 2 == 1 }

  function Frame(entry: int): int { PageOf(entry) }

  function PdeAddr(cr3: int, v: int): int { cr3 + PdeIdx(v) * 4 }

  function PteAddr(m: Words, cr3: int, v: int): int { Frame(m(PdeAddr(cr3, v))) + PteIdx(v) * 4 }

  function Walk(m: Words, cr3: int, v: int): Translation {
    if !Present(m(PdeAddr(cr3, v))) then Fault
    else if !Present(m(PteAddr(m, cr3, v))) then Fault
    else Mapped(Frame(m(PteAddr(m, cr3, v))) + v % PG_SIZE)
  }

  /** The last directory entry points back at the directory, and no other one does. */
  ghost predicate SelfMapped(m: Words, cr3: int) {
    && cr3 % PG_SIZE == 0
    && Present(m(cr3 + SELF_SLOT * 4)) && Frame(m(cr3 + SELF_SLOT * 4)) == cr3
    && forall i | 0 <= i < SELF_SLOT :: Present(m(cr3 + i * 4)) ==> Frame(m(cr3 + i * 4)) != cr3
  }

  predicate HasTable(m: Words, cr3: int, v: int) { Present(m(PdeAddr(cr3, v))) }

  lemma WalkAligned(m: Words, cr3: int, v: int)
    requires Walk(m, cr3, v).Mapped? && Aligned(v)
    ensures Aligned(Walk(m, cr3, v).pa)
  {
    var entry := m(PteAddr(m, cr3, v));
    assert Walk(m, cr3, v).pa == Frame(entry) + v % PG_SIZE;
    PageAligned(entry);
    OffsetAligned(v);
    AlignedSum(Frame(entry), v % PG_SIZE);
  }

  lemma AlignedSum(a: int, b: int)
    requires Aligned(a) && Aligned(b)
    ensures Aligned(a + b)
  {}

  lemma PageRemainder(k: int, r: int)
    requires 0 <= r < PG_SIZE
    ensures (k * PG_SIZE + r) % PG_SIZE == r
  {}

  lemma OddEntry(h: int, r: int)
    ensures Present(2 * h + 2 * r + 1)
  {}

  lemma EighthOfPage(k: int)
    ensures k * PG_SIZE % 8 == 0
  {
    assert k * PG_SIZE == 8 * (512 * k);
  }

  lemma PageAligned(a: int)
    ensures Aligned(PageOf(a)) && PageOf(a) % PG_SIZE == 0
  {
    assert PageOf(a) == 4 * (1024 * (a / PG_SIZE));
    assert PageOf(a) == PG_SIZE * (a / PG_SIZE);
  }

  lemma OffsetAligned(v: int)
    requires Aligned(v)
    ensures Aligned(v % PG_SIZE)
  {
    assert v == 4 * (v / 4);
    assert v % PG_SIZE == 4 * (v / 4 - 1024 * (v / PG_SIZE));
  }

  // ----- recursive mapping -----

  lemma PtePtrSum(v: int)
    requires IsAddr(v)
    ensures PtePtr(v) == WINDOW + PdeIdx(v) * 0x1000 + PteIdx(v) * 4 && 0 <= PdeIdx(v) < 1024 && 0 <= PteIdx(v) < 1024
  {
    assert v - v % 0x40_0000 == 0x400 * (PdeIdx(v) * 0x1000);
  }

  lemma WindowSlot(e: int)
    requires WINDOW <= e < 0x1_0000_0000
    ensures PdeIdx(e) == SELF_SLOT && e % 0x40_0000 == e - WINDOW
  {}

  lemma FrameParts(x: int, q: int, r: int)
    requires x == q * 0x1000 + r && 0 <= r < 0x1000
    ensures x / 0x1000 == q && x % 0x1000 == r
  {}

  lemma FourTimes(x: int, q: int)
    requires x == 4 * q
    ensures Aligned(x)
  {}

  lemma WindowParts(e: int, d: int, k: int)
    requires 0 <= d < 1024 && 0 <= k < 1024 && e == WINDOW + d * 0x1000 + k * 4
    ensures PdeIdx(e) == SELF_SLOT && PteIdx(e) == d && e % PG_SIZE == k * 4 && Aligned(e)
  {
    hide PdeIdx, Aligned;
    WindowSlot(e);
    FrameParts(e - WINDOW, d, k * 4);
    FrameParts(e, 0xFFC00 + d, k * 4);
    FourTimes(e, 0x3FF0_0000 + d * 0x400 + k);
  }

  /** Where pte_ptr(v) lies in the window. */
  lemma PtePtrIndex(v: int)
    requires IsAddr(v)
    ensures IsAddr(PtePtr(v)) && PtePtr(v) >= WINDOW && Aligned(PtePtr(v))
    ensures PdeIdx(PtePtr(v)) == SELF_SLOT && PteIdx(PtePtr(v)) == PdeIdx(v) && PtePtr(v) % PG_SIZE == PteIdx(v) * 4
  {
    hide PdeIdx, PteIdx, PtePtr;
    PtePtrSum(v);
    WindowParts(PtePtr(v), PdeIdx(v), PteIdx(v));
  }

  /** The walk of pte_ptr(v) lands on v's own table entry. */
  lemma PtePtrWalk(m: Words, cr3: int, v: int)
    requires SelfMapped(m, cr3) && IsAddr(v) && HasTable(m, cr3, v)
    ensures IsAddr(PtePtr(v)) && PtePtr(v) >= WINDOW && Aligned(PtePtr(v))
    ensures Walk(m, cr3, PtePtr(v)) == Mapped(PteAddr(m, cr3, v))
  {
    hide PtePtr, PdeIdx, PteIdx;
    PtePtrIndex(v);
  }

  /** pde_ptr is pte_ptr applied twice, and its walk lands on v's directory entry. */
  lemma PdePtrWalk(m: Words, cr3: int, v: int)
    requires SelfMapped(m, cr3) && IsAddr(v)
    ensures PdePtr(v) == PtePtr(PtePtr(v)) && Aligned(PdePtr(v))
    ensures Walk(m, cr3, PdePtr(v)) == Mapped(PdeAddr(cr3, v))
  {
    hide PteIdx, PtePtr;
    PtePtrIndex(v);
    PtePtrSum(PtePtr(v));
    WindowParts(PdePtr(v), SELF_SLOT, PdeIdx(v));
  }

  // ----- what mapping and unmapping leave in physical memory -----

  function WithFlags(pa: int): int { pa - pa % 8 + ENTRY_FLAGS }

  function AddWords(m: Words, cr3: int, v: int, pa: int): Words {
    Store(m, PteAddr(m, cr3, v), WithFlags(pa))
  }

  function RemoveEntry(m: Words, cr3: int, v: int): Words {
    Store(m, PteAddr(m, cr3, v), m(PteAddr(m, cr3, v)) - m(PteAddr(m, cr3, v)) % 2)
  }

  lemma FlagsFrame(pa: int)
    requires pa % PG_SIZE == 0
    ensures Frame(WithFlags(pa)) == pa && Present(WithFlags(pa)) && WithFlags(pa) == pa + 7
  {
    var k := pa / PG_SIZE;
    EighthOfPage(k);
    assert WithFlags(pa) == k * PG_SIZE + ENTRY_FLAGS;
    PageRemainder(k, ENTRY_FLAGS);
    OddEntry(k * 2048, ENTRY_FLAGS / 2);
  }

  lemma ClearedEntry(entry: int)
    ensures !Present(entry - entry % 2)
  {}

  /** v and w are governed by one table entry. */
  predicate SameEntry(m: Words, cr3: int, v: int, w: int) {
    PteAddr(m, cr3, v) == PteAddr(m, cr3, w)
  }

  lemma SameEntryIff(m: Words, cr3: int, v: int, w: int)
    ensures SameEntry(m, cr3, v, w) <==>
            PteIdx(v) == PteIdx(w) && Frame(m(PdeAddr(cr3, v))) == Frame(m(PdeAddr(cr3, w)))
  {
    var f, g := Frame(m(PdeAddr(cr3, v))), Frame(m(PdeAddr(cr3, w)));
    assert f % PG_SIZE == 0 && g % PG_SIZE == 0;
    assert 0 <= PteIdx(v) * 4 < PG_SIZE && 0 <= PteIdx(w) * 4 < PG_SIZE;
  }

  /** A store to v's table entry, for v below the window, is not a store to the directory. */
  lemma EntryOutsideDirectory(m: Words, cr3: int, v: int, w: int)
    requires SelfMapped(m, cr3) && 0 <= v < WINDOW && IsAddr(w) && HasTable(m, cr3, v)
    ensures PteAddr(m, cr3, v) != PdeAddr(cr3, w)
  {
    hide PageOf;
    assert 0 <= PdeIdx(v) < SELF_SLOT && 0 <= PdeIdx(w) <= SELF_SLOT && 0 <= PteIdx(v) < 1024;
    assert PdeAddr(cr3, v) == cr3 + PdeIdx(v) * 4;
    var f := Frame(m(PdeAddr(cr3, v)));
    PageAligned(m(PdeAddr(cr3, v)));
    hide PdeIdx, PteIdx, Present;
    PagesDiffer(f, cr3, PteIdx(v) * 4, PdeIdx(w) * 4);
  }

  lemma PagesDiffer(a: int, b: int, r: int, q: int)
    requires a % PG_SIZE == 0 && b % PG_SIZE == 0 && a != b && 0 <= r < PG_SIZE && 0 <= q < PG_SIZE
    ensures a + r != b + q
  {}

  /** Rewriting v's entry leaves every translation under another entry as it was. */
  lemma OtherTranslations(m: Words, cr3: int, v: int, entry: int, w: int)
    requires SelfMapped(m, cr3) && 0 <= v < WINDOW && IsAddr(w) && HasTable(m, cr3, v)
    requires !SameEntry(m, cr3, v, w)
    ensures Walk(Store(m, PteAddr(m, cr3, v), entry), cr3, w) == Walk(m, cr3, w)
  {
    EntryOutsideDirectory(m, cr3, v, w);
  }

  /** An address without a page table translates before a store to an entry as it does after. */
  lemma NoTableKept(m: Words, cr3: int, v: int, entry: int, w: int)
    requires SelfMapped(m, cr3) && 0 <= v < WINDOW && HasTable(m, cr3, v) && IsAddr(w) && !HasTable(m, cr3, w)
    ensures Walk(m, cr3, w) == Fault && Walk(Store(m, PteAddr(m, cr3, v), entry), cr3, w) == Fault
  {
    EntryOutsideDirectory(m, cr3, v, w);
  }

  /** page_table_add maps the whole page, changes nothing else except pages under the same
      entry, and those exactly as it changes v's page. */
  lemma AddMaps(m: Words, cr3: int, v: int, pa: int, w: int)
    requires SelfMapped(m, cr3) && 0 <= v < WINDOW && HasTable(m, cr3, v)
    requires v % PG_SIZE == 0 && pa % PG_SIZE == 0 && IsAddr(w)
    ensures Walk(AddWords(m, cr3, v, pa), cr3, w) ==
            if HasTable(m, cr3, w) && SameEntry(m, cr3, v, w) then Mapped(pa + w % PG_SIZE) else Walk(m, cr3, w)
  {
    FlagsFrame(pa);
    if !HasTable(m, cr3, w) {
      NoTableKept(m, cr3, v, WithFlags(pa), w);
    } else if SameEntry(m, cr3, v, w) {
      EntryOutsideDirectory(m, cr3, v, w);
    } else {
      OtherTranslations(m, cr3, v, WithFlags(pa), w);
    }
  }

  lemma RemoveUnmaps(m: Words, cr3: int, v: int, w: int)
    requires SelfMapped(m, cr3) && 0 <= v < WINDOW && HasTable(m, cr3, v) && IsAddr(w)
    ensures Walk(RemoveEntry(m, cr3, v), cr3, w) ==
            if HasTable(m, cr3, w) && SameEntry(m, cr3, v, w) then Fault else Walk(m, cr3, w)
  {
    var entry := m(PteAddr(m, cr3, v)) - m(PteAddr(m, cr3, v)) % 2;
    ClearedEntry(m(PteAddr(m, cr3, v)));
    if !HasTable(m, cr3, w) {
      NoTableKept(m, cr3, v, entry, w);
    } else if SameEntry(m, cr3, v, w) {
      EntryOutsideDirectory(m, cr3, v, w);
    } else {
      OtherTranslations(m, cr3, v, entry, w);
    }
  }

  /** The entry that page_table_add stores is the frame with present, writable and user bit set, and
      page_table_remove takes nothing but the present bit from it. */
  lemma EntryBits(m: Words, cr3: int, v: int, pa: int)
    requires SelfMapped(m, cr3) && 0 <= v < WINDOW && HasTable(m, cr3, v) && pa % PG_SIZE == 0
    ensures PteAddr(AddWords(m, cr3, v, pa), cr3, v) == PteAddr(m, cr3, v)
    ensures AddWords(m, cr3, v, pa)(PteAddr(m, cr3, v)) == pa + 7
    ensures RemoveEntry(AddWords(m, cr3, v, pa), cr3, v)(PteAddr(m, cr3, v)) == pa + 6
  {
    FlagsFrame(pa);
    EntryOutsideDirectory(m, cr3, v, v);
    hide PdeIdx, PteIdx, PageOf;
    assert (pa + 7) % 2 == 1;
  }

  // ----- an address without a page table -----

  /** Memory after page_table_add has given v's directory entry the table pt, cleared the table and
      filled in v's entry. */
  function NewTableWords(m: Words, cr3: int, v: int, pt: int, pa: int): Words {
    Store(Clear(Store(m, PdeAddr(cr3, v), WithFlags(pt)), pt, PG_SIZE), pt + PteIdx(v) * 4, WithFlags(pa))
  }

  /** A frame that is neither the directory nor a page table. */
  ghost predicate SpareFrame(m: Words, cr3: int, pt: int) {
    && pt % PG_SIZE == 0 && pt != cr3
    && forall i | 0 <= i <= SELF_SLOT && Present(m(cr3 + i * 4)) :: Frame(m(cr3 + i * 4)) != pt
  }

  /** The directory after the step: v's entry leads to pt, every other one is as it was. */
  lemma NewTableDirectory(m: Words, cr3: int, v: int, pt: int, pa: int, w: int)
    requires SelfMapped(m, cr3) && IsAddr(v) && IsAddr(w) && !HasTable(m, cr3, v) && SpareFrame(m, cr3, pt)
    ensures var n := NewTableWords(m, cr3, v, pt, pa);
            && (PdeIdx(w) == PdeIdx(v) ==> HasTable(n, cr3, w) && Frame(n(PdeAddr(cr3, w))) == pt)
            && (PdeIdx(w) != PdeIdx(v) ==> n(PdeAddr(cr3, w)) == m(PdeAddr(cr3, w)))
  {
    assert 0 <= PdeIdx(v) <= SELF_SLOT && 0 <= PdeIdx(w) <= SELF_SLOT && 0 <= PteIdx(v) < 1024;
    FlagsFrame(pt);
    FramesOff(cr3, pt, PdeIdx(w) * 4);
    hide WithFlags;
  }

  lemma FramesOff(a: int, b: int, off: int)
    requires a % PG_SIZE == 0 && b % PG_SIZE == 0 && a != b && 0 <= off < PG_SIZE
    ensures !(b <= a + off < b + PG_SIZE)
  {}

  /** Another page's entry after the step. */
  lemma NewTableEntry(m: Words, cr3: int, v: int, pt: int, pa: int, w: int)
    requires SelfMapped(m, cr3) && IsAddr(v) && IsAddr(w) && !HasTable(m, cr3, v) && SpareFrame(m, cr3, pt)
    requires HasTable(m, cr3, w) && Frame(m(PdeAddr(cr3, w))) != cr3
    ensures NewTableWords(m, cr3, v, pt, pa)(PteAddr(m, cr3, w)) == m(PteAddr(m, cr3, w))
  {
    var f := Frame(m(PdeAddr(cr3, w)));
    assert 0 <= PdeIdx(v) <= SELF_SLOT && 0 <= PdeIdx(w) <= SELF_SLOT && 0 <= PteIdx(w) < 1024 && 0 <= PteIdx(v) < 1024;
    assert PdeAddr(cr3, w) == cr3 + PdeIdx(w) * 4 && f != pt;
    PageAligned(m(PdeAddr(cr3, w)));
    FramesOff(f, pt, PteIdx(w) * 4);
    FramesOff(f, cr3, PteIdx(w) * 4);
    hide WithFlags;
  }

  /** With a spare frame for the missing table v's page becomes mapped, and below the window no other
      translation changes. */
  lemma NewTableMaps(m: Words, cr3: int, v: int, pt: int, pa: int, w: int)
    requires SelfMapped(m, cr3) && IsAddr(v) && 0 <= w < WINDOW && !HasTable(m, cr3, v) && SpareFrame(m, cr3, pt)
    requires pa % PG_SIZE == 0
    ensures Walk(NewTableWords(m, cr3, v, pt, pa), cr3, w) ==
            if PageOf(w) == PageOf(v) then Mapped(pa + w % PG_SIZE) else Walk(m, cr3, w)
  {
    NewTableDirectory(m, cr3, v, pt, pa, w);
    PageIffIndices(v, w);
    FlagsFrame(pa);
    assert 0 <= PdeIdx(w) < SELF_SLOT && 0 <= PteIdx(w) < 1024 && 0 <= PteIdx(v) < 1024;
    assert PdeAddr(cr3, w) == cr3 + PdeIdx(w) * 4;
    if PdeIdx(w) == PdeIdx(v) {
      EmptyEntry(m, cr3, v, pt, pa, PteIdx(w));
    } else if HasTable(m, cr3, w) {
      NewTableEntry(m, cr3, v, pt, pa, w);
    }
    hide WithFlags, NewTableWords;
  }

  /** The two entries it stores. */
  lemma NewTableBits(m: Words, cr3: int, v: int, pt: int, pa: int)
    requires SelfMapped(m, cr3) && IsAddr(v) && !HasTable(m, cr3, v) && SpareFrame(m, cr3, pt) && pa % PG_SIZE == 0
    ensures NewTableWords(m, cr3, v, pt, pa)(PdeAddr(cr3, v)) == pt + 7 && NewTableWords(m, cr3, v, pt, pa)(pt + PteIdx(v) * 4) == pa + 7
  {
    assert 0 <= PdeIdx(v) <= SELF_SLOT && 0 <= PteIdx(v) < 1024;
    FlagsFrame(pt);
    FlagsFrame(pa);
    FramesOff(cr3, pt, PdeIdx(v) * 4);
    hide WithFlags;
  }

  lemma EmptyEntry(m: Words, cr3: int, v: int, pt: int, pa: int, j: int)
    requires 0 <= j < 1024
    ensures 0 <= PteIdx(v) < 1024
    ensures NewTableWords(m, cr3, v, pt, pa)(pt + j * 4) == if j == PteIdx(v) then WithFlags(pa) else 0
  {
    hide WithFlags;
  }

  // ----- the operations, through virtual addresses -----

  class Mmu {
    const ram: Ram     // physical memory
    const cr3: int

    constructor (ram: Ram, cr3: int)
      ensures this.ram == ram && this.cr3 == cr3
    {
      this.ram := ram;
      this.cr3 := cr3;
    }

    /** A load through the page tables. */
    method Load(v: int) returns (x: int)
      requires Walk(ram.w, cr3, v).Mapped? && Aligned(v)
      ensures x == ram.w(Walk(ram.w, cr3, v).pa)
    {
      var pa := Walk(ram.w, cr3, v).pa;
      WalkAligned(ram.w, cr3, v);
      x := ram.Get(pa);
    }

    /** A store through the page tables. */
    method Save(v: int, x: int)
      requires Walk(ram.w, cr3, v).Mapped? && Aligned(v)
      modifies ram
      ensures ram.w == Store(old(ram.w), Walk(old(ram.w), cr3, v).pa, x)
    {
      var pa := Walk(ram.w, cr3, v).pa;
      WalkAligned(ram.w, cr3, v);
      ram.Put(pa, x);
    }

    /** addr_v2p */
    method AddrV2P(v: int) returns (pa: int)
      requires SelfMapped(ram.w, cr3) && IsAddr(v) && HasTable(ram.w, cr3, v)
      ensures pa == Frame(ram.w(PteAddr(ram.w, cr3, v))) + v % PG_SIZE
      ensures Walk(ram.w, cr3, v).Mapped? ==> Walk(ram.w, cr3, v) == Mapped(pa)
    {
      PtePtrWalk(ram.w, cr3, v);
      var pte := Load(PtePtr(v));
      pa := PageOf(pte) + v % PG_SIZE;
    }

    /** The test of v's directory entry in page_table_add. */
    method TablePresent(v: int) returns (present: bool)
      requires SelfMapped(ram.w, cr3) && IsAddr(v)
      ensures present == HasTable(ram.w, cr3, v)
    {
      PdePtrWalk(ram.w, cr3, v);
      var pde := Load(PdePtr(v));
      present := Present(pde);
    }

    /** page_table_add, with v's page table present as the loader leaves it. */
    method PageTableAdd(v: int, pa: int)
      requires SelfMapped(ram.w, cr3) && IsAddr(v) && HasTable(ram.w, cr3, v)
      modifies ram
      ensures ram.w == AddWords(old(ram.w), cr3, v, pa)
    {
      var present := TablePresent(v);
      assert present;
      PtePtrWalk(ram.w, cr3, v);
      Save(PtePtr(v), WithFlags(pa));
    }

    /** page_table_add where v has no page table; palloc supplies the frame pt for it. */
    method PageTableAddNew(v: int, pa: int, pt: int)
      requires SelfMapped(ram.w, cr3) && IsAddr(v) && !HasTable(ram.w, cr3, v) && SpareFrame(ram.w, cr3, pt)
      modifies ram
      ensures ram.w == NewTableWords(old(ram.w), cr3, v, pt, pa)
    {
      hide WithFlags, SpareFrame, Walk, SelfMapped, PageOf, PtePtr, PdePtr, PteAddr, PdeAddr, PteIdx, PdeIdx, Aligned, Clear, Store;
      ghost var m := ram.w;
      var present := TablePresent(v);
      assert !present;
      PdePtrWalk(ram.w, cr3, v);
      Save(PdePtr(v), WithFlags(pt));
      TableLinked(m, cr3, v, pt);
      PtePtrWalk(ram.w, cr3, v);
      ClearPage(PageOf(PtePtr(v)), pt);
      TableCleared(m, cr3, v, pt);
      PtePtrWalk(ram.w, cr3, v);
      Save(PtePtr(v), WithFlags(pa));
    }

    /** memset of the page at v, which lies on frame pt. */
    method ClearPage(v: int, ghost pt: int)
      requires Walk(ram.w, cr3, v) == Mapped(pt) && Aligned(pt)
      modifies ram
      ensures ram.w == Clear(old(ram.w), pt, PG_SIZE)
    {
      var pa := Walk(ram.w, cr3, v).pa;
      assert Aligned(PG_SIZE);
      ram.Zero(pa, PG_SIZE);
    }

    /** page_table_remove, without the TLB. */
    method PageTableRemove(v: int)
      requires SelfMapped(ram.w, cr3) && IsAddr(v) && HasTable(ram.w, cr3, v)
      modifies ram
      ensures ram.w == RemoveEntry(old(ram.w), cr3, v)
    {
      hide Walk, SelfMapped, PtePtr, PteAddr, PdeAddr, Aligned, Store;
      PtePtrWalk(ram.w, cr3, v);
      var pte := Load(PtePtr(v));
      Save(PtePtr(v), pte - pte % 2);
    }
  }

  /** Behind the store to its directory entry v's table is pt, and pte_ptr's page shows it. */
  lemma TableLinked(m: Words, cr3: int, v: int, pt: int)
    requires SelfMapped(m, cr3) && IsAddr(v) && !HasTable(m, cr3, v) && SpareFrame(m, cr3, pt)
    ensures var n := Store(m, PdeAddr(cr3, v), WithFlags(pt));
            && SelfMapped(n, cr3) && HasTable(n, cr3, v) && Frame(n(PdeAddr(cr3, v))) == pt && Aligned(pt)
            && Walk(n, cr3, PageOf(PtePtr(v))) == Mapped(pt)
  {
    var n := Store(m, PdeAddr(cr3, v), WithFlags(pt));
    FlagsFrame(pt);
    assert 0 <= PdeIdx(v) <= SELF_SLOT;
    assert PdeIdx(v) != SELF_SLOT by { assert PdeAddr(cr3, v) == cr3 + PdeIdx(v) * 4; }
    assert SelfMapped(n, cr3);
    PtePtrWalk(n, cr3, v);
    WalkAtPage(n, cr3, PtePtr(v), pt, PteIdx(v) * 4);
    PageAligned(pt);
    assert PageOf(pt) == pt;
  }

  lemma WalkAtPage(m: Words, cr3: int, e: int, pt: int, off: int)
    requires Walk(m, cr3, e) == Mapped(pt + off) && pt % PG_SIZE == 0 && 0 <= off < PG_SIZE
    ensures Walk(m, cr3, PageOf(e)) == Mapped(pt)
  {
    PageIffIndices(e, PageOf(e));
    PageAligned(e);
    WalkParts(m, cr3, e);
    PageRemainder(pt / PG_SIZE, off);
    PageAligned(m(PteAddr(m, cr3, e)));
    assert PageOf(PageOf(e)) == PageOf(e) && PageOf(e) % PG_SIZE == 0;
  }

  /** Clearing the table touches no directory entry. */
  lemma TableCleared(m: Words, cr3: int, v: int, pt: int)
    requires SelfMapped(m, cr3) && IsAddr(v) && !HasTable(m, cr3, v) && SpareFrame(m, cr3, pt)
    ensures var n := Clear(Store(m, PdeAddr(cr3, v), WithFlags(pt)), pt, PG_SIZE);
            SelfMapped(n, cr3) && HasTable(n, cr3, v) && PteAddr(n, cr3, v) == pt + PteIdx(v) * 4
  {
    TableLinked(m, cr3, v, pt);
    var k := Store(m, PdeAddr(cr3, v), WithFlags(pt));
    var n := Clear(k, pt, PG_SIZE);
    forall i | 0 <= i <= SELF_SLOT ensures n(cr3 + i * 4) == k(cr3 + i * 4) {
      FramesOff(cr3, pt, i * 4);
    }
    assert 0 <= PdeIdx(v) <= SELF_SLOT && PdeAddr(cr3, v) == cr3 + PdeIdx(v) * 4;
    hide WithFlags, Walk;
  }

  // ----- virtual memory as flat memory -----

  /** What a load at v sees. */
  function Seen(m: Words, cr3: int, v: int): int
    requires Walk(m, cr3, v).Mapped?
  {
    m(Walk(m, cr3, v).pa)
  }

  /** The directory and every page table lie below limit. */
  ghost predicate TablesBelow(m: Words, cr3: int, limit: int) {
    && cr3 + PG_SIZE <= limit
    && forall i | 0 <= i <= SELF_SLOT && Present(m(cr3 + i * 4)) :: Frame(m(cr3 + i * 4)) + PG_SIZE <= limit
  }

  lemma TableWordsBelow(m: Words, cr3: int, limit: int, w: int)
    requires TablesBelow(m, cr3, limit) && IsAddr(w)
    ensures PdeAddr(cr3, w) < limit
    ensures HasTable(m, cr3, w) ==> PteAddr(m, cr3, w) < limit
  {
    assert 0 <= PdeIdx(w) <= SELF_SLOT && 0 <= PteIdx(w) < 1024;
    assert PdeAddr(cr3, w) == cr3 + PdeIdx(w) * 4;
  }

  /** A store to a data frame moves no translation, and among pages on different frames it
      is seen at its own address only: mapped memory behaves as flat memory. */
  lemma FlatStore(m: Words, cr3: int, limit: int, v: int, x: int, w: int)
    requires TablesBelow(m, cr3, limit) && IsAddr(v) && IsAddr(w) && Aligned(v) && Aligned(w)
    requires Walk(m, cr3, v).Mapped? && Walk(m, cr3, w).Mapped? && Walk(m, cr3, v).pa >= limit
    requires PageOf(v) != PageOf(w) ==> Frame(Walk(m, cr3, v).pa) != Frame(Walk(m, cr3, w).pa)
    ensures var m' := Store(m, Walk(m, cr3, v).pa, x);
            Walk(m', cr3, w) == Walk(m, cr3, w) && Seen(m', cr3, w) == if v == w then x else Seen(m, cr3, w)
  {
    TableWordsBelow(m, cr3, limit, w);
    WalkParts(m, cr3, v);
    WalkParts(m, cr3, w);
    PageIffIndices(v, w);
    assert v == PageOf(v) + v % PG_SIZE && w == PageOf(w) + w % PG_SIZE;
  }

  lemma WalkParts(m: Words, cr3: int, v: int)
    requires Walk(m, cr3, v).Mapped?
    ensures Frame(Walk(m, cr3, v).pa) == Frame(m(PteAddr(m, cr3, v)))
    ensures Walk(m, cr3, v).pa == Frame(Walk(m, cr3, v).pa) + v % PG_SIZE
  {
    PageAligned(m(PteAddr(m, cr3, v)));
  }

  lemma PageParts(v: int)
    ensures v / 0x1000 == PdeIdx(v) * 0x400 + PteIdx(v) && 0 <= PteIdx(v) < 0x400
    ensures PageOf(v) == v / 0x1000 * 0x1000
  {}

  /** A page is its directory index and its table index. */
  lemma PageIffIndices(v: int, w: int)
    ensures PageOf(v) == PageOf(w) <==> PdeIdx(v) == PdeIdx(w) && PteIdx(v) == PteIdx(w)
  {
    PageParts(v);
    PageParts(w);
  }
}
