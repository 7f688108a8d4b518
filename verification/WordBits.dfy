/** The masked expressions of memory.h and memory.c on 32-bit words, as the source writes them, and
    what they are as numbers: the arithmetic of the Paging module. */
module WordBits {
  import opened Paging

  // ----- the source's expressions -----

  /** PDE_IDX and PTE_IDX. */
  function DirBits(v: bv32): bv32 { (v & 0xFFC0_0000) >> 22 }

  function TabBits(v: bv32): bv32 { (v & 0x003F_F000) >> 12 }

  function PageBits(v: bv32): bv32 { v & 0xFFFF_F000 }

  function OffBits(v: bv32): bv32 { v & 0x0000_0FFF }

  function PdePtrBits(v: bv32): bv32 { 0xFFFF_F000 + DirBits(v) * 4 }

  function PtePtrBits(v: bv32): bv32 { 0xFFC0_0000 + ((v & 0xFFC0_0000) >> 10) + TabBits(v) * 4 }

  function AddressBits(e: bv32, v: bv32): bv32 { PageBits(e) + OffBits(v) }

  function FlaggedBits(e: bv32): bv32 { e | (1 << 2) | (1 << 1) | (1 << 0) }

  function ClearedBits(e: bv32): bv32 { e & !(1 << 0) }

  predicate PresentBit(e: bv32) { e & 1 != 0 }

  // ----- words as numbers -----

  function Unsigned(v: bv32): int { v as int }

  /** A word's unsigned value. */
  ghost function Int(v: bv32): int { Unsigned(v) }

  function Half(v: bv32): bv32 { v >> 1 }

  function Last(v: bv32): int { if v & 1 == 1 then 1 else 0 }

  lemma EvenWord(v: bv32, w: bv32)
    requires w < 0x8000_0000 && v == w << 1
    ensures Int(v) == 2 * Int(w)
  {}

  lemma OddWord(v: bv32, w: bv32)
    requires w < 0x8000_0000 && v == (w << 1) | 1
    ensures Int(v) == 2 * Int(w) + 1
  {}

  lemma Rebuild(v: bv32)
    ensures v == if v & 1 == 1 then ((v >> 1) << 1) | 1 else (v >> 1) << 1
    ensures v >> 1 < 0x8000_0000
  {}

  lemma LastBit(v: bv32)
    ensures Int(v) == 2 * Int(Half(v)) + Last(v)
  {
    hide Int, Unsigned;
    Rebuild(v);
    var w := v >> 1;
    if v & 1 == 1 { OddWord(v, w); } else { EvenWord(v, w); }
  }

  lemma ZeroWord()
    ensures Int(0) == 0
  {}

  lemma HalfSmaller(v: bv32)
    requires v != 0
    ensures Half(v) < v
  {}

  // ----- disjoint words add up -----

  /** v is the union of two words that have no bit in common. */
  predicate Split(v: bv32, a: bv32, b: bv32) { a & b == 0 && v == a | b }

  lemma SplitHalf(v: bv32, a: bv32, b: bv32)
    requires Split(v, a, b)
    ensures Split(Half(v), Half(a), Half(b))
  {}

  lemma SplitLast(v: bv32, a: bv32, b: bv32)
    requires Split(v, a, b)
    ensures Last(v) == Last(a) + Last(b)
  {}

  lemma SplitZero(a: bv32, b: bv32)
    requires Split(0, a, b)
    ensures a == 0 && b == 0
  {}

  lemma {:induction false} DisjointSum(v: bv32, a: bv32, b: bv32)
    requires Split(v, a, b)
    ensures Int(v) == Int(a) + Int(b)
    decreases v
  {
    hide *;
    if v == 0 {
      SplitZero(a, b);
      ZeroWord();
    } else {
      HalfSmaller(v);
      SplitHalf(v, a, b);
      SplitLast(v, a, b);
      DisjointSum(Half(v), Half(a), Half(b));
      LastBit(v);
      LastBit(a);
      LastBit(b);
    }
  }

  // ----- shifts by a constant are products -----

  function By4(w: bv32): bv32 { w << 2 }

  function By8(w: bv32): bv32 { w << 3 }

  function By4096(w: bv32): bv32 { w << 12 }

  function ByTable(w: bv32): bv32 { w << 22 }

  lemma Times4(w: bv32)
    requires w < 1024
    ensures Int(By4(w)) == 4 * Int(w)
  {}

  lemma Times8(w: bv32)
    requires w < 0x2000_0000
    ensures Int(By8(w)) == 8 * Int(w)
  {}

  lemma Times4096(w: bv32)
    requires w < 0x10_0000
    ensures Int(By4096(w)) == 4096 * Int(w)
  {}

  lemma TimesTable(w: bv32)
    requires w < 1024
    ensures Int(ByTable(w)) == 0x40_0000 * Int(w)
  {}

  // ----- the fields of a word -----

  function LowBits(v: bv32): bv32 { v & 0x003F_FFFF }

  function PageNumber(v: bv32): bv32 { v >> 12 }

  function Eighth(v: bv32): bv32 { v >> 3 }

  function FlagBits(v: bv32): bv32 { v & 7 }

  lemma DirSplit(v: bv32)
    ensures Split(v, ByTable(DirBits(v)), LowBits(v))
  {}

  lemma TabSplit(v: bv32)
    ensures Split(LowBits(v), By4096(TabBits(v)), OffBits(v))
  {}

  lemma PageSplit(v: bv32)
    ensures Split(v, By4096(PageNumber(v)), OffBits(v))
  {}

  lemma PageShift(v: bv32)
    ensures PageBits(v) == By4096(PageNumber(v))
  {}

  lemma FlagSplit(v: bv32)
    ensures Split(v, By8(Eighth(v)), FlagBits(v))
  {}

  lemma FlaggedSplit(v: bv32)
    ensures Split(FlaggedBits(v), By8(Eighth(v)), 7)
  {}

  lemma DirBound(v: bv32)
    ensures DirBits(v) < 1024
  {}

  lemma TabBound(v: bv32)
    ensures TabBits(v) < 1024
  {}

  lemma TabBound20(v: bv32)
    ensures TabBits(v) < 0x10_0000 && DirBits(v) < 0x10_0000
  {}

  lemma PageNumberBound(v: bv32)
    ensures PageNumber(v) < 0x10_0000
  {}

  lemma EighthBound(v: bv32)
    ensures Eighth(v) < 0x2000_0000
  {}

  lemma OffRange(v: bv32)
    ensures 0 <= Int(OffBits(v)) < 0x1000
  {}

  lemma TabRange(v: bv32)
    ensures 0 <= Int(TabBits(v)) < 0x400
  {}

  lemma LowRange(v: bv32)
    ensures 0 <= Int(LowBits(v)) < 0x40_0000
  {
    hide *;
    LowSum(v);
    TabRange(v);
    OffRange(v);
  }

  lemma LowSum(v: bv32)
    ensures Int(LowBits(v)) == 0x1000 * Int(TabBits(v)) + Int(OffBits(v))
  {
    hide *;
    TabSplit(v);
    DisjointSum(LowBits(v), By4096(TabBits(v)), OffBits(v));
    TabBound20(v);
    Times4096(TabBits(v));
  }

  lemma FlagRange(v: bv32)
    ensures 0 <= Int(FlagBits(v)) < 8
  {}

  lemma Quotient(x: int, d: int, q: int, r: int)
    requires d > 0 && x == q * d + r && 0 <= r < d
    ensures x / d == q && x % d == r
  {
    var e := x / d;
    assert e > q ==> e * d >= (q + 1) * d;
    assert e < q ==> (e + 1) * d <= q * d;
  }

  lemma DirMasks(v: bv32)
    ensures Int(DirBits(v)) == PdeIdx(Int(v)) && Int(LowBits(v)) == Int(v) % 0x40_0000
  {
    hide *;
    DirSplit(v);
    DisjointSum(v, ByTable(DirBits(v)), LowBits(v));
    DirBound(v);
    TimesTable(DirBits(v));
    LowRange(v);
    Quotient(Int(v), 0x40_0000, Int(DirBits(v)), Int(LowBits(v)));
    DirQuotient(Int(v));
  }

  lemma DirQuotient(v: int)
    ensures PdeIdx(v) == v / 0x40_0000
  {}

  lemma TabQuotient(v: int)
    ensures PteIdx(v) == v % 0x40_0000 / 0x1000
  {}

  lemma TabMasks(v: bv32)
    ensures Int(TabBits(v)) == PteIdx(Int(v))
  {
    hide *;
    DirMasks(v);
    LowSum(v);
    OffRange(v);
    Quotient(Int(LowBits(v)), 0x1000, Int(TabBits(v)), Int(OffBits(v)));
    TabQuotient(Int(v));
  }

  lemma PageQuotient(v: int)
    ensures PageOf(v) == v - v % 0x1000 && PG_SIZE == 0x1000
  {}

  lemma PageMasks(v: bv32)
    ensures Int(PageBits(v)) == PageOf(Int(v)) && Int(OffBits(v)) == Int(v) % PG_SIZE
  {
    hide *;
    PageSplit(v);
    DisjointSum(v, By4096(PageNumber(v)), OffBits(v));
    PageNumberBound(v);
    Times4096(PageNumber(v));
    PageShift(v);
    OffRange(v);
    Quotient(Int(v), 0x1000, Int(PageNumber(v)), Int(OffBits(v)));
    PageQuotient(Int(v));
  }

  // ----- the pointers -----

  lemma PdeSplit(v: bv32)
    ensures Split(PdePtrBits(v), 0xFFFF_F000, By4(DirBits(v)))
  {}

  lemma WindowBases()
    ensures Int(0xFFFF_F000) == 0xFFFF_F000 && Int(0xFFC0_0000) == 0xFFC0_0000 && Int(7) == 7
  {}

  lemma PdePtrMasks(v: bv32)
    ensures Int(PdePtrBits(v)) == 0xFFFF_F000 + PdeIdx(Int(v)) * 4
  {
    hide *;
    PdeSplit(v);
    DisjointSum(PdePtrBits(v), 0xFFFF_F000, By4(DirBits(v)));
    DirBound(v);
    Times4(DirBits(v));
    WindowBases();
    DirMasks(v);
  }

  function PteOffset(v: bv32): bv32 { By4096(DirBits(v)) | By4(TabBits(v)) }

  lemma PteSplit(v: bv32)
    ensures Split(PtePtrBits(v), 0xFFC0_0000, PteOffset(v))
  {}

  lemma PteOffsetSplit(v: bv32)
    ensures Split(PteOffset(v), By4096(DirBits(v)), By4(TabBits(v)))
  {}

  lemma WindowOffset(v: int)
    ensures PtePtr(v) == 0xFFC0_0000 + PdeIdx(v) * 0x1000 + PteIdx(v) * 4
  {
    Quotient(v - v % 0x40_0000, 0x400, PdeIdx(v) * 0x1000, 0);
  }

  lemma PtePtrMasks(v: bv32)
    ensures Int(PtePtrBits(v)) == PtePtr(Int(v))
  {
    hide *;
    PteSplit(v);
    PteOffsetSplit(v);
    DisjointSum(PtePtrBits(v), 0xFFC0_0000, PteOffset(v));
    DisjointSum(PteOffset(v), By4096(DirBits(v)), By4(TabBits(v)));
    TabBound20(v);
    TabBound(v);
    Times4096(DirBits(v));
    Times4(TabBits(v));
    WindowBases();
    DirMasks(v);
    TabMasks(v);
    WindowOffset(Int(v));
  }

  // ----- the entries -----

  lemma AddressSplit(e: bv32, v: bv32)
    ensures Split(AddressBits(e, v), PageBits(e), OffBits(v))
  {}

  lemma AddressMasks(e: bv32, v: bv32)
    ensures Int(AddressBits(e, v)) == PageOf(Int(e)) + Int(v) % PG_SIZE
  {
    hide *;
    AddressSplit(e, v);
    DisjointSum(AddressBits(e, v), PageBits(e), OffBits(v));
    PageMasks(e);
    PageMasks(v);
  }

  lemma FlagMasks(e: bv32)
    ensures Int(FlaggedBits(e)) == Int(e) - Int(e) % 8 + 7
  {
    hide *;
    FlagSplit(e);
    FlaggedSplit(e);
    DisjointSum(e, By8(Eighth(e)), FlagBits(e));
    DisjointSum(FlaggedBits(e), By8(Eighth(e)), 7);
    EighthBound(e);
    Times8(Eighth(e));
    WindowBases();
    FlagRange(e);
    Quotient(Int(e), 8, Int(Eighth(e)), Int(FlagBits(e)));
  }

  lemma LastIsPresent(e: bv32)
    ensures PresentBit(e) <==> Last(e) == 1
    ensures Last(e) == 0 || Last(e) == 1
  {}

  lemma ClearedHalf(e: bv32)
    ensures Half(ClearedBits(e)) == Half(e)
  {}

  lemma ClearedLast(e: bv32)
    ensures Last(ClearedBits(e)) == 0
  {}

  lemma PresentMasks(e: bv32)
    ensures Int(ClearedBits(e)) == Int(e) - Int(e) % 2 && (PresentBit(e) <==> Int(e) % 2 == 1)
  {
    hide *;
    LastBit(e);
    LastBit(ClearedBits(e));
    ClearedHalf(e);
    ClearedLast(e);
    LastIsPresent(e);
    Quotient(Int(e), 2, Int(Half(e)), Last(e));
  }

  /** Every masked expression of memory.c is the model's arithmetic, on every 32-bit address v and
      every 32-bit entry e. */
  lemma SourceMasks(v: bv32, e: bv32)
    ensures Int(PdePtrBits(v)) == PdePtr(Int(v)) && Int(PtePtrBits(v)) == PtePtr(Int(v))
    ensures Int(AddressBits(e, v)) == Frame(Int(e)) + Int(v) % PG_SIZE && Int(PageBits(v)) == PageOf(Int(v))
    ensures Int(FlaggedBits(e)) == WithFlags(Int(e))
    ensures Int(ClearedBits(e)) == Int(e) - Int(e) % 2 && (PresentBit(e) <==> Present(Int(e)))
  {
    hide Int, Unsigned, PdePtrBits, PtePtrBits, AddressBits, PageBits, FlaggedBits, ClearedBits, PresentBit, PtePtr, PdeIdx;
    PdePtrMasks(v);
    PtePtrMasks(v);
    AddressMasks(e, v);
    PageMasks(v);
    FlagMasks(e);
    PresentMasks(e);
  }
}
