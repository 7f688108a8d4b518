/** The state of the slab heap on values, its invariant, and what each list or header
    change does to it. */
module SlabState {
  import opened Words
  import opened IntrusiveList
  import opened Paging
  import opened SlabLayout

  /** free: the seven free lists; arenas: page to class; large: first page to page count;
      live: address handed out to bytes requested. */
  datatype Slab = Slab(free: seq<seq<int>>, arenas: map<int, int>, large: map<int, nat>, live: map<int, nat>)

  ghost function Elems(xs: seq<int>): set<int> { set x | x in xs }

  // ----- the invariant, clause by clause -----

  ghost predicate HeapPage(a: int) { IsPage(a) && a >= HEAP_START }

  ghost predicate DescsFit(base: int) { 0 < base && Aligned(base) && base + CLASSES * DESC_SIZE <= HEAP_START }

  lemma DescAligned(base: int, c: int)
    requires DescsFit(base)
    ensures Aligned(Desc(base, c)) && Aligned(Desc(base, c) + 4) && Aligned(FreeList(base, c))
  {}

  /** Arenas and large spans start on distinct heap pages, and none starts inside another. */
  ghost predicate Shape(s: Slab) {
    && |s.free| == CLASSES
    && (forall a | a in s.arenas :: HeapPage(a) && IsClass(s.arenas[a]) && a !in s.large)
    && (forall a | a in s.large :: HeapPage(a) && s.large[a] >= 1)
    && (forall a, b | a in s.large && (b in s.arenas || b in s.large) && a < b :: a + s.large[a] * PG_SIZE <= b)
  }

  lemma ShapeSize(s: Slab)
    requires Shape(s)
    ensures |s.free| == CLASSES
  {}

  /** x is a block of an arena of class c. */
  ghost predicate BlockOf(s: Slab, c: int, x: int) {
    IsClass(c) && PageOf(x) in s.arenas && s.arenas[PageOf(x)] == c && x in Blocks(PageOf(x), c)
  }

  ghost predicate Placed(s: Slab)
    requires |s.free| == CLASSES
  {
    forall c, x | IsClass(c) && x in s.free[c] :: BlockOf(s, c, x)
  }

  ghost predicate Lists(m: Words, base: int, s: Slab)
    requires |s.free| == CLASSES
  {
    forall c | IsClass(c) :: ListAt(m, FreeList(base, c), s.free[c])
  }

  lemma ListOf(m: Words, base: int, s: Slab, c: int)
    requires |s.free| == CLASSES && Lists(m, base, s) && IsClass(c)
    ensures ListAt(m, FreeList(base, c), s.free[c])
  {}

  ghost predicate Descs(m: Words, base: int) {
    forall c | IsClass(c) :: m(Desc(base, c)) == BlockSize(c) && m(Desc(base, c) + 4) == BlocksPer(c)
  }

  lemma DescOf(m: Words, base: int, c: int)
    requires Descs(m, base) && IsClass(c)
    ensures Word(m, Desc(base, c)) == BlockSize(c) && Word(m, Desc(base, c) + 4) == BlocksPer(c)
  {}

  /** The free blocks of arena a. */
  ghost function FreeOf(s: Slab, a: int): set<int>
    requires |s.free| == CLASSES && a in s.arenas && IsClass(s.arenas[a])
  {
    Blocks(a, s.arenas[a]) * Elems(s.free[s.arenas[a]])
  }

  /** The three header words of an arena: its descriptor, its count, not a page count. */
  predicate Header(m: Words, base: int, a: int, c: int, cnt: int) {
    m(a) == Desc(base, c) && m(a + 4) == cnt && m(a + 8) == 0
  }

  ghost predicate Heads(m: Words, base: int, s: Slab, but: set<int>)
    requires Shape(s)
  {
    forall a | a in s.arenas && a !in but :: Header(m, base, a, s.arenas[a], |FreeOf(s, a)|)
  }

  /** The header of a large allocation: no descriptor, its page count. */
  predicate LargeHeader(m: Words, a: int, pages: int) {
    m(a) == 0 && m(a + 4) == pages && m(a + 8) == 1
  }

  ghost predicate LargeHeads(m: Words, s: Slab) {
    forall a | a in s.large :: LargeHeader(m, a, s.large[a])
  }

  ghost predicate SmallLive(s: Slab, x: int)
    requires |s.free| == CLASSES && x in s.live
  {
    && PageOf(x) in s.arenas && BlockOf(s, s.arenas[PageOf(x)], x)
    && x !in s.free[s.arenas[PageOf(x)]] && s.live[x] <= BlockSize(s.arenas[PageOf(x)])
  }

  ghost predicate LargeLive(s: Slab, x: int)
    requires x in s.live
  {
    x - ARENA_HDR in s.large && s.live[x] + ARENA_HDR <= s.large[x - ARENA_HDR] * PG_SIZE
  }

  ghost predicate Accounted(s: Slab)
    requires |s.free| == CLASSES
  {
    && (forall x | x in s.live :: SmallLive(s, x) || LargeLive(s, x))
    && (forall a | a in s.large :: a + ARENA_HDR in s.live)
  }

  /** Every block of an arena is free or live. */
  ghost predicate Complete(s: Slab, but: set<int>)
    requires Shape(s)
  {
    forall a, x | a in s.arenas && a !in but && x in Blocks(a, s.arenas[a]) :: x in s.free[s.arenas[a]] || x in s.live
  }

  /** The books: which blocks are where. */
  ghost predicate Books(s: Slab, but: set<int>) {
    Shape(s) && Placed(s) && Accounted(s) && Complete(s, but)
  }

  /** Memory holds the books: the lists, the descriptors, the headers. */
  ghost predicate InMemory(m: Words, base: int, s: Slab, but: set<int>)
    requires Shape(s)
  {
    Lists(m, base, s) && Descs(m, base) && Heads(m, base, s, but) && LargeHeads(m, s)
  }

  /** The invariant; the arenas in but are under construction or demolition, their count
      and their blocks not yet settled. */
  ghost predicate Sound(m: Words, base: int, s: Slab, but: set<int>) {
    DescsFit(base) && Books(s, but) && InMemory(m, base, s, but)
  }

  /** Between calls every arena has a block in use: 0 <= cnt < blocks_per_arena. */
  ghost predicate Busy(s: Slab)
    requires Shape(s)
  {
    forall a | a in s.arenas :: |FreeOf(s, a)| < BlocksPer(s.arenas[a])
  }

  // ----- where things lie -----

  lemma BlockFacts(s: Slab, c: int, x: int)
    requires Shape(s) && BlockOf(s, c, x)
    ensures PageOf(x) + ARENA_HDR <= x && x + BlockSize(c) <= PageOf(x) + PG_SIZE && BlockSize(c) >= 16
    ensures Aligned(x) && x >= HEAP_START && IsPage(PageOf(x)) && PageOf(x) >= HEAP_START
  {
    BlockInPage(PageOf(x), c, x);
  }

  lemma PagesApart(a: int, b: int)
    requires IsPage(a) && IsPage(b) && a != b
    ensures a + PG_SIZE <= b || b + PG_SIZE <= a
  {}

  /** Two different blocks, of whatever arenas, do not overlap. */
  lemma TwoBlocks(s: Slab, c: int, x: int, d: int, y: int)
    requires Shape(s) && BlockOf(s, c, x) && BlockOf(s, d, y) && x != y
    ensures x + BlockSize(c) <= y || y + BlockSize(d) <= x
  {
    BlockFacts(s, c, x);
    BlockFacts(s, d, y);
    if PageOf(x) == PageOf(y) {
      BlocksApart(PageOf(x), c, x, y);
    } else {
      PagesApart(PageOf(x), PageOf(y));
    }
  }

  /** Words of the heap that are in no node of zs are the same. */
  ghost predicate HeapSame(m: Words, n: Words, zs: seq<int>) {
    forall w | w >= HEAP_START && (forall i | 0 <= i < |zs| :: !InNode(zs[i], w)) :: n(w) == m(w)
  }

  /** A header word is in no block. */
  lemma HeaderOutside(s: Slab, c: int, zs: seq<int>, a: int, w: int)
    requires Shape(s) && HeapPage(a) && a <= w < a + ARENA_HDR
    requires forall i | 0 <= i < |zs| :: BlockOf(s, c, zs[i])
    ensures forall i | 0 <= i < |zs| :: !InNode(zs[i], w)
  {
    forall i | 0 <= i < |zs| ensures !InNode(zs[i], w) {
      BlockFacts(s, c, zs[i]);
      if a != PageOf(zs[i]) { PagesApart(a, PageOf(zs[i])); }
    }
  }

  lemma HeadersKept(m: Words, n: Words, s: Slab, c: int, zs: seq<int>, a: int)
    requires Shape(s) && HeapPage(a) && HeapSame(m, n, zs)
    requires forall i | 0 <= i < |zs| :: BlockOf(s, c, zs[i])
    ensures n(a) == m(a) && n(a + 4) == m(a + 4) && n(a + 8) == m(a + 8)
  {
    HeaderOutside(s, c, zs, a, a);
    HeaderOutside(s, c, zs, a, a + 4);
    HeaderOutside(s, c, zs, a, a + 8);
  }

  /** A change confined to the nodes of list c: heap words outside those nodes, and everything
      in the descriptors but that list's sentinels, are kept. */
  lemma ListChangeWords(m: Words, n: Words, base: int, s: Slab, c: int, zs: seq<int>)
    requires DescsFit(base) && Shape(s) && IsClass(c) && forall i | 0 <= i < |zs| :: BlockOf(s, c, zs[i])
    requires SameOutside(m, n, Nodes(FreeList(base, c), zs))
    ensures HeapSame(m, n, zs)
    ensures forall w | w < HEAP_START && !(FreeList(base, c) <= w < FreeList(base, c) + 16) :: n(w) == m(w)
  {
    forall w | w >= HEAP_START && (forall i | 0 <= i < |zs| :: !InNode(zs[i], w))
      ensures n(w) == m(w)
    {
      HeapWordOutside(base, c, zs, w);
    }
    forall w | w < HEAP_START && !(FreeList(base, c) <= w < FreeList(base, c) + 16)
      ensures n(w) == m(w)
    {
      LowWordOutside(base, s, c, zs, w);
    }
  }

  lemma NodesAre(p: int, zs: seq<int>, i: nat)
    requires i < |zs| + 2
    ensures Nodes(p, zs)[i] == if i == 0 then p else if i == |zs| + 1 then p + 8 else zs[i - 1]
  {}

  lemma HeapWordOutside(base: int, c: int, zs: seq<int>, w: int)
    requires DescsFit(base) && IsClass(c) && w >= HEAP_START && forall i | 0 <= i < |zs| :: !InNode(zs[i], w)
    ensures Outside(Nodes(FreeList(base, c), zs), w)
  {
    forall i | 0 <= i < |zs| + 2 ensures !InNode(Nodes(FreeList(base, c), zs)[i], w) {
      NodesAre(FreeList(base, c), zs, i);
    }
  }

  lemma LowWordOutside(base: int, s: Slab, c: int, zs: seq<int>, w: int)
    requires Shape(s) && w < HEAP_START && !(FreeList(base, c) <= w < FreeList(base, c) + 16)
    requires forall i | 0 <= i < |zs| :: BlockOf(s, c, zs[i])
    ensures Outside(Nodes(FreeList(base, c), zs), w)
  {
    forall i | 0 <= i < |zs| + 2 ensures !InNode(Nodes(FreeList(base, c), zs)[i], w) {
      NodesAre(FreeList(base, c), zs, i);
      if 1 <= i <= |zs| { BlockFacts(s, c, zs[i - 1]); }
    }
  }

  /** A block of class d lies clear of the blocks of class c. */
  lemma OtherNode(s: Slab, c: int, zs: seq<int>, d: int, x: int)
    requires Shape(s) && IsClass(c) && IsClass(d) && c != d && BlockOf(s, d, x)
    requires forall i | 0 <= i < |zs| :: BlockOf(s, c, zs[i])
    ensures x >= HEAP_START && forall j | 0 <= j < |zs| :: !InNode(zs[j], x) && !InNode(zs[j], x + 4)
  {
    hide Shape, Blocks, BlockSize, PageOf;
    BlockFacts(s, d, x);
    forall j | 0 <= j < |zs| ensures !InNode(zs[j], x) && !InNode(zs[j], x + 4) {
      BlockFacts(s, c, zs[j]);
      TwoBlocks(s, d, x, c, zs[j]);
    }
  }

  /** List d does not notice. */
  lemma OtherList(m: Words, n: Words, base: int, s: Slab, c: int, zs: seq<int>, d: int)
    requires DescsFit(base) && Shape(s) && Placed(s) && IsClass(c) && IsClass(d) && c != d
    requires ListAt(m, FreeList(base, d), s.free[d])
    requires forall i | 0 <= i < |zs| :: BlockOf(s, c, zs[i])
    requires HeapSame(m, n, zs)
    requires forall w | w < HEAP_START && !(FreeList(base, c) <= w < FreeList(base, c) + 16) :: n(w) == m(w)
    ensures ListAt(n, FreeList(base, d), s.free[d])
  {
    var p := FreeList(base, d);
    var xs := s.free[d];
    var ns := Nodes(p, xs);
    forall i | 0 <= i < |xs| + 2
      ensures n(PrevOf(ns[i])) == m(PrevOf(ns[i])) && n(NextOf(ns[i])) == m(NextOf(ns[i]))
    {
      if 1 <= i <= |xs| {
        var x := xs[i - 1];
        assert ns[i] == x && x in s.free[d];
        OtherNode(s, c, zs, d, x);
      } else {
        assert ns[i] == if i == 0 then p else p + 8;
      }
    }
    ListFrame(m, n, p, xs);
  }

  /** Replacing list c by ys, where every old and new node of it is a block of class c. */
  lemma ListChange(m: Words, n: Words, base: int, s: Slab, c: int, ys: seq<int>, zs: seq<int>)
    requires DescsFit(base) && Shape(s) && Placed(s) && Lists(m, base, s) && Descs(m, base) && LargeHeads(m, s)
    requires IsClass(c) && ListAt(n, FreeList(base, c), ys)
    requires forall i | 0 <= i < |zs| :: BlockOf(s, c, zs[i])
    requires SameOutside(m, n, Nodes(FreeList(base, c), zs))
    ensures Lists(n, base, s.(free := s.free[c := ys])) && Descs(n, base) && LargeHeads(n, s)
    ensures HeapSame(m, n, zs)
    ensures forall a | HeapPage(a) :: n(a) == m(a) && n(a + 4) == m(a + 4) && n(a + 8) == m(a + 8)
  {
    ListChangeWords(m, n, base, s, c, zs);
    forall d | IsClass(d) && d != c ensures ListAt(n, FreeList(base, d), s.free[d]) {
      OtherList(m, n, base, s, c, zs, d);
    }
    forall a | HeapPage(a) ensures n(a) == m(a) && n(a + 4) == m(a + 4) && n(a + 8) == m(a + 8) {
      HeadersKept(m, n, s, c, zs, a);
    }
    forall d | IsClass(d) ensures n(Desc(base, d)) == m(Desc(base, d)) && n(Desc(base, d) + 4) == m(Desc(base, d) + 4) {
      DescWords(base, c, d);
    }
  }

  lemma DescWords(base: int, c: int, d: int)
    requires DescsFit(base) && IsClass(c) && IsClass(d)
    ensures Desc(base, d) + 4 < HEAP_START
    ensures !(FreeList(base, c) <= Desc(base, d) < FreeList(base, c) + 16)
    ensures !(FreeList(base, c) <= Desc(base, d) + 4 < FreeList(base, c) + 16)
  {}
}
