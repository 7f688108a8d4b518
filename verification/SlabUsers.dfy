/** What the users of the slab heap may rely on, read off the invariant. */
module SlabUsers {
  import opened Words
  import opened IntrusiveList
  import opened Paging
  import opened SlabLayout
  import opened SlabState
  import opened SlabSteps

  /** One past the last byte of live allocation x. */
  ghost function End(s: Slab, x: int): int {
    if PageOf(x) in s.arenas then x + BlockSize(s.arenas[PageOf(x)])
    else if PageOf(x) in s.large then PageOf(x) + s.large[PageOf(x)] * PG_SIZE
    else x
  }

  /** First page and page count of the span an allocation lives in: its arena, or its own pages. */
  ghost function SpanOf(s: Slab, x: int): int {
    if PageOf(x) in s.large then s.large[PageOf(x)] * PG_SIZE else PG_SIZE
  }

  /** block2arena finds the header of every live allocation, small or large; the allocation lies
      behind it, inside its span, and holds at least the bytes asked for. */
  lemma LiveKind(s: Slab, x: int)
    requires Shape(s) && Accounted(s) && x in s.live
    ensures PageOf(x) in s.arenas <==> PageOf(x) !in s.large
    ensures PageOf(x) in s.arenas ==> SmallLive(s, x) && BlockOf(s, s.arenas[PageOf(x)], x)
    ensures PageOf(x) in s.large ==> Block2Arena(x) == x - ARENA_HDR
    ensures Block2Arena(x) + ARENA_HDR <= x && x + s.live[x] <= End(s, x) <= Block2Arena(x) + SpanOf(s, x)
    ensures HeapPage(Block2Arena(x)) && x < End(s, x)
  {
    hide Blocks, FreeOf, IsPage;
    if LargeLive(s, x) {
      PageBase(x - ARENA_HDR, x);
    } else {
      assert SmallLive(s, x);
      BlockFacts(s, s.arenas[PageOf(x)], x);
    }
  }

  /** Spans that start on different pages do not overlap. */
  lemma SpansApart(s: Slab, a: int, b: int)
    requires Shape(s) && (a in s.arenas || a in s.large) && (b in s.arenas || b in s.large) && a < b
    ensures a + (if a in s.large then s.large[a] * PG_SIZE else PG_SIZE) <= b
  {
    if a in s.arenas { PagesApart(a, b); }
  }

  /** Live allocations occupy disjoint byte ranges. */
  lemma LiveApart(s: Slab, x: int, y: int)
    requires Books(s, {}) && x in s.live && y in s.live && x != y
    ensures End(s, x) <= y || End(s, y) <= x
  {
    LiveKind(s, x);
    LiveKind(s, y);
    var a, b := PageOf(x), PageOf(y);
    if a == b {
      if a in s.arenas { BlocksApart(a, s.arenas[a], x, y); }
    } else if a < b {
      SpansApart(s, a, b);
    } else {
      SpansApart(s, b, a);
    }
  }

  /** A live allocation does not overlap any block that is not live. */
  lemma LiveBlockApart(s: Slab, x: int, c: int, y: int)
    requires Shape(s) && Accounted(s) && x in s.live && BlockOf(s, c, y) && x != y
    ensures End(s, x) <= y || y + BlockSize(c) <= x
  {
    LiveKind(s, x);
    BlockFacts(s, c, y);
    var a, b := PageOf(x), PageOf(y);
    if a == b {
      BlocksApart(a, c, x, y);
    } else if a < b {
      SpansApart(s, a, b);
    } else {
      SpansApart(s, b, a);
    }
  }

  /** No live allocation overlaps a free block. */
  lemma LiveFreeApart(s: Slab, x: int, c: int, y: int)
    requires Books(s, {}) && x in s.live && IsClass(c) && y in s.free[c]
    ensures End(s, x) <= y || y + BlockSize(c) <= x
  {
    assert BlockOf(s, c, y);
    NotLiveWhenFree(s, c, y);
    LiveBlockApart(s, x, c, y);
  }

  /** No live allocation overlaps an arena header, its own or another's. */
  lemma LiveHeaderApart(s: Slab, x: int, a: int)
    requires Shape(s) && Accounted(s) && x in s.live && (a in s.arenas || a in s.large)
    ensures End(s, x) <= a || a + ARENA_HDR <= x
  {
    LiveKind(s, x);
    if PageOf(x) < a {
      SpansApart(s, PageOf(x), a);
    } else if PageOf(x) > a {
      SpansApart(s, a, PageOf(x));
    }
  }

  /** Nor fresh pages. */
  lemma LiveSpanApart(s: Slab, x: int, a: int, k: nat)
    requires Shape(s) && Accounted(s) && x in s.live && FreshSpan(s, a, k)
    ensures End(s, x) <= a || a + k * PG_SIZE <= x
  {
    LiveKind(s, x);
    PageOutside(a, k, PageOf(x));
  }

  /** A user that writes only inside its allocation cannot harm the heap. */
  lemma UserWrites(m: Words, n: Words, base: int, s: Slab, x: int)
    requires Sound(m, base, s, {}) && x in s.live
    requires forall w | n(w) != m(w) :: x <= w && w + 4 <= End(s, x) && Aligned(w)
    ensures Sound(n, base, s, {})
  {
    LiveKind(s, x);
    forall c, y | IsClass(c) && y in s.free[c] ensures n(y) == m(y) && n(y + 4) == m(y + 4) {
      LiveFreeApart(s, x, c, y);
      BlockFacts(s, c, y);
    }
    forall a | (a in s.arenas && a !in {}) || a in s.large
      ensures n(a) == m(a) && n(a + 4) == m(a + 4) && n(a + 8) == m(a + 8)
    {
      LiveHeaderApart(s, x, a);
    }
    SkeletonFrame(m, n, base, s, {});
  }

  lemma BehindHeader(a: int)
    requires IsPage(a)
    ensures Aligned(a + ARENA_HDR)
  {
    assert a == 4 * (1024 * (a / PG_SIZE));
  }

  /** Allocations start on word boundaries. */
  lemma LiveAligned(s: Slab, x: int)
    requires Shape(s) && Accounted(s) && x in s.live
    ensures Aligned(x)
  {
    if LargeLive(s, x) {
      BehindHeader(x - ARENA_HDR);
    } else {
      assert SmallLive(s, x);
      BlockFacts(s, s.arenas[PageOf(x)], x);
    }
  }

  // ----- the heap does not touch its users' bytes -----

  ghost predicate InUse(s: Slab, x: int, w: int) { x in s.live && x <= w && w + 4 <= End(s, x) }

  /** Every word of every live allocation is the same in m and n. */
  ghost predicate LiveKept(m: Words, n: Words, s: Slab) {
    forall x, w | InUse(s, x, w) :: n(w) == m(w)
  }

  /** w lies on a page of the heap. */
  ghost predicate OnHeap(s: Slab, w: int) { PageOf(w) in s.arenas || OnLarge(s, w) }

  ghost predicate OnLarge(s: Slab, w: int) {
    exists b :: b in s.large && b <= w < b + s.large[b] * PG_SIZE
  }

  /** From the heap's start on, m and n agree outside the heap's pages. */
  ghost predicate OffKept(m: Words, n: Words, s: Slab) {
    forall w | w >= HEAP_START && !OnHeap(s, w) :: n(w) == m(w)
  }

  /** Neither its users' words nor anything outside the heap's pages has changed. */
  ghost predicate UsersKept(m: Words, n: Words, s: Slab) {
    LiveKept(m, n, s) && OffKept(m, n, s)
  }

  /** The free lists do not matter. */
  lemma SameUsers(m: Words, n: Words, s: Slab, t: Slab)
    requires UsersKept(m, n, s) && t.live == s.live && t.arenas == s.arenas && t.large == s.large
    ensures UsersKept(m, n, t)
  {
    hide OffKept;
    forall x, w | InUse(t, x, w) ensures n(w) == m(w) {
      assert InUse(s, x, w);
    }
    SameOff(m, n, s, t);
  }

  /** Nor do the allocations, for what lies outside. */
  lemma SameOff(m: Words, n: Words, s: Slab, t: Slab)
    requires OffKept(m, n, s) && t.arenas == s.arenas && t.large == s.large
    ensures OffKept(m, n, t)
  {
    forall w | w >= HEAP_START && !OnHeap(t, w) ensures n(w) == m(w) {
      assert !OnHeap(s, w);
    }
  }

  lemma UsersSelf(m: Words, s: Slab)
    ensures UsersKept(m, m, s)
  {}

  lemma UsersChain(m: Words, m1: Words, n: Words, s: Slab)
    requires UsersKept(m, m1, s) && UsersKept(m1, n, s)
    ensures UsersKept(m, n, s)
  {
    hide InUse, OnHeap;
    forall x, w | InUse(s, x, w) ensures n(w) == m(w) {
      assert m1(w) == m(w);
    }
    forall w | w >= HEAP_START && !OnHeap(s, w) ensures n(w) == m(w) {
      assert m1(w) == m(w);
    }
  }

  lemma ListKeepsUsers(m: Words, n: Words, s: Slab, c: int, zs: seq<int>)
    requires Shape(s) && Accounted(s) && HeapSame(m, n, zs)
    requires forall i | 0 <= i < |zs| :: BlockOf(s, c, zs[i]) && zs[i] !in s.live
    ensures UsersKept(m, n, s)
  {
    ListKeepsLive(m, n, s, c, zs);
    hide Accounted, LiveKept, Shape, BlockOf, OnHeap;
    forall w | w >= HEAP_START && !OnHeap(s, w) ensures n(w) == m(w) {
      forall i | 0 <= i < |zs| ensures !InNode(zs[i], w) {
        BlockOnHeap(s, c, zs[i], w);
      }
    }
  }

  lemma ListKeepsLive(m: Words, n: Words, s: Slab, c: int, zs: seq<int>)
    requires Shape(s) && Accounted(s) && HeapSame(m, n, zs)
    requires forall i | 0 <= i < |zs| :: BlockOf(s, c, zs[i]) && zs[i] !in s.live
    ensures LiveKept(m, n, s)
  {
    forall x, w | InUse(s, x, w) ensures n(w) == m(w) {
      LiveKind(s, x);
      forall i | 0 <= i < |zs| ensures !InNode(zs[i], w) {
        LiveBlockApart(s, x, c, zs[i]);
        BlockFacts(s, c, zs[i]);
      }
    }
  }

  /** The words of a block are on its arena's page. */
  lemma BlockOnHeap(s: Slab, c: int, y: int, w: int)
    requires Shape(s) && BlockOf(s, c, y) && !OnHeap(s, w)
    ensures w < y || w >= y + BlockSize(c)
    ensures !InNode(y, w) && BlockSize(c) >= 16
  {
    BlockFacts(s, c, y);
    if y <= w < y + BlockSize(c) { SamePage(PageOf(y), w); }
  }

  lemma SamePage(a: int, w: int)
    requires IsPage(a) && a <= w < a + PG_SIZE
    ensures PageOf(w) == a
  {}

  lemma HeaderOnHeap(s: Slab, a: int, w: int)
    requires Shape(s) && a in s.arenas && !OnHeap(s, w)
    ensures w < a || w >= a + PG_SIZE
  {
    if a <= w < a + PG_SIZE { SamePage(a, w); }
  }

  lemma HeaderKeepsUsers(m: Words, s: Slab, a: int, v: int)
    requires Shape(s) && Accounted(s) && a in s.arenas
    ensures UsersKept(m, Store(m, a + 4, v), s)
  {
    hide Shape, Accounted, OnHeap, InUse;
    forall x, w | InUse(s, x, w) ensures Store(m, a + 4, v)(w) == m(w) {
      UseAtLeast(s, x, w);
      LiveHeaderApart(s, x, a);
    }
    forall w | w >= HEAP_START && !OnHeap(s, w) ensures Store(m, a + 4, v)(w) == m(w) {
      HeaderOnHeap(s, a, w);
    }
  }

  lemma UseAtLeast(s: Slab, x: int, w: int)
    requires InUse(s, x, w)
    ensures x in s.live && x <= w && w + 4 <= End(s, x)
  {}

  lemma TakeKeepsUsers(m1: Words, s: Slab, c: int, y: int)
    requires Shape(s) && Accounted(s) && BlockOf(s, c, y) && y !in s.live
    ensures UsersKept(m1, TakeWords(m1, c, y), s)
  {
    TakeKeepsLive(m1, s, c, y);
    hide Accounted, LiveKept, Shape, OnHeap;
    forall w | w >= HEAP_START && !OnHeap(s, w) ensures TakeWords(m1, c, y)(w) == m1(w) {
      BlockOnHeap(s, c, y, w);
      HeaderOnHeap(s, PageOf(y), w);
    }
  }

  lemma TakeKeepsLive(m1: Words, s: Slab, c: int, y: int)
    requires Shape(s) && Accounted(s) && BlockOf(s, c, y) && y !in s.live
    ensures LiveKept(m1, TakeWords(m1, c, y), s)
  {
    forall x, w | InUse(s, x, w) ensures TakeWords(m1, c, y)(w) == m1(w) {
      LiveBlockApart(s, x, c, y);
      LiveHeaderApart(s, x, PageOf(y));
    }
  }

  lemma SpanKeepsUsers(m: Words, n: Words, s: Slab, a: int, k: nat)
    requires Shape(s) && Accounted(s) && FreshSpan(s, a, k)
    requires SameBut(m, n, a, k * PG_SIZE)
    ensures LiveKept(m, n, s)
  {
    forall x, w | InUse(s, x, w) ensures n(w) == m(w) {
      LiveSpanApart(s, x, a, k);
    }
  }

  /** A user's own store stays on the heap's pages. */
  lemma UserOnHeap(m: Words, s: Slab, x: int, w: int, v: int)
    requires Shape(s) && Accounted(s) && InUse(s, x, w)
    ensures OffKept(m, Store(m, w, v), s)
  {
    LiveKind(s, x);
    if PageOf(x) in s.arenas {
      SamePage(PageOf(x), w);
    } else {
      assert OnLarge(s, w);
    }
  }

  /** An arena is kept only while one of its blocks is in use. */
  lemma ArenaInUse(s: Slab, a: int) returns (x: int)
    requires Books(s, {}) && Busy(s) && a in s.arenas
    ensures x in s.live && PageOf(x) == a
  {
    var all, f := Blocks(a, s.arenas[a]), FreeOf(s, a);
    assert all * f == f && |all - f| == |all| - |all * f|;
    x :| x in all - f;
    OwnPageOnly(s, a, s.arenas[a], x);
    assert x in s.free[s.arenas[a]] || x in s.live;
  }

  /** When nothing is live, every list is empty and no arena or large allocation is left. */
  lemma NothingLive(s: Slab)
    requires Books(s, {}) && Busy(s) && s.live == map[]
    ensures s.arenas == map[] && s.large == map[]
    ensures forall c | IsClass(c) :: s.free[c] == []
  {
    forall a ensures a !in s.arenas && a !in s.large {
      if a in s.arenas { var x := ArenaInUse(s, a); }
      assert a in s.large ==> a + ARENA_HDR in s.live;
    }
    forall c | IsClass(c) ensures s.free[c] == [] {
      if s.free[c] != [] {
        ListedArena(s, c, s.free[c][0]);
      }
    }
  }

  lemma ListedArena(s: Slab, c: int, x: int)
    requires Shape(s) && Placed(s) && IsClass(c) && x in s.free[c]
    ensures PageOf(x) in s.arenas
  {
    assert BlockOf(s, c, x);
  }

  /** Each free list holds every block of its class's arenas that is not in use, nothing else, and none twice. */
  lemma FreeListExact(m: Words, base: int, s: Slab, c: int)
    requires Sound(m, base, s, {}) && IsClass(c)
    ensures forall x :: x in s.free[c] <==> BlockOf(s, c, x) && x !in s.live
    ensures forall i, j | 0 <= i < j < |s.free[c]| :: s.free[c][i] != s.free[c][j]
  {
    forall x ensures x in s.free[c] <==> BlockOf(s, c, x) && x !in s.live {
      if x in s.free[c] { NotLiveWhenFree(s, c, x); }
    }
    forall i, j | 0 <= i < j < |s.free[c]| ensures s.free[c][i] != s.free[c][j] {
      DistinctElems(m, FreeList(base, c), s.free[c], i, j);
    }
  }

  /** The blocks of an arena that nobody uses. */
  ghost function Unused(s: Slab, a: int): set<int>
    requires a in s.arenas && IsClass(s.arenas[a])
  {
    set x | x in Blocks(a, s.arenas[a]) && x !in s.live
  }

  lemma FreeIsUnused(m: Words, base: int, s: Slab, a: int)
    requires Sound(m, base, s, {}) && a in s.arenas
    ensures IsClass(s.arenas[a]) && FreeOf(s, a) == Unused(s, a)
  {
    hide InMemory, Placed, Accounted, Complete, Blocks, PageOf;
    var c := s.arenas[a];
    FreeListExact(m, base, s, c);
    forall x | x in Blocks(a, c) ensures x in s.free[c] <==> x !in s.live { OwnPageOnly(s, a, c, x); }
  }

  /** Every arena's count is the number of its free blocks, and between calls less than all of them. */
  lemma ArenaCount(m: Words, base: int, s: Slab, a: int)
    requires Sound(m, base, s, {}) && Busy(s) && a in s.arenas
    ensures IsClass(s.arenas[a]) && Word(m, a) == Desc(base, s.arenas[a])
    ensures Word(m, a + 4) == |Unused(s, a)| && 0 <= Word(m, a + 4) < BlocksPer(s.arenas[a])
  {
    hide Placed, Accounted, Complete, Blocks, PageOf, Lists, Descs, LargeHeads, FreeOf, Unused;
    FreeIsUnused(m, base, s, a);
    assert Header(m, base, a, s.arenas[a], |FreeOf(s, a)|);
  }
}
