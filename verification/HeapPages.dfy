/** Which pages of the virtual pool belong to the slab heap, and how the page layer's
    calls move them. */
module HeapPages {
  import opened Words
  import opened BitRuns
  import opened Paging
  import opened Boot
  import opened Pages
  import opened SlabLayout
  import opened SlabState
  import opened SlabSteps

  /** vb, f: virtual bits and mapped pages. owner: heap page to the first page of its arena or
      allocation. held, other: virtual bits and mapped pages that are not the heap's: other
      users', and those a failed page_acquire leaves behind. */
  datatype PageBooks = PageBooks(owner: map<int, int>, held: set<int>, other: map<int, int>)

  /** Where an arena or a large allocation starts, and how many pages it has. */
  ghost predicate Starts(s: Slab, a: int) { a in s.arenas || a in s.large }

  ghost function PagesAt(s: Slab, a: int): nat {
    if a in s.arenas then 1 else if a in s.large then s.large[a] else 0
  }

  ghost predicate OwnsDown(pb: PageBooks, s: Slab, vStart: int) {
    && (forall a | Starts(s, a) :: a >= vStart)
    && (forall a, i | Starts(s, a) && i in Span(IndexIn(vStart, a), PagesAt(s, a)) :: i in pb.owner && pb.owner[i] == a)
  }

  ghost predicate OwnsUp(pb: PageBooks, s: Slab, vStart: int) {
    forall i | i in pb.owner :: Starts(s, pb.owner[i]) && i in Span(IndexIn(vStart, pb.owner[i]), PagesAt(s, pb.owner[i]))
  }

  /** owner records exactly the pages of the arenas and large allocations. */
  ghost predicate Owns(pb: PageBooks, s: Slab, vStart: int) {
    OwnsDown(pb, s, vStart) && OwnsUp(pb, s, vStart)
  }

  ghost predicate Splits(pb: PageBooks, vb: seq<bool>, f: map<int, int>) {
    && f.Keys == pb.owner.Keys + pb.other.Keys && pb.owner.Keys !! pb.held && pb.other.Keys <= pb.held
    && (forall i | i in pb.other :: f[i] == pb.other[i])
    && (forall i | 0 <= i < |vb| :: vb[i] <==> i in pb.owner || i in pb.held)
    && (forall i | i in pb.owner || i in pb.held :: 0 <= i < |vb|)
  }

  lemma IndexBack(vStart: int, a: int)
    requires IsPage(a) && vStart % PG_SIZE == 0
    ensures a == PoolAddr(vStart, IndexIn(vStart, a))
  {}

  lemma IndexOfPool(vStart: int, i: int)
    ensures IndexIn(vStart, PoolAddr(vStart, i)) == i
  {}

  lemma PoolIsPage(vStart: int, i: int)
    requires vStart % PG_SIZE == 0
    ensures IsPage(PoolAddr(vStart, i))
  {}

  /** Free virtual bits make fresh pages. */
  lemma FreeIsFresh(pb: PageBooks, vb: seq<bool>, f: map<int, int>, s: Slab, vStart: int, i: nat, k: nat)
    requires Shape(s) && Owns(pb, s, vStart) && Splits(pb, vb, f) && vStart % PG_SIZE == 0 && vStart >= HEAP_START
    requires RunFree(vb, i, k) && k >= 1
    ensures FreshSpan(s, PoolAddr(vStart, i), k)
  {
    hide PoolAddr, IndexIn, PagesAt, IsPage;
    var a := PoolAddr(vStart, i);
    PoolIsPage(vStart, i);
    PoolBelow(vStart, i, 0);
    PoolBelow(vStart, i, k);
    forall b | b in s.arenas || b in s.large ensures b < a || b >= a + k * PG_SIZE {
      StartUsed(pb, vb, f, s, vStart, b);
      PoolOrder(vStart, IndexIn(vStart, b), i, k);
    }
    forall b | b in s.large && b < a ensures b + s.large[b] * PG_SIZE <= a {
      StartUsed(pb, vb, f, s, vStart, b);
      LargePages(s, b);
      var j := IndexIn(vStart, b);
      PoolOrder(vStart, j, i, k);
      assert i in Span(j, PagesAt(s, b)) ==> i in pb.owner;
      PoolOrder(vStart, i, j, s.large[b]);
    }
  }

  lemma PoolBelow(vStart: int, i: nat, k: nat)
    ensures PoolAddr(vStart, i + k) == PoolAddr(vStart, i) + k * PG_SIZE && PoolAddr(vStart, i) >= vStart
  {}

  /** Addresses are ordered as their indices are. */
  lemma PoolOrder(vStart: int, j: int, i: int, k: nat)
    ensures PoolAddr(vStart, j) < PoolAddr(vStart, i) <==> j < i
    ensures PoolAddr(vStart, j) >= PoolAddr(vStart, i) + k * PG_SIZE <==> j >= i + k
  {}

  lemma LargePages(s: Slab, b: int)
    requires Shape(s) && b in s.large
    ensures PagesAt(s, b) == s.large[b]
  {}

  /** The first page of an arena or large allocation has its bit set. */
  lemma StartUsed(pb: PageBooks, vb: seq<bool>, f: map<int, int>, s: Slab, vStart: int, b: int)
    requires Shape(s) && Owns(pb, s, vStart) && Splits(pb, vb, f) && vStart % PG_SIZE == 0 && Starts(s, b)
    ensures b == PoolAddr(vStart, IndexIn(vStart, b)) && 0 <= IndexIn(vStart, b) < |vb| && vb[IndexIn(vStart, b)]
  {
    hide PoolAddr, IndexIn;
    IndexBack(vStart, b);
    var j := IndexIn(vStart, b);
    assert PagesAt(s, b) >= 1;
    assert j in Span(j, PagesAt(s, b));
    assert j in pb.owner;
  }

  function Claimed(pb: PageBooks, i: int, k: nat, a: int): PageBooks {
    pb.(owner := map j | j in pb.owner.Keys + Span(i, k) :: if j in Span(i, k) then a else pb.owner[j])
  }

  /** A successful page_acquire for the heap. */
  lemma ClaimSplits(pb: PageBooks, vb: seq<bool>, f: map<int, int>, vb': seq<bool>, f': map<int, int>, i: int, k: nat, a: int)
    requires Splits(pb, vb, f) && PagesTaken(vb, f, vb', f', i, k, k)
    ensures Splits(Claimed(pb, i, k, a), vb', f')
  {
    assert forall j | j in Span(i, k) :: !vb[j];
  }

  /** A failed one: what it marked and mapped is held for nobody. */
  function Lost(pb: PageBooks, f: map<int, int>, f': map<int, int>, i: int, c: nat): PageBooks {
    pb.(held := pb.held + Span(i, c), other := map j | j in f' && j !in pb.owner :: f'[j])
  }

  lemma LostSplits(pb: PageBooks, vb: seq<bool>, f: map<int, int>, vb': seq<bool>, f': map<int, int>, i: int, c: nat, k: nat)
    requires Splits(pb, vb, f) && PagesTaken(vb, f, vb', f', i, c, k)
    ensures Splits(Lost(pb, f, f', i, c), vb', f')
  {
    assert forall j | j in Span(i, c) :: !vb[j];
    assert Span(i, k) <= Span(i, c);
  }

  function Released(pb: PageBooks, i: int, k: nat): PageBooks { pb.(owner := pb.owner - Span(i, k)) }

  lemma ReleaseSplits(pb: PageBooks, vb: seq<bool>, f: map<int, int>, vb': seq<bool>, f': map<int, int>, i: int, k: nat)
    requires Splits(pb, vb, f) && PagesReturned(vb, f, vb', f', i, k) && Span(i, k) <= pb.owner.Keys
    ensures Splits(Released(pb, i, k), vb', f')
  {}

  /** s' is s with one more start a, of k pages. */
  ghost predicate Adds(s: Slab, s': Slab, a: int, k: nat) {
    && (forall b :: Starts(s', b) <==> Starts(s, b) || b == a)
    && (forall b | Starts(s, b) :: b != a && PagesAt(s', b) == PagesAt(s, b))
    && PagesAt(s', a) == k
  }

  lemma OwnsMore(pb: PageBooks, s: Slab, s': Slab, vStart: int, i: int, k: nat)
    requires Owns(pb, s, vStart) && i >= 0 && Adds(s, s', PoolAddr(vStart, i), k)
    requires forall j | j in Span(i, k) :: j !in pb.owner
    ensures Owns(Claimed(pb, i, k, PoolAddr(vStart, i)), s', vStart)
  {
    IndexOfPool(vStart, i);
    OwnsMoreUp(pb, s, s', vStart, i, k);
    OwnsMoreDown(pb, s, s', vStart, i, k);
  }

  lemma OwnsMoreUp(pb: PageBooks, s: Slab, s': Slab, vStart: int, i: int, k: nat)
    requires OwnsUp(pb, s, vStart) && Adds(s, s', PoolAddr(vStart, i), k)
    requires IndexIn(vStart, PoolAddr(vStart, i)) == i
    ensures OwnsUp(Claimed(pb, i, k, PoolAddr(vStart, i)), s', vStart)
  {
    var qb := Claimed(pb, i, k, PoolAddr(vStart, i));
    forall j | j in qb.owner
      ensures Starts(s', qb.owner[j]) && j in Span(IndexIn(vStart, qb.owner[j]), PagesAt(s', qb.owner[j]))
    {
      if j !in Span(i, k) { assert j in pb.owner && qb.owner[j] == pb.owner[j]; }
    }
  }

  lemma OwnsMoreDown(pb: PageBooks, s: Slab, s': Slab, vStart: int, i: int, k: nat)
    requires OwnsDown(pb, s, vStart) && i >= 0 && Adds(s, s', PoolAddr(vStart, i), k)
    requires IndexIn(vStart, PoolAddr(vStart, i)) == i && forall j | j in Span(i, k) :: j !in pb.owner
    ensures OwnsDown(Claimed(pb, i, k, PoolAddr(vStart, i)), s', vStart)
  {
    hide PoolAddr, IndexIn, PagesAt, Starts, Adds;
    var a := PoolAddr(vStart, i);
    var qb := Claimed(pb, i, k, a);
    AddsFacts(s, s', a, k);
    forall b | Starts(s', b) && b != a ensures b >= vStart { AddsOld(s, s', a, k, b); }
    StartsAfter(vStart, i);
    forall b, j | Starts(s', b) && j in Span(IndexIn(vStart, b), PagesAt(s', b))
      ensures j in qb.owner && qb.owner[j] == b
    {
      if b != a { OwnedBefore(pb, s, s', vStart, a, k, b, j); }
    }
  }

  lemma AddsFacts(s: Slab, s': Slab, a: int, k: nat)
    requires Adds(s, s', a, k)
    ensures PagesAt(s', a) == k
  {}

  lemma AddsOld(s: Slab, s': Slab, a: int, k: nat, b: int)
    requires Adds(s, s', a, k) && Starts(s', b) && b != a
    ensures Starts(s, b)
  {}

  lemma StartsAfter(vStart: int, i: int)
    requires i >= 0
    ensures PoolAddr(vStart, i) >= vStart
  {}

  lemma OwnedBefore(pb: PageBooks, s: Slab, s': Slab, vStart: int, a: int, k: nat, b: int, j: int)
    requires OwnsDown(pb, s, vStart) && Adds(s, s', a, k) && Starts(s', b) && b != a
    requires j in Span(IndexIn(vStart, b), PagesAt(s', b))
    ensures j in pb.owner && pb.owner[j] == b
  {
    assert Starts(s, b);
  }

  lemma OwnsLess(pb: PageBooks, s': Slab, s: Slab, vStart: int, a: int, k: nat)
    requires Owns(pb, s, vStart) && Adds(s', s, a, k)
    ensures Span(IndexIn(vStart, a), k) <= pb.owner.Keys
    ensures Owns(Released(pb, IndexIn(vStart, a), k), s', vStart)
  {
    hide IndexIn, PagesAt, Starts, OwnsUp;
    assert Starts(s, a) by { AddsStart(s', s, a, k); }
    AddsFacts(s', s, a, k);
    OwnsLessUp(pb, s', s, vStart, a, k);
    OwnsLessDown(pb, s', s, vStart, a, k);
  }

  lemma AddsStart(s: Slab, s': Slab, a: int, k: nat)
    requires Adds(s, s', a, k)
    ensures Starts(s', a)
  {}

  lemma OwnsLessUp(pb: PageBooks, s': Slab, s: Slab, vStart: int, a: int, k: nat)
    requires Owns(pb, s, vStart) && Adds(s', s, a, k)
    ensures OwnsUp(Released(pb, IndexIn(vStart, a), k), s', vStart)
  {
    hide IndexIn, PagesAt, OwnsDown;
    var qb := Released(pb, IndexIn(vStart, a), k);
    forall j | j in qb.owner
      ensures Starts(s', qb.owner[j]) && j in Span(IndexIn(vStart, qb.owner[j]), PagesAt(s', qb.owner[j]))
    {
      assert j in pb.owner && qb.owner[j] == pb.owner[j];
      assert Starts(s, pb.owner[j]) && j in Span(IndexIn(vStart, pb.owner[j]), PagesAt(s, pb.owner[j]));
    }
  }

  lemma OwnsLessDown(pb: PageBooks, s': Slab, s: Slab, vStart: int, a: int, k: nat)
    requires Owns(pb, s, vStart) && Adds(s', s, a, k)
    ensures OwnsDown(Released(pb, IndexIn(vStart, a), k), s', vStart)
  {
    hide IndexIn, PagesAt, OwnsUp;
    var qb := Released(pb, IndexIn(vStart, a), k);
    forall b | Starts(s', b) ensures b >= vStart { assert Starts(s, b); }
    assert Starts(s, a);
    forall b, j | Starts(s', b) && j in Span(IndexIn(vStart, b), PagesAt(s', b))
      ensures j in qb.owner && qb.owner[j] == b
    {
      assert Starts(s, b) && j in pb.owner && pb.owner[j] == b;
    }
  }

  /** A heap with no arena and no large allocation owns no page: what is marked and mapped is the others'. */
  lemma OwnsNothing(pb: PageBooks, vb: seq<bool>, f: map<int, int>, s: Slab, vStart: int)
    requires Owns(pb, s, vStart) && Splits(pb, vb, f) && s.arenas == map[] && s.large == map[]
    ensures f == pb.other
    ensures forall i | 0 <= i < |vb| :: vb[i] <==> i in pb.held
  {
    forall i ensures i !in pb.owner {
      assert i in pb.owner ==> Starts(s, pb.owner[i]);
    }
    assert pb.owner.Keys == {};
    var o := pb.other;
    assert f.Keys == o.Keys;
    assert forall i | i in o :: f[i] == o[i];
    assert f == o;
  }

  /** Ownership is about arenas and large allocations only. */
  lemma OwnsSame(pb: PageBooks, s: Slab, t: Slab, vStart: int)
    requires Owns(pb, s, vStart) && t.arenas == s.arenas && t.large == s.large
    ensures Owns(pb, t, vStart)
  {
    forall i | i in pb.owner
      ensures Starts(t, pb.owner[i]) && i in Span(IndexIn(vStart, pb.owner[i]), PagesAt(t, pb.owner[i]))
    {
      assert Starts(s, pb.owner[i]) && i in Span(IndexIn(vStart, pb.owner[i]), PagesAt(s, pb.owner[i]));
    }
    forall a, i | Starts(t, a) && i in Span(IndexIn(vStart, a), PagesAt(t, a))
      ensures i in pb.owner && pb.owner[i] == a
    {
      assert Starts(s, a) && i in Span(IndexIn(vStart, a), PagesAt(s, a));
    }
    forall a | Starts(t, a) ensures a >= vStart {
      assert Starts(s, a);
    }
  }

  /** All a successful page_acquire for the heap gives it. */
  lemma Acquired(pb: PageBooks, vb: seq<bool>, f: map<int, int>, vb': seq<bool>, f': map<int, int>, s: Slab, vStart: int,
                 a: int, k: nat)
    requires Shape(s) && Owns(pb, s, vStart) && Splits(pb, vb, f) && vStart % PG_SIZE == 0 && vStart >= HEAP_START && k >= 1
    requires a == PoolAddr(vStart, IndexIn(vStart, a)) && a >= vStart && PagesTaken(vb, f, vb', f', IndexIn(vStart, a), k, k)
    ensures FreshSpan(s, a, k) && Splits(Claimed(pb, IndexIn(vStart, a), k, a), vb', f')
    ensures forall s' | Adds(s, s', a, k) :: Owns(Claimed(pb, IndexIn(vStart, a), k, a), s', vStart)
  {
    hide Owns, Splits, Shape, FreshSpan, PoolAddr, Adds, Claimed, Span;
    var i := IndexIn(vStart, a);
    FreeIsFresh(pb, vb, f, s, vStart, i, k);
    ClaimSplits(pb, vb, f, vb', f', i, k, a);
    NotOwned(pb, vb, f, i, k);
    forall s' | Adds(s, s', a, k) ensures Owns(Claimed(pb, i, k, a), s', vStart) {
      OwnsMore(pb, s, s', vStart, i, k);
    }
  }

  lemma NotOwned(pb: PageBooks, vb: seq<bool>, f: map<int, int>, i: int, k: nat)
    requires Splits(pb, vb, f) && RunFree(vb, i, k)
    ensures forall j | j in Span(i, k) :: j !in pb.owner
  {
    forall j | j in Span(i, k) ensures j !in pb.owner {
      assert !vb[j];
    }
  }

  /** A failed page_acquire only adds to what is held for nobody. */
  ghost predicate SameHeapPages(pb: PageBooks, qb: PageBooks) {
    && qb.owner == pb.owner && pb.held <= qb.held && pb.other.Keys <= qb.other.Keys
    && forall i | i in pb.other :: qb.other[i] == pb.other[i]
  }

  lemma SameSelf(pb: PageBooks)
    ensures SameHeapPages(pb, pb)
  {}

  lemma Failed(pb: PageBooks, vb: seq<bool>, f: map<int, int>, vb': seq<bool>, f': map<int, int>) returns (qb: PageBooks)
    requires Splits(pb, vb, f)
    requires exists i, c: nat, k: nat :: PagesTaken(vb, f, vb', f', i, c, k)
    ensures Splits(qb, vb', f') && SameHeapPages(pb, qb)
  {
    var i, c: nat, k: nat :| PagesTaken(vb, f, vb', f', i, c, k);
    qb := Lost(pb, f, f', i, c);
    LostSplits(pb, vb, f, vb', f', i, c, k);
  }

  /** Both pools can serve a request for k pages. */
  ghost predicate PagesLeft(vb: seq<bool>, fb: seq<bool>, k: nat) {
    (exists i :: RunFree(vb, i, k)) && FreeCount(fb) >= k
  }

  lemma OwnsLost(pb: PageBooks, qb: PageBooks, s: Slab, vStart: int)
    requires Owns(pb, s, vStart) && SameHeapPages(pb, qb)
    ensures Owns(qb, s, vStart) && qb.owner == pb.owner
  {}

  lemma AddsArena(s: Slab, a: int, c: int)
    requires FreshSpan(s, a, 1)
    ensures Adds(s, WithArena(s, a, c), a, 1)
  {}

  lemma AddsLarge(s: Slab, a: int, k: nat, size: nat)
    requires FreshSpan(s, a, k)
    ensures Adds(s, WithLarge(s, a, k, size), a, k)
  {}

  lemma AddsForgotten(s: Slab, a: int)
    requires Shape(s) && a in s.arenas
    ensures Adds(Forgotten(s, a), s, a, 1)
  {}

  lemma AddsUnlarged(s: Slab, a: int)
    requires Shape(s) && a in s.large
    ensures Adds(WithoutLarge(s, a), s, a, s.large[a])
  {}

  /** The heap's own pages can be handed to page_release. */
  lemma ReleaseReady(pb: PageBooks, vb: seq<bool>, f: map<int, int>, s: Slab, t: Slab, vStart: int, a: int, k: nat)
    requires Owns(pb, s, vStart) && Splits(pb, vb, f) && Adds(t, s, a, k) && k >= 1
    ensures vStart <= a && IndexIn(vStart, a) + k <= |vb| && IndexIn(vStart, a) + k - 1 in f
    ensures Span(IndexIn(vStart, a), k) <= f.Keys && Span(IndexIn(vStart, a), k) <= pb.owner.Keys
    ensures Owns(Released(pb, IndexIn(vStart, a), k), t, vStart)
  {
    OwnsLess(pb, t, s, vStart, a, k);
    assert Starts(s, a);
    assert IndexIn(vStart, a) + k - 1 in Span(IndexIn(vStart, a), k);
  }

  // ----- heap pages are mapped, each to a frame of its own -----

  /** Every byte of an arena or of a large allocation is mapped. */
  lemma OwnedMapped(pb: PageBooks, vb: seq<bool>, fb: seq<bool>, m: Words, vStart: int, pStart: int,
                    f: map<int, int>, p: map<int, int>, s: Slab, a: int, y: int)
    requires Consistent(vb, fb, m, vStart, pStart, f, p) && Owns(pb, s, vStart) && Splits(pb, vb, f)
    requires Starts(s, a) && IsPage(a) && a <= y < a + PagesAt(s, a) * PG_SIZE
    ensures var i := IndexIn(vStart, y);
            i in f && 0 <= i < Reach(vStart, |vb|) && Walk(m, PAGE_DIR, y) == Mapped(PoolAddr(pStart, f[i]) + y % PG_SIZE)
  {
    hide Consistent, BootDirectory, SelfMapped, Walk, PoolView, Reach;
    var i := IndexIn(vStart, y);
    PoolFacts(vb, fb, m, vStart, pStart, f, p);
    IndexInside(vStart, a, y, PagesAt(s, a));
    assert i in Span(IndexIn(vStart, a), PagesAt(s, a));
    assert i in pb.owner && i in f && 0 <= i < |vb|;
    PoolViewAt(m, vStart, Reach(vStart, |vb|), i);
    assert Walk(m, PAGE_DIR, PoolAddr(vStart, i)) == Mapped(PoolAddr(pStart, f[i]));
    WalkOfPage(m, y, PoolAddr(vStart, i), PoolAddr(pStart, f[i]));
  }

  lemma PoolFacts(vb: seq<bool>, fb: seq<bool>, m: Words, vStart: int, pStart: int, f: map<int, int>, p: map<int, int>)
    requires Consistent(vb, fb, m, vStart, pStart, f, p)
    ensures Translates(PoolView(m, vStart, Reach(vStart, |vb|)), pStart, f) && vStart % PG_SIZE == 0
  {}

  lemma IndexInside(vStart: int, a: int, y: int, k: nat)
    requires vStart % PG_SIZE == 0 && IsPage(a) && a <= y < a + k * PG_SIZE
    ensures IndexIn(vStart, a) <= IndexIn(vStart, y) < IndexIn(vStart, a) + k
    ensures PageOf(y) == PoolAddr(vStart, IndexIn(vStart, y))
  {}

  lemma WalkOfPage(m: Words, y: int, v: int, pa: int)
    requires PageOf(y) == v && Walk(m, PAGE_DIR, v) == Mapped(pa)
    ensures Walk(m, PAGE_DIR, y) == Mapped(pa + y % PG_SIZE)
  {
    hide PageOf, PteAddr, PdeIdx, Frame, Aligned, Present;
    EntryOfPage(m, PAGE_DIR, y);
    PageAligned(y);
  }

  /** Different heap pages lie on different frames, all above the page tables: stores to heap memory
      behave as stores to flat memory (Paging.FlatStore). */
  lemma OwnedApart(pb: PageBooks, vb: seq<bool>, fb: seq<bool>, m: Words, vStart: int, pStart: int,
                   f: map<int, int>, p: map<int, int>, s: Slab, a: int, y: int, b: int, z: int)
    requires Consistent(vb, fb, m, vStart, pStart, f, p) && Owns(pb, s, vStart) && Splits(pb, vb, f)
    requires Starts(s, a) && IsPage(a) && a <= y < a + PagesAt(s, a) * PG_SIZE
    requires Starts(s, b) && IsPage(b) && b <= z < b + PagesAt(s, b) * PG_SIZE
    ensures Walk(m, PAGE_DIR, y).Mapped? && Walk(m, PAGE_DIR, z).Mapped? && Walk(m, PAGE_DIR, y).pa >= TABLES_END
    ensures PageOf(y) != PageOf(z) ==> Frame(Walk(m, PAGE_DIR, y).pa) != Frame(Walk(m, PAGE_DIR, z).pa)
  {
    hide Consistent, Walk, Owns, Splits, Starts, PagesAt, PageOf, IndexIn, PoolAddr, IsPage;
    OwnedMapped(pb, vb, fb, m, vStart, pStart, f, p, s, a, y);
    OwnedMapped(pb, vb, fb, m, vStart, pStart, f, p, s, b, z);
    var i, j := IndexIn(vStart, y), IndexIn(vStart, z);
    FramesApart(vb, fb, m, vStart, pStart, f, p, i, j);
    PageIndex(vStart, y);
    PageIndex(vStart, z);
    FrameAbove(pStart, f[i], y);
    FrameAbove(pStart, f[j], z);
  }

  lemma FramesApart(vb: seq<bool>, fb: seq<bool>, m: Words, vStart: int, pStart: int, f: map<int, int>, p: map<int, int>, i: int, j: int)
    requires Consistent(vb, fb, m, vStart, pStart, f, p) && i in f && j in f
    ensures vStart % PG_SIZE == 0 && pStart % PG_SIZE == 0 && pStart >= TABLES_END && f[i] >= 0 && f[j] >= 0
    ensures f[i] == f[j] ==> i == j
    ensures i != j ==> PoolAddr(pStart, f[i]) != PoolAddr(pStart, f[j])
  {
    hide BootDirectory, Translates;
  }

  lemma PageIndex(vStart: int, y: int)
    requires vStart % PG_SIZE == 0
    ensures PageOf(y) == PoolAddr(vStart, IndexIn(vStart, y))
  {}

  lemma FrameAbove(pStart: int, j: int, y: int)
    requires pStart % PG_SIZE == 0 && pStart >= TABLES_END && j >= 0
    ensures Frame(PoolAddr(pStart, j) + y % PG_SIZE) == PoolAddr(pStart, j)
    ensures PoolAddr(pStart, j) + y % PG_SIZE >= TABLES_END
  {}

  lemma OwnedAddress(pb: PageBooks, vb: seq<bool>, fb: seq<bool>, m: Words, vStart: int, pStart: int,
                     f: map<int, int>, p: map<int, int>, s: Slab, a: int, y: int)
    requires Consistent(vb, fb, m, vStart, pStart, f, p) && Owns(pb, s, vStart) && Splits(pb, vb, f)
    requires Starts(s, a) && IsPage(a) && a <= y < a + PagesAt(s, a) * PG_SIZE
    ensures IsAddr(y) && TablesBelow(m, PAGE_DIR, TABLES_END)
  {
    OwnedMapped(pb, vb, fb, m, vStart, pStart, f, p, s, a, y);
    hide Walk, Owns, Splits, Starts, PagesAt, Translates, OneToOne, PageOf, IndexIn, PoolAddr, BootDirectory, SelfMapped;
    DirectoryReady(m);
    PageIndex(vStart, y);
    PoolPage(vStart, Reach(vStart, |vb|), IndexIn(vStart, y));
    InPage(y);
  }

  lemma InPage(y: int)
    ensures PageOf(y) <= y < PageOf(y) + PG_SIZE
    ensures PageOf(y) < WINDOW && 0 <= PageOf(y) ==> IsAddr(y)
  {}

  /** A store to one heap word through the page tables is seen at that word and at no other heap word. */
  lemma HeapStore(pb: PageBooks, vb: seq<bool>, fb: seq<bool>, m: Words, vStart: int, pStart: int,
                  f: map<int, int>, p: map<int, int>, s: Slab, a: int, y: int, b: int, z: int, x: int)
    requires Consistent(vb, fb, m, vStart, pStart, f, p) && Owns(pb, s, vStart) && Splits(pb, vb, f)
    requires Starts(s, a) && IsPage(a) && a <= y < a + PagesAt(s, a) * PG_SIZE && Aligned(y)
    requires Starts(s, b) && IsPage(b) && b <= z < b + PagesAt(s, b) * PG_SIZE && Aligned(z)
    ensures Walk(m, PAGE_DIR, y).Mapped? && Walk(m, PAGE_DIR, z).Mapped?
    ensures var m' := Store(m, Walk(m, PAGE_DIR, y).pa, x);
            && Walk(m', PAGE_DIR, z) == Walk(m, PAGE_DIR, z)
            && Seen(m', PAGE_DIR, z) == if y == z then x else Seen(m, PAGE_DIR, z)
  {
    hide Consistent, Walk, Owns, Splits, Starts, PagesAt, PageOf, IsPage, Store, Aligned, TablesBelow, Frame;
    OwnedApart(pb, vb, fb, m, vStart, pStart, f, p, s, a, y, b, z);
    OwnedAddress(pb, vb, fb, m, vStart, pStart, f, p, s, a, y);
    OwnedAddress(pb, vb, fb, m, vStart, pStart, f, p, s, b, z);
    FlatStore(m, PAGE_DIR, TABLES_END, y, x, z);
  }

  // ----- other users of the page layer -----

  /** Pages given back by a user other than the heap. */
  function OthersReleased(pb: PageBooks, i: int, k: nat): PageBooks {
    pb.(held := pb.held - Span(i, k), other := pb.other - Span(i, k))
  }

  lemma OthersReleaseSplits(pb: PageBooks, vb: seq<bool>, f: map<int, int>, vb': seq<bool>, f': map<int, int>, i: int, k: nat)
    requires Splits(pb, vb, f) && PagesReturned(vb, f, vb', f', i, k) && Span(i, k) <= pb.other.Keys
    ensures Splits(OthersReleased(pb, i, k), vb', f') && Span(i, k) <= f.Keys && 0 <= i && i + k <= |vb|
  {}

  /** k pages taken by another user: marked and mapped for it, and apart from the heap's. */
  lemma OthersTake(pb: PageBooks, vb: seq<bool>, f: map<int, int>, vb': seq<bool>, f': map<int, int>, s: Slab, vStart: int,
                   i: int, k: nat) returns (qb: PageBooks)
    requires Shape(s) && Owns(pb, s, vStart) && Splits(pb, vb, f) && vStart % PG_SIZE == 0 && vStart >= HEAP_START && k >= 1
    requires PagesTaken(vb, f, vb', f', i, k, k)
    ensures Splits(qb, vb', f') && Owns(qb, s, vStart) && FreshSpan(s, PoolAddr(vStart, i), k)
    ensures qb.owner == pb.owner && qb.held == pb.held + Span(i, k) && qb.other.Keys == pb.other.Keys + Span(i, k)
    ensures forall j | j in pb.other :: qb.other[j] == pb.other[j]
  {
    hide Shape, Owns, FreshSpan, PoolAddr;
    qb := Lost(pb, f, f', i, k);
    LostSplits(pb, vb, f, vb', f', i, k, k);
    FreeIsFresh(pb, vb, f, s, vStart, i, k);
    TakenOwner(pb, vb, f, vb', f', i, k);
    OwnsOwner(pb, qb, s, vStart);
  }

  lemma TakenOwner(pb: PageBooks, vb: seq<bool>, f: map<int, int>, vb': seq<bool>, f': map<int, int>, i: int, k: nat)
    requires Splits(pb, vb, f) && PagesTaken(vb, f, vb', f', i, k, k)
    ensures Lost(pb, f, f', i, k).other.Keys == pb.other.Keys + Span(i, k)
    ensures forall j | j in pb.other :: Lost(pb, f, f', i, k).other[j] == pb.other[j]
  {
    NotOwned(pb, vb, f, i, k);
    var qb := Lost(pb, f, f', i, k);
    forall j ensures j in qb.other.Keys <==> j in pb.other.Keys + Span(i, k) {
      assert j in f'.Keys <==> j in f.Keys + Span(i, k);
      assert j in f.Keys <==> j in pb.owner.Keys + pb.other.Keys;
      assert j in pb.other.Keys ==> j in pb.held && j !in pb.owner.Keys;
    }
  }

  lemma OwnsOwner(pb: PageBooks, qb: PageBooks, s: Slab, vStart: int)
    requires Owns(pb, s, vStart) && qb.owner == pb.owner
    ensures Owns(qb, s, vStart)
  {}
}
