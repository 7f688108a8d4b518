/** sys_malloc for the sizes whose page count wraps to 0: page_acquire maps nothing and names the page behind
    a used one, and the header is stored there. */
module ZeroPages {
  import opened Words
  import opened IntrusiveList
  import opened BitRuns
  import opened Paging
  import opened Pages
  import opened SlabLayout
  import opened SlabState
  import opened SlabSteps
  import opened SlabUsers
  import opened HeapPages
  import opened HeapSteps

  /** Page a lies inside a large allocation, behind its first page. */
  ghost predicate InsideLarge(s: Slab, a: int) {
    exists b :: b in s.large && b < a < b + s.large[b] * PG_SIZE
  }

  /** The word at w belongs to a live allocation. */
  ghost predicate UsersWord(s: Slab, w: int) { exists x :: InUse(s, x, w) }

  lemma HeaderInside(s: Slab, a: int)
    requires Shape(s) && Accounted(s) && HeapPage(a) && InsideLarge(s, a)
    ensures UsersWord(s, a + 8)
  {
    hide Shape, Accounted, UsersWord, PageOf, IsPage;
    var b :| b in s.large && b < a < b + s.large[b] * PG_SIZE;
    HeaderBehind(s, a, b, s.large[b]);
  }

  lemma HeaderBehind(s: Slab, a: int, b: int, k: nat)
    requires Shape(s) && Accounted(s) && IsPage(a) && b in s.large && k == s.large[b] && b < a < b + k * PG_SIZE
    ensures UsersWord(s, a + 8)
  {
    hide Shape, Accounted, End, IsPage, PageOf;
    LargeIsPage(s, b);
    LaterPage(b, a, k);
    LargeEnd(s, b);
    var w := a + 8;
    assert InUse(s, b + ARENA_HDR, w);
  }

  lemma LargeIsPage(s: Slab, b: int)
    requires Shape(s) && b in s.large
    ensures IsPage(b) && s.large[b] >= 1
  {}

  lemma InsideUser(s: Slab, a: int, x: int)
    requires Shape(s) && Accounted(s) && HeapPage(a) && InUse(s, x, a + 8)
    ensures InsideLarge(s, a)
  {
    LiveKind(s, x);
    if PageOf(x) in s.arenas {
      BlockFacts(s, s.arenas[PageOf(x)], x);
      NoPageBetween(PageOf(x), a);
    } else {
      var b := PageOf(x);
      assert b in s.large && b < a < b + s.large[b] * PG_SIZE;
    }
  }

  /** The header lands in a live allocation exactly when the page is one of the later pages of a large one. */
  lemma HeaderInUse(s: Slab, a: int)
    requires Shape(s) && Accounted(s) && HeapPage(a)
    ensures UsersWord(s, a + 8) <==> InsideLarge(s, a)
  {
    hide Shape, Accounted, InUse, InsideLarge;
    if InsideLarge(s, a) {
      HeaderInside(s, a);
    }
    if UsersWord(s, a + 8) {
      var w := a + 8;
      var x :| InUse(s, x, w);
      InsideUser(s, a, x);
    }
  }

  lemma LaterPage(b: int, a: int, k: nat)
    requires IsPage(b) && IsPage(a) && b < a < b + k * PG_SIZE
    ensures b + PG_SIZE <= a && a + PG_SIZE <= b + k * PG_SIZE
  {
    PagesApart(b, a);
    assert IsPage(b + k * PG_SIZE);
    PagesApart(a, b + k * PG_SIZE);
  }

  lemma NoPageBetween(b: int, a: int)
    requires IsPage(b) && IsPage(a)
    ensures !(b + ARENA_HDR <= a + 8 && a + 12 <= b + PG_SIZE)
  {
    if a != b { PagesApart(a, b); }
  }

  lemma LargeEnd(s: Slab, b: int)
    requires Shape(s) && Accounted(s) && b in s.large
    ensures b + ARENA_HDR in s.live && End(s, b + ARENA_HDR) == b + s.large[b] * PG_SIZE
  {
    PageBase(b, b + ARENA_HDR);
  }

  /** What the stores do to the heap: its structure survives exactly when the page is not the first of an arena
      or of a large allocation. */
  lemma ZeroPagesExact(m: Words, base: int, s: Slab, a: int)
    requires Sound(m, base, s, {}) && HeapPage(a)
    ensures Sound(LargeWords(m, a, 0), base, s, {}) <==> !Starts(s, a)
  {
    hide ListAt, Placed, Complete, Accounted, Shape, Lists, Heads, LargeHeads, Descs, PageOf;
    var n := LargeWords(m, a, 0);
    if Starts(s, a) {
      HeaderLost(n, base, s, a);
    } else {
      ShapeSize(s);
      forall c, x | IsClass(c) && x in s.free[c] ensures n(x) == m(x) && n(x + 4) == m(x + 4) {
        FreeElsewhere(s, a, c, x);
      }
      forall b | (b in s.arenas && b !in {}) || b in s.large
        ensures n(b) == m(b) && n(b + 4) == m(b + 4) && n(b + 8) == m(b + 8)
      {
        OtherHeader(m, s, a, b);
      }
      SkeletonFrame(m, n, base, s, {});
    }
  }

  lemma OtherHeader(m: Words, s: Slab, a: int, b: int)
    requires Shape(s) && HeapPage(a) && Starts(s, b) && a != b
    ensures LargeWords(m, a, 0)(b) == m(b) && LargeWords(m, a, 0)(b + 4) == m(b + 4) && LargeWords(m, a, 0)(b + 8) == m(b + 8)
  {
    KindPage(s, b);
    PagesApart(a, b);
  }

  /** A free block is on its arena's page. */
  lemma FreeElsewhere(s: Slab, a: int, c: int, x: int)
    requires Shape(s) && Placed(s) && HeapPage(a) && a !in s.arenas && IsClass(c) && x in s.free[c]
    ensures x + 8 <= a || x >= a + PG_SIZE
  {
    assert BlockOf(s, c, x);
    BlockFacts(s, c, x);
    PagesApart(PageOf(x), a);
  }

  lemma HeaderLost(n: Words, base: int, s: Slab, a: int)
    requires Shape(s) && Starts(s, a) && DescsFit(base) && n(a) == 0 && n(a + 4) == 0
    ensures !InMemory(n, base, s, {})
  {
    hide ListAt, Lists, Descs;
    if a in s.arenas {
      assert !Header(n, base, a, s.arenas[a], |FreeOf(s, a)|);
    } else {
      assert !LargeHeader(n, a, s.large[a]);
    }
  }

  /** And outside the heap's pages it touches nobody's bytes. */
  lemma ZeroPagesApart(m: Words, s: Slab, a: int)
    requires Shape(s) && Accounted(s) && HeapPage(a) && !Starts(s, a) && !InsideLarge(s, a)
    ensures LiveKept(m, LargeWords(m, a, 0), s)
  {
    hide Shape, Accounted, Starts, InsideLarge, InUse, IsPage;
    forall x, w | InUse(s, x, w) ensures LargeWords(m, a, 0)(w) == m(w) {
      ElsewhereUser(s, a, x, w);
    }
  }

  lemma KindPage(s: Slab, b: int)
    requires Shape(s) && Starts(s, b)
    ensures IsPage(b)
  {}

  lemma ElsewhereUser(s: Slab, a: int, x: int, w: int)
    requires Shape(s) && Accounted(s) && HeapPage(a) && !Starts(s, a) && !InsideLarge(s, a) && InUse(s, x, w)
    ensures w < a || w >= a + ARENA_HDR
  {
    hide Accounted, Shape, End, IsPage, PageOf, BlockOf;
    LiveKind(s, x);
    var b := PageOf(x);
    KindPage(s, b);
    if b in s.arenas {
      PagesApart(a, b);
    } else {
      assert !(b < a < b + s.large[b] * PG_SIZE);
      PagesApart(a, b);
    }
  }

  /** So a request of that kind harms a client as soon as the first used page behind a free one starts an
      allocation of two pages or more: the header goes into that allocation's second page. */
  lemma SecondPageHit(vb: seq<bool>, s: Slab, vStart: int, f: int, b: int)
    requires Shape(s) && Accounted(s) && vStart % PG_SIZE == 0 && vStart >= HEAP_START
    requires b in s.large && s.large[b] >= 2
    requires var i := IndexIn(vStart, b); ZeroScanned(vb, f, i) && f < i < |vb| && vb[i]
    ensures IsZeroFit(vb, IndexIn(vStart, b) + 1) && UsersWord(s, PoolAddr(vStart, IndexIn(vStart, b) + 1) + 8)
  {
    hide Shape, Accounted, PoolAddr, IndexIn, UsersWord, InsideLarge;
    var i := IndexIn(vStart, b);
    LargeIsPage(s, b);
    IndexBack(vStart, b);
    PoolBelow(vStart, i, 1);
    PoolIsPage(vStart, i + 1);
    var a := PoolAddr(vStart, i + 1);
    NextPage(s, b, a);
    HeaderInside(s, a);
    ZeroFitAt(vb, f, i + 1);
  }

  lemma NextPage(s: Slab, b: int, a: int)
    requires b in s.large && s.large[b] >= 2 && a == b + PG_SIZE
    ensures InsideLarge(s, a)
  {
    assert b < a < b + s.large[b] * PG_SIZE;
  }
}
