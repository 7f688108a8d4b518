/** The heap's words against physical memory: what the slab heap reads and writes at virtual addresses is
    what its frames hold, whatever the page layer does in between. */
module HeapMirror {
  import opened Words
  import opened Paging
  import opened Boot
  import opened Pages
  import opened SlabLayout
  import opened SlabState
  import opened SlabSteps
  import opened HeapPages

  /** The page layer and its books: virtual bits, frame bits, physical memory, the two maps. */
  datatype Layer = Layer(books: PageBooks, vb: seq<bool>, fb: seq<bool>, m: Words, vStart: int, pStart: int,
                         f: map<int, int>, p: map<int, int>)

  /** The layer is consistent and holds the heap's pages. */
  ghost predicate Backs(l: Layer, s: Slab) {
    && Consistent(l.vb, l.fb, l.m, l.vStart, l.pStart, l.f, l.p)
    && Owns(l.books, s, l.vStart) && Splits(l.books, l.vb, l.f)
    && forall a | Starts(s, a) :: IsPage(a)
  }

  /** y is a word of the pages that start at a. */
  ghost predicate HeapWord(s: Slab, a: int, y: int) {
    Starts(s, a) && a <= y < a + PagesAt(s, a) * PG_SIZE && Aligned(y)
  }

  ghost predicate Mirrored(m: Words, n: Words, y: int) {
    Walk(m, PAGE_DIR, y).Mapped? && Seen(m, PAGE_DIR, y) == n(y)
  }

  /** Every word of an arena or of a large allocation, read through the page tables, is the heap's word. */
  ghost predicate Mirrors(s: Slab, m: Words, n: Words) {
    forall a, y | HeapWord(s, a, y) :: Mirrored(m, n, y)
  }

  /** Where a heap word lies, and that this depends on its page's frame only. */
  lemma WordPlace(l: Layer, s: Slab, a: int, y: int)
    requires Backs(l, s) && HeapWord(s, a, y)
    ensures var i := IndexIn(l.vStart, y);
            && i in l.f && i in l.books.owner && Walk(l.m, PAGE_DIR, y) == Mapped(PoolAddr(l.pStart, l.f[i]) + y % PG_SIZE)
            && PoolAddr(l.pStart, l.f[i]) + y % PG_SIZE >= TABLES_END
  {
    hide Consistent, Owns, Splits, Walk, Aligned, PagesAt, Starts, PoolAddr, IndexIn;
    OwnedMapped(l.books, l.vb, l.fb, l.m, l.vStart, l.pStart, l.f, l.p, s, a, y);
    OwnedPage(l.books, s, l.vStart, a, y, l.vb, l.fb, l.m, l.pStart, l.f, l.p);
    var i := IndexIn(l.vStart, y);
    FramesApart(l.vb, l.fb, l.m, l.vStart, l.pStart, l.f, l.p, i, i);
    FrameAbove(l.pStart, l.f[i], y);
  }

  lemma OwnedPage(pb: PageBooks, s: Slab, vStart: int, a: int, y: int, vb: seq<bool>, fb: seq<bool>, m: Words, pStart: int,
                  f: map<int, int>, p: map<int, int>)
    requires Owns(pb, s, vStart) && Consistent(vb, fb, m, vStart, pStart, f, p)
    requires Starts(s, a) && IsPage(a) && a <= y < a + PagesAt(s, a) * PG_SIZE
    ensures IndexIn(vStart, y) in pb.owner
  {
    hide BootDirectory, Translates, OneToOne;
    IndexInside(vStart, a, y, PagesAt(s, a));
    assert IndexIn(vStart, y) in Span(IndexIn(vStart, a), PagesAt(s, a));
  }

  /** One word of physical memory backs one heap word. */
  lemma OneWord(l: Layer, s: Slab, b: int, y: int, c: int, z: int)
    requires Backs(l, s) && HeapWord(s, b, y) && HeapWord(s, c, z) && Walk(l.m, PAGE_DIR, y) == Walk(l.m, PAGE_DIR, z)
    ensures y == z
  {
    hide Consistent, Owns, Splits, Walk, HeapWord, PageOf;
    WordPlace(l, s, b, y);
    WordPlace(l, s, c, z);
    var i, j := IndexIn(l.vStart, y), IndexIn(l.vStart, z);
    FramesApart(l.vb, l.fb, l.m, l.vStart, l.pStart, l.f, l.p, i, j);
  }

  // ----- memories with the same page tables -----

  ghost predicate Agree(m: Words, p: Words) { forall a | a < TABLES_END :: p(a) == m(a) }

  lemma WalkAgree(m: Words, p: Words, v: int)
    requires BootDirectory(m) && Agree(m, p) && IsAddr(v)
    ensures Walk(p, PAGE_DIR, v) == Walk(m, PAGE_DIR, v)
  {
    DirectoryReady(m);
    TableWordsBelow(m, PAGE_DIR, TABLES_END, v);
  }

  /** What memory above the page tables holds does not matter to the page layer. */
  lemma AgreeConsistent(vb: seq<bool>, fb: seq<bool>, m: Words, p: Words, vStart: int, pStart: int, f: map<int, int>, g: map<int, int>)
    requires Consistent(vb, fb, m, vStart, pStart, f, g) && Agree(m, p)
    ensures Consistent(vb, fb, p, vStart, pStart, f, g)
  {
    hide Reach, OneToOne, Translates, Walk;
    var n := Reach(vStart, |vb|);
    forall i | 0 <= i < n ensures PoolView(p, vStart, n)[i] == PoolView(m, vStart, n)[i] {
      PoolViewAt(m, vStart, n, i);
      PoolViewAt(p, vStart, n, i);
      PoolPage(vStart, n, i);
      WalkAgree(m, p, PoolAddr(vStart, i));
    }
    assert PoolView(p, vStart, n) == PoolView(m, vStart, n);
    AgreeDirectory(m, p);
  }

  lemma AgreeDirectory(m: Words, p: Words)
    requires BootDirectory(m) && Agree(m, p)
    ensures BootDirectory(p)
  {
    forall i | 0 <= i <= SELF_SLOT ensures p(PAGE_DIR + i * 4) == BootPde(i) {
      assert PAGE_DIR + i * 4 < TABLES_END;
    }
  }

  lemma AgreeBacks(l: Layer, s: Slab, p: Words)
    requires Backs(l, s) && Agree(l.m, p)
    ensures Backs(l.(m := p), s)
  {
    hide Consistent, Owns, Splits;
    AgreeConsistent(l.vb, l.fb, l.m, p, l.vStart, l.pStart, l.f, l.p);
  }

  // ----- stores -----

  /** The heap's store of x at y goes to y's frame: the mirror holds afterwards, and the layer is as before. */
  lemma MirrorStore(l: Layer, s: Slab, n: Words, a: int, y: int, x: int)
    requires Backs(l, s) && Mirrors(s, l.m, n) && HeapWord(s, a, y)
    ensures Walk(l.m, PAGE_DIR, y).Mapped? && Walk(l.m, PAGE_DIR, y).pa >= TABLES_END
    ensures var m' := Store(l.m, Walk(l.m, PAGE_DIR, y).pa, x);
            Mirrors(s, m', Store(n, y, x)) && Agree(l.m, m') && Backs(l.(m := m'), s)
  {
    hide Consistent, Owns, Splits, Walk, Starts, PagesAt, Aligned, Seen;
    WordPlace(l, s, a, y);
    var m' := Store(l.m, Walk(l.m, PAGE_DIR, y).pa, x);
    forall b, z | HeapWord(s, b, z) ensures Mirrored(m', Store(n, y, x), z) {
      assert Mirrored(l.m, n, z);
      HeapStore(l.books, l.vb, l.fb, l.m, l.vStart, l.pStart, l.f, l.p, s, a, y, b, z, x);
    }
    AgreeBacks(l, s, m');
  }

  /** The word a of physical memory backs a heap word. */
  ghost predicate Backing(l: Layer, s: Slab, a: int) {
    exists b, y :: HeapWord(s, b, y) && Walk(l.m, PAGE_DIR, y) == Mapped(a)
  }

  ghost function WordAt(l: Layer, s: Slab, a: int): int
    requires Backing(l, s, a)
  {
    var b, y :| HeapWord(s, b, y) && Walk(l.m, PAGE_DIR, y) == Mapped(a);
    y
  }

  lemma WordAtIs(l: Layer, s: Slab, b: int, y: int)
    requires Backs(l, s) && HeapWord(s, b, y)
    ensures Walk(l.m, PAGE_DIR, y).Mapped?
    ensures var a := Walk(l.m, PAGE_DIR, y).pa; a >= TABLES_END && Backing(l, s, a) && WordAt(l, s, a) == y
  {
    hide Consistent, Owns, Splits, Walk, PoolAddr, IndexIn, Backs, HeapWord;
    WordPlace(l, s, b, y);
    var a := Walk(l.m, PAGE_DIR, y).pa;
    assert Backing(l, s, a);
    var c, z :| HeapWord(s, c, z) && Walk(l.m, PAGE_DIR, z) == Mapped(a) && WordAt(l, s, a) == z;
    OneWord(l, s, b, y, c, z);
  }

  /** Physical memory p with the heap's words n written where they belong, and the page tables of l. */
  ghost function Overlay(l: Layer, s: Slab, p: Words, n: Words): Words {
    a => if a < TABLES_END then l.m(a) else if Backing(l, s, a) then n(WordAt(l, s, a)) else p(a)
  }

  /** p holds the page tables and shows the heap's words. */
  ghost predicate Shows(l: Layer, s: Slab, p: Words, n: Words) {
    Agree(l.m, p) && Mirrors(s, p, n)
  }

  lemma OverlayShows(l: Layer, s: Slab, p: Words, n: Words)
    requires Backs(l, s)
    ensures Shows(l, s, Overlay(l, s, p, n), n)
    ensures forall a | a >= TABLES_END && !Backing(l, s, a) :: Overlay(l, s, p, n)(a) == p(a)
  {
    hide Backs, HeapWord, Backing, WordAt, Walk;
    var q := Overlay(l, s, p, n);
    forall b, y | HeapWord(s, b, y) ensures Mirrored(q, n, y) {
      WordAtIs(l, s, b, y);
      WordAddr(l, s, b, y, q);
    }
  }

  lemma WordAddr(l: Layer, s: Slab, b: int, y: int, q: Words)
    requires Backs(l, s) && HeapWord(s, b, y) && Agree(l.m, q)
    ensures Walk(q, PAGE_DIR, y) == Walk(l.m, PAGE_DIR, y)
  {
    hide Owns, Splits, Walk, OneToOne, Translates, BootDirectory, Starts, PagesAt;
    OwnedAddress(l.books, l.vb, l.fb, l.m, l.vStart, l.pStart, l.f, l.p, s, b, y);
    WalkAgree(l.m, q, y);
  }

  /** Any sequence of the heap's stores, as pairs of address and value: on the heap's own view, and on physical
      memory through the page tables. */
  ghost predicate HeapStores(s: Slab, ws: seq<(int, int)>) {
    forall k | 0 <= k < |ws| :: IsHeapWord(s, ws[k].0)
  }

  ghost predicate IsHeapWord(s: Slab, y: int) { exists b :: HeapWord(s, b, y) }

  function Applied(n: Words, ws: seq<(int, int)>): Words {
    if ws == [] then n else var e := ws[|ws| - 1]; Store(Applied(n, ws[..|ws| - 1]), e.0, e.1)
  }

  ghost function Replayed(l: Layer, p: Words, ws: seq<(int, int)>): Words {
    if ws == [] then p else
    var e := ws[|ws| - 1];
    var q := Replayed(l, p, ws[..|ws| - 1]);
    if Walk(q, PAGE_DIR, e.0).Mapped? then Store(q, Walk(q, PAGE_DIR, e.0).pa, e.1) else q
  }

  lemma {:induction false} ReplayShows(l: Layer, s: Slab, p: Words, n: Words, ws: seq<(int, int)>)
    requires Backs(l, s) && Shows(l, s, p, n) && HeapStores(s, ws)
    ensures Shows(l, s, Replayed(l, p, ws), Applied(n, ws))
    ensures forall a | a >= TABLES_END && !Backing(l, s, a) :: Replayed(l, p, ws)(a) == p(a)
  {
    hide Backs, HeapWord, Backing, Walk, Mirrors;
    if ws != [] {
      var vs, e := ws[..|ws| - 1], ws[|ws| - 1];
      FewerStores(s, ws);
      ReplayShows(l, s, p, n, vs);
      var q := Replayed(l, p, vs);
      var y := e.0;
      var b :| HeapWord(s, b, y);
      AgreeBacks(l, s, q);
      MirrorStore(l.(m := q), s, Applied(n, vs), b, e.0, e.1);
      WordAddr(l, s, b, e.0, q);
      WordAtIs(l, s, b, e.0);
    }
  }

  lemma FewerStores(s: Slab, ws: seq<(int, int)>)
    requires HeapStores(s, ws) && ws != []
    ensures HeapStores(s, ws[..|ws| - 1]) && IsHeapWord(s, ws[|ws| - 1].0)
  {}

  /** What the stores make of physical memory is Overlay, whatever they are and in whatever order they come. */
  lemma ReplayExact(l: Layer, s: Slab, p: Words, n: Words, ws: seq<(int, int)>, a: int)
    requires Backs(l, s) && Shows(l, s, p, n) && HeapStores(s, ws)
    ensures Replayed(l, p, ws)(a) == Overlay(l, s, p, Applied(n, ws))(a)
  {
    hide Backs, HeapStores, Walk, Replayed, Applied, HeapWord;
    ReplayShows(l, s, p, n, ws);
    if a >= TABLES_END && Backing(l, s, a) {
      var b, y :| HeapWord(s, b, y) && Walk(l.m, PAGE_DIR, y) == Mapped(a);
      WordAtIs(l, s, b, y);
      WordAddr(l, s, b, y, Replayed(l, p, ws));
      assert Mirrored(Replayed(l, p, ws), Applied(n, ws), y);
    }
  }

  /** The frames of other users' pages back no heap word. */
  lemma OthersBackNothing(l: Layer, s: Slab, i: int, a: int)
    requires Backs(l, s) && i in l.books.other && 0 <= a - PoolAddr(l.pStart, l.books.other[i]) < PG_SIZE
    ensures a >= TABLES_END && !Backing(l, s, a)
  {
    hide Consistent, Owns, Walk, HeapWord, PageOf;
    OthersMapped(l.books, l.vb, l.f, i);
    FramesApart(l.vb, l.fb, l.m, l.vStart, l.pStart, l.f, l.p, i, i);
    forall b, y | HeapWord(s, b, y) ensures Walk(l.m, PAGE_DIR, y) != Mapped(a) {
      ElsewhereBacked(l, s, i, b, y, a);
    }
  }

  lemma ElsewhereBacked(l: Layer, s: Slab, i: int, b: int, y: int, a: int)
    requires Backs(l, s) && i in l.books.other && 0 <= a - PoolAddr(l.pStart, l.books.other[i]) < PG_SIZE && HeapWord(s, b, y)
    ensures Walk(l.m, PAGE_DIR, y) != Mapped(a)
  {
    hide Consistent, Owns, Walk, HeapWord, PageOf;
    OthersMapped(l.books, l.vb, l.f, i);
    WordPlace(l, s, b, y);
    var j := IndexIn(l.vStart, y);
    FramesApart(l.vb, l.fb, l.m, l.vStart, l.pStart, l.f, l.p, i, j);
    NotBoth(l.books, l.vb, l.f, i, j);
    FramesDisjoint(l.pStart, l.f[i], l.f[j], a, y % PG_SIZE);
  }

  lemma OthersMapped(pb: PageBooks, vb: seq<bool>, f: map<int, int>, i: int)
    requires Splits(pb, vb, f) && i in pb.other
    ensures i in f && f[i] == pb.other[i]
  {}

  lemma NotBoth(pb: PageBooks, vb: seq<bool>, f: map<int, int>, i: int, j: int)
    requires Splits(pb, vb, f) && i in pb.other && j in pb.owner
    ensures i != j
  {}

  lemma FramesDisjoint(pStart: int, u: int, v: int, a: int, r: int)
    requires u != v && 0 <= a - PoolAddr(pStart, u) < PG_SIZE && 0 <= r < PG_SIZE
    ensures a != PoolAddr(pStart, v) + r
  {}

  // ----- page_acquire and page_release -----

  /** The page layer went from l to k without moving the frames of pages mapped in both, and without touching
      memory above the page tables. */
  ghost predicate FramesStay(l: Layer, k: Layer) {
    && k.vStart == l.vStart && k.pStart == l.pStart
    && (forall i | i in l.f && i in k.f :: k.f[i] == l.f[i])
    && (forall a | a >= TABLES_END :: k.m(a) == l.m(a))
  }

  /** k is l after a page_acquire, whether it succeeded or failed half way, or after a page_release, by anyone:
      what the contracts of PageLayer promise. */
  ghost predicate Called(l: Layer, k: Layer) {
    && k.vStart == l.vStart && k.pStart == l.pStart && (forall a | a >= TABLES_END :: k.m(a) == l.m(a))
    && (|| (exists i, c: nat, n: nat :: PagesTaken(l.vb, l.f, k.vb, k.f, i, c, n))
        || (exists i, n: nat :: PagesReturned(l.vb, l.f, k.vb, k.f, i, n)))
  }

  lemma CallsStay(l: Layer, k: Layer)
    requires Called(l, k)
    ensures FramesStay(l, k)
  {
    if i, c: nat, n: nat :| PagesTaken(l.vb, l.f, k.vb, k.f, i, c, n) {
    } else {
      var i, n: nat :| PagesReturned(l.vb, l.f, k.vb, k.f, i, n);
    }
  }

  lemma WordStays(l: Layer, k: Layer, s: Slab, t: Slab, n: Words, a: int, y: int)
    requires Backs(l, s) && Backs(k, t) && FramesStay(l, k) && HeapWord(s, a, y) && HeapWord(t, a, y) && Mirrored(l.m, n, y)
    ensures Mirrored(k.m, n, y)
  {
    hide Backs, HeapWord, Walk, PoolAddr, IndexIn;
    WordPlace(l, s, a, y);
    WordPlace(k, t, a, y);
  }

  /** What the processor sees on the cnt pages from a on, before the heap has written there. */
  function Fresh(n: Words, m: Words, a: int, cnt: nat): Words {
    y => if a <= y < a + cnt * PG_SIZE && Walk(m, PAGE_DIR, y).Mapped? then m(Walk(m, PAGE_DIR, y).pa) else n(y)
  }

  /** Behind a successful page_acquire for the heap: old words are where they were, and the fresh pages hold
      what their frames hold, which the heap knows nothing about until it writes there. */
  lemma MirrorAcquire(l: Layer, k: Layer, s: Slab, t: Slab, n: Words, a: int, cnt: nat)
    requires Backs(l, s) && Backs(k, t) && Called(l, k) && Mirrors(s, l.m, n)
    requires Adds(s, t, a, cnt) && FreshSpan(s, a, cnt)
    ensures SameBut(n, Fresh(n, k.m, a, cnt), a, cnt * PG_SIZE) && Mirrors(t, k.m, Fresh(n, k.m, a, cnt))
  {
    hide Backs, Mirrored, FramesStay, Called, Walk, Aligned;
    CallsStay(l, k);
    var n' := Fresh(n, k.m, a, cnt);
    forall b, y | HeapWord(t, b, y) ensures Mirrored(k.m, n', y) {
      if b != a {
        assert HeapWord(s, b, y);
        StartIsPage(l, s, b);
        OutsideFresh(s, a, cnt, b, y);
        WordStays(l, k, s, t, n, b, y);
        MirroredSame(k.m, n, n', y);
      } else {
        WordPlace(k, t, b, y);
        FreshWord(k.m, n, a, cnt, y);
      }
    }
  }

  lemma FreshWord(m: Words, n: Words, a: int, cnt: nat, y: int)
    requires a <= y < a + cnt * PG_SIZE && Walk(m, PAGE_DIR, y).Mapped?
    ensures Mirrored(m, Fresh(n, m, a, cnt), y)
  {}

  lemma MirroredSame(m: Words, n: Words, n': Words, y: int)
    requires Mirrored(m, n, y) && n'(y) == n(y)
    ensures Mirrored(m, n', y)
  {}

  lemma OutsideFresh(s: Slab, a: int, k: nat, b: int, y: int)
    requires FreshSpan(s, a, k) && HeapWord(s, b, y) && IsPage(b)
    ensures !(a <= y < a + k * PG_SIZE)
  {
    if b in s.arenas { PageOutside(a, k, b); }
  }

  lemma StartIsPage(l: Layer, s: Slab, a: int)
    requires Backs(l, s) && Starts(s, a)
    ensures IsPage(a)
  {
    hide Consistent, Owns, Splits;
  }

  /** The layer after the heap lost pages or another user took or gave back some: what the heap still owns is
      mirrored as before. */
  lemma MirrorKept(l: Layer, k: Layer, s: Slab, t: Slab, n: Words)
    requires Backs(l, s) && Backs(k, t) && Called(l, k) && Mirrors(s, l.m, n)
    requires forall a | Starts(t, a) :: Starts(s, a) && PagesAt(t, a) == PagesAt(s, a)
    ensures Mirrors(t, k.m, n)
  {
    hide Backs, Mirrored, FramesStay, Called, Starts, PagesAt;
    CallsStay(l, k);
    forall a, y | HeapWord(t, a, y) ensures Mirrored(k.m, n, y) {
      assert HeapWord(s, a, y);
      WordStays(l, k, s, t, n, a, y);
    }
  }

  /** The same with the heap's words and the page layer's memory apart: page tables k.m, contents p. */
  lemma ShowsKept(l: Layer, k: Layer, s: Slab, t: Slab, p: Words, q: Words, n: Words)
    requires Backs(l, s) && Backs(k, t) && Shows(l, s, p, n) && k.vStart == l.vStart && k.pStart == l.pStart
    requires SameFrames(l.f, k.f) && Agree(k.m, q) && forall a | a >= TABLES_END :: q(a) == p(a)
    requires forall a | Starts(t, a) :: Starts(s, a) && PagesAt(t, a) == PagesAt(s, a)
    ensures Shows(k, t, q, n)
  {
    hide Backs, Mirrored, Starts, PagesAt, Agree;
    AgreeBacks(l, s, p);
    AgreeBacks(k, t, q);
    forall a, y | HeapWord(t, a, y) ensures Mirrored(q, n, y) {
      assert HeapWord(s, a, y);
      WordStays(l.(m := p), k.(m := q), s, t, n, a, y);
    }
  }

  /** Memory p under the page tables of m. */
  function Retabled(m: Words, p: Words): Words { a => if a < TABLES_END then m(a) else p(a) }
}
