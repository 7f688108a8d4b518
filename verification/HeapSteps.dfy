/** The logic behind each stretch of mem_acquire and mem_release, from the memory before to
    the memory after. */
module HeapSteps {
  import opened Words
  import opened IntrusiveList
  import opened Paging
  import opened SlabLayout
  import opened SlabState
  import opened SlabSteps
  import opened SlabUsers

  // ----- taking a block -----

  lemma TakeWordsAre(m1: Words, c: int, x: int)
    ensures var m2, a := Clear(m1, x, BlockSize(c)), Block2Arena(x);
            TakeWords(m1, c, x) == Store(m2, a + 4, Word(m2, a + 4) - 1)
  {}

  /** Every arena but a has a block in use. */
  ghost predicate BusyBut(s: Slab, a: int)
    requires Shape(s)
  {
    forall b | b in s.arenas && b != a :: |FreeOf(s, b)| < BlocksPer(s.arenas[b])
  }

  lemma HeadBlock(m: Words, base: int, s: Slab, c: int)
    requires Sound(m, base, s, {}) && IsClass(c) && s.free[c] != []
    ensures |s.free| == CLASSES && 0 <= c < CLASSES && ListAt(m, FreeList(base, c), s.free[c]) && BlockOf(s, c, s.free[c][0])
    ensures Aligned(Desc(base, c)) && Aligned(s.free[c][0]) && Aligned(BlockSize(c)) && BlockSize(c) >= 0
    ensures Aligned(Block2Arena(s.free[c][0]) + 4)
  {
    assert s.free[c][0] in s.free[c];
    BlockFacts(s, c, s.free[c][0]);
    BlocksFill(c);
    DescAligned(base, c);
    HeaderAligned(PageOf(s.free[c][0]));
  }

  /** All of mem_acquire behind its list_pop: from memory m1 after the pop to TakeWords. */
  lemma Taken(m: Words, m1: Words, base: int, s: Slab, c: int, size: nat)
    requires Sound(m, base, s, {}) && IsClass(c) && s.free[c] != [] && size <= BlockSize(c)
    requires BusyBut(s, PageOf(s.free[c][0])) && UsersKept(m, m1, s)
    requires ListAt(m1, FreeList(base, c), s.free[c][1..])
    requires SameOutside(m, m1, Nodes(FreeList(base, c), s.free[c][1..]))
    ensures var n, t, x := TakeWords(m1, c, s.free[c][0]), BlockTaken(s, c, size), s.free[c][0];
            && Sound(n, base, t, {}) && Busy(t) && x !in s.live && BlockOf(t, c, x) && UsersKept(m, n, s)
            && Zeroed(n, x, BlockSize(c))
  {
    hide ListAt, Placed, Accounted, Complete, Heads, LargeHeads, Descs, Busy, UsersKept, SameOutside, Blocks, Nodes, PageOf, FreeOf;
    var n, t, x := TakeWords(m1, c, s.free[c][0]), BlockTaken(s, c, size), s.free[c][0];
    TakeBooks(m, FreeList(base, c), s, c, size);
    TakeMemory(m, m1, base, s, t, c, x);
    TakeKeepsUsers(m1, s, c, x);
    UsersChain(m, m1, n, s);
    TakeBusy(s, t, x);
    BlockFacts(s, c, x);
  }

  /** The pop alone: descriptors and users' bytes are as before. */
  lemma PopChange(m: Words, m1: Words, base: int, s: Slab, c: int)
    requires Sound(m, base, s, {}) && IsClass(c) && s.free[c] != []
    requires ListAt(m1, FreeList(base, c), s.free[c][1..])
    requires SameOutside(m, m1, Nodes(FreeList(base, c), s.free[c][1..]))
    ensures Descs(m1, base) && UsersKept(m, m1, s)
  {
    var ys := s.free[c][1..];
    forall i | 0 <= i < |ys| ensures BlockOf(s, c, ys[i]) && ys[i] !in s.live {
      assert ys[i] in s.free[c];
      NotLiveWhenFree(s, c, ys[i]);
    }
    ListChange(m, m1, base, s, c, ys, ys);
    ListKeepsUsers(m, m1, s, c, ys);
  }

  lemma TakeBusy(s: Slab, t: Slab, x: int)
    requires Shape(s) && Shape(t) && t.arenas == s.arenas
    requires BusyBut(s, PageOf(x))
    requires forall a | a in s.arenas :: |FreeOf(s, a)| == |FreeOf(t, a)| + if a == PageOf(x) then 1 else 0
    ensures Busy(t)
  {
    forall a | a in t.arenas ensures |FreeOf(t, a)| < BlocksPer(t.arenas[a]) {
      assert |FreeOf(s, a)| == |FreeOf(t, a)| + if a == PageOf(x) then 1 else 0;
      SubsetCard(FreeOf(s, a), Blocks(a, s.arenas[a]));
    }
  }

  // ----- carving a fresh arena into blocks -----

  /** The first idx blocks of arena a are on its list, and nothing else is; everything else is as in s0. */
  ghost predicate Filling(m: Words, base: int, s0: Slab, u: Slab, a: int, c: int, idx: nat) {
    && DescsFit(base) && Books(u, {a}) && InMemory(m, base, u, {a}) && NoLiveIn(u, a)
    && IsClass(c) && a in u.arenas && u.arenas[a] == c && idx <= BlocksPer(c)
    && |s0.free| == CLASSES && u == WithFree(s0, c, u.free[c])
    && Elems(u.free[c]) == BlocksTo(a + ARENA_HDR, BlockSize(c), idx)
    && u.free[c] == BlockSeq(a + ARENA_HDR, BlockSize(c), idx)
    && Header(m, base, a, c, BlocksPer(c))
  }

  /** What the loop body reads. */
  lemma FillReads(m: Words, base: int, s0: Slab, u: Slab, a: int, c: int, idx: nat)
    requires Filling(m, base, s0, u, a, c, idx)
    ensures |u.free| == CLASSES && 0 <= c < CLASSES && ListAt(m, FreeList(base, c), u.free[c])
    ensures Word(m, a) == Desc(base, c) && Word(m, Desc(base, c)) == BlockSize(c) && Word(m, Desc(base, c) + 4) == BlocksPer(c)
    ensures Aligned(a) && Aligned(Desc(base, c)) && Aligned(Desc(base, c) + 4) && IsClass(c)
  {
    hide ListAt, Heads, LargeHeads, Placed, Accounted, Complete, Desc, BlockSize, BlocksPer, NoLiveIn, BlocksTo;
    DescAligned(base, c);
    HeaderAligned(a);
  }

  lemma BlockPlace(base: int, a: int, c: int, k: nat)
    ensures Arena2Block(a, c, k) == a + ARENA_HDR + k * BlockSize(c)
    ensures FreeList(base, c) == Desc(base, c) + LIST_OFFSET
  {
    BlockAtFormula(a + ARENA_HDR, BlockSize(c), k);
  }

  /** A block past the first idx is not among them. */
  lemma NextBlock(a: int, c: int, idx: nat, xs: seq<int>)
    requires IsClass(c) && idx < BlocksPer(c) && Elems(xs) == BlocksTo(a + ARENA_HDR, BlockSize(c), idx)
    ensures Arena2Block(a, c, idx) in Blocks(a, c) && Arena2Block(a, c, idx) !in xs
    ensures BlocksTo(a + ARENA_HDR, BlockSize(c), idx + 1) == Elems(xs) + {Arena2Block(a, c, idx)}
  {
    BlockByIndex(a, c, idx);
    BlocksFill(c);
    assert Arena2Block(a, c, idx) in xs ==> Arena2Block(a, c, idx) in Elems(xs);
  }

  /** The next block can be linked. */
  lemma FillNext(m: Words, base: int, s0: Slab, u: Slab, a: int, c: int, idx: nat)
    requires Filling(m, base, s0, u, a, c, idx) && idx < BlocksPer(c)
    ensures var x := Arena2Block(a, c, idx);
            && x in Blocks(a, c) && BlockOf(u, c, x) && x !in u.free[c] && x !in u.live && PageOf(x) == a
            && Fresh(FreeList(base, c), u.free[c], x)
  {
    hide ListAt, InMemory, Accounted, Complete, Placed, Desc, FreeList, BlockSize, BlocksPer, BlocksTo, Blocks, PageOf, Fresh;
    NextBlock(a, c, idx, u.free[c]);
    OwnPageOnly(u, a, c, Arena2Block(a, c, idx));
    FreshBlock(base, u, c, Arena2Block(a, c, idx));
  }

  /** One list_append of mem_acquire's loop. */
  lemma FillStep(m: Words, n: Words, base: int, s0: Slab, u: Slab, a: int, c: int, idx: nat)
    requires Filling(m, base, s0, u, a, c, idx) && idx < BlocksPer(c)
    requires ListAt(n, FreeList(base, c), u.free[c] + [Arena2Block(a, c, idx)])
    requires SameOutside(m, n, Nodes(FreeList(base, c), u.free[c]) + [Arena2Block(a, c, idx)])
    ensures Filling(n, base, s0, WithFree(u, c, u.free[c] + [Arena2Block(a, c, idx)]), a, c, idx + 1)
    ensures UsersKept(m, n, s0)
  {
    hide ListAt, SameOutside, Nodes, InMemory, UsersKept, Placed, Accounted, Complete, HeapSame, BlocksTo, BlockSeq, Blocks, BlockOf,
         FreeList, Desc, BlockSize, BlocksPer, PageOf, Arena2Block;
    var x, ys := Arena2Block(a, c, idx), u.free[c] + [Arena2Block(a, c, idx)];
    FillNext(m, base, s0, u, a, c, idx);
    AppendBooks(u, c, x, {a});
    AppendMemory(m, n, base, u, c, x, {a});
    NextBlock(a, c, idx, u.free[c]);
    AppendedElems(u.free[c], x);
    NextInSeq(a, c, idx);
    FillElems(u.free[c], a, c, idx);
    FillUsers(m, n, s0, u, a, c, ys);
  }

  lemma NextInSeq(a: int, c: int, idx: nat)
    ensures BlockSeq(a + ARENA_HDR, BlockSize(c), idx + 1) == BlockSeq(a + ARENA_HDR, BlockSize(c), idx) + [Arena2Block(a, c, idx)]
  {}

  lemma FillElems(xs: seq<int>, a: int, c: int, idx: nat)
    requires IsClass(c) && idx <= BlocksPer(c) && Elems(xs) == BlocksTo(a + ARENA_HDR, BlockSize(c), idx)
    ensures forall y | y in xs :: y in Blocks(a, c)
  {
    forall y | y in xs ensures y in Blocks(a, c) {
      assert y in Elems(xs);
      BlocksFill(c);
      var k := BlockIndex(a + ARENA_HDR, BlockSize(c), idx, y);
      BlockByIndex(a, c, k);
    }
  }

  lemma FillUsers(m: Words, n: Words, s0: Slab, u: Slab, a: int, c: int, ys: seq<int>)
    requires Shape(u) && Placed(u) && Accounted(u) && NoLiveIn(u, a) && HeapSame(m, n, ys)
    requires |s0.free| == CLASSES && IsClass(c) && u == WithFree(s0, c, u.free[c])
    requires a in u.arenas && u.arenas[a] == c && forall y | y in ys :: y in Blocks(a, c)
    ensures UsersKept(m, n, s0)
  {
    forall i | 0 <= i < |ys| ensures BlockOf(u, c, ys[i]) && ys[i] !in u.live {
      assert ys[i] in ys;
      OwnPageOnly(u, a, c, ys[i]);
    }
    ListKeepsUsers(m, n, u, c, ys);
    SameUsers(m, n, u, s0);
  }

  /** page_acquire's fresh page, cleared, with its header. */
  function ArenaWords(m: Words, base: int, a: int, c: int): Words {
    Store(Store(Store(Clear(m, a, PG_SIZE), a, Desc(base, c)), a + 4, BlocksPer(c)), a + 8, 0)
  }

  lemma ArenaWordsAre(m: Words, m1: Words, base: int, a: int, c: int)
    requires SameBut(m, m1, a, PG_SIZE) && DescsFit(base) && Descs(m, base) && HeapPage(a) && IsClass(c)
    ensures Word(Store(Clear(m1, a, PG_SIZE), a, Desc(base, c)), Desc(base, c) + 4) == BlocksPer(c)
    ensures Aligned(a) && Aligned(a + 4) && Aligned(a + 8) && Aligned(Desc(base, c) + 4)
    ensures SameBut(m, ArenaWords(m1, base, a, c), a, PG_SIZE)
    ensures Header(ArenaWords(m1, base, a, c), base, a, c, BlocksPer(c))
  {
    DescWords(base, c, c);
    DescAligned(base, c);
    HeaderAligned(a);
  }

  lemma ArenaWordsBody(m: Words, base: int, a: int, c: int)
    ensures ArenaWords(m, base, a, c) == Store(Store(Store(Clear(m, a, PG_SIZE), a, Desc(base, c)), a + 4, BlocksPer(c)), a + 8, 0)
  {}

  lemma FreshPage(s: Slab, a: int, k: nat)
    requires FreshSpan(s, a, k)
    ensures HeapPage(a)
  {}

  /** Users of the heap before the page came do not sit in it. */
  lemma ArenaUsers(m: Words, n: Words, s: Slab, a: int, c: int)
    requires Books(s, {}) && FreshSpan(s, a, 1) && LiveKept(m, n, WithArena(s, a, c))
    ensures LiveKept(m, n, s)
  {
    FreshIsEmpty(s, a, 1);
    forall x, w | InUse(s, x, w) ensures n(w) == m(w) {
      assert InUse(WithArena(s, a, c), x, w);
    }
  }

  /** Nor do they after. */
  lemma ArenaSpan(m: Words, n: Words, s: Slab, a: int, c: int)
    requires Books(s, {}) && FreshSpan(s, a, 1) && LiveKept(m, n, s) && SameBut(m, n, a, PG_SIZE)
    ensures UsersKept(m, n, WithArena(s, a, c))
  {
    FreshIsEmpty(s, a, 1);
    var t := WithArena(s, a, c);
    forall x, w | InUse(t, x, w) ensures n(w) == m(w) {
      assert InUse(s, x, w);
    }
    forall w | w >= HEAP_START && !OnHeap(t, w) ensures n(w) == m(w) {
      if a <= w < a + PG_SIZE { SamePage(a, w); }
    }
  }

  /** The arena's page is zero behind its header but for the list nodes in it. */
  ghost predicate Blank(m: Words, a: int, xs: seq<int>) {
    forall w | a + ARENA_HDR <= w < a + PG_SIZE && (forall i | 0 <= i < |xs| :: !InNode(xs[i], w)) :: m(w) == 0
  }

  lemma BlankStart(m: Words, base: int, a: int, c: int)
    ensures Blank(ArenaWords(m, base, a, c), a, [])
  {}

  lemma BlankStep(m: Words, n: Words, base: int, a: int, c: int, xs: seq<int>, x: int)
    requires DescsFit(base) && IsClass(c) && HeapPage(a) && Blank(m, a, xs) && SameOutside(m, n, Nodes(FreeList(base, c), xs) + [x])
    ensures Blank(n, a, xs + [x])
  {
    hide DescsFit, FreeList, Nodes, InNode;
    forall w | a + ARENA_HDR <= w < a + PG_SIZE && (forall i | 0 <= i < |xs + [x]| :: !InNode((xs + [x])[i], w)) ensures n(w) == 0 {
      forall i | 0 <= i < |xs| ensures !InNode(xs[i], w) { assert (xs + [x])[i] == xs[i]; }
      assert (xs + [x])[|xs|] == x;
      HeapWordOutside(base, c, xs, w);
    }
  }

  /** The fresh page is ready to be filled. */
  lemma FreshArena(m: Words, n: Words, base: int, s: Slab, a: int, c: int)
    requires Sound(m, base, s, {}) && Busy(s) && IsClass(c) && s.free[c] == [] && FreshSpan(s, a, 1)
    requires SameBut(m, n, a, PG_SIZE) && Header(n, base, a, c, BlocksPer(c))
    ensures Shape(WithArena(s, a, c)) && BusyBut(WithArena(s, a, c), a) && UsersKept(m, n, WithArena(s, a, c))
    ensures Filling(n, base, WithArena(s, a, c), WithArena(s, a, c), a, c, 0)
  {
    hide ListAt, Lists, Heads, LargeHeads, Descs, Placed, Accounted, Complete, UsersKept, SameBut, BlocksPer, Blocks, PageOf, FreeOf;
    var t := WithArena(s, a, c);
    SpanFrame(m, n, base, s, a, 1, {});
    SpanKeepsUsers(m, n, s, a, 1);
    ArenaSpan(m, n, s, a, c);
    ArenaBooks(s, a, c);
    ArenaMemory(n, base, s, a, c);
    ArenaShape(s, a, c);
    FreshIsEmpty(s, a, 1);
    BlocksFill(c);
    assert WithFree(t, c, t.free[c]) == t;
    assert Elems([]) == {};
  }

  /** A filled arena: its books close, its blocks are the list, and the first pop takes from it. */
  lemma Filled(m: Words, base: int, s0: Slab, u: Slab, a: int, c: int)
    requires Filling(m, base, s0, u, a, c, BlocksPer(c)) && Shape(s0) && s0.free[c] == [] && BusyBut(s0, a)
    ensures Sound(m, base, u, {}) && BusyBut(u, a) && u.free[c] != [] && PageOf(u.free[c][0]) == a
    ensures u == WithFree(s0, c, u.free[c]) && u.free[c] == BlockSeq(a + ARENA_HDR, BlockSize(c), BlocksPer(c))
  {
    hide ListAt, Lists, Heads, LargeHeads, Descs, Placed, Accounted, BlocksPer, BlocksTo, BlockSeq, PageOf, Desc;
    assert FreeOf(u, a) == Blocks(a, c);
    assert forall x | x in Blocks(a, c) :: x in Elems(u.free[c]);
    CloseBooks(m, base, u, a);
    BlocksFill(c);
    assert Elems([]) == {};
    assert u.free[c][0] in Elems(u.free[c]);
    OwnPageOnly(u, a, c, u.free[c][0]);
    FilledOthers(s0, u, a, c);
  }

  lemma FilledOthers(s0: Slab, u: Slab, a: int, c: int)
    requires Shape(s0) && Shape(u) && IsClass(c) && u == WithFree(s0, c, u.free[c]) && s0.free[c] == []
    requires a in u.arenas && u.arenas[a] == c && Elems(u.free[c]) == Blocks(a, c) && BusyBut(s0, a)
    ensures BusyBut(u, a)
  {
    forall b | b in u.arenas && b != a ensures |FreeOf(u, b)| < BlocksPer(u.arenas[b]) {
      if u.arenas[b] == c {
        forall x | x in FreeOf(u, b) ensures false {
          OwnPageOnly(u, b, c, x);
          OwnPageOnly(u, a, c, x);
        }
        assert FreeOf(u, b) == {};
      } else {
        assert FreeOf(u, b) == FreeOf(s0, b);
      }
    }
  }

  // ----- unlinking the blocks of an arena that is to go -----

  ghost predicate Distinct(xs: seq<int>) { forall i, j | 0 <= i < j < |xs| :: xs[i] != xs[j] }

  /** The first idx blocks of arena a are off its list, the rest of the list is as in s0, in order. */
  ghost predicate Unlinking(m: Words, base: int, s0: Slab, u: Slab, a: int, c: int, idx: nat) {
    && DescsFit(base) && Books(u, {a}) && InMemory(m, base, u, {a}) && NoLiveIn(u, a)
    && IsClass(c) && a in u.arenas && u.arenas[a] == c && idx <= BlocksPer(c)
    && |s0.free| == CLASSES && Distinct(s0.free[c]) && Blocks(a, c) <= Elems(s0.free[c])
    && u == WithFree(s0, c, Without(s0.free[c], BlocksTo(a + ARENA_HDR, BlockSize(c), idx)))
    && m(a) == Desc(base, c)
  }

  lemma UnlinkStart(m: Words, base: int, s: Slab, a: int, c: int)
    requires DescsFit(base) && Books(s, {a}) && InMemory(m, base, s, {a}) && NoLiveIn(s, a)
    requires IsClass(c) && a in s.arenas && s.arenas[a] == c && Blocks(a, c) <= Elems(s.free[c]) && m(a) == Desc(base, c)
    ensures Unlinking(m, base, s, s, a, c, 0)
  {
    hide Shape, Heads, LargeHeads, Placed, Accounted, Complete, NoLiveIn, BlockSize, BlocksPer;
    ShapeSize(s);
    ListOf(m, base, s, c);
    BlocksFill(c);
    forall i, j | 0 <= i < j < |s.free[c]| ensures s.free[c][i] != s.free[c][j] {
      DistinctElems(m, FreeList(base, c), s.free[c], i, j);
    }
    WithoutNothing(s.free[c]);
  }

  lemma UnlinkReads(m: Words, base: int, s0: Slab, u: Slab, a: int, c: int, idx: nat)
    requires Unlinking(m, base, s0, u, a, c, idx)
    ensures |u.free| == CLASSES && IsClass(c) && 0 <= c < CLASSES && ListAt(m, FreeList(base, c), u.free[c])
    ensures Word(m, a) == Desc(base, c) && Word(m, Desc(base, c)) == BlockSize(c) && Word(m, Desc(base, c) + 4) == BlocksPer(c)
    ensures Aligned(a) && Aligned(Desc(base, c)) && Aligned(Desc(base, c) + 4)
    ensures Shape(u) && a in u.arenas && u.arenas == s0.arenas && u.large == s0.large && u.live == s0.live
    ensures HeapPage(a) && IsPage(a)
  {
    hide ListAt, Heads, LargeHeads, Placed, Accounted, Complete, Desc, BlockSize, BlocksPer, NoLiveIn, BlocksTo, Without, Distinct;
    DescAligned(base, c);
    HeaderAligned(a);
  }

  /** The next block is still on the list. */
  lemma UnlinkNext(m: Words, base: int, s0: Slab, u: Slab, a: int, c: int, idx: nat) returns (i: nat)
    requires Unlinking(m, base, s0, u, a, c, idx) && idx < BlocksPer(c)
    ensures |u.free| == CLASSES && i < |u.free[c]| && u.free[c][i] == Arena2Block(a, c, idx)
  {
    hide Shape, ListAt, InMemory, Placed, Accounted, Complete, NoLiveIn, Distinct, BlockSize, BlocksPer;
    ShapeSize(u);
    var x := Arena2Block(a, c, idx);
    BlockByIndex(a, c, idx);
    BlocksFill(c);
    assert x in Elems(s0.free[c]);
    assert x in u.free[c];
    i :| 0 <= i < |u.free[c]| && u.free[c][i] == x;
  }

  lemma DroppedIs(xs: seq<int>, i: nat)
    requires i < |xs|
    ensures Dropped(xs, i) == xs[..i] + xs[i + 1..]
  {}

  /** One list_remove of mem_release's loop. */
  lemma UnlinkStep(m: Words, n: Words, base: int, s0: Slab, u: Slab, a: int, c: int, idx: nat, i: nat)
    requires Unlinking(m, base, s0, u, a, c, idx) && idx < BlocksPer(c)
    requires |u.free| == CLASSES && i < |u.free[c]| && u.free[c][i] == Arena2Block(a, c, idx)
    requires ListAt(n, FreeList(base, c), Dropped(u.free[c], i))
    requires SameOutside(m, n, Nodes(FreeList(base, c), Dropped(u.free[c], i)))
    ensures Unlinking(n, base, s0, WithFree(u, c, Dropped(u.free[c], i)), a, c, idx + 1) && UsersKept(m, n, s0)
  {
    hide ListAt, SameOutside, Nodes, Heads, LargeHeads, Descs, UsersKept, Placed, Accounted, Complete, HeapSame, BlocksTo,
         Blocks, BlockOf, FreeList, Desc, BlockSize, BlocksPer, PageOf, Arena2Block, Without, Dropped;
    var x, ys := u.free[c][i], Dropped(u.free[c], i);
    DroppedElems(m, FreeList(base, c), u.free[c], i);
    UnlinkPage(u, a, c, idx, x);
    RemoveBooks(u, c, i, {a});
    RemoveMemory(m, n, base, u, c, i, {a});
    UnlinkedMore(s0.free[c], a, c, idx, i);
    UnlinkUsers(m, n, s0, u, c, ys);
  }

  lemma UnlinkPage(u: Slab, a: int, c: int, idx: nat, x: int)
    requires Shape(u) && IsClass(c) && a in u.arenas && u.arenas[a] == c && idx < BlocksPer(c) && x == Arena2Block(a, c, idx)
    ensures PageOf(x) == a
  {
    BlockByIndex(a, c, idx);
    OwnPageOnly(u, a, c, x);
  }

  lemma UnlinkedMore(xs: seq<int>, a: int, c: int, idx: nat, i: nat)
    requires IsClass(c) && idx < BlocksPer(c) && Distinct(xs)
    requires i < |Without(xs, BlocksTo(a + ARENA_HDR, BlockSize(c), idx))|
    requires Without(xs, BlocksTo(a + ARENA_HDR, BlockSize(c), idx))[i] == Arena2Block(a, c, idx)
    ensures Dropped(Without(xs, BlocksTo(a + ARENA_HDR, BlockSize(c), idx)), i)
         == Without(xs, BlocksTo(a + ARENA_HDR, BlockSize(c), idx + 1))
  {
    WithoutOne(xs, BlocksTo(a + ARENA_HDR, BlockSize(c), idx), Arena2Block(a, c, idx), i);
  }

  lemma UnlinkUsers(m: Words, n: Words, s0: Slab, u: Slab, c: int, ys: seq<int>)
    requires Shape(u) && Placed(u) && Accounted(u) && HeapSame(m, n, ys) && IsClass(c)
    requires Elems(ys) <= Elems(u.free[c]) && |s0.free| == CLASSES && u == WithFree(s0, c, u.free[c])
    ensures UsersKept(m, n, s0)
  {
    forall i | 0 <= i < |ys| ensures BlockOf(u, c, ys[i]) && ys[i] !in u.live {
      assert ys[i] in Elems(ys) && ys[i] in Elems(u.free[c]);
      NotLiveWhenFree(u, c, ys[i]);
    }
    ListKeepsUsers(m, n, u, c, ys);
    SameUsers(m, n, u, s0);
  }

  /** All blocks are off: the arena can be forgotten, no list leads into its page, and the other
      arenas keep their free blocks. */
  lemma Unlinked(m: Words, base: int, s0: Slab, u: Slab, a: int, c: int)
    requires Unlinking(m, base, s0, u, a, c, BlocksPer(c)) && Shape(s0) && BusyBut(s0, a)
    ensures Sound(m, base, Forgotten(u, a), {}) && Busy(Forgotten(u, a))
    ensures u == WithFree(s0, c, Without(s0.free[c], Blocks(a, c)))
  {
    hide ListAt, Lists, Heads, LargeHeads, Descs, Accounted, Complete, BlocksPer, BlocksTo, BlockSize, Desc, PageOf, Distinct;
    forall d, x | IsClass(d) && x in u.free[d] ensures PageOf(x) != a {
      assert BlockOf(u, d, x);
    }
    ForgetBooks(u, a);
    ForgetMemory(m, base, u, a);
    forall b | b in u.arenas && b != a ensures |FreeOf(Forgotten(u, a), b)| < BlocksPer(u.arenas[b]) {
      UnlinkedOther(s0, u, a, c, b);
    }
  }

  lemma UnlinkedOther(s0: Slab, u: Slab, a: int, c: int, b: int)
    requires Shape(s0) && Shape(u) && IsClass(c) && a in u.arenas && u.arenas[a] == c && b in u.arenas && b != a
    requires u == WithFree(s0, c, Without(s0.free[c], Blocks(a, c)))
    ensures FreeOf(u, b) == FreeOf(s0, b)
  {
    forall x | x in Blocks(b, u.arenas[b]) && x in Blocks(a, c) ensures false {
      OwnPageOnly(u, b, c, x);
      OwnPageOnly(u, a, c, x);
    }
  }

  // ----- giving a block back -----

  /** The heap without one of its users. */
  function WithoutUser(s: Slab, x: int): Slab { s.(live := s.live - {x}) }

  /** mem_release behind its list_append: x's arena has one free block more, and its count says so. */
  ghost predicate Given(n: Words, base: int, s: Slab, x: int, a: int, c: int) {
    && DescsFit(base) && IsClass(c) && |s.free| == CLASSES && a in s.arenas && s.arenas[a] == c
    && var g := GivenBack(s, c, x);
    && Books(g, {a}) && InMemory(n, base, g, {a}) && Header(n, base, a, c, |FreeOf(g, a)|) && BusyBut(g, a)
    && forall y | y in Blocks(a, c) :: y in g.free[c] || y in g.live
  }

  /** What mem_release reads, and that the block can be linked. */
  lemma GiveReads(m: Words, base: int, s: Slab, x: int)
    requires Sound(m, base, s, {}) && x in s.live && PageOf(x) in s.arenas
    ensures var a, c := Block2Arena(x), s.arenas[PageOf(x)];
            && a == PageOf(x) && IsClass(c) && 0 <= c < CLASSES == |s.free| && SmallLive(s, x) && BlockOf(s, c, x)
            && Word(m, a) == Desc(base, c) && Aligned(a) && Aligned(a + 4) && Aligned(Desc(base, c) + 4)
            && ListAt(m, FreeList(base, c), s.free[c]) && Fresh(FreeList(base, c), s.free[c], x)
            && Word(m, a + 8) == 0 && Aligned(a + 8)
  {
    hide ListAt, LargeHeads, Placed, Accounted, Complete, Desc, BlockSize, Blocks, PageOf, Fresh, FreeOf;
    var a, c := Block2Arena(x), s.arenas[PageOf(x)];
    LiveKind(s, x);
    HeaderAligned(a);
    DescAligned(base, c);
    FreshBlock(base, s, c, x);
  }

  lemma GiveMemory(m: Words, m1: Words, base: int, s: Slab, x: int, a: int, c: int)
    requires Sound(m, base, s, {}) && x in s.live && a == PageOf(x) && a in s.arenas && s.arenas[a] == c
    requires SmallLive(s, x) && IsClass(c)
    requires ListAt(m1, FreeList(base, c), s.free[c] + [x])
    requires SameOutside(m, m1, Nodes(FreeList(base, c), s.free[c]) + [x])
    ensures Books(WithoutUser(s, x), {a}) && Books(GivenBack(s, c, x), {a}) && InMemory(m1, base, GivenBack(s, c, x), {a})
    ensures HeapSame(m, m1, s.free[c] + [x]) && Word(m1, a) == Word(m, a) && Word(m1, a + 4) == Word(m, a + 4) && Word(m1, a + 8) == Word(m, a + 8)
  {
    hide ListAt, SameOutside, Nodes, Lists, LargeHeads, Heads, Descs, Placed, Accounted, Complete, HeapSame, Blocks,
         FreeList, Desc, BlockSize, BlocksPer, PageOf, FreeOf;
    var u, g := WithoutUser(s, x), GivenBack(s, c, x);
    OpenBooks(s, x);
    GiveBooks(s, c, x);
    OpenHeads(m, base, s, x, a);
    OpenRest(m, base, s, x);
    AppendMemory(m, m1, base, u, c, x, {a});
    assert WithFree(u, c, u.free[c] + [x]) == g;
  }

  lemma HeaderOf(m: Words, base: int, s: Slab, a: int)
    requires Shape(s) && InMemory(m, base, s, {}) && a in s.arenas
    ensures Header(m, base, a, s.arenas[a], |FreeOf(s, a)|)
  {}

  lemma GiveStep(m: Words, m1: Words, base: int, s: Slab, x: int, a: int, c: int)
    requires Sound(m, base, s, {}) && Busy(s) && x in s.live && a == PageOf(x) && a in s.arenas && s.arenas[a] == c
    requires SmallLive(s, x) && IsClass(c)
    requires ListAt(m1, FreeList(base, c), s.free[c] + [x])
    requires SameOutside(m, m1, Nodes(FreeList(base, c), s.free[c]) + [x])
    ensures Given(Store(m1, a + 4, Word(m1, a + 4) + 1), base, s, x, a, c)
    ensures UsersKept(m, Store(m1, a + 4, Word(m1, a + 4) + 1), WithoutUser(s, x))
  {
    hide ListAt, SameOutside, Nodes, InMemory, UsersKept, Placed, Accounted, Complete, HeapSame, Blocks,
         FreeList, Desc, BlockSize, BlocksPer, PageOf, FreeOf;
    var u, g := WithoutUser(s, x), GivenBack(s, c, x);
    GiveMemory(m, m1, base, s, x, a, c);
    GiveBooks(s, c, x);
    HeaderOf(m, base, s, a);
    HeaderStore(m1, base, g, a, Word(m1, a + 4) + 1);
    GiveUsers(m, m1, u, c, x, s.free[c] + [x]);
    HeaderKeepsUsers(m1, u, a, Word(m1, a + 4) + 1);
    UsersChain(m, m1, Store(m1, a + 4, Word(m1, a + 4) + 1), u);
  }

  lemma OpenHeads(m: Words, base: int, s: Slab, x: int, a: int)
    requires Shape(s) && Heads(m, base, s, {})
    ensures Heads(m, base, WithoutUser(s, x), {a})
  {
    forall b | b in s.arenas && b !in {a} ensures Header(m, base, b, s.arenas[b], |FreeOf(WithoutUser(s, x), b)|) {
      assert Header(m, base, b, s.arenas[b], |FreeOf(s, b)|);
      assert FreeOf(WithoutUser(s, x), b) == FreeOf(s, b);
    }
  }

  lemma OpenRest(m: Words, base: int, s: Slab, x: int)
    requires Shape(s) && Lists(m, base, s) && LargeHeads(m, s)
    ensures Lists(m, base, WithoutUser(s, x)) && LargeHeads(m, WithoutUser(s, x))
  {
    forall c | IsClass(c) ensures ListAt(m, FreeList(base, c), WithoutUser(s, x).free[c]) {
      assert ListAt(m, FreeList(base, c), s.free[c]);
    }
  }

  lemma GiveUsers(m: Words, n: Words, u: Slab, c: int, x: int, ys: seq<int>)
    requires Shape(u) && Placed(u) && Accounted(u) && IsClass(c) && ys == u.free[c] + [x] && HeapSame(m, n, ys)
    requires BlockOf(u, c, x) && x !in u.live
    ensures UsersKept(m, n, u)
  {
    forall i | 0 <= i < |ys| ensures BlockOf(u, c, ys[i]) && ys[i] !in u.live {
      if i < |u.free[c]| {
        assert ys[i] in u.free[c];
        NotLiveWhenFree(u, c, ys[i]);
      }
    }
    ListKeepsUsers(m, n, u, c, ys);
  }

  /** The state after sys_free of a block: when its arena is all free, the arena is gone and the list
      keeps its other blocks in order. */
  ghost function BlockFreed(s: Slab, x: int, a: int, c: int): Slab
    requires |s.free| == CLASSES && IsClass(c) && a in s.arenas && s.arenas[a] == c
  {
    var g := GivenBack(s, c, x);
    if |FreeOf(g, a)| == BlocksPer(c) then Forgotten(WithFree(g, c, Without(g.free[c], Blocks(a, c))), a) else g
  }

  /** Freeing a block: its arena stays exactly while another allocation lies in it, and then the block is the last
      of its class's list; otherwise the page leaves the heap, and its blocks the list. */
  lemma FreedExactly(s: Slab, t: Slab, x: int, a: int, c: int)
    requires Shape(s) && a == PageOf(x) && a in s.arenas && c == s.arenas[a] && Books(t, {}) && Busy(t) && t == BlockFreed(s, x, a, c)
    ensures a in t.arenas <==> exists y :: y in t.live && PageOf(y) == a
    ensures t.live == s.live - {x} && t.large == s.large
    ensures a in t.arenas ==> t.arenas == s.arenas && t.free == s.free[c := s.free[c] + [x]]
    ensures a !in t.arenas ==> t.arenas == s.arenas - {a} && t.free == s.free[c := Without(s.free[c] + [x], Blocks(a, c))]
  {
    hide FreeOf, Blocks, PageOf, Placed, Complete, Without;
    if a in t.arenas {
      var y := ArenaInUse(t, a);
      assert y in t.live && PageOf(y) == a;
    } else {
      assert a !in t.large;
      forall y | y in t.live ensures PageOf(y) != a { LiveKind(t, y); }
    }
  }

  /** The test of mem_release. */
  lemma GivenReads(n: Words, base: int, s: Slab, x: int, a: int, c: int)
    requires Given(n, base, s, x, a, c)
    ensures |s.free| == CLASSES && IsClass(c) && a in s.arenas && s.arenas[a] == c && HeapPage(a)
    ensures Word(n, a) == Desc(base, c) && Word(n, a + 4) == |FreeOf(GivenBack(s, c, x), a)| && Word(n, Desc(base, c) + 4) == BlocksPer(c)
    ensures Aligned(a) && Aligned(a + 4) && Aligned(Desc(base, c) + 4)
  {
    hide ListAt, Heads, LargeHeads, Placed, Accounted, Complete, Desc, Blocks, FreeOf, BusyBut;
    HeaderAligned(a);
    DescAligned(base, c);
  }

  lemma GivenSame(s: Slab, x: int, c: int)
    requires |s.free| == CLASSES && IsClass(c)
    ensures var g := GivenBack(s, c, x);
            |g.free| == CLASSES && g.arenas == s.arenas && g.large == s.large && g.live == WithoutUser(s, x).live
    ensures WithoutUser(s, x).arenas == s.arenas && WithoutUser(s, x).large == s.large
  {}

  lemma GivenNotFull(n: Words, base: int, s: Slab, x: int, a: int, c: int)
    requires Given(n, base, s, x, a, c) && |FreeOf(GivenBack(s, c, x), a)| != BlocksPer(c)
    ensures Sound(n, base, GivenBack(s, c, x), {}) && Busy(GivenBack(s, c, x))
  {
    hide ListAt, Lists, Heads, LargeHeads, Descs, Placed, Accounted, Desc;
    var g := GivenBack(s, c, x);
    CloseBooks(n, base, g, a);
    SubsetCard(FreeOf(g, a), Blocks(a, c));
  }

  lemma GivenFull(n: Words, base: int, s: Slab, x: int, a: int, c: int)
    requires Given(n, base, s, x, a, c) && |FreeOf(GivenBack(s, c, x), a)| == BlocksPer(c)
    ensures var g := GivenBack(s, c, x); Unlinking(n, base, g, g, a, c, 0) && Shape(g) && BusyBut(g, a)
  {
    hide ListAt, Lists, Heads, LargeHeads, Descs, Placed, Accounted, Complete, Desc, BusyBut, Unlinking;
    var g := GivenBack(s, c, x);
    FullArena(g, a);
    UnlinkStart(n, base, g, a, c);
  }

  // ----- what mem_acquire gives its caller -----

  /** x is a new allocation of size bytes, at least as large as asked, all zero; nobody else's bytes moved,
      and nothing outside the pages that the heap has now. */
  ghost predicate Granted(m: Words, n: Words, s: Slab, t: Slab, x: int, size: nat) {
    && x >= HEAP_START && x !in s.live && t.live == s.live[x := size]
    && LiveKept(m, n, s) && OffKept(m, n, t) && x + size <= End(t, x) && Zeroed(n, x, End(t, x) - x)
  }

  lemma BlockGranted(m: Words, n: Words, s: Slab, t: Slab, c: int, x: int, size: nat)
    requires Shape(t) && BlockOf(t, c, x) && x !in s.live && t.live == s.live[x := size] && size <= BlockSize(c)
    requires LiveKept(m, n, s) && OffKept(m, n, t) && Zeroed(n, x, BlockSize(c))
    ensures Granted(m, n, s, t, x, size)
  {
    BlockFacts(t, c, x);
  }

  /** x comes from class c: the head of the class's list, which keeps its rest; or, the list being empty, the first
      block of a new arena, whose other blocks become the list, in order. */
  ghost predicate TakenFrom(s: Slab, t: Slab, x: int, c: int) {
    var a := PageOf(x);
    && |s.free| == CLASSES && IsClass(c) && a in t.arenas && t.arenas[a] == c && t.large == s.large
    && if s.free[c] != [] then x == s.free[c][0] && t.free == s.free[c := s.free[c][1..]] && t.arenas == s.arenas
       else && x == a + ARENA_HDR && a !in s.arenas && t.arenas == s.arenas[a := c]
            && t.free == s.free[c := BlockSeq(x, BlockSize(c), BlocksPer(c))[1..]]
  }

  /** x is a block of the smallest class that holds the request. */
  ghost predicate SmallGrant(s: Slab, t: Slab, x: int, size: int) {
    && PageOf(x) in t.arenas && TakenFrom(s, t, x, t.arenas[PageOf(x)])
    && size <= BlockSize(t.arenas[PageOf(x)]) && forall d | 0 <= d < t.arenas[PageOf(x)] :: BlockSize(d) < size
  }

  lemma TakenHead(s: Slab, c: int, size: nat)
    requires |s.free| == CLASSES && IsClass(c) && s.free[c] != [] && BlockOf(BlockTaken(s, c, size), c, s.free[c][0])
    ensures TakenFrom(s, BlockTaken(s, c, size), s.free[c][0], c)
  {}

  lemma TakenFirst(s: Slab, u: Slab, a: int, c: int, size: nat)
    requires |s.free| == CLASSES && IsClass(c) && s.free[c] == [] && a !in s.arenas && |u.free| == CLASSES && IsPage(a)
    requires u == WithFree(WithArena(s, a, c), c, BlockSeq(a + ARENA_HDR, BlockSize(c), BlocksPer(c)))
    ensures u.free[c] != [] && TakenFrom(s, BlockTaken(u, c, size), u.free[c][0], c)
  {
    BlocksFill(c);
    BlockSeqAt(a + ARENA_HDR, BlockSize(c), BlocksPer(c), 0);
    PageBase(a, a + ARENA_HDR);
    hide BlockSeq, BlockSize, BlocksPer, PageOf;
  }

  lemma FreshNotArena(s: Slab, a: int, k: nat)
    requires FreshSpan(s, a, k) && k >= 1
    ensures a !in s.arenas && a !in s.large && IsPage(a)
  {}

  /** mem_acquire after a new arena: a is s with the arena, t with the block taken. */
  lemma GrownTaken(s: Slab, u: Slab, t: Slab, a: int, c: int, size: nat)
    requires |s.free| == CLASSES && IsClass(c) && |u.free| == CLASSES && u.free[c] != []
    requires u == WithFree(WithArena(s, a, c), c, u.free[c]) && t == BlockTaken(u, c, size)
    ensures t.live == s.live[u.free[c][0] := size] && u.live == s.live && t.arenas == u.arenas && t.large == u.large
  {}

  lemma GrownUsers(m: Words, n: Words, s: Slab, u: Slab, t: Slab, a: int, c: int)
    requires Books(s, {}) && FreshSpan(s, a, 1) && UsersKept(m, n, u) && IsClass(c) && |u.free| == CLASSES
    requires u == WithFree(WithArena(s, a, c), c, u.free[c]) && t.arenas == u.arenas && t.large == u.large
    ensures LiveKept(m, n, s) && OffKept(m, n, t)
  {
    hide Books, FreshSpan, LiveKept, OffKept;
    SameUsers(m, n, u, WithArena(s, a, c));
    ArenaUsers(m, n, s, a, c);
    SameOff(m, n, u, t);
  }

  /** A block taken: the users before, and the heap's pages after. */
  lemma TakenUsers(m: Words, n: Words, s: Slab, t: Slab)
    requires UsersKept(m, n, s) && t.arenas == s.arenas && t.large == s.large
    ensures LiveKept(m, n, s) && OffKept(m, n, t)
  {
    hide LiveKept, OffKept;
    SameOff(m, n, s, t);
  }

  lemma BusyAll(s: Slab, a: int)
    requires Shape(s) && Busy(s)
    ensures BusyBut(s, a)
  {}

  // ----- sys_malloc and sys_free of whole pages -----

  /** The header words of a large allocation over cleared pages. */
  function LargeWords(m: Words, a: int, k: nat): Words {
    Store(Store(Store(Clear(m, a, k * PG_SIZE), a, 0), a + 4, k), a + 8, 1)
  }

  lemma LargeWordsAre(m: Words, m1: Words, a: int, k: nat)
    requires SameBut(m, m1, a, k * PG_SIZE) && HeapPage(a) && k >= 1
    ensures SameBut(m, LargeWords(m1, a, k), a, k * PG_SIZE) && LargeHeader(LargeWords(m1, a, k), a, k)
    ensures Zeroed(LargeWords(m1, a, k), a + ARENA_HDR, k * PG_SIZE - ARENA_HDR)
    ensures Aligned(a) && Aligned(a + 4) && Aligned(a + 8)
  {
    HeaderAligned(a);
  }

  lemma SpanAligned(k: nat)
    ensures Aligned(k * PG_SIZE)
  {
    assert k * PG_SIZE == 4 * (1024 * k);
    FourTimes(1024 * k);
  }

  lemma FourTimes(q: int)
    ensures Aligned(4 * q)
  {}

  lemma LargeOff(m: Words, n: Words, s: Slab, a: int, k: nat, size: nat)
    requires SameBut(m, n, a, k * PG_SIZE)
    ensures OffKept(m, n, WithLarge(s, a, k, size))
  {
    var t := WithLarge(s, a, k, size);
    forall w | w >= HEAP_START && !OnHeap(t, w) ensures n(w) == m(w) {
      assert a in t.large && t.large[a] == k;
      assert a <= w < a + k * PG_SIZE ==> OnLarge(t, w);
    }
  }

  /** A large allocation on fresh pages keeps the invariant. */
  lemma LargeStep(m: Words, n: Words, base: int, s: Slab, a: int, k: nat, size: nat)
    requires Sound(m, base, s, {}) && Busy(s) && FreshSpan(s, a, k) && size + ARENA_HDR <= k * PG_SIZE
    requires SameBut(m, n, a, k * PG_SIZE) && LargeHeader(n, a, k) && Zeroed(n, a + ARENA_HDR, k * PG_SIZE - ARENA_HDR)
    ensures var t := WithLarge(s, a, k, size);
            Sound(n, base, t, {}) && Busy(t) && Granted(m, n, s, t, a + ARENA_HDR, size)
  {
    hide ListAt, Lists, Heads, LargeHeads, Descs, Placed, Accounted, Complete, LiveKept, OffKept, SameBut, Zeroed, Blocks, FreeOf;
    var t := WithLarge(s, a, k, size);
    SpanFrame(m, n, base, s, a, k, {});
    SpanKeepsUsers(m, n, s, a, k);
    LargeBooks(s, a, k, size);
    LargeMemory(n, base, s, a, k, size);
    PageBase(a, a + ARENA_HDR);
    assert a !in t.arenas;
    LargeOff(m, n, s, a, k, size);
  }

  /** Dropping a large allocation keeps the invariant; no word moves. */
  lemma UnlargeStep(m: Words, base: int, s: Slab, a: int)
    requires Sound(m, base, s, {}) && Busy(s) && a in s.large
    ensures Sound(m, base, WithoutLarge(s, a), {}) && Busy(WithoutLarge(s, a))
  {
    hide ListAt, Lists, Heads, LargeHeads, Descs, Placed, Accounted, Complete, Blocks, FreeOf;
    UnlargeBooks(s, a);
    UnlargeMemory(m, base, s, a);
  }

  /** The word by which sys_free tells large from small, and a large header's page count. */
  lemma FreeReads(m: Words, base: int, s: Slab, x: int)
    requires Sound(m, base, s, {}) && x in s.live
    ensures var a := Block2Arena(x);
            && a == PageOf(x) && Aligned(a + 4) && Aligned(a + 8) && (Word(m, a + 8) != 0 <==> a !in s.arenas)
            && (a !in s.arenas ==> a in s.large && x == a + ARENA_HDR && Word(m, a + 4) == s.large[a] && s.large[a] >= 1)
  {
    hide ListAt, Lists, Descs, Placed, Accounted, Complete, FreeOf;
    LiveKind(s, x);
    HeaderAligned(Block2Arena(x));
    if PageOf(x) in s.arenas {
      HeaderOf(m, base, s, PageOf(x));
    } else {
      assert LargeHeader(m, PageOf(x), s.large[PageOf(x)]);
    }
  }
}
