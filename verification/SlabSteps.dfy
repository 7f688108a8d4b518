/** What each change of mem_acquire and mem_release does to the slab invariant. */
module SlabSteps {
  import opened Words
  import opened IntrusiveList
  import opened Paging
  import opened SlabLayout
  import opened SlabState

  function WithFree(s: Slab, c: int, ys: seq<int>): Slab
    requires |s.free| == CLASSES && IsClass(c)
  {
    s.(free := s.free[c := ys])
  }

  // ----- counting free blocks -----

  lemma OwnPageOnly(s: Slab, a: int, c: int, x: int)
    requires Shape(s) && a in s.arenas && x in Blocks(a, s.arenas[a])
    ensures PageOf(x) == a && BlockOf(s, s.arenas[a], x)
  {
    BlockInPage(a, s.arenas[a], x);
  }

  /** One more block x on list c is one more free block of x's arena and of no other. */
  lemma FreeOfMore(s: Slab, t: Slab, c: int, x: int, a: int)
    requires Shape(s) && IsClass(c) && |t.free| == CLASSES && t == WithFree(s, c, t.free[c])
    requires BlockOf(s, c, x) && x !in s.free[c] && Elems(t.free[c]) == Elems(s.free[c]) + {x}
    requires a in s.arenas
    ensures |FreeOf(t, a)| == |FreeOf(s, a)| + if a == PageOf(x) then 1 else 0
  {
    if a == PageOf(x) {
      assert FreeOf(t, a) == FreeOf(s, a) + {x};
    } else {
      if x in Blocks(a, s.arenas[a]) { OwnPageOnly(s, a, c, x); }
      assert FreeOf(t, a) == FreeOf(s, a);
    }
  }

  // ----- memory changes that miss the skeleton -----

  lemma ListsFrame(m: Words, n: Words, base: int, s: Slab)
    requires DescsFit(base) && Shape(s) && Placed(s) && Lists(m, base, s) && Descs(m, base)
    requires forall w | w < HEAP_START :: n(w) == m(w)
    requires forall c, x | IsClass(c) && x in s.free[c] :: n(x) == m(x) && n(x + 4) == m(x + 4)
    ensures Lists(n, base, s) && Descs(n, base)
  {
    forall c | IsClass(c) ensures ListAt(n, FreeList(base, c), s.free[c]) {
      ListFrameAt(m, n, base, s, c);
    }
    forall c | IsClass(c) ensures n(Desc(base, c)) == m(Desc(base, c)) && n(Desc(base, c) + 4) == m(Desc(base, c) + 4) {
      DescWords(base, c, c);
    }
  }

  lemma ListFrameAt(m: Words, n: Words, base: int, s: Slab, c: int)
    requires DescsFit(base) && |s.free| == CLASSES && IsClass(c) && ListAt(m, FreeList(base, c), s.free[c])
    requires forall w | w < HEAP_START :: n(w) == m(w)
    requires forall x | x in s.free[c] :: n(x) == m(x) && n(x + 4) == m(x + 4)
    ensures ListAt(n, FreeList(base, c), s.free[c])
  {
    var p, xs := FreeList(base, c), s.free[c];
    forall i | 0 <= i < |xs| + 2
      ensures n(PrevOf(Nodes(p, xs)[i])) == m(PrevOf(Nodes(p, xs)[i])) && n(NextOf(Nodes(p, xs)[i])) == m(NextOf(Nodes(p, xs)[i]))
    {
      NodesAre(p, xs, i);
      if 1 <= i <= |xs| { assert xs[i - 1] in s.free[c]; }
    }
    ListFrame(m, n, p, xs);
  }

  lemma HeadsFrame(m: Words, n: Words, base: int, s: Slab, but: set<int>)
    requires Shape(s) && Heads(m, base, s, but)
    requires forall a | a in s.arenas && a !in but :: n(a) == m(a) && n(a + 4) == m(a + 4) && n(a + 8) == m(a + 8)
    ensures Heads(n, base, s, but)
  {
    forall a | a in s.arenas && a !in but ensures Header(n, base, a, s.arenas[a], |FreeOf(s, a)|) {
      assert Header(m, base, a, s.arenas[a], |FreeOf(s, a)|);
    }
  }

  /** A whole change that keeps low memory, headers and free nodes keeps the invariant. */
  lemma SkeletonFrame(m: Words, n: Words, base: int, s: Slab, but: set<int>)
    requires DescsFit(base) && Shape(s) && Placed(s) && InMemory(m, base, s, but)
    requires forall w | w < HEAP_START :: n(w) == m(w)
    requires forall c, x | IsClass(c) && x in s.free[c] :: n(x) == m(x) && n(x + 4) == m(x + 4)
    requires forall a | (a in s.arenas && a !in but) || a in s.large ::
               n(a) == m(a) && n(a + 4) == m(a + 4) && n(a + 8) == m(a + 8)
    ensures InMemory(n, base, s, but)
  {
    ListsFrame(m, n, base, s);
    HeadsFrame(m, n, base, s, but);
    forall a | a in s.large ensures LargeHeader(n, a, s.large[a]) {
      assert LargeHeader(m, a, s.large[a]);
    }
  }

  // ----- lists hold no block twice -----

  lemma DistinctElems(m: Words, p: int, xs: seq<int>, i: nat, j: nat)
    requires ListAt(m, p, xs) && i < j < |xs|
    ensures xs[i] != xs[j]
  {
    assert Nodes(p, xs)[i + 1] == xs[i] && Nodes(p, xs)[j + 1] == xs[j];
    DistinctNodes(Nodes(p, xs), i + 1, j + 1);
  }

  lemma PoppedElems(m: Words, p: int, xs: seq<int>)
    requires ListAt(m, p, xs) && xs != []
    ensures xs[0] !in xs[1..] && Elems(xs) == Elems(xs[1..]) + {xs[0]}
  {
    forall j | 1 <= j < |xs| ensures xs[j] != xs[0] {
      DistinctElems(m, p, xs, 0, j);
    }
    assert xs == [xs[0]] + xs[1..];
  }

  lemma AppendedElems(xs: seq<int>, x: int)
    ensures Elems(xs + [x]) == Elems(xs) + {x}
  {}

  /** A block that is not on list c can be linked into it. */
  lemma FreshBlock(base: int, s: Slab, c: int, x: int)
    requires DescsFit(base) && Shape(s) && Placed(s) && IsClass(c) && BlockOf(s, c, x) && x !in s.free[c]
    ensures Fresh(FreeList(base, c), s.free[c], x)
  {
    var p, xs := FreeList(base, c), s.free[c];
    BlockFacts(s, c, x);
    forall i | 0 <= i < |xs| + 2 ensures ApartNodes(Nodes(p, xs)[i], x) {
      NodesAre(p, xs, i);
      if 1 <= i <= |xs| {
        assert xs[i - 1] in s.free[c];
        TwoBlocks(s, c, xs[i - 1], c, x);
        BlockFacts(s, c, xs[i - 1]);
      }
    }
  }

  lemma AppendedNodes(p: int, xs: seq<int>, x: int, m: Words, n: Words)
    requires SameOutside(m, n, Nodes(p, xs) + [x])
    ensures SameOutside(m, n, Nodes(p, xs + [x]))
  {
    var ns, ms := Nodes(p, xs) + [x], Nodes(p, xs + [x]);
    forall a | Outside(ms, a) ensures Outside(ns, a) {
      forall i | 0 <= i < |ns| ensures !InNode(ns[i], a) {
        assert ns[i] == ms[if i <= |xs| then i else if i == |xs| + 1 then |xs| + 2 else |xs| + 1];
      }
    }
  }

  // ----- taking a block: list_pop, memset, cnt-- -----

  lemma NotLiveWhenFree(s: Slab, c: int, x: int)
    requires Shape(s) && Accounted(s) && IsClass(c) && BlockOf(s, c, x) && x in s.free[c]
    ensures x !in s.live
  {
    hide Blocks, BlockSize, PageOf, IsPage;
    BlockFacts(s, c, x);
    if x in s.live && LargeLive(s, x) {
      PageBase(x - ARENA_HDR, x);
    }
  }

  /** The slab state after a block is popped and handed out for size bytes. */
  function BlockTaken(s: Slab, c: int, size: nat): Slab
    requires |s.free| == CLASSES && IsClass(c) && s.free[c] != []
  {
    WithFree(s, c, s.free[c][1..]).(live := s.live[s.free[c][0] := size])
  }

  lemma TakePlaced(m: Words, p: int, s: Slab, c: int, size: nat)
    requires Shape(s) && Placed(s) && IsClass(c) && s.free[c] != [] && ListAt(m, p, s.free[c])
    ensures var t, x := BlockTaken(s, c, size), s.free[c][0];
            Shape(t) && Placed(t) && BlockOf(s, c, x) && x !in t.free[c] && Elems(s.free[c]) == Elems(t.free[c]) + {x}
  {
    var t, x := BlockTaken(s, c, size), s.free[c][0];
    PoppedElems(m, p, s.free[c]);
    assert x in s.free[c];
    forall d, y | IsClass(d) && y in t.free[d] ensures BlockOf(t, d, y) {
      assert y in s.free[d];
    }
  }

  lemma TakeCounts(s: Slab, c: int, size: nat, a: int)
    requires Shape(s) && Placed(s) && IsClass(c) && s.free[c] != [] && a in s.arenas
    requires BlockOf(s, c, s.free[c][0]) && s.free[c][0] !in s.free[c][1..]
    requires Elems(s.free[c]) == Elems(s.free[c][1..]) + {s.free[c][0]}
    ensures |FreeOf(s, a)| == |FreeOf(BlockTaken(s, c, size), a)| + if a == PageOf(s.free[c][0]) then 1 else 0
  {
    var u := WithFree(s, c, s.free[c][1..]);
    assert WithFree(u, c, s.free[c]) == s;
    FreeOfMore(u, s, c, s.free[c][0], a);
    assert FreeOf(u, a) == FreeOf(BlockTaken(s, c, size), a);
  }

  lemma TakeAccounted(s: Slab, c: int, size: nat)
    requires Shape(s) && Placed(s) && Accounted(s) && IsClass(c) && s.free[c] != [] && size <= BlockSize(c)
    requires BlockOf(s, c, s.free[c][0]) && s.free[c][0] !in s.free[c][1..]
    ensures Accounted(BlockTaken(s, c, size))
  {
    var t, x := BlockTaken(s, c, size), s.free[c][0];
    forall y | y in t.live ensures SmallLive(t, y) || LargeLive(t, y) {
      if y != x {
        assert SmallLive(s, y) || LargeLive(s, y);
      }
    }
  }

  lemma TakeComplete(s: Slab, c: int, size: nat)
    requires Shape(s) && Complete(s, {}) && IsClass(c) && s.free[c] != []
    requires Elems(s.free[c]) == Elems(s.free[c][1..]) + {s.free[c][0]}
    ensures Complete(BlockTaken(s, c, size), {})
  {
    var t, x := BlockTaken(s, c, size), s.free[c][0];
    forall a, y | a in t.arenas && a !in {} && y in Blocks(a, t.arenas[a])
      ensures y in t.free[t.arenas[a]] || y in t.live
    {
      assert y in s.free[s.arenas[a]] || y in s.live;
      if y in s.free[c] && y != x {
        assert y in Elems(s.free[c]) && y in Elems(s.free[c][1..]);
      }
    }
  }

  /** The words after the pop m1, the clearing of the block and the decrement. */
  function TakeWords(m1: Words, c: int, x: int): Words {
    var m2 := Clear(m1, x, BlockSize(c));
    Store(m2, Block2Arena(x) + 4, m2(Block2Arena(x) + 4) - 1)
  }

  /** Block x of class c is not read by the rest of the heap: clearing it and recounting its
      arena keeps low memory, every free node, and every header but for x's count. */
  lemma TakeKeepsNode(m1: Words, t: Slab, c: int, x: int, d: int, y: int)
    requires Shape(t) && BlockOf(t, c, x) && BlockOf(t, d, y) && x != y
    ensures var n := TakeWords(m1, c, x); n(y) == m1(y) && n(y + 4) == m1(y + 4)
  {
    BlockFacts(t, c, x);
    BlockFacts(t, d, y);
    TwoBlocks(t, c, x, d, y);
    if PageOf(x) != PageOf(y) { PagesApart(PageOf(x), PageOf(y)); }
  }

  lemma TakeKeepsHeader(m1: Words, t: Slab, c: int, x: int, a: int)
    requires Shape(t) && BlockOf(t, c, x) && HeapPage(a)
    ensures var n := TakeWords(m1, c, x);
            && n(a) == m1(a) && n(a + 8) == m1(a + 8)
            && n(a + 4) == m1(a + 4) - if a == PageOf(x) then 1 else 0
  {
    BlockFacts(t, c, x);
    if a != PageOf(x) { PagesApart(a, PageOf(x)); }
  }

  lemma TakeLists(m1: Words, base: int, t: Slab, c: int, x: int)
    requires DescsFit(base) && Shape(t) && Placed(t) && BlockOf(t, c, x) && x !in t.free[c]
    requires Lists(m1, base, t) && Descs(m1, base)
    ensures Lists(TakeWords(m1, c, x), base, t) && Descs(TakeWords(m1, c, x), base)
  {
    var n := TakeWords(m1, c, x);
    BlockFacts(t, c, x);
    forall d, y | IsClass(d) && y in t.free[d] ensures n(y) == m1(y) && n(y + 4) == m1(y + 4) {
      TakeKeepsNode(m1, t, c, x, d, y);
    }
    ListsFrame(m1, n, base, t);
  }

  lemma TakeHeads(m: Words, m1: Words, base: int, s: Slab, t: Slab, c: int, x: int)
    requires Shape(s) && Shape(t) && t.arenas == s.arenas && BlockOf(t, c, x) && Heads(m, base, s, {})
    requires forall a | a in s.arenas :: m1(a) == m(a) && m1(a + 4) == m(a + 4) && m1(a + 8) == m(a + 8)
    requires forall a | a in s.arenas :: |FreeOf(s, a)| == |FreeOf(t, a)| + if a == PageOf(x) then 1 else 0
    ensures Heads(TakeWords(m1, c, x), base, t, {})
  {
    hide TakeWords, PageOf, FreeOf, Blocks, Desc, IsPage;
    forall a | a in t.arenas && a !in {} ensures Header(TakeWords(m1, c, x), base, a, t.arenas[a], |FreeOf(t, a)|) {
      assert Header(m, base, a, s.arenas[a], |FreeOf(s, a)|);
      TakeKeepsHeader(m1, t, c, x, a);
    }
  }

  lemma TakeLarge(m1: Words, t: Slab, c: int, x: int)
    requires Shape(t) && BlockOf(t, c, x) && LargeHeads(m1, t)
    ensures LargeHeads(TakeWords(m1, c, x), t)
  {
    forall a | a in t.large ensures LargeHeader(TakeWords(m1, c, x), a, t.large[a]) {
      assert LargeHeader(m1, a, t.large[a]) && PageOf(x) in t.arenas && a !in t.arenas;
      TakeKeepsHeader(m1, t, c, x, a);
    }
  }

  /** The books after a block is taken. */
  lemma TakeBooks(m: Words, p: int, s: Slab, c: int, size: nat)
    requires Books(s, {}) && IsClass(c) && s.free[c] != [] && size <= BlockSize(c) && ListAt(m, p, s.free[c])
    ensures Books(BlockTaken(s, c, size), {})
    ensures var x := s.free[c][0]; x !in s.live && BlockOf(s, c, x) && x !in s.free[c][1..]
    ensures forall a | a in s.arenas :: |FreeOf(s, a)| == |FreeOf(BlockTaken(s, c, size), a)| + if a == PageOf(s.free[c][0]) then 1 else 0
  {
    TakePlaced(m, p, s, c, size);
    assert s.free[c][0] in s.free[c];
    NotLiveWhenFree(s, c, s.free[c][0]);
    TakeAccounted(s, c, size);
    TakeComplete(s, c, size);
    forall a | a in s.arenas
      ensures |FreeOf(s, a)| == |FreeOf(BlockTaken(s, c, size), a)| + if a == PageOf(s.free[c][0]) then 1 else 0
    {
      TakeCounts(s, c, size, a);
    }
  }

  /** Pop, clear and count down: memory holds the new books. */
  lemma TakeMemory(m: Words, m1: Words, base: int, s: Slab, t: Slab, c: int, x: int)
    requires DescsFit(base) && Shape(s) && Placed(s) && InMemory(m, base, s, {}) && IsClass(c)
    requires Shape(t) && Placed(t) && t == WithFree(s, c, t.free[c]).(live := t.live)
    requires BlockOf(s, c, x) && x !in t.free[c]
    requires ListAt(m1, FreeList(base, c), t.free[c]) && SameOutside(m, m1, Nodes(FreeList(base, c), t.free[c]))
    requires forall a | a in s.arenas :: |FreeOf(s, a)| == |FreeOf(t, a)| + if a == PageOf(x) then 1 else 0
    ensures InMemory(TakeWords(m1, c, x), base, t, {})
  {
    forall i | 0 <= i < |t.free[c]| ensures BlockOf(s, c, t.free[c][i]) { assert t.free[c][i] in t.free[c]; }
    ListChange(m, m1, base, s, c, t.free[c], t.free[c]);
    assert BlockOf(t, c, x);
    TakeLists(m1, base, t, c, x);
    TakeHeads(m, m1, base, s, t, c, x);
    TakeLarge(m1, t, c, x);
  }

  // ----- linking and unlinking blocks of an arena whose books are open -----

  /** Linking a block that is neither free nor live, of an arena with open books. */
  lemma AppendBooks(u: Slab, c: int, x: int, but: set<int>)
    requires Books(u, but) && BlockOf(u, c, x) && x !in u.free[c] && x !in u.live && PageOf(x) in but
    ensures Books(WithFree(u, c, u.free[c] + [x]), but)
  {
    var t := WithFree(u, c, u.free[c] + [x]);
    forall d, y | IsClass(d) && y in t.free[d] ensures BlockOf(t, d, y) {
      assert y != x || d != c ==> y in u.free[d];
    }
    forall y | y in t.live ensures SmallLive(t, y) || LargeLive(t, y) {
      assert SmallLive(u, y) || LargeLive(u, y);
    }
    forall a, y | a in t.arenas && a !in but && y in Blocks(a, t.arenas[a])
      ensures y in t.free[t.arenas[a]] || y in t.live
    {
      assert y in u.free[u.arenas[a]] || y in u.live;
    }
  }

  lemma AppendMemory(m: Words, n: Words, base: int, u: Slab, c: int, x: int, but: set<int>)
    requires DescsFit(base) && Shape(u) && Placed(u) && InMemory(m, base, u, but)
    requires BlockOf(u, c, x) && x !in u.free[c] && PageOf(x) in but
    requires ListAt(n, FreeList(base, c), u.free[c] + [x])
    requires SameOutside(m, n, Nodes(FreeList(base, c), u.free[c]) + [x])
    ensures InMemory(n, base, WithFree(u, c, u.free[c] + [x]), but)
    ensures HeapSame(m, n, u.free[c] + [x])
    ensures forall a | HeapPage(a) :: n(a) == m(a) && n(a + 4) == m(a + 4) && n(a + 8) == m(a + 8)
  {
    var ys := u.free[c] + [x];
    AppendedNodes(FreeList(base, c), u.free[c], x, m, n);
    forall i | 0 <= i < |ys| ensures BlockOf(u, c, ys[i]) {
      assert i < |u.free[c]| ==> ys[i] in u.free[c];
    }
    ListChange(m, n, base, u, c, ys, ys);
    AppendedElems(u.free[c], x);
    OtherHeads(m, n, base, u, WithFree(u, c, ys), c, x, but);
  }

  /** The other arenas' counts do not move when block x comes or goes. */
  lemma OtherHeads(m: Words, n: Words, base: int, u: Slab, t: Slab, c: int, x: int, but: set<int>)
    requires Shape(u) && IsClass(c) && |t.free| == CLASSES && t == WithFree(u, c, t.free[c])
    requires Heads(m, base, u, but) && BlockOf(u, c, x) && PageOf(x) in but
    requires Elems(t.free[c]) == Elems(u.free[c]) + {x} || Elems(u.free[c]) == Elems(t.free[c]) + {x}
    requires forall a | HeapPage(a) :: n(a) == m(a) && n(a + 4) == m(a + 4) && n(a + 8) == m(a + 8)
    ensures Heads(n, base, t, but)
  {
    forall a | a in t.arenas && a !in but ensures Header(n, base, a, t.arenas[a], |FreeOf(t, a)|) {
      assert Header(m, base, a, u.arenas[a], |FreeOf(u, a)|);
      if x in Blocks(a, u.arenas[a]) { OwnPageOnly(u, a, c, x); }
      assert FreeOf(t, a) == FreeOf(u, a);
    }
  }

  function Dropped(xs: seq<int>, i: nat): seq<int>
    requires i < |xs|
  {
    xs[..i] + xs[i + 1..]
  }

  lemma DroppedElems(m: Words, p: int, xs: seq<int>, i: nat)
    requires ListAt(m, p, xs) && i < |xs|
    ensures Elems(xs) == Elems(Dropped(xs, i)) + {xs[i]} && xs[i] !in Dropped(xs, i)
  {
    var ys := Dropped(xs, i);
    forall j | 0 <= j < |ys| ensures ys[j] != xs[i] && ys[j] in xs {
      if j < i { DistinctElems(m, p, xs, j, i); } else { DistinctElems(m, p, xs, i, j + 1); }
    }
    forall y | y in xs ensures y in Elems(ys) + {xs[i]} {
      var j :| 0 <= j < |xs| && xs[j] == y;
      assert j < i ==> ys[j] == y;
      assert j > i ==> ys[j - 1] == y;
    }
  }

  /** Unlinking a block of an arena with open books. */
  lemma RemoveBooks(u: Slab, c: int, i: nat, but: set<int>)
    requires Books(u, but) && IsClass(c) && i < |u.free[c]| && PageOf(u.free[c][i]) in but
    requires Elems(u.free[c]) == Elems(Dropped(u.free[c], i)) + {u.free[c][i]}
    ensures Books(WithFree(u, c, Dropped(u.free[c], i)), but)
  {
    var x, ys := u.free[c][i], Dropped(u.free[c], i);
    var t := WithFree(u, c, ys);
    assert forall y | y in ys :: y in Elems(u.free[c]);
    forall d, y | IsClass(d) && y in t.free[d] ensures BlockOf(t, d, y) {
      assert y in u.free[d];
    }
    forall y | y in t.live ensures SmallLive(t, y) || LargeLive(t, y) {
      assert SmallLive(u, y) || LargeLive(u, y);
    }
    forall a, y | a in t.arenas && a !in but && y in Blocks(a, t.arenas[a])
      ensures y in t.free[t.arenas[a]] || y in t.live
    {
      OwnPageOnly(u, a, c, y);
      assert y in u.free[u.arenas[a]] || y in u.live;
      assert y in u.free[c] ==> y in Elems(ys) + {x};
    }
  }

  lemma RemoveMemory(m: Words, n: Words, base: int, u: Slab, c: int, i: nat, but: set<int>)
    requires DescsFit(base) && Shape(u) && Placed(u) && InMemory(m, base, u, but)
    requires IsClass(c) && i < |u.free[c]| && PageOf(u.free[c][i]) in but
    requires ListAt(n, FreeList(base, c), Dropped(u.free[c], i))
    requires SameOutside(m, n, Nodes(FreeList(base, c), Dropped(u.free[c], i)))
    requires Elems(u.free[c]) == Elems(Dropped(u.free[c], i)) + {u.free[c][i]}
    ensures InMemory(n, base, WithFree(u, c, Dropped(u.free[c], i)), but)
    ensures HeapSame(m, n, Dropped(u.free[c], i))
    ensures forall a | HeapPage(a) :: n(a) == m(a) && n(a + 4) == m(a + 4) && n(a + 8) == m(a + 8)
  {
    var ys := Dropped(u.free[c], i);
    forall j | 0 <= j < |ys| ensures BlockOf(u, c, ys[j]) {
      assert ys[j] in Elems(ys) && ys[j] in Elems(u.free[c]);
    }
    ListChange(m, n, base, u, c, ys, ys);
    assert u.free[c][i] in u.free[c];
    OtherHeads(m, n, base, u, WithFree(u, c, ys), c, u.free[c][i], but);
  }

  // ----- opening and closing the books of one arena -----

  /** No block of page a is in use. */
  ghost predicate NoLiveIn(s: Slab, a: int) {
    forall x | x in s.live :: PageOf(x) != a
  }

  /** A block leaves the hands of its user. */
  lemma OpenBooks(s: Slab, x: int)
    requires Books(s, {}) && x in s.live && PageOf(x) in s.arenas && SmallLive(s, x)
    ensures Books(s.(live := s.live - {x}), {PageOf(x)})
  {
    var t := s.(live := s.live - {x});
    BlockFacts(s, s.arenas[PageOf(x)], x);
    forall y | y in t.live ensures SmallLive(t, y) || LargeLive(t, y) {
      assert SmallLive(s, y) || LargeLive(s, y);
    }
    forall a | a in t.large ensures a + ARENA_HDR in t.live {
      PageBase(a, a + ARENA_HDR);
    }
    forall a, y | a in t.arenas && a !in {PageOf(x)} && y in Blocks(a, t.arenas[a])
      ensures y in t.free[t.arenas[a]] || y in t.live
    {
      OwnPageOnly(s, a, s.arenas[a], y);
      assert y in s.free[s.arenas[a]] || y in s.live;
    }
  }

  /** Books whose open arena has all its blocks free or live, and the right count, close. */
  lemma CloseBooks(m: Words, base: int, t: Slab, a: int)
    requires Books(t, {a}) && InMemory(m, base, t, {a}) && a in t.arenas
    requires Header(m, base, a, t.arenas[a], |FreeOf(t, a)|)
    requires forall x | x in Blocks(a, t.arenas[a]) :: x in t.free[t.arenas[a]] || x in t.live
    ensures Books(t, {}) && InMemory(m, base, t, {})
  {}

  lemma HeaderStore(m: Words, base: int, t: Slab, a: int, v: int)
    requires DescsFit(base) && Shape(t) && Placed(t) && InMemory(m, base, t, {a}) && a in t.arenas
    ensures InMemory(Store(m, a + 4, v), base, t, {a})
  {
    var n := Store(m, a + 4, v);
    forall c, x | IsClass(c) && x in t.free[c] ensures n(x) == m(x) && n(x + 4) == m(x + 4) {
      BlockFacts(t, c, x);
      if PageOf(x) != a { PagesApart(PageOf(x), a); }
    }
    forall b | (b in t.arenas && b !in {a}) || b in t.large
      ensures n(b) == m(b) && n(b + 4) == m(b + 4) && n(b + 8) == m(b + 8)
    {
      PagesApart(a, b);
    }
    SkeletonFrame(m, n, base, t, {a});
  }

  // ----- giving a block back: list_append, cnt++ -----

  /** The state after live block x of class c is appended to its list. */
  function GivenBack(s: Slab, c: int, x: int): Slab
    requires |s.free| == CLASSES && IsClass(c)
  {
    WithFree(s, c, s.free[c] + [x]).(live := s.live - {x})
  }

  lemma GiveBooks(s: Slab, c: int, x: int)
    requires Books(s, {}) && x in s.live && PageOf(x) in s.arenas && s.arenas[PageOf(x)] == c && SmallLive(s, x)
    ensures Books(GivenBack(s, c, x), {PageOf(x)})
    ensures forall y | y in Blocks(PageOf(x), c) :: y in GivenBack(s, c, x).free[c] || y in GivenBack(s, c, x).live
    ensures |FreeOf(GivenBack(s, c, x), PageOf(x))| == |FreeOf(s, PageOf(x))| + 1
    ensures forall a | a in s.arenas && a != PageOf(x) :: |FreeOf(GivenBack(s, c, x), a)| == |FreeOf(s, a)|
  {
    OpenBooks(s, x);
    var u := s.(live := s.live - {x});
    AppendBooks(u, c, x, {PageOf(x)});
    AppendedElems(s.free[c], x);
    forall a | a in s.arenas
      ensures |FreeOf(GivenBack(s, c, x), a)| == |FreeOf(s, a)| + if a == PageOf(x) then 1 else 0
    {
      FreeOfMore(s, WithFree(s, c, s.free[c] + [x]), c, x, a);
      assert FreeOf(GivenBack(s, c, x), a) == FreeOf(WithFree(s, c, s.free[c] + [x]), a);
    }
    forall y | y in Blocks(PageOf(x), c)
      ensures y in GivenBack(s, c, x).free[c] || y in GivenBack(s, c, x).live
    {
      assert y in s.free[c] || y in s.live;
    }
  }

  /** A full count means every block of the arena is on the list, and none is in use. */
  lemma FullArena(s: Slab, a: int)
    requires Shape(s) && Accounted(s) && a in s.arenas && |FreeOf(s, a)| == BlocksPer(s.arenas[a])
    ensures Blocks(a, s.arenas[a]) <= Elems(s.free[s.arenas[a]]) && NoLiveIn(s, a)
  {
    var f := FreeOf(s, a);
    SubsetFills(f, Blocks(a, s.arenas[a]));
    forall x | x in s.live ensures PageOf(x) != a {
      if LargeLive(s, x) {
        PageBase(x - ARENA_HDR, x);
      } else {
        assert SmallLive(s, x);
        assert PageOf(x) == a ==> x in f;
      }
    }
  }

  lemma SubsetFills(p: set<int>, q: set<int>)
    requires p <= q && |p| == |q|
    ensures p == q
  {
    assert |q - p| == |q| - |p|;
  }

  lemma SubsetCard(p: set<int>, q: set<int>)
    requires p <= q
    ensures |p| <= |q|
  {
    assert |q - p| == |q| - |p|;
  }

  // ----- the demolition of an arena -----

  /** xs without the elements of gone, in order. */
  function Without(xs: seq<int>, gone: set<int>): (r: seq<int>)
    ensures forall x :: x in r <==> x in xs && x !in gone
  {
    if xs == [] then [] else if xs[0] in gone then Without(xs[1..], gone) else [xs[0]] + Without(xs[1..], gone)
  }

  lemma {:induction false} WithoutNothing(xs: seq<int>)
    ensures Without(xs, {}) == xs
  {
    if xs != [] { WithoutNothing(xs[1..]); }
  }

  lemma {:induction false} WithoutAbsent(xs: seq<int>, gone: set<int>, x: int)
    requires x !in xs
    ensures Without(xs, gone + {x}) == Without(xs, gone)
  {
    if xs != [] { WithoutAbsent(xs[1..], gone, x); }
  }

  /** Dropping the one occurrence of x from a filtered list filters x too. */
  lemma {:induction false} WithoutOne(xs: seq<int>, gone: set<int>, x: int, i: nat)
    requires i < |Without(xs, gone)| && Without(xs, gone)[i] == x
    requires forall j, k | 0 <= j < k < |xs| :: xs[j] != xs[k]
    ensures Dropped(Without(xs, gone), i) == Without(xs, gone + {x})
  {
    var r := Without(xs, gone);
    if xs[0] in gone {
      WithoutOne(xs[1..], gone, x, i);
    } else if i == 0 {
      assert x !in xs[1..] by { forall k | 0 <= k < |xs[1..]| ensures xs[1..][k] != x { assert xs[1..][k] == xs[k + 1]; } }
      WithoutAbsent(xs[1..], gone, x);
      assert Dropped(r, 0) == Without(xs[1..], gone);
    } else {
      WithoutOne(xs[1..], gone, x, i - 1);
      assert r[1..] == Without(xs[1..], gone);
      assert Dropped(r, i) == [xs[0]] + Dropped(r[1..], i - 1);
      assert xs[0] != x by { assert x in r[1..]; }
    }
  }

  function Forgotten(t: Slab, a: int): Slab { t.(arenas := t.arenas - {a}) }

  lemma ForgetBooks(t: Slab, a: int)
    requires Books(t, {a}) && a in t.arenas && NoLiveIn(t, a)
    requires forall c, x | IsClass(c) && x in t.free[c] :: PageOf(x) != a
    ensures Books(Forgotten(t, a), {})
  {
    var u := Forgotten(t, a);
    forall c, x | IsClass(c) && x in u.free[c] ensures BlockOf(u, c, x) {
      assert BlockOf(t, c, x);
    }
    forall x | x in u.live ensures SmallLive(u, x) || LargeLive(u, x) {
      assert SmallLive(t, x) || LargeLive(t, x);
    }
    forall b, x | b in u.arenas && b !in {} && x in Blocks(b, u.arenas[b])
      ensures x in u.free[u.arenas[b]] || x in u.live
    {
      assert b in t.arenas && b !in {a};
    }
  }

  lemma ForgetMemory(m: Words, base: int, t: Slab, a: int)
    requires Shape(t) && InMemory(m, base, t, {a})
    ensures InMemory(m, base, Forgotten(t, a), {})
    ensures forall b | b in t.arenas && b != a :: FreeOf(Forgotten(t, a), b) == FreeOf(t, b)
  {
    var u := Forgotten(t, a);
    forall b | b in u.arenas && b !in {} ensures Header(m, base, b, u.arenas[b], |FreeOf(u, b)|) {
      assert Header(m, base, b, t.arenas[b], |FreeOf(t, b)|);
    }
  }

  // ----- fresh pages -----

  /** The k pages from a on belong to no arena and no large allocation. */
  ghost predicate FreshSpan(s: Slab, a: int, k: nat) {
    && HeapPage(a) && k >= 1
    && (forall b | b in s.arenas || b in s.large :: b < a || b >= a + k * PG_SIZE)
    && (forall b | b in s.large && b < a :: b + s.large[b] * PG_SIZE <= a)
  }

  /** A page of the heap lies wholly outside a span that does not start at or hold its base. */
  lemma PageOutside(a: int, k: nat, b: int)
    requires IsPage(a) && IsPage(b) && (b < a || b >= a + k * PG_SIZE)
    ensures b + PG_SIZE <= a || b >= a + k * PG_SIZE
  {
    if b < a { PagesApart(b, a); }
  }

  /** Whatever happens inside fresh pages, memory still holds the books. */
  lemma SpanFrame(m: Words, n: Words, base: int, s: Slab, a: int, k: nat, but: set<int>)
    requires DescsFit(base) && Shape(s) && Placed(s) && InMemory(m, base, s, but) && FreshSpan(s, a, k)
    requires SameBut(m, n, a, k * PG_SIZE)
    ensures InMemory(n, base, s, but)
  {
    forall c, x | IsClass(c) && x in s.free[c] ensures n(x) == m(x) && n(x + 4) == m(x + 4) {
      BlockFacts(s, c, x);
      PageOutside(a, k, PageOf(x));
    }
    forall b | (b in s.arenas && b !in but) || b in s.large
      ensures n(b) == m(b) && n(b + 4) == m(b + 4) && n(b + 8) == m(b + 8)
    {
      PageOutside(a, k, b);
    }
    SkeletonFrame(m, n, base, s, but);
  }

  function WithArena(s: Slab, a: int, c: int): Slab { s.(arenas := s.arenas[a := c]) }

  /** A fresh page holds no block, free or live. */
  lemma FreshIsEmpty(s: Slab, a: int, k: nat)
    requires Shape(s) && Placed(s) && Accounted(s) && FreshSpan(s, a, k)
    ensures NoLiveIn(s, a)
    ensures forall d, x | IsClass(d) && x in s.free[d] :: PageOf(x) != a
  {
    hide PageOf, Blocks, IsPage, BlockSize;
    forall x | x in s.live ensures PageOf(x) != a {
      assert SmallLive(s, x) || LargeLive(s, x);
      if LargeLive(s, x) { PageBase(x - ARENA_HDR, x); }
    }
    forall d, x | IsClass(d) && x in s.free[d] ensures PageOf(x) != a {
      assert BlockOf(s, d, x);
    }
  }

  lemma ArenaShape(s: Slab, a: int, c: int)
    requires Shape(s) && IsClass(c) && FreshSpan(s, a, 1)
    ensures Shape(WithArena(s, a, c))
    ensures forall b | b in s.arenas :: FreeOf(WithArena(s, a, c), b) == FreeOf(s, b)
  {}

  lemma ArenaAccounted(s: Slab, a: int, c: int)
    requires Shape(s) && Accounted(s) && IsClass(c) && FreshSpan(s, a, 1)
    ensures Accounted(WithArena(s, a, c))
  {
    var t := WithArena(s, a, c);
    forall x | x in t.live ensures SmallLive(t, x) || LargeLive(t, x) {
      assert SmallLive(s, x) || LargeLive(s, x);
    }
  }

  /** A fresh page becomes an arena with open books and no block free or live. */
  lemma ArenaBooks(s: Slab, a: int, c: int)
    requires Books(s, {}) && IsClass(c) && FreshSpan(s, a, 1)
    ensures Books(WithArena(s, a, c), {a})
  {
    var t := WithArena(s, a, c);
    ArenaShape(s, a, c);
    ArenaAccounted(s, a, c);
    forall d, x | IsClass(d) && x in t.free[d] ensures BlockOf(t, d, x) {
      assert BlockOf(s, d, x);
    }
    forall b, x | b in t.arenas && b !in {a} && x in Blocks(b, t.arenas[b])
      ensures x in t.free[t.arenas[b]] || x in t.live
    {
      assert b in s.arenas && b !in {};
    }
  }

  lemma ArenaMemory(m: Words, base: int, s: Slab, a: int, c: int)
    requires Shape(s) && InMemory(m, base, s, {}) && IsClass(c) && FreshSpan(s, a, 1)
    ensures Shape(WithArena(s, a, c)) && InMemory(m, base, WithArena(s, a, c), {a})
  {
    var t := WithArena(s, a, c);
    forall b | b in t.arenas && b !in {a} ensures Header(m, base, b, t.arenas[b], |FreeOf(t, b)|) {
      assert Header(m, base, b, s.arenas[b], |FreeOf(s, b)|);
      assert FreeOf(t, b) == FreeOf(s, b);
    }
  }

  // ----- large allocations -----

  function WithLarge(s: Slab, a: int, k: nat, size: nat): Slab {
    s.(large := s.large[a := k], live := s.live[a + ARENA_HDR := size])
  }

  lemma LargeAccounted(s: Slab, a: int, k: nat, size: nat)
    requires Shape(s) && Accounted(s) && FreshSpan(s, a, k) && size + ARENA_HDR <= k * PG_SIZE
    ensures Shape(WithLarge(s, a, k, size)) && Accounted(WithLarge(s, a, k, size))
  {
    hide Blocks, BlockSize, IsPage, PageOf;
    var t := WithLarge(s, a, k, size);
    PageBase(a, a + ARENA_HDR);
    forall x | x in t.live ensures SmallLive(t, x) || LargeLive(t, x) {
      if x != a + ARENA_HDR { assert SmallLive(s, x) || LargeLive(s, x); }
    }
  }

  lemma LargeBooks(s: Slab, a: int, k: nat, size: nat)
    requires Books(s, {}) && FreshSpan(s, a, k) && size + ARENA_HDR <= k * PG_SIZE
    ensures Books(WithLarge(s, a, k, size), {}) && a + ARENA_HDR !in s.live
    ensures forall b | b in s.arenas :: FreeOf(WithLarge(s, a, k, size), b) == FreeOf(s, b)
  {
    var t := WithLarge(s, a, k, size);
    PageBase(a, a + ARENA_HDR);
    FreshIsEmpty(s, a, k);
    LargeAccounted(s, a, k, size);
    forall c, x | IsClass(c) && x in t.free[c] ensures BlockOf(t, c, x) {
      assert BlockOf(s, c, x);
    }
    forall b, x | b in t.arenas && b !in {} && x in Blocks(b, t.arenas[b])
      ensures x in t.free[t.arenas[b]] || x in t.live
    {
      assert x in s.free[s.arenas[b]] || x in s.live;
    }
  }

  lemma LargeMemory(m: Words, base: int, s: Slab, a: int, k: nat, size: nat)
    requires Shape(s) && InMemory(m, base, s, {}) && FreshSpan(s, a, k) && LargeHeader(m, a, k)
    requires Shape(WithLarge(s, a, k, size))
    ensures InMemory(m, base, WithLarge(s, a, k, size), {})
  {
    var t := WithLarge(s, a, k, size);
    forall b | b in t.arenas && b !in {} ensures Header(m, base, b, t.arenas[b], |FreeOf(t, b)|) {
      assert Header(m, base, b, s.arenas[b], |FreeOf(s, b)|);
      assert FreeOf(t, b) == FreeOf(s, b);
    }
  }

  function WithoutLarge(s: Slab, a: int): Slab {
    s.(large := s.large - {a}, live := s.live - {a + ARENA_HDR})
  }

  lemma UnlargeShape(s: Slab, a: int)
    requires Shape(s)
    ensures Shape(WithoutLarge(s, a))
  {}

  lemma UnlargeAccounted(s: Slab, a: int)
    requires Shape(s) && Accounted(s) && a in s.large
    ensures Accounted(WithoutLarge(s, a))
  {
    hide PageOf, Blocks, IsPage, BlockSize;
    var t := WithoutLarge(s, a);
    forall x | x in t.live ensures SmallLive(t, x) || LargeLive(t, x) {
      assert SmallLive(s, x) || LargeLive(s, x);
    }
  }

  lemma UnlargeComplete(s: Slab, a: int)
    requires Shape(s) && Complete(s, {}) && a in s.large
    ensures Complete(WithoutLarge(s, a), {})
  {
    var t := WithoutLarge(s, a);
    PageBase(a, a + ARENA_HDR);
    forall b, x | b in t.arenas && b !in {} && x in Blocks(b, t.arenas[b])
      ensures x in t.free[t.arenas[b]] || x in t.live
    {
      assert x in s.free[s.arenas[b]] || x in s.live;
      OwnPageOnly(s, b, s.arenas[b], x);
    }
  }

  lemma UnlargeBooks(s: Slab, a: int)
    requires Books(s, {}) && a in s.large
    ensures Books(WithoutLarge(s, a), {})
    ensures forall b | b in s.arenas :: FreeOf(WithoutLarge(s, a), b) == FreeOf(s, b)
  {
    UnlargeShape(s, a);
    UnlargeAccounted(s, a);
    UnlargeComplete(s, a);
    forall c, x | IsClass(c) && x in s.free[c] ensures BlockOf(WithoutLarge(s, a), c, x) {
      assert BlockOf(s, c, x);
    }
  }

  lemma UnlargeMemory(m: Words, base: int, s: Slab, a: int)
    requires Shape(s) && InMemory(m, base, s, {}) && a in s.large
    ensures InMemory(m, base, WithoutLarge(s, a), {})
  {
    var t := WithoutLarge(s, a);
    forall b | b in t.arenas && b !in {} ensures Header(m, base, b, t.arenas[b], |FreeOf(t, b)|) {
      assert Header(m, base, b, s.arenas[b], |FreeOf(s, b)|);
      assert FreeOf(t, b) == FreeOf(s, b);
    }
  }
}
