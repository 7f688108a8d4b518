/** The page layer of memory.c: a virtual pool, a frame pool and the page tables that
    wire one to the other. */
module Pages {
  import opened Words
  import opened BitRuns
  import opened BitmapAllocator
  import opened Paging
  import opened Boot

  /** Page i of the virtual pool, frame j of the physical one. */
  function PoolAddr(start: int, i: int): int { start + i * PG_SIZE }

  /** n pages of a virtual pool, inside the kernel's gigabyte and below the recursive window. */
  ghost predicate VirtualPool(vStart: int, n: nat) {
    vStart % PG_SIZE == 0 && 0xC000_0000 <= vStart && vStart + n * PG_SIZE <= WINDOW
  }

  /** How many of the pool's n pages lie below the recursive window. */
  function Reach(vStart: int, n: nat): (k: nat)
    ensures k <= n
    ensures vStart % PG_SIZE == 0 && 0xC000_0000 <= vStart <= WINDOW ==> VirtualPool(vStart, k)
    ensures vStart % PG_SIZE == 0 && k < n ==> PoolAddr(vStart, k) >= WINDOW
  {
    if vStart + n * PG_SIZE <= WINDOW then n
    else if vStart <= WINDOW then (WINDOW - vStart) / PG_SIZE
    else 0
  }

  /** How the page tables translate each page of the pool. */
  function PoolView(m: Words, vStart: int, n: nat): (ts: seq<Translation>)
    ensures |ts| == n
  {
    if n == 0 then [] else PoolView(m, vStart, n - 1) + [Walk(m, PAGE_DIR, PoolAddr(vStart, n - 1))]
  }

  lemma {:induction false} PoolViewAt(m: Words, vStart: int, n: nat, i: nat)
    requires i < n
    ensures PoolView(m, vStart, n)[i] == Walk(m, PAGE_DIR, PoolAddr(vStart, i))
  {
    if i < n - 1 {
      PoolViewAt(m, vStart, n - 1, i);
    }
  }

  /** Exactly the pages in frameOf are mapped, each to its frame. */
  ghost predicate Translates(ts: seq<Translation>, pStart: int, frameOf: map<int, int>) {
    && (forall i | i in frameOf :: 0 <= i < |ts|)
    && (forall i | 0 <= i < |ts| ::
          ts[i] == if i in frameOf then Mapped(PoolAddr(pStart, frameOf[i])) else Fault)
  }

  /** frameOf and pageOf are inverse bijections between pages with their virtual bit set
      and the set bits of the frame bitmap. */
  ghost predicate OneToOne(vb: seq<bool>, pb: seq<bool>, frameOf: map<int, int>, pageOf: map<int, int>) {
    && (forall i | i in frameOf :: 0 <= i < |vb| && vb[i] && frameOf[i] in pageOf && pageOf[frameOf[i]] == i)
    && (forall j | j in pageOf :: 0 <= j < |pb| && pageOf[j] in frameOf && frameOf[pageOf[j]] == j)
    && (forall j | 0 <= j < |pb| :: pb[j] <==> j in pageOf)
  }

  lemma PoolPage(vStart: int, n: nat, i: int)
    requires VirtualPool(vStart, n) && 0 <= i < n
    ensures 0xC000_0000 <= PoolAddr(vStart, i) < WINDOW
    ensures PoolAddr(vStart, i) % PG_SIZE == 0 && PageOf(PoolAddr(vStart, i)) == PoolAddr(vStart, i)
  {}

  /** An address's entry is its page's entry. */
  lemma EntryOfPage(m: Words, cr3: int, v: int)
    ensures PteAddr(m, cr3, v) == PteAddr(m, cr3, PageOf(v)) && PdeIdx(v) == PdeIdx(PageOf(v))
  {
    PageAligned(v);
    assert PageOf(PageOf(v)) == PageOf(v);
    PageIffIndices(v, PageOf(v));
  }

  lemma DirectoryKept(m: Words, v: int, entry: int)
    requires BootDirectory(m) && 0xC000_0000 <= v < WINDOW
    ensures BootDirectory(Store(m, PteAddr(m, PAGE_DIR, v), entry))
    ensures PteAddr(m, PAGE_DIR, v) < TABLES_END
  {
    DirectoryReady(m);
    TableWordsBelow(m, PAGE_DIR, TABLES_END, v);
    forall i | 0 <= i <= SELF_SLOT ensures PteAddr(m, PAGE_DIR, v) != PAGE_DIR + i * 4 {
      EntryOutsideDirectory(m, PAGE_DIR, v, i * 0x40_0000);
    }
  }

  lemma PoolPair(vStart: int, n: nat, i: int, k: int)
    requires VirtualPool(vStart, n) && 0 <= i < n && 0 <= k < n
    ensures PageOf(PoolAddr(vStart, k)) == PoolAddr(vStart, i) <==> k == i
    ensures PageOf(PoolAddr(vStart, k)) != LowTwin(PoolAddr(vStart, i))
  {}

  lemma WalkAfterAdd(m: Words, vStart: int, n: nat, v: int, i: int, pa: int, k: int)
    requires VirtualPool(vStart, n) && BootDirectory(m) && pa % PG_SIZE == 0
    requires 0 <= i < n && 0 <= k < n && PageOf(v) == PoolAddr(vStart, i)
    ensures Walk(AddWords(m, PAGE_DIR, v, pa), PAGE_DIR, PoolAddr(vStart, k)) ==
            if k == i then Mapped(pa) else Walk(m, PAGE_DIR, PoolAddr(vStart, k))
  {
    hide Walk, PteAddr, PdeIdx, PteIdx, BootDirectory, WithFlags, PageOf;
    EntryOfPage(m, PAGE_DIR, v);
    PoolPage(vStart, n, i);
    PoolPage(vStart, n, k);
    PoolPair(vStart, n, i, k);
    HeapMapExact(m, PageOf(v), pa, PoolAddr(vStart, k));
  }

  lemma WalkAfterRemove(m: Words, vStart: int, n: nat, v: int, i: int, k: int)
    requires VirtualPool(vStart, n) && BootDirectory(m)
    requires 0 <= i < n && 0 <= k < n && PageOf(v) == PoolAddr(vStart, i)
    ensures Walk(RemoveEntry(m, PAGE_DIR, v), PAGE_DIR, PoolAddr(vStart, k)) ==
            if k == i then Fault else Walk(m, PAGE_DIR, PoolAddr(vStart, k))
  {
    hide Walk, PteAddr, PdeIdx, PteIdx, BootDirectory, PageOf;
    EntryOfPage(m, PAGE_DIR, v);
    PoolPage(vStart, n, i);
    PoolPage(vStart, n, k);
    PoolPair(vStart, n, i, k);
    HeapUnmapExact(m, PageOf(v), PoolAddr(vStart, k));
  }

  /** page_table_add on pool page i changes entry i of the view only. */
  lemma ViewAfterAdd(m: Words, vStart: int, n: nat, v: int, i: int, pa: int)
    requires VirtualPool(vStart, n) && BootDirectory(m) && pa % PG_SIZE == 0
    requires 0 <= i < n && PageOf(v) == PoolAddr(vStart, i)
    ensures PoolView(AddWords(m, PAGE_DIR, v, pa), vStart, n) == PoolView(m, vStart, n)[i := Mapped(pa)]
  {
    forall k | 0 <= k < n
      ensures PoolView(AddWords(m, PAGE_DIR, v, pa), vStart, n)[k] == PoolView(m, vStart, n)[i := Mapped(pa)][k]
    {
      WalkAfterAdd(m, vStart, n, v, i, pa, k);
      PoolViewAt(m, vStart, n, k);
      PoolViewAt(AddWords(m, PAGE_DIR, v, pa), vStart, n, k);
    }
  }

  /** page_table_remove on pool page i changes entry i of the view only. */
  lemma ViewAfterRemove(m: Words, vStart: int, n: nat, v: int, i: int)
    requires VirtualPool(vStart, n) && BootDirectory(m)
    requires 0 <= i < n && PageOf(v) == PoolAddr(vStart, i)
    ensures PoolView(RemoveEntry(m, PAGE_DIR, v), vStart, n) == PoolView(m, vStart, n)[i := Fault]
  {
    forall k | 0 <= k < n
      ensures PoolView(RemoveEntry(m, PAGE_DIR, v), vStart, n)[k] == PoolView(m, vStart, n)[i := Fault][k]
    {
      WalkAfterRemove(m, vStart, n, v, i, k);
      PoolViewAt(m, vStart, n, k);
      PoolViewAt(RemoveEntry(m, PAGE_DIR, v), vStart, n, k);
    }
  }

  // ----- one page of the pool gains or loses a frame -----

  lemma MapOne(ts: seq<Translation>, pStart: int, vb: seq<bool>, pb: seq<bool>,
               frameOf: map<int, int>, pageOf: map<int, int>, i: int, j: int)
    requires |ts| <= |vb| && Translates(ts, pStart, frameOf) && OneToOne(vb, pb, frameOf, pageOf)
    requires 0 <= i < |ts| && vb[i] && i !in frameOf && 0 <= j < |pb| && !pb[j]
    ensures Translates(ts[i := Mapped(PoolAddr(pStart, j))], pStart, frameOf[i := j])
    ensures OneToOne(vb, pb[j := true], frameOf[i := j], pageOf[j := i])
  {}

  lemma UnmapOne(ts: seq<Translation>, pStart: int, vb: seq<bool>, pb: seq<bool>,
                 frameOf: map<int, int>, pageOf: map<int, int>, i: int)
    requires |ts| <= |vb| && Translates(ts, pStart, frameOf) && OneToOne(vb, pb, frameOf, pageOf)
    requires i in frameOf
    ensures 0 <= i < |ts| && vb[i] && 0 <= frameOf[i] < |pb| && pb[frameOf[i]]
    ensures ts[i] == Mapped(PoolAddr(pStart, frameOf[i]))
    ensures Translates(ts[i := Fault], pStart, frameOf - {i})
    ensures OneToOne(vb, pb[frameOf[i] := false], frameOf - {i}, pageOf - {frameOf[i]})
  {}

  // ----- what a call does to the virtual bits and the mapped pages -----

  /** Pages [s, s + k). */
  function Span(s: int, k: nat): (r: set<int>)
    ensures forall i :: i in r <==> s <= i < s + k
  {
    if k == 0 then {} else Span(s, k - 1) + {s + k - 1}
  }

  /** c free virtual bits from s on became used, and the first k of those pages became mapped. */
  ghost predicate PagesTaken(vb: seq<bool>, f: map<int, int>, vb': seq<bool>, f': map<int, int>, s: int, c: nat, k: nat) {
    && RunFree(vb, s, c) && k <= c && vb' == Marked(vb, s, c, true)
    && f'.Keys == f.Keys + Span(s, k) && f'.Keys * f.Keys == f.Keys && forall i | i in f :: f'[i] == f[i]
  }

  /** A fixed request that met a used page: the free pages before it stay marked. */
  ghost predicate Refused(vb: seq<bool>, vb': seq<bool>, s: int, cnt: nat) {
    exists c: nat :: c < cnt && RunFree(vb, s, c) && s + c < |vb| && vb[s + c] && vb' == Marked(vb, s, c, true)
  }

  lemma NothingMapped(vb: seq<bool>, f: map<int, int>, vb': seq<bool>, s: int, cnt: nat)
    requires vb' == vb || Refused(vb, vb', s, cnt)
    ensures exists s', c: nat, k: nat :: PagesTaken(vb, f, vb', f, s', c, k)
  {
    if vb' == vb {
      assert vb == Marked(vb, 0, 0, true);
      assert PagesTaken(vb, f, vb', f, 0, 0, 0);
    } else {
      var c: nat :| c < cnt && RunFree(vb, s, c) && s + c < |vb| && vb[s + c] && vb' == Marked(vb, s, c, true);
      assert PagesTaken(vb, f, vb', f, s, c, 0);
    }
  }

  /** k mapped pages from s on became unmapped and their virtual bits free. */
  ghost predicate PagesReturned(vb: seq<bool>, f: map<int, int>, vb': seq<bool>, f': map<int, int>, s: int, k: nat) {
    && 0 <= s && s + k <= |vb| && Span(s, k) <= f.Keys
    && vb' == Marked(vb, s, k, false) && f' == f - Span(s, k)
  }

  /** A frame is in use exactly when some page is mapped to it. */
  lemma FrameUsedIff(vb: seq<bool>, pb: seq<bool>, f: map<int, int>, p: map<int, int>, j: int)
    requires OneToOne(vb, pb, f, p) && 0 <= j < |pb|
    ensures pb[j] <==> exists i :: i in f && f[i] == j
  {
    if pb[j] {
      var i := p[j];
      assert i in f && f[i] == j;
    }
  }

  /** The frame bitmap is determined by which pages are mapped where. */
  lemma FramesDetermined(vb: seq<bool>, pb: seq<bool>, vb': seq<bool>, pb': seq<bool>, f: map<int, int>,
                         p: map<int, int>, p': map<int, int>)
    requires |pb| == |pb'| && OneToOne(vb, pb, f, p) && OneToOne(vb', pb', f, p')
    ensures pb == pb'
  {
    forall j | 0 <= j < |pb| ensures pb[j] == pb'[j] {
      FrameUsedIff(vb, pb, f, p, j);
      FrameUsedIff(vb', pb', f, p', j);
    }
  }

  /** bitmap_acquire's answer. */
  ghost predicate Answers(vb: seq<bool>, cnt: nat, r: int) { if cnt == 0 then IsZeroFit(vb, r) else IsFirstFit(vb, cnt, r) }

  /** The run that bitmap_acquire picks for cnt pages, if any, ends by limit; for no page, the page it names lies
      below it. */
  ghost predicate FitsBelow(vb: seq<bool>, cnt: nat, limit: nat) {
    forall s | s != -1 && Answers(vb, cnt, s) :: s + (if cnt == 0 then 1 else cnt) <= limit
  }

  /** No virtual bit from mark on is set. */
  ghost predicate FreeFrom(vb: seq<bool>, mark: nat) { forall i | mark <= i < |vb| :: !vb[i] }

  /** The highest page in use moved up by k pages at most. */
  ghost predicate Rises(vb: seq<bool>, vb': seq<bool>, k: nat) {
    |vb'| == |vb| && forall mark: nat | FreeFrom(vb, mark) :: FreeFrom(vb', mark + k)
  }

  lemma RisesNot(vb: seq<bool>, k: nat)
    ensures Rises(vb, vb, k)
  {}

  lemma RisesFit(vb: seq<bool>, k: nat, s: nat)
    requires IsFirstFit(vb, k, s)
    ensures Rises(vb, Marked(vb, s, k, true), k)
  {
    forall mark: nat | FreeFrom(vb, mark) ensures FreeFrom(Marked(vb, s, k, true), mark + k) {
      assert mark + k <= |vb| ==> RunFree(vb, mark, k);
    }
  }

  lemma RisesAnswer(vb: seq<bool>, vb': seq<bool>, k: nat, s: int)
    requires Answers(vb, k, s) && (s != -1 ==> RunFree(vb, s, k))
    requires vb' == if s == -1 then vb else Marked(vb, s, k, true)
    ensures Rises(vb, vb', k)
  {
    if s == -1 || k == 0 {
      assert vb' == vb;
      RisesNot(vb, k);
    } else {
      RisesFit(vb, k, s);
    }
  }

  lemma RisesCleared(vb: seq<bool>, s: nat, k: nat)
    requires s + k <= |vb|
    ensures Rises(vb, Marked(vb, s, k, false), 0)
  {}

  /** Above everything in use there is room below the limit. */
  lemma RoomFits(vb: seq<bool>, mark: nat, k: nat, limit: nat)
    requires FreeFrom(vb, mark) && mark + k <= limit <= |vb| && k >= 1
    ensures FitsBelow(vb, k, limit)
  {
    assert RunFree(vb, mark, k);
  }

  /** n numbers below n. */
  lemma {:induction false} Pigeons(js: set<int>, p: map<int, int>, n: nat)
    requires js <= p.Keys && (forall j | j in js :: 0 <= p[j] < n) && forall j, k | j in js && k in js && p[j] == p[k] :: j == k
    ensures |js| <= n
    decreases n
  {
    if js != {} {
      assert (forall k: int :: k !in js) ==> js == {};
      var k :| k in js;
      assert 0 <= p[k] < n;
      if exists j :: j in js && p[j] == n - 1 {
        var j :| j in js && p[j] == n - 1;
        Pigeons(js - {j}, p, n - 1);
      } else {
        Pigeons(js, p, n - 1);
      }
    }
  }

  /** A page takes one frame: with the virtual bits clear from mark on at most mark frames are taken. */
  lemma FramesLeft(vb: seq<bool>, pb: seq<bool>, f: map<int, int>, p: map<int, int>, mark: nat)
    requires OneToOne(vb, pb, f, p) && FreeFrom(vb, mark)
    ensures FreeCount(pb) + mark >= |pb|
  {
    FreeCountUsed(pb);
    forall j | j in Used(pb) ensures j in p && 0 <= p[j] < mark {
      assert vb[p[j]];
    }
    Pigeons(Used(pb), p, mark);
  }

  /** A first-fit search has one answer. */
  lemma OneFit(vb: seq<bool>, cnt: nat, r: int, limit: nat)
    requires cnt >= 1 && IsFirstFit(vb, cnt, r)
    ensures FitsBelow(vb, cnt, limit) <==> r == -1 || r + cnt <= limit
  {
    assert Answers(vb, cnt, r);
    assert forall s | Answers(vb, cnt, s) :: s == r;
  }

  /** Pages mapped before and after have the frames they had. */
  ghost predicate SameFrames(f: map<int, int>, f': map<int, int>) {
    forall i | i in f && i in f' :: f'[i] == f[i]
  }

  lemma FramesSelf(f: map<int, int>)
    ensures SameFrames(f, f)
  {}

  lemma TakenFrames(vb: seq<bool>, f: map<int, int>, vb': seq<bool>, f': map<int, int>)
    requires exists s, c: nat, k: nat :: PagesTaken(vb, f, vb', f', s, c, k)
    ensures SameFrames(f, f')
  {}

  lemma ReturnedFrames(vb: seq<bool>, f: map<int, int>, vb': seq<bool>, f': map<int, int>, s: int, k: nat)
    requires PagesReturned(vb, f, vb', f', s, k)
    ensures SameFrames(f, f')
  {}

  // ----- the state of the page layer, on values -----

  /** The index of a fixed address in 32-bit arithmetic: addresses below the pool wrap. */
  function RawIndex(vStart: int, v: int): (i: int)
    ensures i >= 0
  {
    (v - vStart) % ADDR_SPACE / PG_SIZE
  }

  /** The page holding v, by its index in the pool. */
  function IndexIn(vStart: int, v: int): int { (v - vStart) / PG_SIZE }

  lemma IndexOfPage(vStart: int, v: int, i: nat)
    requires vStart % PG_SIZE == 0 && vStart <= v
    ensures IndexIn(vStart, v + i * PG_SIZE) == IndexIn(vStart, v) + i && 0 <= IndexIn(vStart, v)
    ensures PageOf(v + i * PG_SIZE) == PoolAddr(vStart, IndexIn(vStart, v) + i)
  {}

  /** A fixed address inside the pool has the index of its page. */
  lemma FixedIndex(vStart: int, v: int, limit: nat)
    requires VirtualPool(vStart, limit) && vStart <= v && IndexIn(vStart, v) <= limit
    ensures 0 < v < ADDR_SPACE && RawIndex(vStart, v) == IndexIn(vStart, v)
  {}

  /** A run below the limit has its addresses there. */
  lemma AnswerBelow(vb: seq<bool>, vStart: int, cnt: nat, idx: int, limit: nat)
    requires VirtualPool(vStart, limit) && FitsBelow(vb, cnt, limit)
    requires Answers(vb, cnt, idx) && idx != -1 && RunFree(vb, idx, cnt)
    ensures idx + cnt <= limit && vStart <= PoolAddr(vStart, idx) && PoolAddr(vStart, idx) != NULL
    ensures PoolAddr(vStart, idx) % ADDR_SPACE == PoolAddr(vStart, idx) && IndexIn(vStart, PoolAddr(vStart, idx)) == idx
  {
    hide Answers;
  }

  lemma AnswerFacts(vb: seq<bool>, cnt: nat, idx: int)
    requires Answers(vb, cnt, idx)
    ensures cnt >= 1 ==> IsFirstFit(vb, cnt, idx) && (idx != -1 <==> exists s :: RunFree(vb, s, cnt))
    ensures cnt == 0 ==> IsZeroFit(vb, idx)
  {}

  /** Virtual bits, frame bits, page tables and the two maps agree. Pages of the pool at or above the
      recursive window, if the bitmap has any, are never mapped. */
  ghost predicate Consistent(vb: seq<bool>, pb: seq<bool>, m: Words, vStart: int, pStart: int,
                             f: map<int, int>, p: map<int, int>) {
    && VirtualPool(vStart, Reach(vStart, |vb|)) && pStart % PG_SIZE == 0 && pStart >= TABLES_END
    && BootDirectory(m) && Translates(PoolView(m, vStart, Reach(vStart, |vb|)), pStart, f)
    && OneToOne(vb, pb, f, p)
  }

  lemma PoolBelowWindow(vb: seq<bool>, pb: seq<bool>, m: Words, vStart: int, pStart: int, f: map<int, int>, p: map<int, int>)
    requires Consistent(vb, pb, m, vStart, pStart, f, p)
    ensures VirtualPool(vStart, Reach(vStart, |vb|)) && Reach(vStart, |vb|) <= |vb|
  {}

  lemma PoolAligned(vb: seq<bool>, pb: seq<bool>, m: Words, vStart: int, pStart: int, f: map<int, int>, p: map<int, int>)
    requires Consistent(vb, pb, m, vStart, pStart, f, p)
    ensures vStart % PG_SIZE == 0 && pStart % PG_SIZE == 0 && pStart >= TABLES_END && OneToOne(vb, pb, f, p)
  {}

  /** Every mapped page lies below the window. */
  lemma MappedBelow(vb: seq<bool>, pb: seq<bool>, m: Words, vStart: int, pStart: int, f: map<int, int>, p: map<int, int>, i: int)
    requires Consistent(vb, pb, m, vStart, pStart, f, p) && i in f
    ensures 0 <= i < Reach(vStart, |vb|)
  {
    hide BootDirectory, OneToOne, Reach;
  }

  lemma TakenFree(vb: seq<bool>, f: map<int, int>, vb': seq<bool>, f': map<int, int>, s: int, c: nat, k: nat)
    requires PagesTaken(vb, f, vb', f', s, c, k)
    ensures RunFree(vb, s, c)
  {}

  lemma ConsistentMark(vb: seq<bool>, vb': seq<bool>, pb: seq<bool>, m: Words, vStart: int, pStart: int,
                       f: map<int, int>, p: map<int, int>)
    requires Consistent(vb, pb, m, vStart, pStart, f, p)
    requires |vb'| == |vb| && forall i | 0 <= i < |vb| && i in f :: vb'[i]
    ensures Consistent(vb', pb, m, vStart, pStart, f, p)
  {}

  lemma PageReachable(m: Words, v: int)
    requires BootDirectory(m) && 0xC000_0000 <= PageOf(v) < WINDOW && PageOf(v) % PG_SIZE == 0
    ensures Reachable(m, v)
  {
    DirectoryReady(m);
  }

  /** The entry of a mapped page holds its frame. */
  lemma MappedFrame(m: Words, v: int, pa: int)
    requires Walk(m, PAGE_DIR, v) == Mapped(pa) && v % PG_SIZE == 0
    ensures Frame(m(PteAddr(m, PAGE_DIR, v))) == pa
  {}

  lemma ConsistentAdd(vb: seq<bool>, pb: seq<bool>, m: Words, vStart: int, pStart: int,
                      f: map<int, int>, p: map<int, int>, v: int, i: int, j: int)
    requires Consistent(vb, pb, m, vStart, pStart, f, p)
    requires 0 <= i < Reach(vStart, |vb|) && vb[i] && i !in f && PageOf(v) == PoolAddr(vStart, i)
    requires 0 <= j < |pb| && !pb[j]
    ensures Consistent(vb, pb[j := true], AddWords(m, PAGE_DIR, v, PoolAddr(pStart, j)), vStart, pStart, f[i := j], p[j := i])
    ensures Reachable(m, v) && PteAddr(m, PAGE_DIR, v) < TABLES_END
  {
    hide Walk, PageOf, PteAddr, PdeIdx, PteIdx, Present, Frame, SelfMapped, HasTable, BootDirectory, Reach, Reachable, PoolView, OneToOne,
         Translates, WithFlags;
    EntryOfPage(m, PAGE_DIR, v);
    var n := Reach(vStart, |vb|);
    PoolPage(vStart, n, i);
    PageReachable(m, v);
    ViewAfterAdd(m, vStart, n, v, i, PoolAddr(pStart, j));
    DirectoryKept(m, PageOf(v), WithFlags(PoolAddr(pStart, j)));
    MapOne(PoolView(m, vStart, n), pStart, vb, pb, f, p, i, j);
  }

  lemma ConsistentRemove(vb: seq<bool>, pb: seq<bool>, m: Words, vStart: int, pStart: int,
                         f: map<int, int>, p: map<int, int>, v: int, i: int)
    requires Consistent(vb, pb, m, vStart, pStart, f, p)
    requires i in f && PageOf(v) == PoolAddr(vStart, i)
    ensures 0 <= i < |vb| && vb[i] && 0 <= f[i] < |pb| && pb[f[i]]
    ensures Consistent(vb, pb[f[i] := false], RemoveEntry(m, PAGE_DIR, v), vStart, pStart, f - {i}, p - {f[i]})
    ensures Reachable(m, v) && PteAddr(m, PAGE_DIR, v) < TABLES_END
    ensures Frame(m(PteAddr(m, PAGE_DIR, v))) == PoolAddr(pStart, f[i])
  {
    hide PageOf, PteAddr, PdeIdx, PteIdx, SelfMapped, HasTable, BootDirectory, Reach, Reachable, PoolView, OneToOne;
    EntryOfPage(m, PAGE_DIR, v);
    var n := Reach(vStart, |vb|);
    PoolPage(vStart, n, i);
    PageReachable(m, v);
    ViewAfterRemove(m, vStart, n, v, i);
    DirectoryKept(m, PageOf(v), m(PteAddr(m, PAGE_DIR, v)) - m(PteAddr(m, PAGE_DIR, v)) % 2);
    UnmapOne(PoolView(m, vStart, n), pStart, vb, pb, f, p, i);
    PoolViewAt(m, vStart, n, i);
    MappedFrame(m, PoolAddr(vStart, i), PoolAddr(pStart, f[i]));
  }

  /** What pde_ptr and pte_ptr need to reach v's entries. */
  ghost predicate Reachable(m: Words, v: int) {
    SelfMapped(m, PAGE_DIR) && IsAddr(v) && HasTable(m, PAGE_DIR, v)
  }

  lemma TakenMore(vb: seq<bool>, f: map<int, int>, vb': seq<bool>, f': map<int, int>, s: int, c: nat, k: nat, j: int)
    requires PagesTaken(vb, f, vb', f', s, c, k) && k < c && s + k !in f'
    ensures PagesTaken(vb, f, vb', f'[s + k := j], s, c, k + 1)
  {}

  /** A free virtual bit belongs to no mapped page. */
  lemma TakenNext(vb: seq<bool>, pb: seq<bool>, f: map<int, int>, p: map<int, int>, vb': seq<bool>, f': map<int, int>,
                  s: int, c: nat, k: nat)
    requires OneToOne(vb, pb, f, p) && PagesTaken(vb, f, vb', f', s, c, k) && k < c
    ensures s + k !in f' && 0 <= s + k < |vb'| && vb'[s + k]
  {}

  class PageLayer {
    const vmap: Bitmap
    const vStart: int
    const pmap: Bitmap
    const pStart: int
    const mmu: Mmu
    ghost var frameOf: map<int, int>
    ghost var pageOf: map<int, int>

    /** Pools as pool_init leaves them: empty bitmaps, no heap page mapped, frames above the tables. */
    constructor (vmap: Bitmap, vStart: int, pmap: Bitmap, pStart: int, mmu: Mmu)
      requires vmap.Valid() && pmap.Valid() && vmap != pmap && vmap.bits != pmap.bits && mmu.cr3 == PAGE_DIR
      requires vStart % PG_SIZE == 0 && 0xC000_0000 <= vStart <= WINDOW
      requires pStart % PG_SIZE == 0 && pStart >= TABLES_END && BootDirectory(mmu.ram.w)
      requires Translates(PoolView(mmu.ram.w, vStart, Reach(vStart, |vmap.Bits()|)), pStart, map[])
      requires FreeCount(pmap.Bits()) == |pmap.Bits()|
      ensures Valid() && frameOf == map[]
      ensures this.vmap == vmap && this.vStart == vStart && this.pmap == pmap && this.pStart == pStart && this.mmu == mmu
    {
      this.vmap, this.vStart, this.pmap, this.pStart, this.mmu := vmap, vStart, pmap, pStart, mmu;
      frameOf, pageOf := map[], map[];
      new;
      FreeCountBound(pmap.Bits());
    }

    ghost predicate Shape()
      reads this, vmap, pmap, vmap.bits, pmap.bits
    {
      vmap.Valid() && pmap.Valid() && vmap != pmap && vmap.bits != pmap.bits && mmu.cr3 == PAGE_DIR
    }

    ghost predicate Valid()
      reads this, vmap, pmap, vmap.bits, pmap.bits, mmu.ram
    {
      Shape() && Consistent(vmap.Bits(), pmap.Bits(), mmu.ram.w, vStart, pStart, frameOf, pageOf)
    }

    /** Memory other than the page tables is as before. */
    twostate predicate DataKept()
      reads mmu.ram
    {
      forall a | a >= TABLES_END :: mmu.ram.w(a) == old(mmu.ram.w(a))
    }

    function Index(v: int): int { IndexIn(vStart, v) }

    /** The pool's pages below the recursive window. */
    ghost function Limit(): nat
      reads vmap
    {
      Reach(vStart, |vmap.Bits()|)
    }

    /** The cnt pages from vaddr on are pages of the pool below the recursive window. */
    ghost predicate InPool(vaddr: int, cnt: nat)
      reads vmap
    {
      vStart <= vaddr && Index(vaddr) + cnt <= Limit()
    }

    /** First fit takes no page of the recursive window. */
    ghost predicate Below(cnt: nat)
      reads vmap
    {
      FitsBelow(vmap.Bits(), cnt, Limit())
    }

    /** The request reaches no page of the recursive window; the source does not check. */
    ghost predicate Safe(vaddr: int, cnt: nat)
      reads vmap
    {
      if vaddr == NULL then Below(cnt) else InPool(vaddr, cnt)
    }

    /** A look before the call: would first fit stay below the window? */
    method StaysBelow(cnt: nat) returns (ok: bool)
      requires vmap.Valid() && cnt >= 1
      ensures ok <==> Below(cnt)
    {
      hide Reach;
      var total := vmap.len * 8;
      var first := vmap.FirstClear();
      ghost var vb := vmap.Bits();
      ScanStart(vb, cnt, first);
      if first == total {
        return true;
      }
      var free := first;
      if cnt > 1 {
        free := vmap.FindRun(first, cnt);
      }
      ok := free == -1 || free + cnt <= Reach(vStart, total);
      OneFit(vb, cnt, free, Limit());
    }

    /** vaddr_acquire with a null address: first fit, whose address is computed in 32 bits. */
    method VaddrAny(cnt: nat) returns (r: int, ghost idx: int)
      requires vmap.Valid()
      modifies vmap`used, vmap.bits
      ensures vmap.Valid() && Answers(old(vmap.Bits()), cnt, idx)
      ensures r == if idx == -1 then NULL else PoolAddr(vStart, idx) % ADDR_SPACE
      ensures idx != -1 ==> RunFree(old(vmap.Bits()), idx, cnt)
      ensures vmap.Bits() == if idx == -1 then old(vmap.Bits()) else Marked(old(vmap.Bits()), idx, cnt, true)
    {
      var free := vmap.Acquire(cnt);
      idx := free;
      if free == -1 {
        return NULL, idx;
      }
      r := (vStart + free * PG_SIZE) % ADDR_SPACE;
    }

    /** The index of a fixed address, as vaddr_acquire computes it, lies in the bitmap with all cnt pages. */
    predicate InBitmap(vaddr: int, cnt: nat)
      reads vmap
    {
      0 < vaddr < ADDR_SPACE && RawIndex(vStart, vaddr) + cnt <= vmap.len * 8
    }

    /** vaddr_acquire at a fixed address: all or nothing for the caller, but a refusal leaves the
        free pages before the first used one marked. */
    method VaddrFixed(vaddr: int, cnt: nat) returns (r: int)
      requires vmap.Valid() && InBitmap(vaddr, cnt)
      modifies vmap`used, vmap.bits
      ensures vmap.Valid()
      ensures r == if RunFree(old(vmap.Bits()), RawIndex(vStart, vaddr), cnt) then vaddr else NULL
      ensures r != NULL ==> vmap.Bits() == Marked(old(vmap.Bits()), RawIndex(vStart, vaddr), cnt, true)
      ensures r == NULL ==> Refused(old(vmap.Bits()), vmap.Bits(), RawIndex(vStart, vaddr), cnt)
    {
      hide RawIndex;
      ghost var was := vmap.Bits();
      var idx := RawIndex(vStart, vaddr);
      var c := 0;
      while c < cnt
        invariant c <= cnt && vmap.Valid() && RunFree(was, idx, c) && vmap.Bits() == Marked(was, idx, c, true)
      {
        var used := vmap.Check(idx + c);
        if used {
          UsedBitBlocks(was, idx, cnt, idx + c);
          return NULL;
        }
        vmap.Set(idx + c, true);
        c := c + 1;
      }
      r := vaddr;
    }

    /** vaddr_acquire; idx is the index of the run. */
    method VaddrAcquire(vaddr: int, cnt: nat) returns (r: int, ghost idx: int)
      requires vmap.Valid() && (vaddr != NULL ==> InBitmap(vaddr, cnt))
      modifies vmap`used, vmap.bits
      ensures vmap.Valid()
      ensures vaddr == NULL ==> Answers(old(vmap.Bits()), cnt, idx) && Rises(old(vmap.Bits()), vmap.Bits(), cnt)
      ensures vaddr == NULL ==> r == if idx == -1 then NULL else PoolAddr(vStart, idx) % ADDR_SPACE
      ensures vaddr != NULL ==> idx == if RunFree(old(vmap.Bits()), RawIndex(vStart, vaddr), cnt) then RawIndex(vStart, vaddr) else -1
      ensures vaddr != NULL ==> r == if idx == -1 then NULL else vaddr
      ensures idx != -1 ==> RunFree(old(vmap.Bits()), idx, cnt) && vmap.Bits() == Marked(old(vmap.Bits()), idx, cnt, true)
      ensures idx == -1 ==> if vaddr == NULL then vmap.Bits() == old(vmap.Bits())
                            else Refused(old(vmap.Bits()), vmap.Bits(), RawIndex(vStart, vaddr), cnt)
    {
      hide RawIndex, Answers;
      if vaddr == NULL {
        ghost var vb := vmap.Bits();
        r, idx := VaddrAny(cnt);
        RisesAnswer(vb, vmap.Bits(), cnt, idx);
      } else {
        r := VaddrFixed(vaddr, cnt);
        idx := if r == NULL then -1 else RawIndex(vStart, vaddr);
      }
    }

    /** The virtual pool can serve the request. */
    ghost predicate VirtualRoom(vb: seq<bool>, vaddr: int, cnt: nat) {
      if vaddr == NULL then exists s :: RunFree(vb, s, cnt) else RunFree(vb, Index(vaddr), cnt)
    }

    /** vaddr_release */
    method VaddrRelease(vaddr: int, cnt: nat)
      requires vmap.Valid() && vStart <= vaddr && RunUsed(vmap.Bits(), Index(vaddr), cnt)
      modifies vmap`used, vmap.bits
      ensures vmap.Valid() && vmap.Bits() == Marked(old(vmap.Bits()), Index(vaddr), cnt, false)
    {
      vmap.Release(Index(vaddr), cnt);
    }

    /** palloc: the lowest free frame, or NULL; j is its index. */
    method Palloc() returns (pa: int, ghost j: int)
      requires pmap.Valid() && pStart >= TABLES_END
      modifies pmap`used, pmap.bits
      ensures pmap.Valid()
      ensures pa == NULL <==> FreeCount(old(pmap.Bits())) == 0
      ensures pa == NULL ==> pmap.Bits() == old(pmap.Bits())
      ensures pa != NULL ==> pa == PoolAddr(pStart, j) && IsFirstFit(old(pmap.Bits()), 1, j)
      ensures pa != NULL ==> 0 <= j < |old(pmap.Bits())| && !old(pmap.Bits())[j] && pmap.Bits() == old(pmap.Bits())[j := true]
      ensures pa != NULL ==> FreeCount(old(pmap.Bits())) == FreeCount(pmap.Bits()) + 1
    {
      ghost var was := pmap.Bits();
      var idx := pmap.Acquire(1);
      j := idx;
      if idx == -1 {
        forall i | 0 <= i < |was| ensures was[i] {
          assert !RunFree(was, i, 1);
        }
        FreeCountFull(was);
        return NULL, j;
      }
      assert pmap.Bits() == was[idx := true];
      FreeCountFlip(was, idx);
      pa := pStart + idx * PG_SIZE;
    }

    /** pfree */
    method Pfree(pa: int, ghost j: nat)
      requires pmap.Valid() && PageOf(pa) == PoolAddr(pStart, j) && pStart % PG_SIZE == 0
      requires j < |pmap.Bits()| && pmap.Bits()[j]
      modifies pmap`used, pmap.bits
      ensures pmap.Valid() && pmap.Bits() == old(pmap.Bits())[j := false]
    {
      var idx := (pa - pStart) / PG_SIZE;
      assert idx == j;
      pmap.Release(idx, 1);
      assert pmap.Bits() == old(pmap.Bits())[j := false];
    }

    /** One turn of page_acquire's loop; false when there is no frame left. */
    method WireOne(v: int) returns (ok: bool, ghost j: int)
      requires Valid() && InPool(v, 1) && vmap.Bits()[Index(v)] && Index(v) !in frameOf
      modifies pmap`used, pmap.bits, mmu.ram, this`frameOf, this`pageOf
      ensures Valid() && DataKept()
      ensures ok <==> FreeCount(old(pmap.Bits())) > 0
      ensures !ok ==> frameOf == old(frameOf) && pmap.Bits() == old(pmap.Bits())
      ensures ok ==> frameOf == old(frameOf)[Index(v) := j]
      ensures ok ==> FreeCount(old(pmap.Bits())) == FreeCount(pmap.Bits()) + 1
    {
      hide Consistent, Walk, SelfMapped, HasTable, PteAddr, PdeAddr, Reach, PageOf, PoolAddr, IndexIn;
      ghost var pb := pmap.Bits();
      PoolAligned(vmap.Bits(), pb, mmu.ram.w, vStart, pStart, frameOf, pageOf);
      var pa;
      pa, j := Palloc();
      if pa == NULL {
        return false, j;
      }
      IndexOfPage(vStart, v, 0);
      ConsistentAdd(vmap.Bits(), pb, mmu.ram.w, vStart, pStart, frameOf, pageOf, v, Index(v), j);
      mmu.PageTableAdd(v, pa);
      pageOf := pageOf[j := Index(v)];
      frameOf := frameOf[Index(v) := j];
      ok := true;
    }

    /** The loop of page_acquire. */
    method WirePages(base: int, cnt: nat, ghost vb: seq<bool>) returns (r: int)
      requires Valid() && InPool(base, cnt) && OneToOne(vb, pmap.Bits(), frameOf, pageOf)
      requires PagesTaken(vb, frameOf, vmap.Bits(), frameOf, Index(base), cnt, 0)
      modifies pmap`used, pmap.bits, mmu.ram, this`frameOf, this`pageOf
      ensures Valid() && DataKept()
      ensures r == if FreeCount(old(pmap.Bits())) >= cnt then base else NULL
      ensures r != NULL ==> PagesTaken(vb, old(frameOf), vmap.Bits(), frameOf, Index(base), cnt, cnt)
      ensures FreeCount(old(pmap.Bits())) < cnt ==> FreeCount(pmap.Bits()) == 0
      ensures FreeCount(old(pmap.Bits())) < cnt ==>
                PagesTaken(vb, old(frameOf), vmap.Bits(), frameOf, Index(base), cnt, FreeCount(old(pmap.Bits())))
      ensures cnt == 0 ==> pmap.Bits() == old(pmap.Bits()) && frameOf == old(frameOf)
    {
      hide Consistent, PagesTaken, IndexIn, PageOf, PoolAddr, Reach, OneToOne, FreeCount, PteAddr, PdeAddr, HasTable, SelfMapped;
      PoolAligned(vmap.Bits(), pmap.Bits(), mmu.ram.w, vStart, pStart, frameOf, pageOf);
      var v := base;
      var i := 0;
      while i < cnt
        invariant i <= cnt && v == base + i * PG_SIZE && Valid() && DataKept()
        invariant PagesTaken(vb, old(frameOf), vmap.Bits(), frameOf, Index(base), cnt, i)
        invariant FreeCount(pmap.Bits()) + i == FreeCount(old(pmap.Bits()))
        invariant i == 0 ==> pmap.Bits() == old(pmap.Bits()) && frameOf == old(frameOf)
      {
        IndexOfPage(vStart, base, i);
        TakenNext(vb, old(pmap.Bits()), old(frameOf), old(pageOf), vmap.Bits(), frameOf, Index(base), cnt, i);
        ghost var was := frameOf;
        var ok;
        ghost var j;
        ok, j := WireOne(v);
        if !ok {
          return NULL;
        }
        TakenMore(vb, old(frameOf), vmap.Bits(), was, Index(base), cnt, i, j);
        v := v + PG_SIZE;
        i := i + 1;
      }
      r := base;
    }

    /** What a page_acquire that failed leaves: with room among the virtual pages their bits marked and as many of
        them wired as there were frames; otherwise nothing, or at a fixed address the bits in front of the first
        used page. */
    twostate predicate GaveUp(vaddr: int, cnt: nat)
      reads this, vmap, pmap
    {
      var vb, fb, f := old(vmap.Bits()), old(pmap.Bits()), old(frameOf);
      if VirtualRoom(vb, vaddr, cnt) then
        && FreeCount(pmap.Bits()) == 0
        && exists s :: (if vaddr == NULL then IsFirstFit(vb, cnt, s) else s == Index(vaddr))
                       && PagesTaken(vb, f, vmap.Bits(), frameOf, s, cnt, FreeCount(fb))
      else
        && pmap.Bits() == fb && frameOf == f
        && if vaddr == NULL then vmap.Bits() == vb else Refused(vb, vmap.Bits(), Index(vaddr), cnt)
    }

    /** page_acquire. Failing half way leaves the virtual bits and the pages wired so far in place. A request
        for no page maps none, and names the page behind a used one, whoever's that is. */
    method PageAcquire(vaddr: int, cnt: nat) returns (r: int)
      requires Valid() && Safe(vaddr, cnt)
      modifies vmap`used, vmap.bits, pmap`used, pmap.bits, mmu.ram, this`frameOf, this`pageOf
      ensures Valid() && DataKept()
      ensures r != NULL ==> InPool(r, cnt) && PagesTaken(old(vmap.Bits()), old(frameOf), vmap.Bits(), frameOf, Index(r), cnt, cnt)
      ensures r != NULL && vaddr != NULL ==> r == vaddr
      ensures r != NULL && vaddr == NULL ==> r == PoolAddr(vStart, Index(r))
      ensures r != NULL && vaddr == NULL && cnt >= 1 ==> IsFirstFit(old(vmap.Bits()), cnt, Index(r))
      ensures r == NULL ==> exists s, c: nat, k: nat :: PagesTaken(old(vmap.Bits()), old(frameOf), vmap.Bits(), frameOf, s, c, k)
      ensures cnt >= 1 ==> (r != NULL <==> VirtualRoom(old(vmap.Bits()), vaddr, cnt) && FreeCount(old(pmap.Bits())) >= cnt)
      ensures r == NULL && cnt >= 1 ==> GaveUp(vaddr, cnt)
      ensures vaddr == NULL ==> Rises(old(vmap.Bits()), vmap.Bits(), cnt)
      ensures SameFrames(old(frameOf), frameOf)
      ensures vaddr == NULL && cnt == 0 ==> IsZeroFit(old(vmap.Bits()), if r == NULL then -1 else Index(r))
      ensures vaddr == NULL && cnt == 0 ==> vmap.Bits() == old(vmap.Bits()) && pmap.Bits() == old(pmap.Bits()) && frameOf == old(frameOf)
    {
      hide SameFrames, Rises, RawIndex, FitsBelow, Answers, IndexIn, PoolAddr, Reach, VirtualPool, IsZeroFit, Refused, FreeCount;
      ghost var vb, limit := vmap.Bits(), Limit();
      PoolBelowWindow(vb, pmap.Bits(), mmu.ram.w, vStart, pStart, frameOf, pageOf);
      if vaddr != NULL { FixedIndex(vStart, vaddr, limit); }
      var base;
      ghost var idx;
      base, idx := VaddrAcquire(vaddr, cnt);
      if vaddr == NULL {
        AnswerFacts(vb, cnt, idx);
        if idx != -1 { AnswerBelow(vb, vStart, cnt, idx, limit); }
      }
      if base == NULL {
        NothingMapped(vb, frameOf, vmap.Bits(), Index(vaddr), cnt);
        TakenFrames(vb, frameOf, vmap.Bits(), frameOf);
        MarkedKeeps(vb, vmap.Bits(), Index(vaddr), cnt);
        ConsistentMark(vb, vmap.Bits(), pmap.Bits(), mmu.ram.w, vStart, pStart, frameOf, pageOf);
        return NULL;
      }
      ConsistentMark(vb, vmap.Bits(), pmap.Bits(), mmu.ram.w, vStart, pStart, frameOf, pageOf);
      ghost var f := frameOf;
      r := WirePages(base, cnt, vb);
      TakenFrames(vb, f, vmap.Bits(), frameOf);
    }

    /** One turn of page_release's loop. */
    method UnwireOne(v: int)
      requires Valid() && InPool(v, 1) && Index(v) in frameOf
      modifies pmap`used, pmap.bits, mmu.ram, this`frameOf, this`pageOf
      ensures Valid() && DataKept() && frameOf == old(frameOf) - {Index(v)}
    {
      hide Consistent, Walk, SelfMapped, HasTable, PteAddr, PdeAddr, Reach, PageOf, PoolAddr, Frame, IndexIn;
      ghost var pb, i, j := pmap.Bits(), Index(v), frameOf[Index(v)];
      PoolAligned(vmap.Bits(), pb, mmu.ram.w, vStart, pStart, frameOf, pageOf);
      IndexOfPage(vStart, v, 0);
      ConsistentRemove(vmap.Bits(), pb, mmu.ram.w, vStart, pStart, frameOf, pageOf, v, i);
      var pa := mmu.AddrV2P(v);
      FrameOffset(PoolAddr(pStart, j), v, pStart, j);
      Pfree(pa, j);
      mmu.PageTableRemove(v);
      frameOf, pageOf := frameOf - {i}, pageOf - {j};
    }

    /** The loop of page_release. */
    method UnwirePages(vaddr: int, cnt: nat)
      requires Valid() && InPool(vaddr, cnt) && Span(Index(vaddr), cnt) <= frameOf.Keys
      modifies pmap`used, pmap.bits, mmu.ram, this`frameOf, this`pageOf
      ensures Valid() && DataKept() && frameOf == old(frameOf) - Span(Index(vaddr), cnt)
    {
      hide Consistent, IndexIn, PageOf, PoolAddr, Span;
      PoolAligned(vmap.Bits(), pmap.Bits(), mmu.ram.w, vStart, pStart, frameOf, pageOf);
      var v := vaddr;
      var i := 0;
      while i < cnt
        invariant i <= cnt && v == vaddr + i * PG_SIZE && Valid() && DataKept()
        invariant frameOf == old(frameOf) - Span(Index(vaddr), i)
      {
        IndexOfPage(vStart, vaddr, i);
        SpanNext(old(frameOf), Index(vaddr), i, cnt);
        UnwireOne(v);
        v := v + PG_SIZE;
        i := i + 1;
      }
    }

    /** page_release */
    method PageRelease(vaddr: int, cnt: nat)
      requires Valid() && InPool(vaddr, cnt) && Span(Index(vaddr), cnt) <= frameOf.Keys
      modifies vmap`used, vmap.bits, pmap`used, pmap.bits, mmu.ram, this`frameOf, this`pageOf
      ensures Valid() && DataKept()
      ensures PagesReturned(old(vmap.Bits()), old(frameOf), vmap.Bits(), frameOf, Index(vaddr), cnt)
      ensures Rises(old(vmap.Bits()), vmap.Bits(), 0) && SameFrames(old(frameOf), frameOf)
    {
      hide Rises, SameFrames;
      ghost var vb := vmap.Bits();
      IndexOfPage(vStart, vaddr, 0);
      SpanUsed(vb, pmap.Bits(), frameOf, pageOf, Index(vaddr), cnt);
      UnwirePages(vaddr, cnt);
      VaddrRelease(vaddr, cnt);
      RisesCleared(vb, Index(vaddr), cnt);
      ReturnedFrames(vb, old(frameOf), vmap.Bits(), frameOf, Index(vaddr), cnt);
      SpanCleared(vb, pmap.Bits(), frameOf, pageOf, old(frameOf), Index(vaddr), cnt);
      ConsistentMark(vb, vmap.Bits(), pmap.Bits(), mmu.ram.w, vStart, pStart, frameOf, pageOf);
    }

    /** A successful page_acquire followed by page_release restores both bitmaps and the mapped pages. */
    method AcquireRelease(vaddr: int, cnt: nat) returns (ok: bool)
      requires Valid() && cnt >= 1 && Safe(vaddr, cnt)
      modifies vmap`used, vmap.bits, pmap`used, pmap.bits, mmu.ram, this`frameOf, this`pageOf
      ensures Valid() && DataKept()
      ensures ok <==> VirtualRoom(old(vmap.Bits()), vaddr, cnt) && FreeCount(old(pmap.Bits())) >= cnt
      ensures ok ==> frameOf == old(frameOf) && vmap.Bits() == old(vmap.Bits()) && pmap.Bits() == old(pmap.Bits())
    {
      ghost var vb, pb, f, p := vmap.Bits(), pmap.Bits(), frameOf, pageOf;
      var r := PageAcquire(vaddr, cnt);
      if r == NULL {
        return false;
      }
      TakenReturned(vb, pb, f, p, vmap.Bits(), frameOf, Index(r), cnt);
      PageRelease(r, cnt);
      FramesDetermined(vb, pb, vmap.Bits(), pmap.Bits(), f, p, pageOf);
      ok := true;
    }
  }

  lemma SpanNext(f: map<int, int>, s: int, i: nat, cnt: nat)
    requires i < cnt && Span(s, cnt) <= f.Keys
    ensures s + i in f - Span(s, i) && f - Span(s, i) - {s + i} == f - Span(s, i + 1)
  {
    assert s + i in Span(s, cnt);
  }

  lemma SpanUsed(vb: seq<bool>, pb: seq<bool>, f: map<int, int>, p: map<int, int>, s: nat, cnt: nat)
    requires OneToOne(vb, pb, f, p) && Span(s, cnt) <= f.Keys && s + cnt <= |vb|
    ensures RunUsed(vb, s, cnt)
  {
    forall i | s <= i < s + cnt ensures vb[i] {
      assert i in Span(s, cnt);
    }
  }

  lemma SpanCleared(vb: seq<bool>, pb: seq<bool>, f: map<int, int>, p: map<int, int>, g: map<int, int>, s: nat, cnt: nat)
    requires OneToOne(vb, pb, f, p) && f == g - Span(s, cnt) && s + cnt <= |vb|
    ensures forall i | 0 <= i < |vb| && i in f :: Marked(vb, s, cnt, false)[i]
  {}

  lemma MarkedKeeps(vb: seq<bool>, vb': seq<bool>, s: int, cnt: nat)
    requires vb' == vb || Refused(vb, vb', s, cnt)
    ensures |vb'| == |vb| && forall i | 0 <= i < |vb| && vb[i] :: vb'[i]
  {}

  lemma FrameOffset(frame: int, v: int, pStart: int, j: int)
    requires frame == PoolAddr(pStart, j) && pStart % PG_SIZE == 0
    ensures PageOf(frame + v % PG_SIZE) == frame
  {}

  lemma TakenReturned(vb: seq<bool>, pb: seq<bool>, f: map<int, int>, p: map<int, int>, vb': seq<bool>, f': map<int, int>,
                      s: int, cnt: nat)
    requires OneToOne(vb, pb, f, p) && PagesTaken(vb, f, vb', f', s, cnt, cnt)
    ensures Span(s, cnt) <= f'.Keys && Marked(vb', s, cnt, false) == vb && f' - Span(s, cnt) == f
  {
    assert f.Keys !! Span(s, cnt);
  }
}
