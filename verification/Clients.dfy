/** The kernel heap as its clients see it: every run of sys_malloc, sys_free, page_malloc and page_free,
    with the clients' own stores in between. */
module HeapClients {
  import opened Words
  import opened BitRuns
  import opened Paging
  import opened Boot
  import opened Pages
  import opened SlabLayout
  import opened SlabState
  import opened SlabSteps
  import opened SlabUsers
  import opened HeapPages
  import opened HeapSteps
  import opened HeapMirror
  import opened KernelHeap

  // ----- what the clients believe -----

  /** A buffer from sys_malloc and the words that its owner last stored in it. */
  datatype Buffer = Buffer(addr: int, data: seq<int>)

  /** Pages from page_malloc. */
  datatype PageRun = PageRun(addr: int, cnt: nat)

  datatype Client = Client(bufs: seq<Buffer>, runs: seq<PageRun>)

  /** One step: a call, or a store of v in word i of the k-th buffer. k and j count what is held at that
      time; a step for something that is not held does nothing. */
  datatype HeapCall =
    | Request(size: int)
    | GiveUp(k: nat)
    | Write(k: nat, i: nat, v: int)
    | TakePages(vaddr: int, cnt: nat)
    | ReturnPages(j: nat)

  ghost predicate Legal(c: HeapCall) {
    (c.Request? ==> Countable(c.size)) && (c.TakePages? ==> c.cnt >= 1)
  }

  function Zeros(n: nat): (z: seq<int>)
    ensures |z| == n && forall i | 0 <= i < n :: z[i] == 0
  {
    if n == 0 then [] else Zeros(n - 1) + [0]
  }

  function DropAt<T>(xs: seq<T>, k: nat): seq<T>
    requires k < |xs|
  {
    xs[..k] + xs[k + 1..]
  }

  /** A step on independent buffers that start out zeroed; r is the call's answer. */
  function IdealStep(cl: Client, c: HeapCall, r: int): Client {
    match c
    case Request(size) => if r == NULL || size < 0 then cl else cl.(bufs := cl.bufs + [Buffer(r, Zeros(Served(size) / 4))])
    case GiveUp(k) => if k < |cl.bufs| then cl.(bufs := DropAt(cl.bufs, k)) else cl
    case Write(k, i, v) =>
      if k < |cl.bufs| && i < |cl.bufs[k].data|
      then cl.(bufs := cl.bufs[k := Buffer(cl.bufs[k].addr, cl.bufs[k].data[i := v])]) else cl
    case TakePages(_, cnt) => if r == NULL then cl else cl.(runs := cl.runs + [PageRun(r, cnt)])
    case ReturnPages(j) => if j < |cl.runs| then cl.(runs := DropAt(cl.runs, j)) else cl
  }

  /** What the clients hold after the first |rs| calls. */
  function Ideal(calls: seq<HeapCall>, rs: seq<int>): Client
    requires |rs| <= |calls|
  {
    if rs == [] then Client([], [])
    else IdealStep(Ideal(calls, rs[..|rs| - 1]), calls[|rs| - 1], rs[|rs| - 1])
  }

  // ----- buffers -----

  ghost predicate BufferAt(b: Buffer, w: Words, live: map<int, nat>) {
    && b.addr in live && |b.data| == live[b.addr] / 4
    && forall i | 0 <= i < |b.data| :: w(b.addr + 4 * i) == b.data[i]
  }

  /** The buffers are the live allocations, one each, and memory holds what their owners stored. */
  ghost predicate Holds(bufs: seq<Buffer>, w: Words, live: map<int, nat>) {
    && (forall k | 0 <= k < |bufs| :: BufferAt(bufs[k], w, live))
    && (forall j, k | 0 <= j < k < |bufs| :: bufs[j].addr != bufs[k].addr)
    && (forall x | x in live :: exists k :: 0 <= k < |bufs| && bufs[k].addr == x)
  }

  ghost function Addrs(bufs: seq<Buffer>): set<int> { set b | b in bufs :: b.addr }

  lemma LiveOwned(bufs: seq<Buffer>, w: Words, live: map<int, nat>)
    requires Holds(bufs, w, live)
    ensures live.Keys <= Addrs(bufs)
  {
    forall x | x in live ensures x in Addrs(bufs) {
      var k :| 0 <= k < |bufs| && bufs[k].addr == x;
      assert bufs[k] in bufs;
    }
  }

  lemma HoldsNothing(bufs: seq<Buffer>, w: Words, live: map<int, nat>)
    requires bufs == [] && Holds(bufs, w, live)
    ensures live == map[]
  {
    LiveOwned(bufs, w, live);
    assert Addrs([]) == {};
    assert live.Keys == {};
  }

  /** A buffer whose allocation nobody touched. */
  lemma BufferKept(b: Buffer, m: Words, n: Words, s: Slab, live: map<int, nat>)
    requires Shape(s) && Accounted(s) && BufferAt(b, m, s.live) && LiveKept(m, n, s)
    requires b.addr in live && live[b.addr] == s.live[b.addr]
    ensures BufferAt(b, n, live)
  {
    hide Shape, Accounted, End, Aligned;
    LiveRoom(s, b.addr);
    forall i | 0 <= i < |b.data| ensures n(b.addr + 4 * i) == b.data[i] {
      assert InUse(s, b.addr, b.addr + 4 * i);
    }
  }

  lemma LiveRoom(s: Slab, x: int)
    requires Shape(s) && Accounted(s) && x in s.live
    ensures x + s.live[x] <= End(s, x)
  {
    LiveKind(s, x);
  }

  lemma HoldsMore(bufs: seq<Buffer>, m: Words, n: Words, s: Slab, t: Slab, x: int, size: nat)
    requires Shape(s) && Accounted(s) && Holds(bufs, m, s.live) && Granted(m, n, s, t, x, size)
    ensures Holds(bufs + [Buffer(x, Zeros(size / 4))], n, t.live)
  {
    hide Shape, Accounted, LiveKept, OffKept, BufferAt;
    var more := bufs + [Buffer(x, Zeros(size / 4))];
    forall k | 0 <= k < |more| ensures BufferAt(more[k], n, t.live) {
      if k < |bufs| {
        BufferHere(bufs[k], m, s.live);
        BufferKept(bufs[k], m, n, s, t.live);
      } else {
        ZeroBuffer(n, t, x, size);
      }
    }
    forall k | 0 <= k < |bufs| ensures bufs[k].addr != x { BufferHere(bufs[k], m, s.live); }
    forall y | y in t.live ensures exists k :: 0 <= k < |more| && more[k].addr == y {
      if y == x {
        assert more[|bufs|].addr == x;
      } else {
        var k :| 0 <= k < |bufs| && bufs[k].addr == y;
        assert more[k].addr == y;
      }
    }
  }

  lemma BufferHere(b: Buffer, m: Words, live: map<int, nat>)
    requires BufferAt(b, m, live)
    ensures b.addr in live && |b.data| == live[b.addr] / 4
  {}

  lemma ZeroBuffer(n: Words, t: Slab, x: int, size: nat)
    requires x in t.live && t.live[x] == size && x + size <= End(t, x) && Zeroed(n, x, End(t, x) - x)
    ensures BufferAt(Buffer(x, Zeros(size / 4)), n, t.live)
  {}

  lemma HoldsLess(bufs: seq<Buffer>, m: Words, n: Words, s: Slab, live: map<int, nat>, k: nat)
    requires Shape(s) && Accounted(s) && Holds(bufs, m, s.live) && k < |bufs|
    requires live == s.live - {bufs[k].addr} && UsersKept(m, n, WithoutUser(s, bufs[k].addr))
    ensures Holds(DropAt(bufs, k), n, live)
  {
    hide Shape, Accounted, UsersKept, BufferAt;
    var less := DropAt(bufs, k);
    forall j | 0 <= j < |less| ensures BufferAt(less[j], n, live) {
      var i := if j < k then j else j + 1;
      assert less[j] == bufs[i] && bufs[i].addr != bufs[k].addr;
      BufferHere(bufs[i], m, s.live);
      BufferKeptBut(bufs[i], m, n, s, bufs[k].addr, live);
    }
    forall y | y in live ensures exists j :: 0 <= j < |less| && less[j].addr == y {
      var i :| 0 <= i < |bufs| && bufs[i].addr == y;
      assert less[if i < k then i else i - 1].addr == y;
    }
  }

  lemma BufferKeptBut(b: Buffer, m: Words, n: Words, s: Slab, x: int, live: map<int, nat>)
    requires Shape(s) && Accounted(s) && BufferAt(b, m, s.live) && UsersKept(m, n, WithoutUser(s, x)) && b.addr != x
    requires b.addr in live && live[b.addr] == s.live[b.addr]
    ensures BufferAt(b, n, live)
  {
    hide Shape, Accounted, Aligned;
    LiveRoom(s, b.addr);
    forall i | 0 <= i < |b.data| ensures n(b.addr + 4 * i) == b.data[i] {
      assert InUse(WithoutUser(s, x), b.addr, b.addr + 4 * i);
    }
  }

  /** A store to one buffer is seen there and in no other buffer. */
  lemma HoldsStore(bufs: seq<Buffer>, w: Words, s: Slab, k: nat, i: nat, v: int)
    requires Books(s, {}) && Holds(bufs, w, s.live) && k < |bufs| && i < |bufs[k].data|
    ensures Holds(bufs[k := Buffer(bufs[k].addr, bufs[k].data[i := v])], Store(w, bufs[k].addr + 4 * i, v), s.live)
  {
    hide Shape, Accounted, Placed, Complete, Store, BufferAt;
    var b, n := bufs[k], Store(w, bufs[k].addr + 4 * i, v);
    var next := bufs[k := Buffer(b.addr, b.data[i := v])];
    forall j | 0 <= j < |bufs| ensures BufferAt(next[j], n, s.live) {
      if j == k {
        StoreSeen(b, w, s.live, i, v);
      } else {
        StoreUnseen(b, bufs[j], w, s, i, v);
      }
    }
    forall y | y in s.live ensures exists j :: 0 <= j < |next| && next[j].addr == y {
      var j :| 0 <= j < |bufs| && bufs[j].addr == y;
      assert next[j].addr == y;
    }
  }

  lemma StoreSeen(b: Buffer, w: Words, live: map<int, nat>, i: nat, v: int)
    requires BufferAt(b, w, live) && i < |b.data|
    ensures BufferAt(Buffer(b.addr, b.data[i := v]), Store(w, b.addr + 4 * i, v), live)
  {}

  lemma StoreUnseen(b: Buffer, c: Buffer, w: Words, s: Slab, i: nat, v: int)
    requires Books(s, {}) && BufferAt(b, w, s.live) && BufferAt(c, w, s.live) && i < |b.data| && b.addr != c.addr
    ensures BufferAt(c, Store(w, b.addr + 4 * i, v), s.live)
  {
    hide Books, End, Shape, Accounted;
    BooksParts(s);
    LiveApart(s, b.addr, c.addr);
    LiveRoom(s, b.addr);
    LiveRoom(s, c.addr);
    forall j | 0 <= j < |c.data| ensures Store(w, b.addr + 4 * i, v)(c.addr + 4 * j) == c.data[j] {
      WordsApart(b.addr, s.live[b.addr], i, c.addr, s.live[c.addr], j);
    }
  }

  lemma WordsApart(x: int, n: nat, i: nat, y: int, k: nat, j: nat)
    requires (x + n <= y || y + k <= x) && i < n / 4 && j < k / 4
    ensures x + 4 * i != y + 4 * j
  {}

  lemma BooksParts(s: Slab)
    requires Books(s, {})
    ensures Shape(s) && Accounted(s)
  {}

  // ----- whole pages -----

  /** The pool indices of a run of pages. */
  ghost function RunSpan(g: PageRun, vStart: int): set<int> { Span(IndexIn(vStart, g.addr), g.cnt) }

  ghost function RunPages(runs: seq<PageRun>, vStart: int): set<int> {
    if runs == [] then {} else RunPages(runs[..|runs| - 1], vStart) + RunSpan(runs[|runs| - 1], vStart)
  }

  lemma {:induction false} InRunPages(runs: seq<PageRun>, vStart: int, x: int)
    ensures x in RunPages(runs, vStart) <==> exists k :: 0 <= k < |runs| && x in RunSpan(runs[k], vStart)
  {
    if runs != [] {
      var n := |runs| - 1;
      InRunPages(runs[..n], vStart, x);
      if k :| 0 <= k < |runs| && x in RunSpan(runs[k], vStart) {
        if k < n { assert runs[..n][k] == runs[k]; }
      }
    }
  }

  /** The runs are pairwise disjoint pages of the pool, marked and mapped for somebody other than the heap. */
  ghost predicate RunsHeld(runs: seq<PageRun>, vStart: int, limit: nat, other: set<int>) {
    && (forall k | 0 <= k < |runs| :: vStart <= runs[k].addr && IndexIn(vStart, runs[k].addr) + runs[k].cnt <= limit)
    && (forall j, k | 0 <= j < k < |runs| :: RunSpan(runs[j], vStart) !! RunSpan(runs[k], vStart))
    && RunPages(runs, vStart) <= other
  }

  lemma RunInside(runs: seq<PageRun>, vStart: int, k: nat)
    requires k < |runs|
    ensures RunSpan(runs[k], vStart) <= RunPages(runs, vStart)
  {
    forall x | x in RunSpan(runs[k], vStart) ensures x in RunPages(runs, vStart) {
      InRunPages(runs, vStart, x);
    }
  }

  lemma RunsMore(runs: seq<PageRun>, g: PageRun, vStart: int, limit: nat, other: set<int>, other': set<int>)
    requires RunsHeld(runs, vStart, limit, other) && RunSpan(g, vStart) !! other && other' == other + RunSpan(g, vStart)
    requires vStart <= g.addr && IndexIn(vStart, g.addr) + g.cnt <= limit
    ensures RunsHeld(runs + [g], vStart, limit, other')
    ensures RunPages(runs + [g], vStart) == RunPages(runs, vStart) + RunSpan(g, vStart)
  {
    hide RunSpan, IndexIn;
    var more := runs + [g];
    assert more[..|more| - 1] == runs;
    forall k | 0 <= k < |runs| ensures RunSpan(more[k], vStart) !! RunSpan(g, vStart) {
      RunInside(runs, vStart, k);
    }
  }

  lemma RunsLess(runs: seq<PageRun>, k: nat, vStart: int, limit: nat, other: set<int>)
    requires RunsHeld(runs, vStart, limit, other) && k < |runs|
    ensures RunSpan(runs[k], vStart) <= other && RunSpan(runs[k], vStart) <= RunPages(runs, vStart)
    ensures RunPages(DropAt(runs, k), vStart) == RunPages(runs, vStart) - RunSpan(runs[k], vStart)
    ensures RunsHeld(DropAt(runs, k), vStart, limit, other - RunSpan(runs[k], vStart))
  {
    hide RunSpan, IndexIn;
    var less := DropAt(runs, k);
    RunInside(runs, vStart, k);
    forall x ensures x in RunPages(less, vStart) <==> x in RunPages(runs, vStart) && x !in RunSpan(runs[k], vStart) {
      InRunPages(runs, vStart, x);
      InRunPages(less, vStart, x);
      if j :| 0 <= j < |less| && x in RunSpan(less[j], vStart) {
        assert less[j] == runs[if j < k then j else j + 1];
      }
      if j :| 0 <= j < |runs| && x in RunSpan(runs[j], vStart) {
        if j != k { assert less[if j < k then j else j - 1] == runs[j]; }
      }
    }
    forall j | 0 <= j < |less|
      ensures vStart <= less[j].addr && IndexIn(vStart, less[j].addr) + less[j].cnt <= limit
    {
      assert less[j] == runs[if j < k then j else j + 1];
    }
    forall i, j | 0 <= i < j < |less| ensures RunSpan(less[i], vStart) !! RunSpan(less[j], vStart) {
      assert less[i] == runs[if i < k then i else i + 1] && less[j] == runs[if j < k then j else j + 1];
    }
  }

  lemma RunsWider(runs: seq<PageRun>, vStart: int, limit: nat, other: set<int>, other': set<int>)
    requires RunsHeld(runs, vStart, limit, other) && other <= other'
    ensures RunsHeld(runs, vStart, limit, other')
  {}

  /** Apart from the heap's pages and the runs, the pools are as b0 says. */
  ghost predicate OnlyOurs(pb: PageBooks, b0: PageBooks, ours: set<int>) {
    && ours !! b0.held && b0.other.Keys <= b0.held
    && pb.held == b0.held + ours && pb.other.Keys == b0.other.Keys + ours
    && forall i | i in b0.other :: i in pb.other && pb.other[i] == b0.other[i]
  }

  lemma OursSame(pb: PageBooks, qb: PageBooks, b0: PageBooks, ours: set<int>)
    requires OnlyOurs(pb, b0, ours) && qb.held == pb.held && qb.other == pb.other
    ensures OnlyOurs(qb, b0, ours)
  {}

  lemma OursMore(pb: PageBooks, qb: PageBooks, b0: PageBooks, ours: set<int>, more: set<int>)
    requires OnlyOurs(pb, b0, ours) && more !! pb.held
    requires qb.held == pb.held + more && qb.other.Keys == pb.other.Keys + more
    requires forall i | i in pb.other :: i in qb.other && qb.other[i] == pb.other[i]
    ensures OnlyOurs(qb, b0, ours + more)
  {}

  lemma OursLess(pb: PageBooks, qb: PageBooks, b0: PageBooks, ours: set<int>, less: set<int>)
    requires OnlyOurs(pb, b0, ours) && less <= ours
    requires qb.held == pb.held - less && qb.other == pb.other - less
    ensures OnlyOurs(qb, b0, ours - less)
  {}

  lemma NothingOurs(pb: PageBooks, b0: PageBooks)
    requires OnlyOurs(pb, b0, {})
    ensures pb.held == b0.held && pb.other == b0.other
  {
    var p, o := pb.other, b0.other;
    assert p.Keys == o.Keys;
    assert forall i | i in o :: i in p && p[i] == o[i];
    assert forall i | i in p :: i in o && p[i] == o[i];
    assert p == o;
  }

  // ----- steps on the heap -----

  /** Where a run started: who had pages, and what physical memory held. */
  datatype Origin = Origin(books: PageBooks, mem: Words)

  /** The pages that others had at the start are still theirs, on the same frames. */
  ghost predicate OthersStay(pb: PageBooks, o: Origin) {
    forall i | i in o.books.other :: i in pb.other && pb.other[i] == o.books.other[i]
  }

  predicate OfOthers(o: Origin, pStart: int, i: int, a: int) {
    i in o.books.other && 0 <= a - PoolAddr(pStart, o.books.other[i]) < PG_SIZE
  }

  /** And those frames hold what they held. */
  ghost predicate FramesKept(o: Origin, pStart: int, p: Words) {
    forall i, a | OfOthers(o, pStart, i, a) :: p(a) == o.mem(a)
  }

  ghost function LayerOf(h: Heap): Layer
    reads h, h.pages, h.pages.vmap, h.pages.pmap, h.pages.mmu.ram
  {
    Layer(h.books, h.pages.vmap.Bits(), h.pages.pmap.Bits(), h.pages.mmu.ram.w, h.pages.vStart, h.pages.pStart, h.pages.frameOf,
          h.pages.pageOf)
  }

  /** The heap serves these clients; o is where the run started, failed whether a call failed since, and p
      what physical memory holds. */
  ghost predicate Serving(h: Heap, cl: Client, failed: bool, o: Origin, p: Words)
    reads h, h.ram, h.pages, h.pages.vmap, h.pages.pmap, h.pages.vmap.bits, h.pages.pmap.bits, h.pages.mmu.ram
  {
    && h.Valid() && Holds(cl.bufs, h.ram.w, h.s.live)
    && RunsHeld(cl.runs, h.pages.vStart, h.pages.Limit(), h.books.other.Keys)
    && (!failed ==> OnlyOurs(h.books, o.books, RunPages(cl.runs, h.pages.vStart)))
    && RunPages(cl.runs, h.pages.vStart) !! o.books.other.Keys
    && Physical(LayerOf(h), h.s, h.ram.w, o, p)
  }

  /** p has the page tables, shows the heap's words at their virtual addresses, and holds what others stored. */
  ghost predicate Physical(l: Layer, s: Slab, n: Words, o: Origin, p: Words) {
    Shows(l, s, p, n) && OthersStay(l.books, o) && FramesKept(o, l.pStart, p)
  }

  /** The call reaches no page of the recursive window. */
  ghost predicate Admissible(h: Heap, c: HeapCall)
    requires h.Valid() && Legal(c)
    reads h, h.ram, h.pages, h.pages.vmap, h.pages.pmap, h.pages.vmap.bits, h.pages.pmap.bits, h.pages.mmu.ram
  {
    match c
    case Request(size) => h.Admits(size)
    case TakePages(vaddr, cnt) => h.pages.Safe(vaddr, cnt)
    case GiveUp(_) => true
    case Write(_, _, _) => true
    case ReturnPages(_) => true
  }

  /** A call for memory finds room in both pools, or a block on its list. */
  ghost predicate Servable(h: Heap, c: HeapCall)
    requires h.Valid() && Legal(c)
    reads h, h.ram, h.pages, h.pages.vmap, h.pages.pmap, h.pages.vmap.bits, h.pages.pmap.bits, h.pages.mmu.ram
  {
    match c
    case Request(size) => h.CanServe(size)
    case TakePages(vaddr, cnt) =>
      h.pages.VirtualRoom(h.pages.vmap.Bits(), vaddr, cnt) && FreeCount(h.pages.pmap.Bits()) >= cnt
    case GiveUp(_) => true
    case Write(_, _, _) => true
    case ReturnPages(_) => true
  }

  /** How many pages a call may ask the page layer for. */
  function Wanted(c: HeapCall): nat {
    match c
    case Request(size) => if Countable(size) then PagesWanted(size) else 0
    case TakePages(_, cnt) => cnt
    case GiveUp(_) => 0
    case Write(_, _, _) => 0
    case ReturnPages(_) => 0
  }

  lemma HeapParts(h: Heap)
    requires h.Valid()
    ensures Shape(h.s) && Accounted(h.s) && Books(h.s, {}) && h.pages.vStart % PG_SIZE == 0
    ensures Splits(h.books, h.pages.vmap.Bits(), h.pages.frameOf) && h.books.other.Keys <= h.books.held
    ensures |h.pages.vmap.Bits()| == h.pages.vmap.len * 8 && h.ram != h.pages.mmu.ram
  {
    h.PoolLengths();
  }

  // ----- physical memory -----

  lemma HeapBacks(h: Heap)
    requires h.Valid()
    ensures Backs(LayerOf(h), h.s)
  {
    hide Consistent, Owns, Splits, Sound, Busy;
    SoundParts(h.ram.w, h.base, h.s);
  }

  /** The heap's stores leave the frames of others alone. */
  lemma OverlayFrames(l: Layer, s: Slab, p: Words, n: Words, o: Origin)
    requires Backs(l, s) && OthersStay(l.books, o) && FramesKept(o, l.pStart, p)
    ensures FramesKept(o, l.pStart, Overlay(l, s, p, n))
  {
    hide Backs, Backing, WordAt, Overlay, PoolAddr;
    OverlayShows(l, s, p, n);
    forall i, a | OfOthers(o, l.pStart, i, a) ensures Overlay(l, s, p, n)(a) == o.mem(a) {
      OthersBackNothing(l, s, i, a);
    }
  }

  lemma RetabledFrames(l: Layer, s: Slab, m: Words, p: Words, o: Origin)
    requires Backs(l, s) && OthersStay(l.books, o) && FramesKept(o, l.pStart, p)
    ensures FramesKept(o, l.pStart, Retabled(m, p))
  {
    hide Backs, Backing, PoolAddr;
    forall i, a | OfOthers(o, l.pStart, i, a) ensures Retabled(m, p)(a) == o.mem(a) {
      OthersBackNothing(l, s, i, a);
    }
  }

  /** sys_malloc: the stores follow page_acquire. */
  lemma PhysicalGranted(k: Layer, t: Slab, n: Words, o: Origin, p: Words) returns (q: Words)
    requires Backs(k, t) && OthersStay(k.books, o) && FramesKept(o, k.pStart, p)
    ensures Physical(k, t, n, o, q) && q == Overlay(k, t, p, n)
  {
    hide Backs, Shows, OthersStay, FramesKept;
    q := Overlay(k, t, p, n);
    OverlayShows(k, t, p, n);
    OverlayFrames(k, t, p, n, o);
  }

  /** Calls to the page layer only. */
  lemma PhysicalCalled(l: Layer, k: Layer, s: Slab, t: Slab, n: Words, o: Origin, p: Words) returns (q: Words)
    requires Backs(l, s) && Backs(k, t) && Physical(l, s, n, o, p) && OthersStay(k.books, o)
    requires k.vStart == l.vStart && k.pStart == l.pStart && SameFrames(l.f, k.f)
    requires forall a | Starts(t, a) :: Starts(s, a) && PagesAt(t, a) == PagesAt(s, a)
    ensures Physical(k, t, n, o, q) && q == Retabled(k.m, p)
  {
    hide Backs, OthersStay, FramesKept, SameFrames, Starts, PagesAt, Mirrors;
    q := Retabled(k.m, p);
    ShowsKept(l, k, s, t, p, q, n);
    RetabledFrames(l, s, k.m, p, o);
  }

  /** sys_free: page_release follows the stores. */
  lemma PhysicalFreed(l: Layer, k: Layer, s: Slab, t: Slab, n: Words, o: Origin, p: Words) returns (q: Words)
    requires Backs(l, s) && Backs(k, t) && OthersStay(l.books, o) && FramesKept(o, l.pStart, p) && OthersStay(k.books, o)
    requires k.vStart == l.vStart && k.pStart == l.pStart && SameFrames(l.f, k.f)
    requires forall a | Starts(t, a) :: Starts(s, a) && PagesAt(t, a) == PagesAt(s, a)
    ensures Physical(k, t, n, o, q) && q == Retabled(k.m, Overlay(l, s, p, n))
  {
    hide Backs, OthersStay, FramesKept, SameFrames, Starts, PagesAt, Overlay, Retabled, Shows;
    var r := PhysicalGranted(l, s, n, o, p);
    q := PhysicalCalled(l, k, s, t, n, o, r);
  }

  /** A client's store. */
  lemma PhysicalStored(l: Layer, s: Slab, n: Words, o: Origin, p: Words, b: int, y: int, v: int) returns (q: Words)
    requires Backs(l, s) && Physical(l, s, n, o, p) && HeapWord(s, b, y)
    ensures Walk(p, PAGE_DIR, y).Mapped? && q == Store(p, Walk(p, PAGE_DIR, y).pa, v)
    ensures Physical(l, s, Store(n, y, v), o, q)
  {
    hide Backs, OthersStay, Mirrors, Walk, HeapWord, Backing, WordAt, PoolAddr;
    AgreeBacks(l, s, p);
    MirrorStore(l.(m := p), s, n, b, y, v);
    q := Store(p, Walk(p, PAGE_DIR, y).pa, v);
    WordAddr(l, s, b, y, p);
    WordAtIs(l, s, b, y);
    forall i, a | OfOthers(o, l.pStart, i, a) ensures q(a) == o.mem(a) {
      assert OthersStay(l.books, o) ==> i in l.books.other && l.books.other[i] == o.books.other[i] by { OtherHere(l.books, o, i); }
      OthersBackNothing(l, s, i, a);
    }
  }

  lemma OtherHere(pb: PageBooks, o: Origin, i: int)
    requires OthersStay(pb, o) && i in o.books.other
    ensures i in pb.other && pb.other[i] == o.books.other[i]
  {}

  /** Every whole word of a buffer is a heap word. */
  lemma BufferWord(s: Slab, x: int, y: int)
    requires Shape(s) && Accounted(s) && x in s.live && x <= y && y + 4 <= End(s, x) && Aligned(y)
    ensures HeapWord(s, PageOf(x), y)
  {
    LiveKind(s, x);
  }

  /** The arenas and large allocations behind sys_free are among those before. */
  lemma FreedStarts(s: Slab, t: Slab, x: int)
    requires |s.free| == CLASSES
    requires PageOf(x) !in s.arenas ==> t == WithoutLarge(s, PageOf(x))
    requires PageOf(x) in s.arenas ==> IsClass(s.arenas[PageOf(x)]) && t == BlockFreed(s, x, PageOf(x), s.arenas[PageOf(x)])
    requires forall a | a in s.arenas :: a !in s.large
    ensures forall a | Starts(t, a) :: Starts(s, a) && PagesAt(t, a) == PagesAt(s, a)
  {
    hide PageOf, Without, FreeOf, Blocks;
  }

  // ----- the calls -----

  method DoRequest(h: Heap, size: int, cl: Client, failed: bool, ghost o: Origin, ghost p: Words)
    returns (cl': Client, failed': bool, r: int, ghost q: Words)
    requires Serving(h, cl, failed, o, p) && Countable(size) && h.Admits(size)
    modifies h, h.ram, h.pages, h.pages.vmap, h.pages.pmap, h.pages.vmap.bits, h.pages.pmap.bits, h.pages.mmu.ram
    ensures Serving(h, cl', failed', o, q) && cl' == IdealStep(cl, Request(size), r)
    ensures failed' <==> failed || r == NULL
    ensures r == NULL ==> !old(h.CanServe(size))
    ensures Rises(old(h.pages.vmap.Bits()), h.pages.vmap.Bits(), PagesWanted(size))
  {
    hide Heap.Valid, Heap.Admits, Heap.CanServe, Holds, RunsHeld, OnlyOurs, RunPages, Reach, Granted, PagesWanted, Zeros, FreeFrom, Served, PageCount,
         Backs, Shows, OthersStay, FramesKept, SameFrames;
    HeapParts(h);
    HeapBacks(h);
    ghost var m, s, l := h.ram.w, h.s, LayerOf(h);
    r := h.Malloc(size);
    HeapBacks(h);
    if r == NULL {
      RunsWider(cl.runs, h.pages.vStart, h.pages.Limit(), old(h.books.other.Keys), h.books.other.Keys);
      StayWider(l.books, h.books, o);
      q := PhysicalCalled(l, LayerOf(h), s, h.s, h.ram.w, o, p);
      return cl, true, r, q;
    }
    HoldsMore(cl.bufs, m, h.ram.w, s, h.s, r, Served(size));
    if !failed { OursSame(old(h.books), h.books, o.books, RunPages(cl.runs, h.pages.vStart)); }
    StaySame(l.books, h.books, o);
    q := PhysicalGranted(LayerOf(h), h.s, h.ram.w, o, p);
    cl', failed' := cl.(bufs := cl.bufs + [Buffer(r, Zeros(Served(size) / 4))]), failed;
  }

  lemma StaySame(pb: PageBooks, qb: PageBooks, o: Origin)
    requires OthersStay(pb, o) && qb.other == pb.other
    ensures OthersStay(qb, o)
  {}

  lemma StayWider(pb: PageBooks, qb: PageBooks, o: Origin)
    requires OthersStay(pb, o) && pb.other.Keys <= qb.other.Keys && forall i | i in pb.other :: qb.other[i] == pb.other[i]
    ensures OthersStay(qb, o)
  {}

  lemma StayLess(pb: PageBooks, qb: PageBooks, o: Origin, gone: set<int>)
    requires OthersStay(pb, o) && qb.other == pb.other - gone && gone !! o.books.other.Keys
    ensures OthersStay(qb, o)
  {}

  method DoGiveUp(h: Heap, k: nat, cl: Client, failed: bool, ghost o: Origin, ghost p: Words) returns (cl': Client, ghost q: Words)
    requires Serving(h, cl, failed, o, p)
    modifies h, h.ram, h.pages, h.pages.vmap, h.pages.pmap, h.pages.vmap.bits, h.pages.pmap.bits, h.pages.mmu.ram
    ensures Serving(h, cl', failed, o, q) && cl' == IdealStep(cl, GiveUp(k), NULL)
    ensures Rises(old(h.pages.vmap.Bits()), h.pages.vmap.Bits(), 0)
  {
    hide Heap.Valid, RunsHeld, OnlyOurs, RunPages, Reach, BufferAt, BlockFreed, WithoutLarge, UsersKept, PageOf, FreeFrom, WithoutUser,
         Backs, Shows, OthersStay, FramesKept, SameFrames, Starts, PagesAt;
    HeapParts(h);
    if k >= |cl.bufs| {
      RisesNot(h.pages.vmap.Bits(), 0);
      return cl, p;
    }
    HeapBacks(h);
    ghost var m, s, l := h.ram.w, h.s, LayerOf(h);
    var x := cl.bufs[k].addr;
    BufferHere(cl.bufs[k], m, s.live);
    h.Free(x);
    HeapBacks(h);
    HoldsLess(cl.bufs, m, h.ram.w, s, h.s.live, k);
    if !failed { OursSame(old(h.books), h.books, o.books, RunPages(cl.runs, h.pages.vStart)); }
    StaySame(l.books, h.books, o);
    ShapeApart(s);
    FreedStarts(s, h.s, x);
    q := PhysicalFreed(l, LayerOf(h), s, h.s, h.ram.w, o, p);
    cl' := cl.(bufs := DropAt(cl.bufs, k));
  }

  lemma ShapeApart(s: Slab)
    requires Shape(s)
    ensures |s.free| == CLASSES && forall a | a in s.arenas :: a !in s.large
  {}

  method DoWrite(h: Heap, k: nat, i: nat, v: int, cl: Client, failed: bool, ghost o: Origin, ghost p: Words) returns (cl': Client, ghost q: Words)
    requires Serving(h, cl, failed, o, p)
    modifies h.ram
    ensures Serving(h, cl', failed, o, q) && cl' == IdealStep(cl, Write(k, i, v), NULL)
  {
    hide Heap.Valid, RunsHeld, OnlyOurs, RunPages, Reach, BufferAt, Holds, End, Aligned, Store, Shape, Accounted, Placed, Complete,
         Splits, Backs, Physical, HeapWord, OffKept;
    HeapParts(h);
    if k >= |cl.bufs| || i >= |cl.bufs[k].data| {
      return cl, p;
    }
    HeapBacks(h);
    ghost var w, l := h.ram.w, LayerOf(h);
    var b := cl.bufs[k];
    WordInside(h.s, cl.bufs, w, k, i);
    BufferWord(h.s, b.addr, b.addr + 4 * i);
    HoldsStore(cl.bufs, w, h.s, k, i, v);
    q := PhysicalStored(l, h.s, w, o, p, PageOf(b.addr), b.addr + 4 * i, v);
    h.UserStore(b.addr, b.addr + 4 * i, v);
    cl' := cl.(bufs := cl.bufs[k := Buffer(b.addr, b.data[i := v])]);
  }

  lemma WordInside(s: Slab, bufs: seq<Buffer>, w: Words, k: nat, i: nat)
    requires Shape(s) && Accounted(s) && Holds(bufs, w, s.live) && k < |bufs| && i < |bufs[k].data|
    ensures var x := bufs[k].addr;
            x in s.live && Aligned(x + 4 * i) && x <= x + 4 * i && x + 4 * i + 4 <= End(s, x)
  {
    hide Shape, Accounted, End;
    LiveAligned(s, bufs[k].addr);
    LiveRoom(s, bufs[k].addr);
    AlignedSum(bufs[k].addr, 4 * i);
  }

  method DoTake(h: Heap, vaddr: int, cnt: nat, cl: Client, failed: bool, ghost o: Origin, ghost p: Words)
    returns (cl': Client, failed': bool, r: int, ghost q: Words)
    requires Serving(h, cl, failed, o, p) && cnt >= 1 && h.pages.Safe(vaddr, cnt)
    modifies h, h.pages, h.pages.vmap, h.pages.pmap, h.pages.vmap.bits, h.pages.pmap.bits, h.pages.mmu.ram
    ensures Serving(h, cl', failed', o, q) && cl' == IdealStep(cl, TakePages(vaddr, cnt), r)
    ensures failed' <==> failed || r == NULL
    ensures r == NULL ==> !old(h.pages.VirtualRoom(h.pages.vmap.Bits(), vaddr, cnt) && FreeCount(h.pages.pmap.Bits()) >= cnt)
    ensures vaddr == NULL ==> Rises(old(h.pages.vmap.Bits()), h.pages.vmap.Bits(), cnt)
  {
    hide Heap.Valid, Holds, RunsHeld, OnlyOurs, RunPages, Reach, FitsBelow, FreshSpan, Rises, Splits, Span, IndexIn, FreeCount, RunFree,
         Backs, Shows, OthersStay, FramesKept, SameFrames;
    HeapParts(h);
    HeapBacks(h);
    ghost var vb, pb, f, l, s := h.pages.vmap.Bits(), h.books, h.pages.frameOf, LayerOf(h), h.s;
    r := h.PageMalloc(PF_KERNEL, vaddr, cnt);
    HeapParts(h);
    HeapBacks(h);
    StayWider(pb, h.books, o);
    q := PhysicalCalled(l, LayerOf(h), s, h.s, h.ram.w, o, p);
    if r == NULL {
      RunsWider(cl.runs, h.pages.vStart, h.pages.Limit(), pb.other.Keys, h.books.other.Keys);
      return cl, true, r, q;
    }
    ghost var g := PageRun(r, cnt);
    SpanNotHeld(pb, vb, f, IndexIn(h.pages.vStart, r), cnt);
    OthersApart(pb, o, RunSpan(g, h.pages.vStart));
    RunsMore(cl.runs, g, h.pages.vStart, h.pages.Limit(), pb.other.Keys, h.books.other.Keys);
    if !failed { OursMore(pb, h.books, o.books, RunPages(cl.runs, h.pages.vStart), RunSpan(g, h.pages.vStart)); }
    cl', failed' := cl.(runs := cl.runs + [PageRun(r, cnt)]), failed;
  }

  lemma OthersApart(pb: PageBooks, o: Origin, more: set<int>)
    requires OthersStay(pb, o) && more !! pb.other.Keys
    ensures more !! o.books.other.Keys
  {
    forall i | i in o.books.other.Keys ensures i in pb.other.Keys {
      assert i in o.books.other;
    }
  }

  lemma SpanNotHeld(pb: PageBooks, vb: seq<bool>, f: map<int, int>, i: int, k: nat)
    requires Splits(pb, vb, f) && RunFree(vb, i, k)
    ensures Span(i, k) !! pb.held && Span(i, k) !! pb.other.Keys
  {}

  method DoReturn(h: Heap, j: nat, cl: Client, failed: bool, ghost o: Origin, ghost p: Words) returns (cl': Client, ghost q: Words)
    requires Serving(h, cl, failed, o, p)
    modifies h, h.pages, h.pages.vmap, h.pages.pmap, h.pages.vmap.bits, h.pages.pmap.bits, h.pages.mmu.ram
    ensures Serving(h, cl', failed, o, q) && cl' == IdealStep(cl, ReturnPages(j), NULL)
    ensures Rises(old(h.pages.vmap.Bits()), h.pages.vmap.Bits(), 0)
  {
    hide Heap.Valid, Holds, OnlyOurs, RunPages, Reach, Splits, Span, IndexIn, FreeFrom, Backs, Shows, OthersStay, FramesKept, SameFrames;
    HeapParts(h);
    if j >= |cl.runs| {
      RisesNot(h.pages.vmap.Bits(), 0);
      return cl, p;
    }
    HeapBacks(h);
    ghost var pb, l, s := h.books, LayerOf(h), h.s;
    var g := cl.runs[j];
    RunsLess(cl.runs, j, h.pages.vStart, h.pages.Limit(), pb.other.Keys);
    h.PageFree(PF_KERNEL, g.addr, g.cnt);
    HeapBacks(h);
    StayLess(pb, h.books, o, RunSpan(g, h.pages.vStart));
    q := PhysicalCalled(l, LayerOf(h), s, h.s, h.ram.w, o, p);
    if !failed { OursLess(pb, h.books, o.books, RunPages(cl.runs, h.pages.vStart), RunSpan(g, h.pages.vStart)); }
    cl' := cl.(runs := DropAt(cl.runs, j));
  }

  // ----- runs -----

  /** A look before the call. */
  method StaysSafe(h: Heap, c: HeapCall) returns (ok: bool)
    requires h.Valid() && Legal(c)
    ensures ok <==> Admissible(h, c)
  {
    hide Heap.Valid, Heap.Admits, Reach, FitsBelow;
    HeapParts(h);
    match c
    case Request(size) =>
      ok := h.LookAhead(size);
    case TakePages(vaddr, cnt) =>
      PagesReady(h);
      if vaddr == NULL {
        ok := h.pages.StaysBelow(cnt);
      } else {
        ok := h.pages.vStart <= vaddr && h.pages.Index(vaddr) + cnt <= Reach(h.pages.vStart, h.pages.vmap.len * 8);
      }
    case GiveUp(_) => ok := true;
    case Write(_, _, _) => ok := true;
    case ReturnPages(_) => ok := true;
  }

  lemma PagesReady(h: Heap)
    requires h.Valid()
    ensures h.pages.vmap.Valid()
  {}

  /** Only null addresses are asked for. */
  ghost predicate Anywhere(c: HeapCall) { c.TakePages? ==> c.vaddr == NULL }

  method OneCall(h: Heap, c: HeapCall, cl: Client, failed: bool, ghost o: Origin, ghost p: Words)
    returns (cl': Client, failed': bool, r: int, ghost q: Words)
    requires Serving(h, cl, failed, o, p) && Legal(c) && Admissible(h, c)
    modifies h, h.ram, h.pages, h.pages.vmap, h.pages.pmap, h.pages.vmap.bits, h.pages.pmap.bits, h.pages.mmu.ram
    ensures Serving(h, cl', failed', o, q) && cl' == IdealStep(cl, c, r)
    ensures failed' <==> failed || Refusal(c, r)
    ensures Refusal(c, r) ==> !old(Servable(h, c))
    ensures Anywhere(c) ==> Rises(old(h.pages.vmap.Bits()), h.pages.vmap.Bits(), Wanted(c))
  {
    hide Heap.Valid, Heap.Admits, Heap.CanServe, PageLayer.Safe, PageLayer.VirtualRoom, Holds, RunsHeld, OnlyOurs, RunPages, IdealStep, PagesWanted,
         Rises, Physical;
    cl', failed', r := cl, failed, NULL;
    match c
    case Request(size) => cl', failed', r, q := DoRequest(h, size, cl, failed, o, p);
    case GiveUp(k) => cl', q := DoGiveUp(h, k, cl, failed, o, p);
    case Write(k, i, v) =>
      RisesNot(h.pages.vmap.Bits(), 0);
      cl', q := DoWrite(h, k, i, v, cl, failed, o, p);
    case TakePages(vaddr, cnt) => cl', failed', r, q := DoTake(h, vaddr, cnt, cl, failed, o, p);
    case ReturnPages(j) => cl', q := DoReturn(h, j, cl, failed, o, p);
  }

  /** The pages that a sequence of calls may ask for, all together. */
  function Demand(calls: seq<HeapCall>): nat {
    if calls == [] then 0 else Demand(calls[..|calls| - 1]) + Wanted(calls[|calls| - 1])
  }

  lemma {:induction false} DemandGrows(calls: seq<HeapCall>, i: nat)
    requires i < |calls|
    ensures Demand(calls[..i + 1]) == Demand(calls[..i]) + Wanted(calls[i]) && Demand(calls[..i + 1]) <= Demand(calls)
  {
    assert calls[..i + 1][..i] == calls[..i];
    if i + 1 == |calls| {
      assert calls[..i + 1] == calls;
    } else {
      DemandGrows(calls[..|calls| - 1], i);
      assert calls[..|calls| - 1][..i + 1] == calls[..i + 1];
      assert calls[..|calls| - 1][..i] == calls[..i];
    }
  }

  /** Both pools, as bitmaps, and the pages mapped. */
  ghost predicate SamePools(vb: seq<bool>, fb: seq<bool>, f: map<int, int>, vb': seq<bool>, fb': seq<bool>, f': map<int, int>) {
    vb' == vb && fb' == fb && f' == f
  }

  lemma SameHeld(vb: seq<bool>, vb': seq<bool>, held: set<int>)
    requires |vb| == |vb'|
    requires forall i | 0 <= i < |vb| :: vb[i] <==> i in held
    requires forall i | 0 <= i < |vb'| :: vb'[i] <==> i in held
    ensures vb == vb'
  {}

  /** A call for memory that was answered with NULL. */
  ghost predicate Refusal(c: HeapCall, r: int) { (c.Request? || c.TakePages?) && r == NULL }

  ghost predicate SomeRefused(calls: seq<HeapCall>, rs: seq<int>) {
    exists i :: 0 <= i < |rs| && i < |calls| && Refusal(calls[i], rs[i])
  }

  lemma RefusedMore(calls: seq<HeapCall>, rs: seq<int>, r: int)
    requires |rs| < |calls|
    ensures SomeRefused(calls, rs + [r]) <==> SomeRefused(calls, rs) || Refusal(calls[|rs|], r)
  {
    hide Refusal;
    var more := rs + [r];
    if Refusal(calls[|rs|], r) { assert Refusal(calls[|rs|], more[|rs|]); }
    if SomeRefused(calls, rs) {
      var i :| 0 <= i < |rs| && i < |calls| && Refusal(calls[i], rs[i]);
      assert Refusal(calls[i], more[i]);
    }
  }

  lemma IdealMore(calls: seq<HeapCall>, rs: seq<int>, r: int)
    requires |rs| < |calls|
    ensures Ideal(calls, rs + [r]) == IdealStep(Ideal(calls, rs), calls[|rs|], r)
  {
    assert (rs + [r])[..|rs|] == rs;
  }

  /** Room above everything in use makes a call admissible. */
  lemma RoomAdmits(h: Heap, c: HeapCall, vb: seq<bool>, mark: nat, d: nat)
    requires h.Valid() && Legal(c) && Anywhere(c)
    requires FreeFrom(vb, mark) && Rises(vb, h.pages.vmap.Bits(), d)
    requires h.pages.Limit() == |vb| || mark + d + Wanted(c) <= h.pages.Limit()
    ensures Admissible(h, c)
  {
    hide Heap.Valid, Reach, IsFirstFit, RunFree, PageCount, ClassOf;
    var k := Wanted(c);
    if c.Request? { ServedExact(c.size); }
    if k >= 1 {
      if h.pages.Limit() == |vb| {
        FitsAll(h.pages.vmap.Bits(), k);
      } else {
        RoomFits(h.pages.vmap.Bits(), mark + d, k, h.pages.Limit());
      }
    }
  }

  /** And with as many frames as that makes it servable. */
  lemma RoomServes(h: Heap, c: HeapCall, vb: seq<bool>, mark: nat, d: nat)
    requires h.Valid() && Legal(c) && Anywhere(c)
    requires FreeFrom(vb, mark) && Rises(vb, h.pages.vmap.Bits(), d)
    requires mark + d + Wanted(c) <= |vb| && mark + d + Wanted(c) <= |h.pages.pmap.Bits()|
    ensures Servable(h, c)
  {
    hide Heap.Valid, Reach, IsFirstFit, RunFree, PageCount, ClassOf, FreeCount, OneToOne;
    var k := Wanted(c);
    h.PoolLengths();
    FramesLeft(h.pages.vmap.Bits(), h.pages.pmap.Bits(), h.pages.frameOf, h.pages.pageOf, mark + d);
    RoomRun(h.pages.vmap.Bits(), mark + d, k);
  }

  lemma RoomRun(vb: seq<bool>, mark: nat, k: nat)
    requires FreeFrom(vb, mark) && mark + k <= |vb|
    ensures RunFree(vb, mark, k)
  {}

  lemma FitsAll(vb: seq<bool>, k: nat)
    requires k >= 1
    ensures FitsBelow(vb, k, |vb|)
  {}

  /** The pages that the calls ask for, added up, fit between the mark and the limit, or the whole pool of
      n pages lies below the limit. */
  ghost predicate Enough(calls: seq<HeapCall>, mark: nat, limit: nat, n: nat) {
    (forall c | c in calls :: Anywhere(c)) && (limit == n || mark + Demand(calls) <= limit)
  }

  /** The pages that the calls ask for, added up, fit between the mark and the limit, and into n frames. */
  ghost predicate Plenty(calls: seq<HeapCall>, mark: nat, limit: nat, n: nat) {
    (forall c | c in calls :: Anywhere(c)) && mark + Demand(calls) <= limit && mark + Demand(calls) <= n
  }

  lemma PlentyNext(h: Heap, calls: seq<HeapCall>, vb: seq<bool>, mark: nat, i: nat)
    requires h.Valid() && i < |calls| && Legal(calls[i]) && Plenty(calls, mark, h.pages.Limit(), |h.pages.pmap.Bits()|)
    requires FreeFrom(vb, mark) && Rises(vb, h.pages.vmap.Bits(), Demand(calls[..i])) && h.pages.Limit() <= |vb|
    ensures Servable(h, calls[i])
  {
    hide Heap.Valid, Rises, FreeFrom, Legal, Anywhere, Servable, Wanted, PageLayer.Limit;
    DemandGrows(calls, i);
    assert calls[i] in calls;
    RoomServes(h, calls[i], vb, mark, Demand(calls[..i]));
  }

  lemma PlentyEnough(calls: seq<HeapCall>, mark: nat, limit: nat, n: nat, k: nat)
    requires Plenty(calls, mark, limit, k)
    ensures Enough(calls, mark, limit, n)
  {}

  lemma LimitBelow(h: Heap)
    requires h.Valid()
    ensures h.pages.Limit() <= |h.pages.vmap.Bits()|
  {
    h.PoolLengths();
  }

  lemma EnoughNext(h: Heap, calls: seq<HeapCall>, vb: seq<bool>, mark: nat, i: nat)
    requires h.Valid() && i < |calls| && Legal(calls[i]) && Enough(calls, mark, h.pages.Limit(), |vb|)
    requires FreeFrom(vb, mark) && Rises(vb, h.pages.vmap.Bits(), Demand(calls[..i]))
    ensures Admissible(h, calls[i])
  {
    hide Heap.Valid, Rises, FreeFrom, Legal, Anywhere, Admissible, Wanted, PageLayer.Limit;
    DemandGrows(calls, i);
    assert calls[i] in calls;
    RoomAdmits(h, calls[i], vb, mark, Demand(calls[..i]));
  }

  lemma RisesOn(vb: seq<bool>, vb1: seq<bool>, vb2: seq<bool>, d: nat, k: nat)
    requires Rises(vb, vb1, d) && Rises(vb1, vb2, k)
    ensures Rises(vb, vb2, d + k)
  {
    forall mark: nat | FreeFrom(vb, mark) ensures FreeFrom(vb2, mark + (d + k)) {
      assert FreeFrom(vb1, mark + d);
      assert mark + (d + k) == (mark + d) + k;
    }
  }

  /** The loop over the calls. */
  method Serve(h: Heap, calls: seq<HeapCall>, ghost o: Origin, ghost p: Words, ghost mark: nat)
    returns (rs: seq<int>, cl: Client, failed: bool, ghost q: Words)
    requires Serving(h, Client([], []), false, o, p) && forall c | c in calls :: Legal(c)
    requires FreeFrom(h.pages.vmap.Bits(), mark)
    modifies h, h.ram, h.pages, h.pages.vmap, h.pages.pmap, h.pages.vmap.bits, h.pages.pmap.bits, h.pages.mmu.ram
    ensures |rs| <= |calls| && cl == Ideal(calls, rs) && Serving(h, cl, failed, o, q) && (failed <==> SomeRefused(calls, rs))
    ensures |rs| < |calls| ==> !Admissible(h, calls[|rs|])
    ensures h.pages.Limit() == old(h.pages.Limit())
    ensures Enough(calls, mark, h.pages.Limit(), |old(h.pages.vmap.Bits())|) ==> |rs| == |calls|
    ensures Plenty(calls, mark, h.pages.Limit(), |old(h.pages.pmap.Bits())|) ==> !failed
  {
    hide Heap.Valid, Holds, RunsHeld, OnlyOurs, Rises, FreeFrom, Legal, Anywhere, Wanted, IdealStep, Refusal, RunPages, Reach,
         Admissible, Servable, Enough, Plenty, Physical;
    rs, cl, failed, q := [], Client([], []), false, p;
    ghost var vb, frames := h.pages.vmap.Bits(), |h.pages.pmap.Bits()|;
    RisesNot(vb, 0);
    HeapParts(h);
    h.PoolLengths();
    LimitBelow(h);
    while |rs| < |calls|
      invariant |rs| <= |calls| && Serving(h, cl, failed, o, q) && cl == Ideal(calls, rs)
      invariant failed <==> SomeRefused(calls, rs)
      invariant |h.pages.vmap.Bits()| == |vb| && |h.pages.pmap.Bits()| == frames
      invariant Plenty(calls, mark, h.pages.Limit(), frames) ==> !failed
      invariant Enough(calls, mark, h.pages.Limit(), |vb|) ==> Rises(vb, h.pages.vmap.Bits(), Demand(calls[..|rs|]))
    {
      var c := calls[|rs|];
      if Enough(calls, mark, h.pages.Limit(), |vb|) { EnoughNext(h, calls, vb, mark, |rs|); }
      var ok := StaysSafe(h, c);
      if !ok {
        return;
      }
      if Plenty(calls, mark, h.pages.Limit(), frames) {
        PlentyEnough(calls, mark, h.pages.Limit(), |vb|, frames);
        PlentyNext(h, calls, vb, mark, |rs|);
      }
      ghost var vb1 := h.pages.vmap.Bits();
      var r;
      cl, failed, r, q := OneCall(h, c, cl, failed, o, q);
      HeapParts(h);
      h.PoolLengths();
      if Enough(calls, mark, h.pages.Limit(), |vb|) { RisesWith(calls, mark, h.pages.Limit(), vb, vb1, h.pages.vmap.Bits(), |rs|); }
      IdealMore(calls, rs, r);
      RefusedMore(calls, rs, r);
      rs := rs + [r];
    }
  }

  lemma RisesWith(calls: seq<HeapCall>, mark: nat, limit: nat, vb: seq<bool>, vb1: seq<bool>, vb2: seq<bool>, i: nat)
    requires i < |calls| && Enough(calls, mark, limit, |vb|) && Rises(vb, vb1, Demand(calls[..i]))
    requires Anywhere(calls[i]) ==> Rises(vb1, vb2, Wanted(calls[i]))
    ensures Rises(vb, vb2, Demand(calls[..i + 1]))
  {
    hide Rises, Anywhere, Wanted;
    assert calls[i] in calls;
    DemandGrows(calls, i);
    RisesOn(vb, vb1, vb2, Demand(calls[..i]), Wanted(calls[i]));
  }

  /** Physical memory p, read through the page tables, holds what the buffers' owners stored. */
  ghost predicate InPhysical(bufs: seq<Buffer>, p: Words) {
    forall k, i | 0 <= k < |bufs| && 0 <= i < |bufs[k].data| :: HoldsAt(p, bufs[k].addr + 4 * i, bufs[k].data[i])
  }

  ghost predicate HoldsAt(p: Words, y: int, x: int) { Walk(p, PAGE_DIR, y).Mapped? && Seen(p, PAGE_DIR, y) == x }

  lemma BuffersShown(bufs: seq<Buffer>, w: Words, s: Slab, p: Words)
    requires Shape(s) && Accounted(s) && Holds(bufs, w, s.live) && Mirrors(s, p, w)
    ensures InPhysical(bufs, p)
  {
    hide Shape, Accounted, HeapWord, Walk, End, Aligned;
    forall k, i | 0 <= k < |bufs| && 0 <= i < |bufs[k].data| ensures HoldsAt(p, bufs[k].addr + 4 * i, bufs[k].data[i]) {
      var y := bufs[k].addr + 4 * i;
      WordInside(s, bufs, w, k, i);
      BufferWord(s, bufs[k].addr, y);
      assert Mirrored(p, w, y);
      assert BufferAt(bufs[k], w, s.live);
    }
  }

  /** Any sequence of calls and stores, up to the first call that would reach the recursive window. At every
      point the heap is, to its clients, a set of independent buffers that start out zeroed: memory holds what
      their owners stored last, at the virtual addresses and behind the page tables. The frames of pages that
      others had at the start are not touched. When everything has been given back and no call was refused, the
      lists are empty and both bitmaps and the mapped pages are as at the start. The run goes through to the end
      when the pages it asks for, added up, fit between what is in use and the window, or when the pool ends
      below it; and no call is refused when they also fit into the frames. phys and phys' are physical memory before and after. */
  method RunCalls(h: Heap, calls: seq<HeapCall>, ghost mark: nat, ghost phys: Words)
    returns (rs: seq<int>, cl: Client, ghost phys': Words)
    requires h.Valid() && h.s.live == map[] && forall c | c in calls :: Legal(c)
    requires FreeFrom(h.pages.vmap.Bits(), mark) && Agree(h.pages.mmu.ram.w, phys)
    modifies h, h.ram, h.pages, h.pages.vmap, h.pages.pmap, h.pages.vmap.bits, h.pages.pmap.bits, h.pages.mmu.ram
    ensures |rs| <= |calls| && cl == Ideal(calls, rs)
    ensures h.Valid() && Holds(cl.bufs, h.ram.w, h.s.live)
    ensures Agree(h.pages.mmu.ram.w, phys') && InPhysical(cl.bufs, phys')
    ensures FramesKept(Origin(old(h.books), phys), h.pages.pStart, phys')
    ensures RunsHeld(cl.runs, h.pages.vStart, h.pages.Limit(), h.books.other.Keys)
    ensures cl.bufs == [] ==> forall c | IsClass(c) :: h.s.free[c] == []
    ensures cl == Client([], []) && !SomeRefused(calls, rs) ==>
              SamePools(old(h.pages.vmap.Bits()), old(h.pages.pmap.Bits()), old(h.pages.frameOf),
                        h.pages.vmap.Bits(), h.pages.pmap.Bits(), h.pages.frameOf)
    ensures |rs| < |calls| ==> !Admissible(h, calls[|rs|])
    ensures h.pages.Limit() == old(h.pages.Limit()) && |h.pages.pmap.Bits()| == old(|h.pages.pmap.Bits()|)
    ensures Enough(calls, mark, h.pages.Limit(), |old(h.pages.vmap.Bits())|) ==> |rs| == |calls|
    ensures Plenty(calls, mark, h.pages.Limit(), |old(h.pages.pmap.Bits())|) ==> |rs| == |calls| && !SomeRefused(calls, rs)
  {
    hide Heap.Valid, Holds, RunsHeld, Rises, FreeFrom, Legal, Ideal, SomeRefused, Reach, Admissible, Enough, Plenty, Agree, Mirrors, OthersStay,
         FramesKept, InPhysical;
    h.Drained();
    h.PoolLengths();
    ghost var o, vb, fb, f, p := Origin(h.books, phys), h.pages.vmap.Bits(), h.pages.pmap.Bits(), h.pages.frameOf, h.pages.pageOf;
    RunStart(h, phys);
    var failed;
    rs, cl, failed, phys' := Serve(h, calls, o, phys, mark);
    if Plenty(calls, mark, h.pages.Limit(), |fb|) { PlentyEnough(calls, mark, h.pages.Limit(), |vb|, |fb|); }
    HeapParts(h);
    h.PoolLengths();
    BuffersShown(cl.bufs, h.ram.w, h.s, phys');
    if cl.bufs == [] {
      HoldsNothing(cl.bufs, h.ram.w, h.s.live);
      h.Drained();
      h.PoolLengths();
      if cl.runs == [] && !failed {
        NothingOurs(h.books, o.books);
        SameHeld(vb, h.pages.vmap.Bits(), o.books.held);
        FramesDetermined(vb, fb, h.pages.vmap.Bits(), h.pages.pmap.Bits(), f, p, h.pages.pageOf);
      }
    }
  }

  lemma RunStart(h: Heap, p: Words)
    requires h.Valid() && h.s.live == map[] && Agree(h.pages.mmu.ram.w, p)
    ensures Serving(h, Client([], []), false, Origin(h.books, p), p)
  {
    hide Heap.Valid, Reach, Agree, Walk;
    HeapParts(h);
    h.Drained();
    NothingMirrored(h.s, p, h.ram.w);
  }

  lemma NothingMirrored(s: Slab, p: Words, n: Words)
    requires s.arenas == map[] && s.large == map[]
    ensures Mirrors(s, p, n)
  {}
}
