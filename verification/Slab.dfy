/** The layout of the slab heap of memory.c: seven block classes, one-page arenas with a
    12-byte header, and where blocks, headers, list nodes and descriptors lie. */
module SlabLayout {
  import opened Words
  import opened Paging

  const CLASSES := 7
  const ARENA_HDR := 12
  const DESC_SIZE := 48            // sizeof(struct mem_block_desc)
  const LIST_OFFSET := 8           // free_list inside a descriptor
  const HEAP_START := 0xC010_0000
  const UINT_RANGE := 0x1_0000_0000
  const LARGEST := 0xFFFF_EFF4     // the largest request whose page count does not wrap

  predicate IsClass(c: int) { 0 <= c < CLASSES }

  /** block_size of class c. */
  function BlockSize(c: int): int {
    if c == 0 then 16 else if c == 1 then 32 else if c == 2 then 64 else if c == 3 then 128
    else if c == 4 then 256 else if c == 5 then 512 else 1024
  }

  /** blocks_per_arena of class c. */
  function BlocksPer(c: int): nat {
    if c == 0 then 255 else if c == 1 then 127 else if c == 2 then 63 else if c == 3 then 31
    else if c == 4 then 15 else if c == 5 then 7 else 3
  }

  lemma BlocksFill(c: int)
    requires IsClass(c)
    ensures BlocksPer(c) == (PG_SIZE - ARENA_HDR) / BlockSize(c) && BlockSize(c) >= 16 && BlockSize(c) % 4 == 0
    ensures ARENA_HDR + BlocksPer(c) * BlockSize(c) <= PG_SIZE && Aligned(BlockSize(c))
  {}

  /** The block sizes double from 16 to 1024. */
  lemma SizesDouble(c: int)
    requires IsClass(c)
    ensures BlockSize(c) == (if c == 0 then 16 else 2 * BlockSize(c - 1)) && (BlockSize(c) == 1024 <==> c == CLASSES - 1)
  {}

  /** Some class has blocks of size bytes. */
  predicate FitsBlock(size: int) { size <= BlockSize(CLASSES - 1) }

  /** The k-th of consecutive blocks of bs bytes. */
  function BlockAt(start: int, bs: int, k: nat): int {
    if k == 0 then start else BlockAt(start, bs, k - 1) + bs
  }

  /** arena2block */
  function Arena2Block(a: int, c: int, k: nat): int { BlockAt(a + ARENA_HDR, BlockSize(c), k) }

  lemma {:induction false} BlockAtFormula(start: int, bs: int, k: nat)
    ensures BlockAt(start, bs, k) == start + k * bs
  {
    if k > 0 {
      BlockAtFormula(start, bs, k - 1);
    }
  }

  /** block2arena */
  function Block2Arena(x: int): int { PageOf(x) }

  function Desc(base: int, c: int): int { base + c * DESC_SIZE }

  function FreeList(base: int, c: int): int { Desc(base, c) + LIST_OFFSET }

  /** The first n of consecutive blocks of bs bytes. */
  function BlocksTo(start: int, bs: int, n: nat): (r: set<int>)
    requires bs >= 4
    ensures |r| == n && BlockAt(start, bs, n) >= start
    ensures forall x | x in r :: start <= x && x + bs <= BlockAt(start, bs, n)
  {
    if n == 0 then {} else BlocksTo(start, bs, n - 1) + {BlockAt(start, bs, n - 1)}
  }

  /** Word-sized strides keep the alignment. */
  lemma {:induction false} BlockAtStride(start: int, w: int, k: nat)
    ensures BlockAt(start, 4 * w, k) == start + 4 * BlockAt(0, w, k)
  {
    if k > 0 {
      BlockAtStride(start, w, k - 1);
    }
  }

  lemma {:induction false} BlockIndex(start: int, bs: int, n: nat, x: int) returns (k: nat)
    requires bs >= 4 && x in BlocksTo(start, bs, n)
    ensures k < n && x == BlockAt(start, bs, k)
  {
    if x == BlockAt(start, bs, n - 1) {
      k := n - 1;
    } else {
      k := BlockIndex(start, bs, n - 1, x);
    }
  }

  /** The blocks of an arena of class c at page a. */
  function Blocks(a: int, c: int): (r: set<int>)
    requires IsClass(c)
    ensures |r| == BlocksPer(c)
  {
    BlocksTo(a + ARENA_HDR, BlockSize(c), BlocksPer(c))
  }

  /** The first n of consecutive blocks, in order. */
  function BlockSeq(start: int, bs: int, n: nat): (r: seq<int>)
    ensures |r| == n
  {
    if n == 0 then [] else BlockSeq(start, bs, n - 1) + [BlockAt(start, bs, n - 1)]
  }

  lemma {:induction false} BlockSeqAt(start: int, bs: int, n: nat, k: nat)
    requires k < n
    ensures BlockSeq(start, bs, n)[k] == start + k * bs
  {
    if k == n - 1 {
      BlockAtFormula(start, bs, k);
    } else {
      BlockSeqAt(start, bs, n - 1, k);
    }
  }

  predicate IsPage(a: int) { a % PG_SIZE == 0 }

  lemma {:induction false} BlocksToApart(start: int, bs: int, n: nat, x: int, y: int)
    requires bs >= 4 && x in BlocksTo(start, bs, n) && y in BlocksTo(start, bs, n) && x != y
    ensures x + bs <= y || y + bs <= x
  {
    if x != BlockAt(start, bs, n - 1) && y != BlockAt(start, bs, n - 1) {
      BlocksToApart(start, bs, n - 1, x, y);
    }
  }

  lemma {:induction false} BlocksToHas(start: int, bs: int, n: nat, k: nat)
    requires bs >= 4 && k < n
    ensures BlockAt(start, bs, k) in BlocksTo(start, bs, n)
  {
    if k < n - 1 {
      BlocksToHas(start, bs, n - 1, k);
    }
  }

  lemma BlockWords(c: int) returns (w: int)
    requires IsClass(c)
    ensures BlockSize(c) == 4 * w
  {
    w := BlockSize(c) / 4;
  }

  lemma AlignedInPage(a: int, q: int)
    requires IsPage(a)
    ensures Aligned(a + ARENA_HDR + 4 * q)
  {}

  lemma BlockAligned(a: int, c: int, x: int)
    requires IsClass(c) && IsPage(a) && x in Blocks(a, c)
    ensures Aligned(x)
  {
    BlocksFill(c);
    var k := BlockIndex(a + ARENA_HDR, BlockSize(c), BlocksPer(c), x);
    var w := BlockWords(c);
    BlockAtStride(a + ARENA_HDR, w, k);
    AlignedInPage(a, BlockAt(0, w, k));
  }

  /** A block lies wholly in its arena's page, behind the header, and block2arena finds the page. */
  lemma BlockInPage(a: int, c: int, x: int)
    requires IsClass(c) && IsPage(a) && x in Blocks(a, c)
    ensures a + ARENA_HDR <= x && x + BlockSize(c) <= a + PG_SIZE && BlockSize(c) >= 16
    ensures Block2Arena(x) == a && Aligned(x)
  {
    BlockAligned(a, c, x);
    BlocksFill(c);
    BlockAtFormula(a + ARENA_HDR, BlockSize(c), BlocksPer(c));
    PageBase(a, x);
  }

  lemma PageBase(a: int, x: int)
    requires IsPage(a) && a <= x < a + PG_SIZE
    ensures PageOf(x) == a
  {}

  lemma HeaderAligned(a: int)
    requires IsPage(a)
    ensures Aligned(a) && Aligned(a + 4) && Aligned(a + 8)
  {}

  lemma BlocksApart(a: int, c: int, x: int, y: int)
    requires IsClass(c) && x in Blocks(a, c) && y in Blocks(a, c) && x != y
    ensures x + BlockSize(c) <= y || y + BlockSize(c) <= x
  {
    BlocksFill(c);
    BlocksToApart(a + ARENA_HDR, BlockSize(c), BlocksPer(c), x, y);
  }

  lemma BlockByIndex(a: int, c: int, k: nat)
    requires IsClass(c) && k < BlocksPer(c)
    ensures Arena2Block(a, c, k) in Blocks(a, c) && Arena2Block(a, c, k) == a + ARENA_HDR + k * BlockSize(c)
  {
    BlocksFill(c);
    BlocksToHas(a + ARENA_HDR, BlockSize(c), BlocksPer(c), k);
    BlockAtFormula(a + ARENA_HDR, BlockSize(c), k);
  }

  /** The class sys_malloc's search settles on for a small request. */
  function ClassOf(size: int): (c: int)
    requires 0 <= size && FitsBlock(size)
    ensures IsClass(c) && size <= BlockSize(c)
    ensures forall d | 0 <= d < c :: BlockSize(d) < size
  {
    if size <= 16 then 0 else if size <= 32 then 1 else if size <= 64 then 2 else if size <= 128 then 3
    else if size <= 256 then 4 else if size <= 512 then 5 else 6
  }

  /** DIV_ROUND_UP(size + sizeof(struct arena), PG_SIZE) in 32-bit arithmetic. */
  function PageCount(size: int): int { (size + ARENA_HDR + PG_SIZE - 1) % UINT_RANGE / PG_SIZE }

  /** The page count covers header and request exactly when the 32-bit sum does not wrap. */
  lemma PageCountExact(size: int)
    requires 0 <= size < UINT_RANGE
    ensures size + ARENA_HDR <= PageCount(size) * PG_SIZE <==> size <= LARGEST
    ensures size <= LARGEST ==> PageCount(size) >= 1 && (PageCount(size) - 1) * PG_SIZE < size + ARENA_HDR
  {}

  /** A request of almost 4 GB is granted one page. */
  lemma HugeRequestWraps()
    ensures PageCount(0xFFFF_FFF5) == 1
  {}

  /** A 32-bit size that does not wrap to a count of no pages at all. */
  predicate Countable(size: int) { 0 <= size < UINT_RANGE && PageCount(size) >= 1 }

  /** How many of the requested bytes the caller gets. */
  function Served(size: int): nat
    requires 0 <= size
  {
    if size <= LARGEST then size else if PageCount(size) == 0 then 0 else PG_SIZE - ARENA_HDR
  }

  /** The caller gets all it asked for exactly when the count does not wrap; otherwise it gets the rest of one
      page, or, for the first 4096 such sizes, of none. What it gets fits its pages. */
  lemma ServedExact(size: int)
    requires 0 <= size < UINT_RANGE
    ensures Served(size) >= size <==> size <= LARGEST
    ensures size > LARGEST ==> PageCount(size) == if size <= 0xFFFF_FFF4 then 0 else 1
    ensures Countable(size) ==> Served(size) + ARENA_HDR <= PageCount(size) * PG_SIZE
  {
    PageCountExact(size);
  }
}
