/** The on-disk layout that fs_format of fs.c computes, in the source's 32-bit arithmetic,
    and the inode numbers fs_mount assigns. */
module FsLayout {
  const WRAP := 0x1_0000_0000
  const SECTOR_SIZE := 512
  const BLOCK_SIZE := 4096
  const SECTORS_PER_BLOCK := 8
  const INODE_SIZE := 60           // sizeof(struct inode_hd)
  const INODE_CNT_MAX := SECTOR_SIZE * 8
  const INODE_PER_SEC := SECTOR_SIZE / INODE_SIZE
  const BITS_PER_SEC := SECTOR_SIZE * 8
  const USED_SEC := 515            // boot sector, super block, inode bitmap and table
  const FREE_LIMIT := 0x80_0000    // sectors whose byte count still fits 32 bits

  function W(x: int): int { x % WRAP }

  /** A super block's layout fields. */
  datatype Layout = Layout(inodeCnt: int, inodeBtmpLba: int, inodeBtmpSec: int, inodeTableLba: int, inodeTableSec: int,
                           blkCnt: int, blkBtmpLba: int, blkBtmpSec: int, blkLba: int)

  /** n sectors, as a number of whole blocks: n * SECTOR_SIZE / BLOCK_SIZE in 32-bit arithmetic. */
  function BlocksIn(n: int): int { W(n * SECTOR_SIZE) / BLOCK_SIZE }

  function BitmapSectors(blocks: int): int { W(blocks + BITS_PER_SEC - 1) / BITS_PER_SEC }

  /** The struct super_block that fs_format fills field by field. */
  class SuperBlock {
    var inodeCnt: int
    var inodeBtmpLba: int
    var inodeBtmpSec: int
    var inodeTableLba: int
    var inodeTableSec: int
    var blkCnt: int
    var blkBtmpLba: int
    var blkBtmpSec: int
    var blkLba: int

    function Fields(): Layout
      reads this
    {
      Layout(inodeCnt, inodeBtmpLba, inodeBtmpSec, inodeTableLba, inodeTableSec, blkCnt, blkBtmpLba, blkBtmpSec, blkLba)
    }

    /** The layout part of fs_format. */
    method Format(startLba: int, secCnt: int)
      modifies this
      ensures Fields() == LayoutOf(startLba, secCnt)
    {
      Small(USED_SEC);
      hide W;
      inodeCnt := INODE_CNT_MAX;
      inodeBtmpLba := W(startLba + 2);
      inodeBtmpSec := 1;
      inodeTableLba := W(inodeBtmpLba + 1);
      inodeTableSec := INODE_CNT_MAX / INODE_PER_SEC;
      var usedSec := W(2 + inodeBtmpSec + inodeTableSec);
      var freeSec := W(secCnt - usedSec);
      blkCnt := W(freeSec * SECTOR_SIZE) / BLOCK_SIZE;
      blkBtmpLba := W(inodeTableLba + inodeTableSec);
      blkBtmpSec := W(blkCnt + SECTOR_SIZE * 8 - 1) / (SECTOR_SIZE * 8);
      blkCnt := W(W(freeSec - blkBtmpSec) * SECTOR_SIZE) / BLOCK_SIZE;
      blkLba := W(blkBtmpLba + blkBtmpSec);
    }
  }

  function FreeSectors(secCnt: int): int { W(secCnt - USED_SEC) }

  function BtmpSec(secCnt: int): int { BitmapSectors(BlocksIn(FreeSectors(secCnt))) }

  function LayoutOf(start: int, secCnt: int): Layout {
    var btmp := BtmpSec(secCnt);
    Layout(INODE_CNT_MAX, W(start + 2), 1, W(W(start + 2) + 1), 512,
           BlocksIn(W(FreeSectors(secCnt) - btmp)), W(W(W(start + 2) + 1) + 512), btmp, W(W(W(W(start + 2) + 1) + 512) + btmp))
  }

  // ----- 32-bit arithmetic -----

  lemma Small(x: int)
    requires 0 <= x < WRAP
    ensures W(x) == x
  {}

  lemma WrapSum(q: int, x: int)
    requires 0 <= x < WRAP
    ensures W(q * WRAP + x) == x
  {}

  /** Blocks are counted modulo 2^23 sectors. */
  lemma BlocksInIs(n: int)
    ensures BlocksIn(n) == n % FREE_LIMIT / SECTORS_PER_BLOCK
  {
    var q, d := n / FREE_LIMIT, n % FREE_LIMIT;
    assert n * SECTOR_SIZE == q * WRAP + d * SECTOR_SIZE;
    WrapSum(q, d * SECTOR_SIZE);
    EighthOf(d);
  }

  lemma EighthOf(d: int)
    requires d >= 0
    ensures d * SECTOR_SIZE / BLOCK_SIZE == d / SECTORS_PER_BLOCK
  {
    var q, r := d / SECTORS_PER_BLOCK, d % SECTORS_PER_BLOCK;
    assert d * SECTOR_SIZE == q * BLOCK_SIZE + r * SECTOR_SIZE;
    QuotientIs(d * SECTOR_SIZE, BLOCK_SIZE, q, r * SECTOR_SIZE);
  }

  lemma QuotientIs(x: int, d: int, q: int, r: int)
    requires d > 0 && x == q * d + r && 0 <= r < d
    ensures x / d == q
  {
    var e := x / d;
    assert e > q ==> e * d >= (q + 1) * d;
    assert e < q ==> (e + 1) * d <= q * d;
  }

  /** The bitmap has a bit for each block, and no whole sector too many. */
  lemma BitmapFits(blocks: int)
    requires 0 <= blocks < FREE_LIMIT
    ensures blocks <= BitmapSectors(blocks) * BITS_PER_SEC < blocks + BITS_PER_SEC
  {
    Small(blocks + BITS_PER_SEC - 1);
  }

  // ----- the layout is a partition -----

  /** The layout is what the design promises for a partition of secCnt sectors at start: behind boot
      sector and super block come inode bitmap, inode table, block bitmap and data blocks, each right
      after the one before, the last ending inside the partition with fewer than 8 sectors to spare;
      the inode bitmap is one sector with a bit for every inode and none over, the inode table has just the
      sectors for them, the block bitmap has a bit for every block and at most one sector too many, being the
      smallest for the blocks that would fit without it. */
  predicate Partitioned(l: Layout, start: int, secCnt: int) {
    && l.inodeBtmpLba == start + 2
    && l.inodeTableLba == l.inodeBtmpLba + l.inodeBtmpSec
    && l.blkBtmpLba == l.inodeTableLba + l.inodeTableSec
    && l.blkLba == l.blkBtmpLba + l.blkBtmpSec
    && 0 <= start + secCnt - (l.blkLba + l.blkCnt * SECTORS_PER_BLOCK) < SECTORS_PER_BLOCK
    && l.inodeBtmpSec == 1 && l.inodeCnt == l.inodeBtmpSec * BITS_PER_SEC
    && l.inodeCnt <= l.inodeTableSec * INODE_PER_SEC < l.inodeCnt + INODE_PER_SEC
    && l.blkCnt >= 0 && l.blkBtmpSec >= 0
    && l.blkCnt <= l.blkBtmpSec * BITS_PER_SEC < l.blkCnt + 2 * BITS_PER_SEC
    && var room := (start + secCnt - l.blkBtmpLba) / SECTORS_PER_BLOCK;
       room <= l.blkBtmpSec * BITS_PER_SEC < room + BITS_PER_SEC
  }

  /** The addresses, when the bitmap ends inside the partition. */
  lemma LbasPlain(start: int, secCnt: int, btmp: int)
    requires 0 <= start && start + secCnt < WRAP && 0 <= btmp && USED_SEC + btmp <= secCnt
    ensures W(start + 2) == start + 2 && W(W(start + 2) + 1) == start + 3 && W(W(W(start + 2) + 1) + 512) == start + USED_SEC
    ensures W(W(W(W(start + 2) + 1) + 512) + btmp) == start + USED_SEC + btmp
  {
    Small(start + 2);
    Small(start + 3);
    Small(start + USED_SEC);
    Small(start + USED_SEC + btmp);
  }

  /** d sectors have room for the bitmap of their blocks. */
  lemma BitmapBelow(d: int)
    requires 0 <= d < FREE_LIMIT
    ensures 0 <= BitmapSectors(d / SECTORS_PER_BLOCK) <= d && BitmapSectors(d / SECTORS_PER_BLOCK) <= 256
  {
    var b := d / SECTORS_PER_BLOCK;
    BitmapFits(b);
    if b == 0 { Small(BITS_PER_SEC - 1); }
  }

  /** Without wrap-around: free sectors, bitmap and blocks are what they seem. */
  lemma PlainCounts(secCnt: int)
    requires USED_SEC <= secCnt < USED_SEC + FREE_LIMIT
    ensures FreeSectors(secCnt) == secCnt - USED_SEC && BtmpSec(secCnt) == BitmapSectors((secCnt - USED_SEC) / SECTORS_PER_BLOCK)
    ensures 0 <= BtmpSec(secCnt) <= secCnt - USED_SEC && BtmpSec(secCnt) <= 256
    ensures BlocksIn(W(FreeSectors(secCnt) - BtmpSec(secCnt))) == (secCnt - USED_SEC - BtmpSec(secCnt)) / SECTORS_PER_BLOCK
  {
    var free := secCnt - USED_SEC;
    Small(free);
    BlocksInIs(free);
    Remainder(free);
    BitmapBelow(free);
    Small(free - BtmpSec(secCnt));
    BlocksInIs(free - BtmpSec(secCnt));
    Remainder(free - BtmpSec(secCnt));
  }

  lemma Remainder(x: int)
    requires 0 <= x < FREE_LIMIT
    ensures x % FREE_LIMIT == x
  {}

  /** The bitmap costs at most 33 blocks. */
  lemma BitmapCost(free: int, btmp: int)
    requires 0 <= btmp <= 256 && btmp <= free
    ensures free / SECTORS_PER_BLOCK - 33 <= (free - btmp) / SECTORS_PER_BLOCK <= free / SECTORS_PER_BLOCK
  {}

  lemma FormatGood(start: int, secCnt: int)
    requires 0 <= start && start + secCnt < WRAP && USED_SEC <= secCnt < USED_SEC + FREE_LIMIT
    ensures Partitioned(LayoutOf(start, secCnt), start, secCnt)
  {
    var free, btmp := secCnt - USED_SEC, BtmpSec(secCnt);
    PlainCounts(secCnt);
    LbasPlain(start, secCnt, btmp);
    BitmapFits(free / SECTORS_PER_BLOCK);
    BitmapCost(free, btmp);
    hide BtmpSec, BlocksIn, BitmapSectors, FreeSectors, W;
  }

  /** With 2^23 or more free sectors the byte count wraps and space is lost. */
  lemma WrappedCounts(secCnt: int)
    requires USED_SEC + FREE_LIMIT <= secCnt < WRAP
    ensures BtmpSec(secCnt) >= 0
    ensures secCnt - USED_SEC - BtmpSec(secCnt) - BlocksIn(W(FreeSectors(secCnt) - BtmpSec(secCnt))) * SECTORS_PER_BLOCK >= FREE_LIMIT
  {
    var free := secCnt - USED_SEC;
    Small(free);
    BlocksInIs(free);
    var d := free % FREE_LIMIT;
    BitmapBelow(d);
    var left := free - BtmpSec(secCnt);
    assert BtmpSec(secCnt) == BitmapSectors(d / SECTORS_PER_BLOCK);
    assert left >= free - d >= FREE_LIMIT;
    Small(left);
    BlocksInIs(left);
    hide BtmpSec, BlocksIn, BitmapSectors, FreeSectors, W;
    assert left - left % FREE_LIMIT >= FREE_LIMIT;
  }

  /** fs_format lays out a partition as promised exactly when it has the fixed sectors and fewer than
      2^23 others. */
  lemma FormatExact(start: int, secCnt: int)
    requires 0 <= start && 0 <= secCnt && start + secCnt < WRAP
    ensures Partitioned(LayoutOf(start, secCnt), start, secCnt) <==> USED_SEC <= secCnt < USED_SEC + FREE_LIMIT
  {
    if USED_SEC <= secCnt < USED_SEC + FREE_LIMIT {
      FormatGood(start, secCnt);
    } else if secCnt >= USED_SEC + FREE_LIMIT {
      WrappedCounts(secCnt);
    }
    hide BtmpSec, BlocksIn, BitmapSectors, FreeSectors, W;
  }

  // ----- inode numbers -----

  /** inode_max of fs_mount, and per partition the base it was given (absent: still 0). */
  datatype Mounts = Mounts(max: nat, base: map<int, nat>)

  function Base(s: Mounts, p: int): nat { if p in s.base then s.base[p] else 0 }

  /** The inode_base assignment of fs_mount for partition p with cnt inodes, in 32-bit arithmetic. */
  function Mounted(s: Mounts, p: int, cnt: nat): Mounts {
    if Base(s, p) == 0 then Mounts((s.max + cnt) % WRAP, s.base[p := (s.max + 1) % WRAP]) else s
  }

  /** Each partition's numbers [base, base + count) lie in 1..max, apart from every other's. */
  ghost predicate Numbered(s: Mounts, cnt: int -> nat) {
    && (forall p | p in s.base :: 1 <= s.base[p] && s.base[p] + cnt(p) <= s.max + 1)
    && (forall p, q | p in s.base && q in s.base && p != q :: s.base[p] + cnt(p) <= s.base[q] || s.base[q] + cnt(q) <= s.base[p])
  }

  /** Partition p has its numbers, or they fit 32 bits. */
  predicate Fits(s: Mounts, p: int, cnt: int -> nat) { Base(s, p) != 0 || (s.max + cnt(p) < WRAP && s.max + 1 < WRAP) }

  lemma MountKeeps(s: Mounts, p: int, cnt: int -> nat)
    requires Numbered(s, cnt) && Fits(s, p, cnt)
    ensures Numbered(Mounted(s, p, cnt(p)), cnt) && Base(Mounted(s, p, cnt(p)), p) != 0
    ensures forall q | q in s.base :: Base(Mounted(s, p, cnt(p)), q) == s.base[q]
  {
    if Base(s, p) == 0 {
      NoWrap(s, p, cnt);
      hide Mounted;
    }
  }

  lemma NoWrap(s: Mounts, p: int, cnt: int -> nat)
    requires Base(s, p) == 0 && Fits(s, p, cnt)
    ensures Mounted(s, p, cnt(p)) == Mounts(s.max + cnt(p), s.base[p := s.max + 1])
  {}

  /** A mount keeps the numbers in order exactly when they fit 32 bits; one that wraps gives p a range that
      runs past the counter, or the base 0 that stands for none. */
  lemma MountExact(s: Mounts, p: int, cnt: int -> nat)
    requires Numbered(s, cnt) && s.max < WRAP
    ensures Numbered(Mounted(s, p, cnt(p)), cnt) <==> Fits(s, p, cnt)
  {
    if Fits(s, p, cnt) {
      MountKeeps(s, p, cnt);
    } else {
      var t := Mounted(s, p, cnt(p));
      if s.max + cnt(p) >= WRAP { WrapLess(s.max + cnt(p)); }
      assert p in t.base && t.base[p] == (s.max + 1) % WRAP;
      assert t.base[p] == if s.max + 1 == WRAP then 0 else s.max + 1;
    }
  }

  lemma WrapLess(x: nat)
    requires x >= WRAP
    ensures x % WRAP <= x - WRAP
  {}

  function MountAll(s: Mounts, ps: seq<int>, cnt: int -> nat): Mounts
    decreases |ps|
  {
    if ps == [] then s else MountAll(Mounted(s, ps[0], cnt(ps[0])), ps[1..], cnt)
  }

  /** No mount of the sequence wraps. */
  ghost predicate AllFit(s: Mounts, ps: seq<int>, cnt: int -> nat)
    decreases |ps|
  {
    ps == [] || (Fits(s, ps[0], cnt) && AllFit(Mounted(s, ps[0], cnt(ps[0])), ps[1..], cnt))
  }

  /** Over any sequence of mounts and remounts whose numbers fit 32 bits bases are kept once given, ranges of
      different partitions are disjoint, and none contains 0. */
  lemma {:induction false} MountsKeep(s: Mounts, ps: seq<int>, cnt: int -> nat)
    requires Numbered(s, cnt) && AllFit(s, ps, cnt)
    ensures Numbered(MountAll(s, ps, cnt), cnt)
    ensures forall q | q in s.base :: Base(MountAll(s, ps, cnt), q) == s.base[q]
    ensures forall q | q in ps :: Base(MountAll(s, ps, cnt), q) != 0
    decreases |ps|
  {
    if ps != [] {
      MountKeeps(s, ps[0], cnt);
      MountsKeep(Mounted(s, ps[0], cnt(ps[0])), ps[1..], cnt);
      assert ps == [ps[0]] + ps[1..];
    }
  }

  /** fs_mount's static counter and the partitions' fields. */
  class MountTable {
    var inodeMax: nat
    var inodeBase: map<int, nat>

    constructor ()
      ensures State() == Mounts(0, map[])
    {
      inodeMax, inodeBase := 0, map[];
    }

    function State(): Mounts
      reads this
    {
      Mounts(inodeMax, inodeBase)
    }

    /** The inode-number part of fs_mount. */
    method Mount(p: int, inodeCnt: nat)
      modifies this
      ensures State() == Mounted(old(State()), p, inodeCnt)
    {
      if p !in inodeBase || inodeBase[p] == 0 {
        inodeBase := inodeBase[p := (inodeMax + 1) % WRAP];
        inodeMax := (inodeMax + inodeCnt) % WRAP;
      }
    }
  }
}
