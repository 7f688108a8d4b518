/** The bit-array allocator of bitmap.c: one bit per unit, packed eight to a byte. */
module BitmapAllocator {
  import opened BitRuns

  const INT_BITS := 0x8000_0000  // indices are returned as a 32-bit int

  /** 1 << k on a byte. */
  function Mask(k: nat): bv8
    requires k < 8
  {
    (1 as bv8) << k
  }

  function PowerOfTwo(k: nat): bv8
    requires k < 8
  {
    if k == 0 then 1 else if k == 1 then 2 else if k == 2 then 4 else if k == 3 then 8
    else if k == 4 then 16 else if k == 5 then 32 else if k == 6 then 64 else 128
  }

  /** Bit k of a byte, by shifting it down to the lowest place. */
  predicate BitOf(byte: bv8, k: nat)
    requires k < 8
  {
    if k == 0 then byte & 1 != 0 else BitOf(byte >> 1, k - 1)
  }

  lemma MaskPower(k: nat)
    requires k < 8
    ensures Mask(k) == PowerOfTwo(k)
  {
    assert k == 0 || k == 1 || k == 2 || k == 3 || k == 4 || k == 5 || k == 6 || k == 7;
  }

  lemma {:induction false} PowerTests(byte: bv8, k: nat)
    requires k < 8
    ensures BitOf(byte, k) <==> byte & PowerOfTwo(k) != 0
  {
    if k > 0 {
      PowerTests(byte >> 1, k - 1);
    }
  }

  /** And-ing with a shifted one and shifting down agree. */
  lemma MaskTests(byte: bv8, k: nat)
    requires k < 8
    ensures BitOf(byte, k) <==> byte & ((1 as bv8) << k) != 0
  {
    hide BitOf;
    MaskPower(k);
    PowerTests(byte, k);
  }

  lemma SetPower(byte: bv8, k: nat, j: nat)
    requires k < 8 && j < 8
    ensures BitOf(byte | PowerOfTwo(k), j) <==> (j == k || BitOf(byte, j))
  {
    hide BitOf;
    PowerTests(byte, j);
    PowerTests(byte | PowerOfTwo(k), j);
  }

  lemma ClearPower(byte: bv8, k: nat, j: nat)
    requires k < 8 && j < 8
    ensures BitOf(byte & !PowerOfTwo(k), j) <==> (j != k && BitOf(byte, j))
  {
    hide BitOf;
    PowerTests(byte, j);
    PowerTests(byte & !PowerOfTwo(k), j);
  }

  /** Or-ing in a shifted one, or and-ing with its complement, sets or clears bit k of a byte and leaves the
      other seven alone. */
  lemma SetBit(byte: bv8, k: nat, j: nat)
    requires k < 8 && j < 8
    ensures BitOf(byte | ((1 as bv8) << k), j) <==> (j == k || BitOf(byte, j))
    ensures BitOf(byte & !((1 as bv8) << k), j) <==> (j != k && BitOf(byte, j))
  {
    hide BitOf, PowerOfTwo;
    MaskPower(k);
    SetPower(byte, k, j);
    ClearPower(byte, k, j);
  }

  lemma FullByte(k: nat)
    requires k < 8
    ensures BitOf(0xff, k) && !BitOf(0, k)
  {
    MaskTests(0xff, k);
    MaskTests(0, k);
  }

  /** A byte other than 0xff has a clear bit. */
  lemma ClearBit(byte: bv8) returns (k: nat)
    requires byte != 0xff
    ensures k < 8 && !BitOf(byte, k)
  {
    k := if byte & 1 == 0 then 0 else if byte & 2 == 0 then 1 else if byte & 4 == 0 then 2
    else if byte & 8 == 0 then 3 else if byte & 16 == 0 then 4 else if byte & 32 == 0 then 5
    else if byte & 64 == 0 then 6 else 7;
    MaskTests(byte, k);
  }

  /** Bit i of a byte sequence, lowest bit of a byte first. */
  predicate BitAt(bytes: seq<bv8>, i: int)
    requires 0 <= i < |bytes| * 8
  {
    BitOf(bytes[i / 8], i % 8)
  }

  /** The bytes hold exactly the bits b. */
  ghost predicate Packs(bytes: seq<bv8>, b: seq<bool>) {
    |b| == |bytes| * 8 && forall i {:trigger BitAt(bytes, i)} | 0 <= i < |b| :: b[i] == BitAt(bytes, i)
  }

  /** The byte bitmap_set stores back. */
  function ByteWith(byte: bv8, k: nat, value: bool): bv8
    requires k < 8
  {
    if value then byte | Mask(k) else byte & !Mask(k)
  }

  lemma ByteBit(byte: bv8, k: nat, value: bool, j: nat)
    requires k < 8 && j < 8
    ensures BitOf(ByteWith(byte, k, value), j) <==> if j == k then value else BitOf(byte, j)
  {
    hide BitOf;
    SetBit(byte, k, j);
  }

  /** Rewriting one byte changes one bit. */
  lemma ByteUpdate(bytes: seq<bv8>, b: seq<bool>, idx: nat, value: bool)
    requires Packs(bytes, b) && idx < |b|
    ensures Packs(bytes[idx / 8 := ByteWith(bytes[idx / 8], idx % 8, value)], b[idx := value])
  {
    hide BitOf, ByteWith;
    var r := bytes[idx / 8 := ByteWith(bytes[idx / 8], idx % 8, value)];
    forall i | 0 <= i < |b| ensures b[idx := value][i] == BitAt(r, i) {
      assert b[i] == BitAt(bytes, i) && b[idx] == BitAt(bytes, idx);
      ByteBit(bytes[idx / 8], idx % 8, value, i % 8);
    }
  }

  class Bitmap {
    const bits: array<bv8>
    const len: nat
    ghost var used: seq<bool>   // the bits that the bytes hold

    /** bitmap_init: bind the caller's storage without clearing it. */
    constructor (storage: array<bv8>, len: nat)
      requires len == storage.Length && len * 8 < INT_BITS
      ensures bits == storage && this.len == len && Valid()
    {
      bits := storage;
      this.len := len;
      used := seq(len * 8, i requires 0 <= i < len * 8 reads storage => BitAt(storage[..], i));
    }

    ghost predicate Valid()
      reads this, bits
    {
      len == bits.Length && len * 8 < INT_BITS && Packs(bits[..], used)
    }

    /** The bitmap as a sequence of bits. */
    ghost function Bits(): seq<bool>
      reads this
    {
      used
    }

    /** bitmap_reset */
    method Reset()
      requires Valid()
      modifies this`used, bits
      ensures Valid() && Bits() == Marked(old(Bits()), 0, len * 8, false)
    {
      forall i | 0 <= i < bits.Length { bits[i] := 0; }
      used := Marked(used, 0, len * 8, false);
      forall k: nat | k < 8 ensures !BitOf(0, k) { FullByte(k); }
    }

    /** bitmap_set */
    method Set(idx: nat, value: bool)
      requires Valid() && idx < len * 8
      modifies this`used, bits
      ensures Valid() && Bits() == old(Bits())[idx := value]
    {
      var byteIdx := idx / 8;
      var bitIdx := idx % 8;
      ByteUpdate(bits[..], used, idx, value);
      ghost var was := bits[..];
      bits[byteIdx] := ByteWith(bits[byteIdx], bitIdx, value);
      used := used[idx := value];
      assert bits[..] == was[byteIdx := ByteWith(was[byteIdx], bitIdx, value)];
    }

    /** bitmap_check */
    method Check(idx: nat) returns (value: bool)
      requires Valid() && idx < len * 8
      ensures value == Bits()[idx]
    {
      MaskTests(bits[idx / 8], idx % 8);
      assert Bits()[idx] == BitAt(bits[..], idx);
      value := bits[idx / 8] & Mask(idx % 8) != 0;
    }

    /** The two scans that find the first clear bit, or len * 8 when the bitmap is full. */
    method FirstClear() returns (free: nat)
      requires Valid()
      ensures free <= len * 8 && RunUsed(Bits(), 0, free)
      ensures free < len * 8 ==> !Bits()[free]
    {
      var byteIdx := 0;
      while byteIdx < len && bits[byteIdx] == 0xff
        invariant byteIdx <= len && RunUsed(Bits(), 0, byteIdx * 8)
      {
        forall i | byteIdx * 8 <= i < byteIdx * 8 + 8 ensures Bits()[i] {
          assert i / 8 == byteIdx && Bits()[i] == BitAt(bits[..], i);
          FullByte(i % 8);
        }
        byteIdx := byteIdx + 1;
      }
      if byteIdx == len {
        return len * 8;
      }
      ghost var clear := ClearBit(bits[byteIdx]);
      var bitIdx := 0;
      MaskTests(bits[byteIdx], 0);
      while bits[byteIdx] & Mask(bitIdx) != 0
        invariant bitIdx <= clear
        invariant forall j: nat | j < bitIdx :: BitOf(bits[byteIdx], j)
        invariant BitOf(bits[byteIdx], bitIdx) <==> bits[byteIdx] & Mask(bitIdx) != 0
        decreases 8 - bitIdx
      {
        bitIdx := bitIdx + 1;
        MaskTests(bits[byteIdx], bitIdx);
      }
      free := byteIdx * 8 + bitIdx;
      assert free / 8 == byteIdx && free % 8 == bitIdx && Bits()[free] == BitAt(bits[..], free);
      forall i | byteIdx * 8 <= i < free ensures Bits()[i] {
        assert Bits()[i] == BitAt(bits[..], i);
      }
    }

    /** The scan from the first clear bit on, for a request of more than one bit. */
    method FindRun(first: nat, cnt: nat) returns (free: int)
      requires Valid() && first < len * 8 && cnt != 1
      requires RunUsed(Bits(), 0, first) && !Bits()[first]
      ensures -1 <= free <= len * 8
      ensures cnt >= 1 ==> IsFirstFit(Bits(), cnt, free)
      ensures cnt == 0 ==> IsZeroFit(Bits(), free)
    {
      ghost var was := Bits();
      if cnt >= 1 {
        ScanStart(was, cnt, first);
        ScanStep(was, cnt, first, 0);
      }
      var freeCnt := 1;
      var total := len * 8;
      var idx := first + 1;
      free := -1;
      while idx < total
        invariant idx <= total && free == -1 && 0 <= freeCnt <= idx
        invariant cnt >= 1 ==> Scanned(was, cnt, idx, freeCnt)
        invariant cnt == 0 ==> freeCnt == idx - first && ZeroScanned(was, first, idx)
      {
        if cnt >= 1 {
          ScanStep(was, cnt, idx, freeCnt);
        }
        var used := Check(idx);
        if used {
          freeCnt := 0;
        } else {
          freeCnt := freeCnt + 1;
        }
        if freeCnt == cnt {
          assert cnt == 0 ==> was[idx] && first < idx;
          return idx - freeCnt + 1;
        }
        idx := idx + 1;
      }
      if cnt >= 1 {
        ScanEnd(was, cnt, freeCnt);
      }
    }

    /** bitmap_acquire. For cnt == 0, outside its contract, nothing is marked and the answer is no free run. */
    method Acquire(cnt: nat) returns (free: int)
      requires Valid()
      modifies this`used, bits
      ensures Valid() && -1 <= free <= len * 8
      ensures cnt >= 1 ==> IsFirstFit(old(Bits()), cnt, free)
      ensures cnt == 0 ==> IsZeroFit(old(Bits()), free)
      ensures Bits() == if cnt >= 1 && free != -1 then Marked(old(Bits()), free, cnt, true) else old(Bits())
    {
      var first := FirstClear();
      if cnt >= 1 {
        ScanStart(Bits(), cnt, first);
      }
      if first == len * 8 {
        assert ZeroScanned(Bits(), first, |Bits()|);
        return -1;
      }
      if cnt == 1 {
        Set(first, true);
        return first;
      }
      free := FindRun(first, cnt);
      if free != -1 {
        MarkRange(free, cnt);
      }
    }

    /** The loop that marks a found run. */
    method MarkRange(start: nat, cnt: nat)
      requires Valid() && start + cnt <= len * 8
      modifies this`used, bits
      ensures Valid() && Bits() == Marked(old(Bits()), start, cnt, true)
    {
      ghost var was := Bits();
      for i := 0 to cnt
        invariant Valid() && Bits() == Marked(was, start, i, true)
      {
        Set(start + i, true);
      }
    }

    /** bitmap_release; the source asserts that every released bit is set. */
    method Release(start: nat, cnt: nat)
      requires Valid() && RunUsed(Bits(), start, cnt)
      modifies this`used, bits
      ensures Valid() && Bits() == Marked(old(Bits()), start, cnt, false)
    {
      ghost var was := Bits();
      var n := 0;
      while n < cnt
        invariant n <= cnt
        invariant Valid() && Bits() == Marked(was, start, n, false)
      {
        var used := Check(start + n);
        assert used;
        Set(start + n, false);
        n := n + 1;
      }
    }
  }
}
