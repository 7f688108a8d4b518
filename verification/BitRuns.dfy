/** Runs of clear bits in a bit sequence: what the bit allocator of bitmap.c promises,
    stated without its byte array. A bit is true when its unit is in use. */
module BitRuns {

  /** The n bits from s on exist and are all clear. */
  predicate RunFree(b: seq<bool>, s: int, n: nat) {
    0 <= s && s + n <= |b| && forall i | s <= i < s + n :: !b[i]
  }

  /** The n bits from s on exist and are all set. */
  predicate RunUsed(b: seq<bool>, s: int, n: nat) {
    0 <= s && s + n <= |b| && forall i | s <= i < s + n :: b[i]
  }

  /** b with the n bits from s on overwritten by v. */
  function Marked(b: seq<bool>, s: nat, n: nat, v: bool): (r: seq<bool>)
    requires s + n <= |b|
    ensures |r| == |b|
    ensures forall i | 0 <= i < |b| :: r[i] == if s <= i < s + n then v else b[i]
  {
    seq(|b|, i requires 0 <= i < |b| => if s <= i < s + n then v else b[i])
  }

  /** r is the answer of a first-fit search: the lowest free run, or -1 when there is none. */
  ghost predicate IsFirstFit(b: seq<bool>, n: nat, r: int) {
    if r == -1 then forall s :: !RunFree(b, s, n)
    else RunFree(b, r, n) && forall s | s < r :: !RunFree(b, s, n)
  }

  /** A set bit inside [s, s + n) rules that run out. */
  lemma UsedBitBlocks(b: seq<bool>, s: int, n: nat, i: int)
    requires s <= i < s + n && 0 <= i < |b| && b[i]
    ensures !RunFree(b, s, n)
  {}

  /** How far a left-to-right scan has got: the last freeCnt bits before idx are a maximal
      free run, shorter than n, and no free run of n bits ends at or before idx. */
  ghost predicate Scanned(b: seq<bool>, n: nat, idx: int, freeCnt: int) {
    && 0 <= freeCnt <= idx <= |b| && freeCnt < n
    && RunFree(b, idx - freeCnt, freeCnt)
    && (freeCnt < idx ==> b[idx - freeCnt - 1])
    && (forall s | s + n <= idx :: !RunFree(b, s, n))
  }

  lemma ScanStart(b: seq<bool>, n: nat, first: nat)
    requires n >= 1 && first <= |b| && RunUsed(b, 0, first)
    ensures Scanned(b, n, first, 0)
    ensures forall s | s < first :: !RunFree(b, s, n)
  {
    forall s | s < first ensures !RunFree(b, s, n) {
      if s >= 0 { UsedBitBlocks(b, s, n, s); }
    }
  }

  /** One more bit: either the run reaches n and is the first fit, or the scan goes on. */
  lemma ScanStep(b: seq<bool>, n: nat, idx: nat, freeCnt: nat)
    requires n >= 1 && idx < |b| && Scanned(b, n, idx, freeCnt)
    ensures b[idx] ==> Scanned(b, n, idx + 1, 0)
    ensures !b[idx] && freeCnt + 1 < n ==> Scanned(b, n, idx + 1, freeCnt + 1)
    ensures !b[idx] && freeCnt + 1 == n ==> IsFirstFit(b, n, idx - freeCnt)
  {
    if b[idx] || freeCnt + 1 < n {
      forall s | s + n <= idx + 1 ensures !RunFree(b, s, n) {
        if s + n == idx + 1 && s >= 0 {
          UsedBitBlocks(b, s, n, if b[idx] then idx else idx - freeCnt - 1);
        }
      }
    }
  }

  lemma ScanEnd(b: seq<bool>, n: nat, freeCnt: nat)
    requires n >= 1 && Scanned(b, n, |b|, freeCnt)
    ensures IsFirstFit(b, n, -1)
  {}

  /** All bits below f are set, and from f on to end all are clear. */
  predicate ZeroScanned(b: seq<bool>, f: int, end: int) {
    0 <= f <= end && RunUsed(b, 0, f) && RunFree(b, f, end - f)
  }

  /** The answer of the search for a run of no bits: the place behind the first set bit that follows the
      lowest clear one, or -1 when none does. */
  ghost predicate IsZeroFit(b: seq<bool>, r: int) {
    var end := if r == -1 then |b| else r - 1;
    && (r == -1 || (1 <= r <= |b| && b[r - 1]))
    && exists f :: ZeroScanned(b, f, end) && (r != -1 ==> f < end)
  }

  lemma ZeroFitAt(b: seq<bool>, f: int, r: int)
    requires ZeroScanned(b, f, r - 1) && f < r - 1 < |b| && b[r - 1]
    ensures IsZeroFit(b, r)
  {
    var end := r - 1;
    assert ZeroScanned(b, f, end);
  }

  lemma ZeroOrder(b: seq<bool>, f: int, e: int, g: int, d: int)
    requires ZeroScanned(b, f, e) && f < e < |b| && b[e] && ZeroScanned(b, g, d)
    ensures d <= e
  {
    assert !b[f];
  }

  /** That search has one answer. */
  lemma OneZeroFit(b: seq<bool>, r: int, q: int)
    requires IsZeroFit(b, r) && IsZeroFit(b, q)
    ensures r == q
  {
    var e, d := if r == -1 then |b| else r - 1, if q == -1 then |b| else q - 1;
    var f :| ZeroScanned(b, f, e) && (r != -1 ==> f < e);
    var g :| ZeroScanned(b, g, d) && (q != -1 ==> g < d);
    if r != -1 { ZeroOrder(b, f, e, g, d); }
    if q != -1 { ZeroOrder(b, g, d, f, e); }
  }

  /** How many bits are clear. */
  function FreeCount(b: seq<bool>): nat {
    if b == [] then 0 else FreeCount(b[..|b| - 1]) + if b[|b| - 1] then 0 else 1
  }

  ghost function Used(b: seq<bool>): set<int> { set i | 0 <= i < |b| && b[i] }

  lemma {:induction false} FreeCountUsed(b: seq<bool>)
    ensures FreeCount(b) + |Used(b)| == |b|
  {
    if b == [] {
      assert Used(b) == {};
    } else {
      var n := |b| - 1;
      FreeCountUsed(b[..n]);
      assert Used(b) == Used(b[..n]) + if b[n] then {n} else {};
    }
  }

  lemma {:induction false} FreeCountFlip(b: seq<bool>, i: nat)
    requires i < |b| && !b[i]
    ensures FreeCount(b) == FreeCount(b[i := true]) + 1
  {
    var c := b[i := true];
    if i == |b| - 1 {
      assert c[..|b| - 1] == b[..|b| - 1];
    } else {
      FreeCountFlip(b[..|b| - 1], i);
      assert c[..|b| - 1] == b[..|b| - 1][i := true];
    }
  }

  /** No bit is counted exactly when all are set. */
  lemma {:induction false} FreeCountFull(b: seq<bool>)
    ensures FreeCount(b) == 0 <==> RunUsed(b, 0, |b|)
  {
    if b != [] {
      FreeCountFull(b[..|b| - 1]);
      assert forall i | 0 <= i < |b| - 1 :: b[..|b| - 1][i] == b[i];
    }
  }

  lemma {:induction false} FreeCountBound(b: seq<bool>)
    ensures FreeCount(b) <= |b|
    ensures FreeCount(b) == |b| ==> RunFree(b, 0, |b|)
  {
    if b != [] {
      FreeCountBound(b[..|b| - 1]);
      forall i | 0 <= i < |b| && FreeCount(b) == |b| ensures !b[i] {
        if i < |b| - 1 { assert !b[..|b| - 1][i]; }
      }
    }
  }

  lemma {:induction false} FreeCountAll(b: seq<bool>)
    requires RunFree(b, 0, |b|)
    ensures FreeCount(b) == |b|
  {
    if b != [] {
      FreeCountAll(b[..|b| - 1]);
    }
  }

  // ----- runs of acquire and release -----

  /** A region handed out by the allocator. */
  datatype Region = Region(start: nat, len: nat)

  /** One call: take n bits, or give back the k-th outstanding region. */
  datatype Call = Acquire(n: nat) | Release(k: nat)

  /** The bitmap and the regions its callers hold. */
  datatype State = State(bits: seq<bool>, held: seq<Region>)

  predicate InRegion(g: Region, i: int) { g.start <= i < g.start + g.len }

  predicate Apart(g: Region, h: Region) {
    g.start + g.len <= h.start || h.start + h.len <= g.start
  }

  ghost predicate Covered(held: seq<Region>, i: int) {
    exists j | 0 <= j < |held| :: InRegion(held[j], i)
  }

  /** What one call does to the bitmap and to the outstanding regions. A request
      for zero bits is not in the allocator's contract and is not a step. */
  ghost predicate Step(s: State, c: Call, s': State) {
    match c
    case Acquire(n) =>
      && n >= 1
      && exists r :: IsFirstFit(s.bits, n, r) &&
           if r == -1 then s' == s
           else s' == State(Marked(s.bits, r, n, true), s.held + [Region(r, n)])
    case Release(k) =>
      && k < |s.held|
      && var g := s.held[k];
         g.start + g.len <= |s.bits| &&
         s' == State(Marked(s.bits, g.start, g.len, false), s.held[..k] + s.held[k + 1..])
  }

  /** The set bits are the disjoint union of the outstanding regions. */
  ghost predicate DisjointUnion(s: State) {
    && (forall j | 0 <= j < |s.held| ::
          s.held[j].len >= 1 && s.held[j].start + s.held[j].len <= |s.bits|)
    && (forall j, k | 0 <= j < k < |s.held| :: Apart(s.held[j], s.held[k]))
    && (forall i | 0 <= i < |s.bits| ::
          s.bits[i] <==> Covered(s.held, i))
  }

  ghost predicate Run(ss: seq<State>, cs: seq<Call>) {
    |ss| == |cs| + 1 && forall j | 0 <= j < |cs| :: Step(ss[j], cs[j], ss[j + 1])
  }

  lemma AcquireKeepsUnion(s: State, n: nat, r: nat, s': State)
    requires DisjointUnion(s) && n >= 1 && RunFree(s.bits, r, n)
    requires s' == State(Marked(s.bits, r, n, true), s.held + [Region(r, n)])
    ensures DisjointUnion(s')
  {
    forall j | 0 <= j < |s.held|
      ensures Apart(s.held[j], Region(r, n))
    {
      var g := s.held[j];
      var i := if g.start <= r then r else g.start;
      assert InRegion(g, i) && i < |s.bits| ==> s.bits[i];
    }
    forall i | 0 <= i < |s'.bits|
      ensures s'.bits[i] <==> Covered(s'.held, i)
    {
      if r <= i < r + n {
        assert InRegion(s'.held[|s.held|], i);
      } else if s.bits[i] {
        var j :| 0 <= j < |s.held| && InRegion(s.held[j], i);
        assert InRegion(s'.held[j], i);
      }
    }
  }

  lemma NotInBoth(g: Region, h: Region, i: int)
    requires Apart(g, h) || Apart(h, g)
    ensures !(InRegion(g, i) && InRegion(h, i))
  {}

  lemma CoveredAfterRelease(held: seq<Region>, k: nat, i: int)
    requires k < |held|
    requires forall a, b | 0 <= a < b < |held| :: Apart(held[a], held[b])
    ensures Covered(held[..k] + held[k + 1..], i) <==> Covered(held, i) && !InRegion(held[k], i)
  {
    hide Apart, InRegion;
    var rest := held[..k] + held[k + 1..];
    if Covered(held, i) && !InRegion(held[k], i) {
      var j :| 0 <= j < |held| && InRegion(held[j], i);
      assert InRegion(rest[if j < k then j else j - 1], i);
    }
    if Covered(rest, i) {
      var j :| 0 <= j < |rest| && InRegion(rest[j], i);
      var h := if j < k then j else j + 1;
      assert rest[j] == held[h];
      NotInBoth(held[h], held[k], i);
    }
  }

  lemma ReleaseKeepsUnion(s: State, k: nat, s': State)
    requires DisjointUnion(s) && Step(s, Release(k), s')
    ensures DisjointUnion(s')
  {
    forall i | 0 <= i < |s'.bits|
      ensures s'.bits[i] <==> Covered(s'.held, i)
    {
      CoveredAfterRelease(s.held, k, i);
    }
  }

  /** Over any run from an empty bitmap the set bits are exactly the disjoint
      union of the regions still held. */
  lemma {:induction false} RunKeepsUnion(ss: seq<State>, cs: seq<Call>)
    requires Run(ss, cs)
    requires DisjointUnion(ss[0])
    ensures DisjointUnion(ss[|cs|])
  {
    if cs != [] {
      var m := |cs| - 1;
      assert Run(ss[..m + 1], cs[..m]) by {
        forall j | 0 <= j < m ensures Step(ss[..m + 1][j], cs[..m][j], ss[..m + 1][j + 1]) {
          assert Step(ss[j], cs[j], ss[j + 1]);
        }
      }
      RunKeepsUnion(ss[..m + 1], cs[..m]);
      assert Step(ss[m], cs[m], ss[m + 1]);
      match cs[m]
      case Acquire(n) =>
        var r :| IsFirstFit(ss[m].bits, n, r) &&
          if r == -1 then ss[m + 1] == ss[m]
          else ss[m + 1] == State(Marked(ss[m].bits, r, n, true), ss[m].held + [Region(r, n)]);
        if r != -1 {
          AcquireKeepsUnion(ss[m], n, r, ss[m + 1]);
        }
      case Release(k) =>
        ReleaseKeepsUnion(ss[m], k, ss[m + 1]);
    }
  }
}
