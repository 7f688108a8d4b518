/** The intrusive doubly linked list of list.c. A node is two words in somebody else's
    storage, prev at its address and next four bytes on; a list is a head and a tail
    sentinel, eight bytes apart. */
module IntrusiveList {
  import opened Words

  const NODE_SIZE := 8

  function PrevOf(e: int): int { e }

  function NextOf(e: int): int { e + 4 }

  function Head(p: int): int { p }

  function Tail(p: int): int { p + NODE_SIZE }

  predicate ApartNodes(a: int, b: int) { a + NODE_SIZE <= b || b + NODE_SIZE <= a }

  /** All nodes of list p holding xs, sentinels included. */
  function Nodes(p: int, xs: seq<int>): (ns: seq<int>)
    ensures |ns| == |xs| + 2
  {
    [Head(p)] + xs + [Tail(p)]
  }

  /** Word a belongs to node e. */
  predicate InNode(e: int, a: int) { a == PrevOf(e) || a == NextOf(e) }

  /** Nodes that are aligned and do not overlap. */
  ghost predicate Separate(ns: seq<int>) {
    && (forall i | 0 <= i < |ns| :: Aligned(ns[i]))
    && (forall i, j | 0 <= i < j < |ns| :: ApartNodes(ns[i], ns[j]))
  }

  /** Neighbours point at each other. */
  ghost predicate Linked(m: Words, ns: seq<int>) {
    forall i, j | 0 <= i < |ns| && 0 <= j < |ns| && j == i + 1 ::
      m(NextOf(ns[i])) == ns[j] && m(PrevOf(ns[j])) == ns[i]
  }

  /** Memory m holds, at p, a list whose elements are xs in this order. */
  ghost predicate ListAt(m: Words, p: int, xs: seq<int>) {
    && Separate(Nodes(p, xs))
    && Linked(m, Nodes(p, xs))
    && m(PrevOf(Head(p))) == NULL && m(NextOf(Tail(p))) == NULL
  }

  /** e can be linked into the list: it overlaps none of its nodes. */
  ghost predicate Fresh(p: int, xs: seq<int>, e: int) {
    Aligned(e) && forall i | 0 <= i < |xs| + 2 :: ApartNodes(Nodes(p, xs)[i], e)
  }

  ghost predicate Outside(ns: seq<int>, a: int) {
    forall i | 0 <= i < |ns| :: !InNode(ns[i], a)
  }

  /** m and n agree on every word outside the given nodes. */
  ghost predicate SameOutside(m: Words, n: Words, ns: seq<int>) {
    forall a | Outside(ns, a) :: n(a) == m(a)
  }

  // ----- the words each operation leaves behind -----

  function InitWords(m: Words, p: int): Words {
    var m1 := Store(m, PrevOf(Head(p)), NULL);
    var m2 := Store(m1, NextOf(Head(p)), Tail(p));
    var m3 := Store(m2, PrevOf(Tail(p)), Head(p));
    Store(m3, NextOf(Tail(p)), NULL)
  }

  function InsertWords(m: Words, before: int, e: int): Words {
    var m1 := Store(m, NextOf(m(PrevOf(before))), e);
    var m2 := Store(m1, PrevOf(e), m1(PrevOf(before)));
    var m3 := Store(m2, NextOf(e), before);
    Store(m3, PrevOf(before), e)
  }

  function RemoveWords(m: Words, e: int): Words {
    var m1 := Store(m, NextOf(m(PrevOf(e))), m(NextOf(e)));
    Store(m1, PrevOf(m1(NextOf(e))), m1(PrevOf(e)))
  }

  // ----- refinement: the words implement the sequence operations -----

  lemma InitRefines(m: Words, p: int)
    requires Aligned(p)
    ensures ListAt(InitWords(m, p), p, [])
    ensures SameOutside(m, InitWords(m, p), Nodes(p, []))
  {
    var ns := Nodes(p, []);
    forall a | Outside(ns, a) ensures InitWords(m, p)(a) == m(a) {
      assert !InNode(ns[0], a) && !InNode(ns[1], a);
    }
  }

  /** The four stores of list_insert, for three nodes that do not overlap. */
  lemma InsertEffect(m: Words, prev: int, before: int, e: int)
    requires m(PrevOf(before)) == prev
    requires ApartNodes(prev, before) && ApartNodes(prev, e) && ApartNodes(before, e)
    requires Aligned(prev) && Aligned(before) && Aligned(e)
    ensures var n := InsertWords(m, before, e);
            && n(NextOf(prev)) == e && n(PrevOf(e)) == prev
            && n(NextOf(e)) == before && n(PrevOf(before)) == e
            && forall a | a != NextOf(prev) && !InNode(e, a) && a != PrevOf(before) :: n(a) == m(a)
  {}

  /** Inserting before the k-th element, or before the tail when k is the length. */
  lemma InsertRefines(m: Words, p: int, xs: seq<int>, k: nat, e: int)
    requires ListAt(m, p, xs) && k <= |xs| && Fresh(p, xs, e)
    ensures ListAt(InsertWords(m, Nodes(p, xs)[k + 1], e), p, xs[..k] + [e] + xs[k..])
    ensures SameOutside(m, InsertWords(m, Nodes(p, xs)[k + 1], e), Nodes(p, xs) + [e])
  {
    var ns := Nodes(p, xs);
    var prev, before := ns[k], ns[k + 1];
    assert m(PrevOf(before)) == prev;
    InsertEffect(m, prev, before, e);
    InsertLinks(m, InsertWords(m, before, e), p, xs, k, e);
    forall a | Outside(ns + [e], a) ensures InsertWords(m, before, e)(a) == m(a) {
      assert !InNode((ns + [e])[k], a) && !InNode((ns + [e])[k + 1], a) && !InNode((ns + [e])[|ns|], a);
    }
  }

  lemma SeparateInsert(ns: seq<int>, k: nat, e: int)
    requires Separate(ns) && k <= |ns| && Aligned(e) && forall i | 0 <= i < |ns| :: ApartNodes(ns[i], e)
    ensures Separate(ns[..k] + [e] + ns[k..])
  {
    var ms := ns[..k] + [e] + ns[k..];
    forall i, j | 0 <= i < j < |ms| ensures ApartNodes(ms[i], ms[j]) {
      assert ms[i] == if i < k then ns[i] else if i == k then e else ns[i - 1];
      assert ms[j] == if j < k then ns[j] else if j == k then e else ns[j - 1];
    }
  }

  lemma LinkedInsert(m: Words, n: Words, ns: seq<int>, k: nat, e: int)
    requires Linked(m, ns) && Separate(ns) && k + 1 < |ns| && forall i | 0 <= i < |ns| :: ApartNodes(ns[i], e)
    requires n(NextOf(ns[k])) == e && n(PrevOf(e)) == ns[k]
    requires n(NextOf(e)) == ns[k + 1] && n(PrevOf(ns[k + 1])) == e
    requires forall a | a != NextOf(ns[k]) && !InNode(e, a) && a != PrevOf(ns[k + 1]) :: n(a) == m(a)
    ensures Linked(n, ns[..k + 1] + [e] + ns[k + 1..])
  {
    var ms := ns[..k + 1] + [e] + ns[k + 1..];
    forall i, j | 0 <= i < |ms| && 0 <= j < |ms| && j == i + 1
      ensures n(NextOf(ms[i])) == ms[j] && n(PrevOf(ms[j])) == ms[i]
    {
      if i < k {
        LinkKept(m, n, ns, k, e, i);
      } else if i > k + 1 {
        LinkKept(m, n, ns, k, e, i - 1);
      }
    }
  }

  lemma LinkKept(m: Words, n: Words, ns: seq<int>, k: nat, e: int, i: nat)
    requires Linked(m, ns) && Separate(ns) && k + 1 < |ns| && i + 1 < |ns| && i != k
    requires forall i | 0 <= i < |ns| :: ApartNodes(ns[i], e)
    requires forall a | a != NextOf(ns[k]) && !InNode(e, a) && a != PrevOf(ns[k + 1]) :: n(a) == m(a)
    ensures n(NextOf(ns[i])) == ns[i + 1] && n(PrevOf(ns[i + 1])) == ns[i]
  {
    assert m(NextOf(ns[i])) == ns[i + 1] && m(PrevOf(ns[i + 1])) == ns[i];
    DistinctNodes(ns, i, k);
    DistinctNodes(ns, i, k + 1);
    DistinctNodes(ns, i + 1, k);
    DistinctNodes(ns, i + 1, k + 1);
    assert ApartNodes(ns[i], e) && ApartNodes(ns[i + 1], e);
  }

  lemma DistinctNodes(ns: seq<int>, i: nat, j: nat)
    requires Separate(ns) && i < |ns| && j < |ns|
    ensures i != j ==> ApartNodes(ns[i], ns[j])
    ensures Aligned(ns[i]) && NextOf(ns[i]) != PrevOf(ns[j])
  {}

  lemma NodeAt(p: int, xs: seq<int>, i: nat)
    requires i < |xs| + 2
    ensures Nodes(p, xs)[i] == if i == 0 then Head(p) else if i == |xs| + 1 then Tail(p) else xs[i - 1]
  {}

  lemma NodesInsert(p: int, xs: seq<int>, k: nat, e: int)
    requires k <= |xs|
    ensures Nodes(p, xs[..k] + [e] + xs[k..]) == Nodes(p, xs)[..k + 1] + [e] + Nodes(p, xs)[k + 1..]
  {
    var ns, zs := Nodes(p, xs), xs[..k] + [e] + xs[k..];
    var ms := ns[..k + 1] + [e] + ns[k + 1..];
    hide Nodes;
    forall i | 0 <= i < |ms| ensures Nodes(p, zs)[i] == ms[i] {
      NodeAt(p, zs, i);
      if i != k + 1 {
        var j := if i <= k then i else i - 1;
        assert ms[i] == ns[j];
        NodeAt(p, xs, j);
      }
    }
  }

  lemma InsertLinks(m: Words, n: Words, p: int, xs: seq<int>, k: nat, e: int)
    requires ListAt(m, p, xs) && k <= |xs| && Fresh(p, xs, e)
    requires n(NextOf(Nodes(p, xs)[k])) == e && n(PrevOf(e)) == Nodes(p, xs)[k]
    requires n(NextOf(e)) == Nodes(p, xs)[k + 1] && n(PrevOf(Nodes(p, xs)[k + 1])) == e
    requires forall a | a != NextOf(Nodes(p, xs)[k]) && !InNode(e, a) && a != PrevOf(Nodes(p, xs)[k + 1]) :: n(a) == m(a)
    ensures ListAt(n, p, xs[..k] + [e] + xs[k..])
  {
    var ns := Nodes(p, xs);
    var ms := Nodes(p, xs[..k] + [e] + xs[k..]);
    NodesInsert(p, xs, k, e);
    SeparateInsert(ns, k + 1, e);
    LinkedInsert(m, n, ns, k, e);
    assert ns[0] == Head(p) && ns[|xs| + 1] == Tail(p);
    DistinctNodes(ns, 0, k);
    DistinctNodes(ns, 0, k + 1);
    DistinctNodes(ns, |xs| + 1, k);
    DistinctNodes(ns, |xs| + 1, k + 1);
    assert ApartNodes(ns[0], e) && ApartNodes(ns[|xs| + 1], e);
  }

  lemma SeparateRemove(ns: seq<int>, k: nat)
    requires Separate(ns) && k < |ns|
    ensures Separate(ns[..k] + ns[k + 1..])
  {
    var ms := ns[..k] + ns[k + 1..];
    forall i, j | 0 <= i < j < |ms| ensures ApartNodes(ms[i], ms[j]) {
      assert ms[i] == ns[if i < k then i else i + 1] && ms[j] == ns[if j < k then j else j + 1];
    }
  }

  /** The two stores of list_remove. */
  lemma RemoveEffect(m: Words, prev: int, e: int, next: int)
    requires m(PrevOf(e)) == prev && m(NextOf(e)) == next
    requires ApartNodes(prev, e) && ApartNodes(prev, next) && ApartNodes(e, next)
    ensures var n := RemoveWords(m, e);
            && n(NextOf(prev)) == next && n(PrevOf(next)) == prev
            && forall a | a != NextOf(prev) && a != PrevOf(next) :: n(a) == m(a)
  {}

  lemma LinkedRemove(m: Words, n: Words, ns: seq<int>, k: nat)
    requires Linked(m, ns) && Separate(ns) && k + 2 < |ns|
    requires n(NextOf(ns[k])) == ns[k + 2] && n(PrevOf(ns[k + 2])) == ns[k]
    requires forall a | a != NextOf(ns[k]) && a != PrevOf(ns[k + 2]) :: n(a) == m(a)
    ensures Linked(n, ns[..k + 1] + ns[k + 2..])
  {
    var ms := ns[..k + 1] + ns[k + 2..];
    forall i, j | 0 <= i < |ms| && 0 <= j < |ms| && j == i + 1
      ensures n(NextOf(ms[i])) == ms[j] && n(PrevOf(ms[j])) == ms[i]
    {
      if i < k {
        LinkLeft(m, n, ns, k, i);
      } else if i > k {
        LinkLeft(m, n, ns, k, i + 1);
      }
    }
  }

  lemma LinkLeft(m: Words, n: Words, ns: seq<int>, k: nat, i: nat)
    requires Linked(m, ns) && Separate(ns) && k + 2 < |ns| && i + 1 < |ns| && i != k && i != k + 1
    requires forall a | a != NextOf(ns[k]) && a != PrevOf(ns[k + 2]) :: n(a) == m(a)
    ensures n(NextOf(ns[i])) == ns[i + 1] && n(PrevOf(ns[i + 1])) == ns[i]
  {
    assert m(NextOf(ns[i])) == ns[i + 1] && m(PrevOf(ns[i + 1])) == ns[i];
    DistinctNodes(ns, i, k);
    DistinctNodes(ns, i, k + 2);
    DistinctNodes(ns, i + 1, k);
    DistinctNodes(ns, i + 1, k + 2);
  }

  lemma NodesRemove(p: int, xs: seq<int>, k: nat)
    requires k < |xs|
    ensures xs[k] == Nodes(p, xs)[k + 1]
    ensures Nodes(p, xs[..k] + xs[k + 1..]) == Nodes(p, xs)[..k + 1] + Nodes(p, xs)[k + 2..]
  {
    var ns, zs := Nodes(p, xs), xs[..k] + xs[k + 1..];
    var ms := ns[..k + 1] + ns[k + 2..];
    hide Nodes;
    NodeAt(p, xs, k + 1);
    forall i | 0 <= i < |ms| ensures Nodes(p, zs)[i] == ms[i] {
      var j := if i <= k then i else i + 1;
      assert ms[i] == ns[j];
      NodeAt(p, zs, i);
      NodeAt(p, xs, j);
    }
  }

  lemma RemoveRefines(m: Words, p: int, xs: seq<int>, k: nat)
    requires ListAt(m, p, xs) && k < |xs|
    ensures ListAt(RemoveWords(m, xs[k]), p, xs[..k] + xs[k + 1..])
    ensures SameOutside(m, RemoveWords(m, xs[k]), Nodes(p, xs[..k] + xs[k + 1..]))
  {
    var ns := Nodes(p, xs);
    var ms := Nodes(p, xs[..k] + xs[k + 1..]);
    var n := RemoveWords(m, xs[k]);
    NodesRemove(p, xs, k);
    assert m(PrevOf(ns[k + 1])) == ns[k] && m(NextOf(ns[k + 1])) == ns[k + 2];
    DistinctNodes(ns, k, k + 1);
    DistinctNodes(ns, k, k + 2);
    DistinctNodes(ns, k + 1, k + 2);
    RemoveEffect(m, ns[k], ns[k + 1], ns[k + 2]);
    SeparateRemove(ns, k + 1);
    LinkedRemove(m, n, ns, k);
    assert ns[0] == Head(p) && ns[|xs| + 1] == Tail(p);
    DistinctNodes(ns, 0, k);
    DistinctNodes(ns, 0, k + 2);
    DistinctNodes(ns, |xs| + 1, k);
    DistinctNodes(ns, |xs| + 1, k + 2);
    assert ms[k] == ns[k] && ms[k + 1] == ns[k + 2];
    forall a | Outside(ms, a) ensures n(a) == m(a) {
      assert !InNode(ms[k], a) && !InNode(ms[k + 1], a);
    }
  }

  /** A list survives any change of memory outside its own nodes. */
  lemma ListFrame(m: Words, n: Words, p: int, xs: seq<int>)
    requires ListAt(m, p, xs)
    requires forall i | 0 <= i < |xs| + 2 ::
               n(PrevOf(Nodes(p, xs)[i])) == m(PrevOf(Nodes(p, xs)[i])) &&
               n(NextOf(Nodes(p, xs)[i])) == m(NextOf(Nodes(p, xs)[i]))
    ensures ListAt(n, p, xs)
  {
    var ns := Nodes(p, xs);
    assert ns[0] == Head(p) && ns[|xs| + 1] == Tail(p);
  }

  lemma NoTailInside(p: int, xs: seq<int>, i: nat)
    requires Separate(Nodes(p, xs)) && i < |xs|
    ensures Nodes(p, xs)[i + 1] == xs[i] && xs[i] != Tail(p)
  {
    assert Nodes(p, xs)[|xs| + 1] == Tail(p) && ApartNodes(Nodes(p, xs)[i + 1], Nodes(p, xs)[|xs| + 1]);
  }

  lemma {:induction false} SamePath(m: Words, p: int, xs: seq<int>, ys: seq<int>, k: nat)
    requires ListAt(m, p, xs) && ListAt(m, p, ys) && k <= |xs| + 1 && k <= |ys| + 1
    ensures Nodes(p, xs)[k] == Nodes(p, ys)[k]
  {
    if k > 0 {
      SamePath(m, p, xs, ys, k - 1);
      assert m(NextOf(Nodes(p, xs)[k - 1])) == Nodes(p, xs)[k];
      assert m(NextOf(Nodes(p, ys)[k - 1])) == Nodes(p, ys)[k];
    }
  }

  /** The words determine the elements: one memory holds one list at p. */
  lemma ContentsUnique(m: Words, p: int, xs: seq<int>, ys: seq<int>)
    requires ListAt(m, p, xs) && ListAt(m, p, ys)
    ensures xs == ys
  {
    if |xs| < |ys| {
      SamePath(m, p, xs, ys, |xs| + 1);
      NoTailInside(p, ys, |xs|);
    } else if |ys| < |xs| {
      SamePath(m, p, xs, ys, |ys| + 1);
      NoTailInside(p, xs, |ys|);
    } else {
      forall i | 0 <= i < |xs| ensures xs[i] == ys[i] {
        SamePath(m, p, xs, ys, i + 1);
      }
    }
  }

  // ----- the operations -----

  /** list_init */
  method Init(ram: Ram, p: int)
    requires Aligned(p)
    modifies ram
    ensures ram.w == InitWords(old(ram.w), p)
  {
    ram.Put(PrevOf(Head(p)), NULL);
    ram.Put(NextOf(Head(p)), Tail(p));
    ram.Put(PrevOf(Tail(p)), Head(p));
    ram.Put(NextOf(Tail(p)), NULL);
  }

  /** list_insert: link e in front of the linked node before. */
  method Insert(ram: Ram, before: int, e: int)
    requires Aligned(before) && Aligned(e) && Aligned(ram.w(PrevOf(before)))
    modifies ram
    ensures ram.w == InsertWords(old(ram.w), before, e)
  {
    var prev := ram.Get(PrevOf(before));
    ram.Put(NextOf(prev), e);
    prev := ram.Get(PrevOf(before));
    ram.Put(PrevOf(e), prev);
    ram.Put(NextOf(e), before);
    ram.Put(PrevOf(before), e);
  }

  lemma NodesAt(p: int, xs: seq<int>, i: nat)
    requires i < |xs|
    ensures Nodes(p, xs)[i + 1] == xs[i]
  {}

  lemma NodeLinks(m: Words, p: int, xs: seq<int>, k: nat)
    requires ListAt(m, p, xs) && k < |xs|
    ensures m(PrevOf(xs[k])) == Nodes(p, xs)[k] && m(NextOf(xs[k])) == Nodes(p, xs)[k + 2]
    ensures Aligned(xs[k]) && Aligned(Nodes(p, xs)[k]) && Aligned(Nodes(p, xs)[k + 2])
    ensures PrevOf(xs[k]) != NextOf(Nodes(p, xs)[k]) && NextOf(xs[k]) != NextOf(Nodes(p, xs)[k])
  {
    var ns := Nodes(p, xs);
    assert ns[k + 1] == xs[k];
    DistinctNodes(ns, k, k + 1);
    assert m(PrevOf(ns[k + 1])) == ns[k] && m(NextOf(ns[k + 1])) == ns[k + 2];
  }

  lemma EndLinks(m: Words, p: int, xs: seq<int>)
    requires ListAt(m, p, xs)
    ensures Aligned(p) && m(NextOf(Head(p))) == Nodes(p, xs)[1] && m(PrevOf(Tail(p))) == Nodes(p, xs)[|xs|]
    ensures Nodes(p, xs)[|xs| + 1] == Tail(p) && Aligned(Nodes(p, xs)[|xs|]) && Aligned(Nodes(p, xs)[1])
    ensures xs == [] <==> Nodes(p, xs)[1] == Tail(p)
    ensures m(PrevOf(Nodes(p, xs)[1])) == Head(p)
  {
    var ns := Nodes(p, xs);
    assert ns[0] == Head(p) && ns[|xs| + 1] == Tail(p);
    assert m(NextOf(ns[0])) == ns[1] && m(PrevOf(ns[|xs| + 1])) == ns[|xs|];
    if xs != [] { NoTailInside(p, xs, 0); }
  }

  /** list_remove: e keeps its own stale links. */
  method Remove(ram: Ram, e: int, ghost p: int, ghost xs: seq<int>, ghost k: nat)
    requires ListAt(ram.w, p, xs) && k < |xs| && xs[k] == e
    modifies ram
    ensures ram.w == RemoveWords(old(ram.w), e)
    ensures ListAt(ram.w, p, xs[..k] + xs[k + 1..])
    ensures SameOutside(old(ram.w), ram.w, Nodes(p, xs[..k] + xs[k + 1..]))
  {
    RemoveRefines(ram.w, p, xs, k);
    NodeLinks(ram.w, p, xs, k);
    var prev := ram.Get(PrevOf(e));
    var next := ram.Get(NextOf(e));
    ram.Put(NextOf(prev), next);
    next := ram.Get(NextOf(e));
    prev := ram.Get(PrevOf(e));
    ram.Put(PrevOf(next), prev);
  }

  /** list_append */
  method Append(ram: Ram, p: int, e: int, ghost xs: seq<int>)
    requires ListAt(ram.w, p, xs) && Fresh(p, xs, e)
    modifies ram
    ensures ram.w == InsertWords(old(ram.w), Tail(p), e)
    ensures ListAt(ram.w, p, xs + [e])
    ensures SameOutside(old(ram.w), ram.w, Nodes(p, xs) + [e])
  {
    hide ListAt, SameOutside, InsertWords, Aligned, Nodes, ApartNodes;
    EndLinks(ram.w, p, xs);
    InsertRefines(ram.w, p, xs, |xs|, e);
    assert xs[..|xs|] + [e] + xs[|xs|..] == xs + [e];
    Insert(ram, Tail(p), e);
  }

  /** list_push */
  method Push(ram: Ram, p: int, e: int, ghost xs: seq<int>)
    requires ListAt(ram.w, p, xs) && Fresh(p, xs, e)
    modifies ram
    ensures ListAt(ram.w, p, [e] + xs)
    ensures SameOutside(old(ram.w), ram.w, Nodes(p, xs) + [e])
  {
    hide ListAt, SameOutside, InsertWords, Aligned, Nodes, ApartNodes;
    EndLinks(ram.w, p, xs);
    InsertRefines(ram.w, p, xs, 0, e);
    assert xs[..0] + [e] + xs[0..] == [e] + xs;
    var first := ram.Get(NextOf(Head(p)));
    Insert(ram, first, e);
  }

  /** list_empty */
  method Empty(ram: Ram, p: int, ghost xs: seq<int>) returns (empty: bool)
    requires ListAt(ram.w, p, xs)
    ensures empty <==> xs == []
  {
    EndLinks(ram.w, p, xs);
    var first := ram.Get(NextOf(Head(p)));
    empty := first == Tail(p);
  }

  /** list_pop: the front element, or NULL when there is none. */
  method Pop(ram: Ram, p: int, ghost xs: seq<int>) returns (e: int)
    requires ListAt(ram.w, p, xs)
    modifies ram
    ensures xs == [] ==> e == NULL && ram.w == old(ram.w)
    ensures xs != [] ==> e == xs[0] && ram.w == RemoveWords(old(ram.w), e) && ListAt(ram.w, p, xs[1..])
    ensures xs != [] ==> SameOutside(old(ram.w), ram.w, Nodes(p, xs[1..]))
  {
    hide ListAt, Fresh, SameOutside, RemoveWords, Aligned;
    var empty := Empty(ram, p, xs);
    if empty {
      return NULL;
    }
    EndLinks(ram.w, p, xs);
    e := ram.Get(NextOf(Head(p)));
    assert xs[..0] + xs[1..] == xs[1..];
    Remove(ram, e, p, xs, 0);
  }

  /** list_len */
  method Len(ram: Ram, p: int, ghost xs: seq<int>) returns (length: nat)
    requires ListAt(ram.w, p, xs)
    ensures length == |xs|
  {
    EndLinks(ram.w, p, xs);
    var e := ram.Get(NextOf(Head(p)));
    length := 0;
    while e != Tail(p)
      invariant length <= |xs| && e == Nodes(p, xs)[length + 1]
      decreases |xs| - length
    {
      NodeLinks(ram.w, p, xs, length);
      e := ram.Get(NextOf(e));
      length := length + 1;
    }
    if length < |xs| { NoTailInside(p, xs, length); }
  }

  /** list_find */
  method Find(ram: Ram, p: int, e: int, ghost xs: seq<int>) returns (found: bool)
    requires ListAt(ram.w, p, xs)
    ensures found <==> e in xs
  {
    EndLinks(ram.w, p, xs);
    var cur := ram.Get(NextOf(Head(p)));
    if xs != [] { NodesAt(p, xs, 0); }
    ghost var i := 0;
    while cur != Tail(p)
      invariant i <= |xs| && cur == Nodes(p, xs)[i + 1] && (i < |xs| ==> cur == xs[i])
      invariant forall j | 0 <= j < i :: xs[j] != e
      decreases |xs| - i
    {
      NodeLinks(ram.w, p, xs, i);
      if cur == e {
        return true;
      }
      cur := ram.Get(NextOf(cur));
      if i + 1 < |xs| { NodesAt(p, xs, i + 1); }
      i := i + 1;
    }
    if i < |xs| { NoTailInside(p, xs, i); }
    return false;
  }
}
