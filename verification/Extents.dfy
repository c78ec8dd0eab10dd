/** Ranges stored by the extent skip list, and ordered sequences of them. */
module Extents {
  import opened Sequences

  /** A slot holds the half-open range [key, key + size). */
  datatype Slot = Slot(key: nat, size: nat) {
    function End(): nat {
      key + size
    }
  }

  /** What a leaf's pointer array holds: a slot pointer or NULL. */
  datatype SlotPtr = Null | Ref(slot: Slot)

  predicate Overlaps(s: Slot, key: nat, size: nat) {
    s.key < key + size && key < s.End()
  }

  /** Sizes are positive and every slot ends at or before the start of every later one. */
  ghost predicate Ordered(q: seq<Slot>) {
    && (forall i :: 0 <= i < |q| ==> q[i].size > 0)
    && (forall i, j :: 0 <= i < j < |q| ==> q[i].End() <= q[j].key)
  }

  ghost predicate Free(q: seq<Slot>, key: nat, size: nat) {
    forall i :: 0 <= i < |q| ==> !Overlaps(q[i], key, size)
  }

  /** Index i splits q into slots wholly before the range and slots wholly after it. */
  ghost predicate Separates(q: seq<Slot>, i: nat, key: nat, size: nat) {
    && i <= |q|
    && (forall j :: 0 <= j < i ==> q[j].End() <= key)
    && (forall j :: i <= j < |q| ==> key + size <= q[j].key)
  }

  /** The number of leading slots that end at or before key. */
  function Rank(q: seq<Slot>, key: nat): (i: nat)
    ensures i <= |q|
    ensures forall j :: 0 <= j < i ==> q[j].End() <= key
    ensures i < |q| ==> key < q[i].End()
  {
    RankFrom(q, key, 0)
  }

  function RankFrom(q: seq<Slot>, key: nat, from: nat): (i: nat)
    requires from <= |q|
    ensures from <= i <= |q|
    ensures forall j :: from <= j < i ==> q[j].End() <= key
    ensures i < |q| ==> key < q[i].End()
    decreases |q| - from
  {
    if from == |q| || key < q[from].End() then from else RankFrom(q, key, from + 1)
  }

  /** q with the slot put at its place in key order. */
  function Insert(q: seq<Slot>, s: Slot): (r: seq<Slot>)
    ensures |r| == |q| + 1
    ensures s in r
  {
    var r := Splice(q, Rank(q, s.key), s);
    assert r[Rank(q, s.key)] == s;
    r
  }

  /** An index that separates the range shows it free, and is the rank of its start. */
  lemma SeparatesIsRank(q: seq<Slot>, i: nat, key: nat, size: nat)
    requires Ordered(q) && size > 0 && Separates(q, i, key, size)
    ensures Free(q, key, size) && i == Rank(q, key)
  {
    var r := Rank(q, key);
    var atI := if i < |q| then q[i].End() else 0;
    var atR := if r < |q| then q[r].End() else 0;
  }

  /** It is enough to look at the two slots next to the index. */
  lemma NeighboursSeparate(q: seq<Slot>, i: nat, key: nat, size: nat)
    requires Ordered(q) && size > 0 && i <= |q|
    requires i > 0 ==> q[i - 1].End() <= key
    requires i < |q| ==> key + size <= q[i].key
    ensures Separates(q, i, key, size) && Free(q, key, size) && i == Rank(q, key)
  {
  }

  /** A free range has exactly one separating index, and it is the rank of its start. */
  lemma FreeIffSeparates(q: seq<Slot>, key: nat, size: nat)
    requires Ordered(q) && size > 0
    ensures Free(q, key, size) <==> Separates(q, Rank(q, key), key, size)
    ensures forall i: nat :: Separates(q, i, key, size) ==> i == Rank(q, key)
  {
    var r := Rank(q, key);
    if Free(q, key, size) {
      forall j | r <= j < |q| ensures key + size <= q[j].key {
        assert !Overlaps(q[r], key, size);
      }
    }
    forall i: nat | Separates(q, i, key, size) ensures i == r {
      SeparatesIsRank(q, i, key, size);
    }
  }

  /** Putting a free slot in its place keeps the sequence ordered and adds exactly that slot. */
  lemma InsertKeepsOrder(q: seq<Slot>, s: Slot)
    requires Ordered(q) && s.size > 0 && Free(q, s.key, s.size)
    ensures Ordered(Insert(q, s))
    ensures multiset(Insert(q, s)) == multiset(q) + multiset{s}
  {
    FreeIffSeparates(q, s.key, s.size);
    var i := Rank(q, s.key);
    SplicedOrder(q, i, s);
    assert q == q[..i] + q[i..];
    assert Insert(q, s) == q[..i] + [s] + q[i..];
  }

  lemma SplicedOrder(q: seq<Slot>, i: nat, s: Slot)
    requires Ordered(q) && s.size > 0 && Separates(q, i, s.key, s.size)
    ensures Ordered(Splice(q, i, s))
  {
  }

  lemma WithoutOrder(q: seq<Slot>, i: nat)
    requires Ordered(q) && i < |q|
    ensures Ordered(Without(q, i))
  {
  }

  lemma RemoveKeepsOrder(q: seq<Slot>, i: nat)
    requires Ordered(q) && i < |q|
    ensures Ordered(Without(q, i))
    ensures multiset(Without(q, i)) == multiset(q) - multiset{q[i]}
  {
    assert q == q[..i] + [q[i]] + q[i + 1..];
    assert Without(q, i) == q[..i] + q[i + 1..];
  }

  /** Two slots of an ordered sequence never share a point. */
  lemma SlotOfPointUnique(q: seq<Slot>, i: nat, j: nat, key: nat)
    requires Ordered(q) && i < |q| && j < |q|
    requires Overlaps(q[i], key, 1) && Overlaps(q[j], key, 1)
    ensures i == j
  {
  }

  /** Removing the slot that an insert added gives the old sequence back. */
  lemma RemoveUndoesInsert(q: seq<Slot>, s: Slot, i: nat, point: nat)
    requires Ordered(q) && s.size > 0 && Free(q, s.key, s.size)
    requires s.key <= point < s.End()
    requires i < |q| + 1 && Overlaps(Insert(q, s)[i], point, 1)
    ensures Insert(q, s)[i] == s
    ensures Without(Insert(q, s), i) == q
  {
    InsertKeepsOrder(q, s);
    var r := Rank(q, s.key);
    SlotOfPointUnique(Insert(q, s), i, r, point);
    WithoutSplice(q, r, s);
  }
}
