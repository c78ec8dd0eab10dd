/** Finding the leaf and the slot of a key. */
module Lookup {
  import opened Extents
  import opened Towers
  import opened IndexSpec
  import opened SkipLists

  /** Leaf k is the one whose range [min, max) holds the key. */
  ghost predicate IsHomeOf(ls: seq<LeafVal>, k: nat, key: nat) {
    k < |ls| && ls[k].slots != [] && ls[k].Min() <= key < ls[k].Max()
  }

  ghost predicate NoHome(ls: seq<LeafVal>, key: nat) {
    forall k: nat :: !IsHomeOf(ls, k, key)
  }

  /** Every leaf up to position x of level 0 (the head is 0) ends at or before the key. */
  ghost predicate Passed(ls: seq<LeafVal>, x: nat, key: nat) {
    x <= |ls| && (x > 0 ==> ls[x - 1].slots != [] && ls[x - 1].Max() <= key)
  }

  lemma HomeIsUnique(ls: seq<LeafVal>, j: nat, k: nat, key: nat)
    requires WellFormed(ls) && IsHomeOf(ls, j, key) && IsHomeOf(ls, k, key)
    ensures j == k
  {
    LeavesInOrder(ls);
  }

  lemma GapHasNoHome(ls: seq<LeafVal>, x: nat, key: nat)
    requires WellFormed(ls) && Passed(ls, x, key)
    requires x < |ls| ==> key < ls[x].Min()
    ensures NoHome(ls, key)
  {
    LeavesInOrder(ls);
    forall k: nat ensures !IsHomeOf(ls, k, key) {
      if k < |ls| {
        assert k < x ==> ls[k].Max() <= ls[x - 1].Max();
        assert x < k ==> ls[x].Min() <= ls[k].Min();
      }
    }
  }

  /** The walk is at p, position x, having passed only leaves that end by the key. */
  ghost predicate Walking(list: SkipList, p: Node, x: nat, level: int, key: nat)
    reads list`lists, list`leaves
  {
    list.At(p, x, level) && Passed(list.leaves, x, key)
  }

  /** Where a walk along one level stops: y is the next tall enough position, past the key or the end. */
  ghost predicate Stopped(list: SkipList, x: nat, y: nat, level: int, key: nat)
    reads list`lists, list`leaves
  {
    && |list.lists| > 0 && |list.lists[0]| == |list.leaves| + 1
    && x < y <= |list.lists[0]| && Passed(list.leaves, x, key)
    && (forall c :: x < c < y ==> list.lists[0][c].level < level)
    && (y < |list.lists[0]| ==>
          list.lists[0][y].level >= level && list.leaves[y - 1].slots != [] && key < list.leaves[y - 1].Min())
  }

  lemma StopHere(list: SkipList, leaf: Node?, x: nat, y: nat, level: int, key: nat)
    requires |list.lists| > 0 && |list.lists[0]| == |list.leaves| + 1
    requires list.Follows(leaf, x, y, level) && Passed(list.leaves, x, key)
    requires leaf != null ==> y <= |list.leaves| && list.leaves[y - 1].slots != [] && key < list.leaves[y - 1].Min()
    ensures Stopped(list, x, y, level, key)
  {
  }

  /** The inner loop of skiplist_lookup_leaf: walk right while leaves end by the key. */
  method WalkLevel(list: SkipList, from: Node, level: nat, key: nat, ghost x0: nat)
    returns (leaf: Node?, p: Node, ghost x: nat, ghost y: nat)
    requires list.Valid() && level < SKIP_MAXLEVEL && Walking(list, from, x0, level, key)
    ensures Walking(list, p, x, level, key)
    ensures leaf != null ==> list.Follows(leaf, x, y, level) && y > 0 && IsHomeOf(list.leaves, y - 1, key)
    ensures leaf == null ==> Stopped(list, x, y, level, key)
  {
    hide SkipList.Valid, SkipList.At, SkipList.Follows, Stopped;
    p := from;
    x := x0;
    list.Basics();
    leaf, y := list.NextLeaf(p, level, x);
    while leaf != null
      invariant Walking(list, p, x, level, key) && list.Follows(leaf, x, y, level)
      invariant x < y <= |list.leaves| + 1
      invariant leaf != null ==> list.At(leaf, y, level) && list.At(leaf, y, 0) && y <= |list.leaves|
      decreases |list.leaves| + 1 - x
    {
      var maxKey := list.MaxKey(leaf, y);
      var minKey := list.MinKey(leaf, y);
      if key < maxKey {
        if key < minKey {
          // Alone nothing can have been linked between p and leaf, so the walk never starts over.
          var prev := list.PrevLeaf(leaf, level, p, x, y);
          var again := list.MinKey(leaf, y);
          if prev != p || again != minKey || p.dead || leaf.dead {
            assert false;
          }
          StopHere(list, leaf, x, y, level, key);
          leaf := null;
        }
        return;
      }
      p := leaf;
      x := y;
      leaf, y := list.NextLeaf(p, level, x);
    }
    StopHere(list, leaf, x, y, level, key);
  }

  /** skiplist_lookup_leaf: walk each level in turn, from the top, carrying on where the last one stopped. */
  method LookupLeaf(list: SkipList, key: nat) returns (leaf: Node?, last: Node, ghost x: nat, ghost y: nat)
    requires list.Valid()
    ensures Walking(list, last, x, 0, key)
    ensures leaf != null ==> y > 0 && list.At(leaf, y, 0) && IsHomeOf(list.leaves, y - 1, key)
    ensures leaf == null ==> NoHome(list.leaves, key) && Stopped(list, x, y, 0, key)
  {
    hide SkipList.Valid, Stopped;
    list.Basics();
    var level: int := list.level;
    last := list.head;
    x := 0;
    y := 1;
    while level >= 0
      invariant -1 <= level < SKIP_MAXLEVEL
      invariant Walking(list, last, x, level, key)
      invariant level < list.level ==> Stopped(list, x, y, level + 1, key)
      decreases level
    {
      leaf, last, x, y := WalkLevel(list, last, level, key, x);
      if leaf != null {
        return;
      }
      level := level - 1;
    }
    leaf := null;
    StopsAtGap(list, x, y, key);
  }

  lemma StopsAtGap(list: SkipList, x: nat, y: nat, key: nat)
    requires list.Valid() && Stopped(list, x, y, 0, key)
    ensures y == x + 1 && NoHome(list.leaves, key)
  {
    var after := list.lists[0][if y > x + 1 then x + 1 else x];
    GapHasNoHome(list.leaves, x, key);
  }

  /** verify_key_in_leaf: the leaf is alive and the range reaches it. */
  method VerifyKeyInLeaf(list: SkipList, leaf: Node, key: nat, size: nat, ghost y: nat) returns (ok: bool)
    requires list.Valid() && y > 0 && list.At(leaf, y, 0) && IsHomeOf(list.leaves, y - 1, key)
    ensures ok
  {
    hide SkipList.Valid, SkipList.At;
    list.LeafReady(leaf, y);
    if leaf.dead {
      return false;
    }
    var min := list.MinKey(leaf, y);
    var max := list.MaxKey(leaf, y);
    ok := !(key + size < min || key >= max);
  }

  // ---- what a lookup promises about the stored slots

  ghost predicate StoredAt(q: seq<Slot>, at: nat, s: Slot) {
    at < |q| && q[at] == s
  }

  ghost predicate Stored(ls: seq<LeafVal>, s: Slot) {
    exists at: nat :: StoredAt(Flatten(ls), at, s)
  }

  ghost predicate Covers(s: Slot, key: nat) {
    s.key <= key < s.End()
  }

  /** The slot meets the query and lies in the leaf the key belongs to. */
  ghost predicate MetAtHome(ls: seq<LeafVal>, k: nat, s: Slot, key: nat, size: nat) {
    IsHomeOf(ls, k, key) && s in ls[k].slots && Overlaps(s, key, size)
  }

  /**
    * A slot is found exactly when the leaf the key belongs to has one that overlaps the query, and then it is such a
    * slot; a stored slot covering the key is never missed.
    */
  ghost predicate Answers(ls: seq<LeafVal>, r: SlotPtr, key: nat, size: nat) {
    && (r.Ref? ==> Stored(ls, r.slot) && Overlaps(r.slot, key, size))
    && (r.Ref? ==> exists k: nat :: MetAtHome(ls, k, r.slot, key, size))
    && (r.Null? ==> forall s :: Stored(ls, s) ==> !Covers(s, key))
    && (r.Null? ==> forall k: nat, s :: !MetAtHome(ls, k, s, key, size))
  }

  lemma CoveringSlotAtHome(ls: seq<LeafVal>, s: Slot, key: nat) returns (k: nat, i: nat)
    requires WellFormed(ls) && Stored(ls, s) && Covers(s, key)
    ensures IsHomeOf(ls, k, key) && i < |ls[k].slots| && ls[k].slots[i] == s
  {
    var at: nat :| StoredAt(Flatten(ls), at, s);
    k, i := LeafOfSlot(ls, at);
    LeavesInOrder(ls);
    var q := ls[k].slots;
    assert i > 0 ==> q[0].End() <= q[i].key;
    assert i < |q| - 1 ==> q[i].End() <= q[|q| - 1].key;
  }

  lemma HitAnswers(ls: seq<LeafVal>, k: nat, i: nat, key: nat, size: nat)
    requires IsHomeOf(ls, k, key) && i < |ls[k].slots| && Overlaps(ls[k].slots[i], key, size)
    ensures Answers(ls, Ref(ls[k].slots[i]), key, size)
  {
    assert MetAtHome(ls, k, ls[k].slots[i], key, size);
    SlotsInFlatten(ls, k, i);
    assert StoredAt(Flatten(ls), |Flatten(ls[..k])| + i, ls[k].slots[i]);
  }

  lemma MissAnswers(ls: seq<LeafVal>, k: nat, key: nat, size: nat)
    requires WellFormed(ls) && size > 0
    requires NoHome(ls, key) || (IsHomeOf(ls, k, key) && Free(ls[k].slots, key, size))
    ensures Answers(ls, Null, key, size)
  {
    forall k': nat, s ensures !MetAtHome(ls, k', s, key, size) {
      if MetAtHome(ls, k', s, key, size) && IsHomeOf(ls, k, key) {
        HomeIsUnique(ls, k, k', key);
      }
    }
    forall s | Stored(ls, s) ensures !Covers(s, key) {
      if Covers(s, key) {
        var k', i := CoveringSlotAtHome(ls, s, key);
        assert IsHomeOf(ls, k', key);
        if IsHomeOf(ls, k, key) {
          HomeIsUnique(ls, k, k', key);
        }
      }
    }
  }

  /** For a single point a lookup is exact: it finds the slot covering the point, and only that. */
  lemma PointLookupExact(ls: seq<LeafVal>, r: SlotPtr, key: nat)
    requires WellFormed(ls) && Answers(ls, r, key, 1)
    ensures r.Ref? <==> exists s :: Stored(ls, s) && Covers(s, key)
    ensures forall s :: Stored(ls, s) && Covers(s, key) ==> r == Ref(s)
  {
  }

  /** If the key has a home leaf, the slots outside it matter only through the last one in it. */
  lemma HomeDecides(ls: seq<LeafVal>, k: nat, key: nat, size: nat)
    requires WellFormed(ls) && size > 0 && IsHomeOf(ls, k, key) && Free(ls[k].slots, key, size)
    ensures Free(Flatten(ls), key, size)
  {
    hide WellFormed, Flatten;
    var last := |ls[k].slots| - 1;
    SlotWithinLeaf(ls, k, last);
    assert !Overlaps(ls[k].slots[last], key, size);
    forall at | 0 <= at < |Flatten(ls)| ensures !Overlaps(Flatten(ls)[at], key, size) {
      var j, i := LeafOfSlot(ls, at);
      SlotWithinLeaf(ls, j, i);
      TwoLeaves(ls, j, k);
      TwoLeaves(ls, k, j);
    }
  }

  /**
    * When a query of any size is exact over the whole list, finding a slot iff some stored slot overlaps: exactly when
    * the key has a home leaf or nothing overlaps the range.
    */
  lemma {:induction false} RangeLookupExactIff(ls: seq<LeafVal>, r: SlotPtr, key: nat, size: nat)
    requires WellFormed(ls) && size > 0 && Answers(ls, r, key, size)
    ensures (r.Null? <==> Free(Flatten(ls), key, size)) <==> (NoHome(ls, key) ==> Free(Flatten(ls), key, size))
  {
    hide WellFormed, Flatten;
    if r.Null? && !NoHome(ls, key) {
      var k: nat :| k < |ls| && IsHomeOf(ls, k, key);
      forall i | 0 <= i < |ls[k].slots| ensures !Overlaps(ls[k].slots[i], key, size) {
        assert !MetAtHome(ls, k, ls[k].slots[i], key, size);
      }
      HomeDecides(ls, k, key, size);
    }
  }

  /** Wider queries can miss: one that starts between two leaves finds nothing, even where it runs into the second. */
  lemma GapQueryMisses(a: Slot, b: Slot, key: nat, size: nat, r: SlotPtr)
    requires 0 < a.size && a.End() <= key < b.key < key + size && 0 < b.size
    requires Answers([LeafVal([a], 0), LeafVal([b], 0)], r, key, size)
    ensures WellFormed([LeafVal([a], 0), LeafVal([b], 0)]) && Overlaps(b, key, size) && r == Null
  {
    var first, second := LeafVal([a], 0), LeafVal([b], 0);
    FlattenCons(first, [second]);
    FlattenCons(second, []);
    assert [first, second] == [first] + [second] && [second] == [second] + [];
  }

  /** skiplist_lookup: the slots are read under the leaf's lock. */
  method SkiplistLookup(list: SkipList, cpu: Cpu, key: nat, size: nat) returns (r: SlotPtr)
    requires list.Valid() && size > 0 && cpu.held == {}
    modifies cpu`held
    ensures cpu.held == {}
    ensures Answers(list.leaves, r, key, size)
  {
    hide SkipList.Valid, SkipList.At, Answers, Stopped, NoHome, Ordered;
    list.Basics();
    r := Null;
    var leaf, p, x, y := LookupLeaf(list, key);
    if leaf != null {
      list.LeafReady(leaf, y);
      list.AtIsPosition(leaf, y);
      list.LockNode(cpu, leaf, y);
      var ok := VerifyKeyInLeaf(list, leaf, key, size, y);
      if !ok {
        assert false;
      }
      var ret, slot := leaf.leaf.SlotLocked(key, size);
      if ret == 0 {
        r := leaf.leaf.ptrs[slot];
        HitAnswers(list.leaves, y - 1, slot, key, size);
      } else {
        list.WellFormedLeaves();
        MissAnswers(list.leaves, y - 1, key, size);
      }
      list.UnlockNode(cpu, leaf);
    } else {
      list.WellFormedLeaves();
      MissAnswers(list.leaves, 0, key, size);
    }
  }

  /** skiplist_lookup_rcu: no lock, the sequential search, and a recheck of the leaf on a miss. */
  method SkiplistLookupRcu(list: SkipList, key: nat, size: nat) returns (r: SlotPtr)
    requires list.Valid() && size > 0
    ensures Answers(list.leaves, r, key, size)
  {
    hide SkipList.Valid, SkipList.At, Answers, Stopped, NoHome, Ordered;
    list.WellFormedLeaves();
    r := Null;
    var leaf, p, x, y := LookupLeaf(list, key);
    if leaf != null {
      list.LeafReady(leaf, y);
      var ret, slot := leaf.leaf.SlotRcu(key, size);
      if ret == 0 {
        r := leaf.leaf.ptrs[slot];
        HitAnswers(list.leaves, y - 1, slot, key, size);
      } else {
        var ok := VerifyKeyInLeaf(list, leaf, key, size, y);
        if !ok {
          assert false;
        }
        MissAnswers(list.leaves, y - 1, key, size);
      }
    } else {
      MissAnswers(list.leaves, 0, key, size);
    }
  }
}
