/** skiplist_delete as a whole, run alone. */
module SkipDelete {
  import opened Extents
  import opened Sequences
  import opened Leaves
  import opened Towers
  import opened IndexSpec
  import opened SkipLists
  import opened TowerLinks
  import opened TowerErase
  import opened Inserting
  import opened Lookup

  /** The slot goes out of its leaf; the leaf's max follows when it was the last one. */
  method ShrinkLeaf(leaf: Leaf, slot: nat, ghost l: LeafVal)
    requires leaf.Valid() && l.slots != [] && leaf.slots == l.slots && leaf.max == l.Max() && slot < leaf.nr
    modifies leaf, leaf.keys, leaf.ptrs
    ensures leaf.Holds() && leaf.slots == Without(l.slots, slot)
    ensures leaf.slots != [] ==> LeafFills(leaf, l.(slots := Without(l.slots, slot)))
  {
    leaf.DeleteSlot(slot);
  }

  /** The leaf keeps other slots: nothing is unlinked. */
  method DeleteFromLeaf(list: SkipList, leaf: Node, slot: nat, ghost y: nat)
    requires list.Valid() && y > 0 && list.At(leaf, y, 0) && slot < |list.leaves[y - 1].slots|
    requires |list.leaves[y - 1].slots| > 1
    modifies list`leaves, leaf.leaf, leaf.leaf.keys, leaf.leaf.ptrs
    ensures list.Valid()
      && Index(list.leaves, list.level) == old(DeleteSpec(Index(list.leaves, list.level), y - 1, slot))
  {
    hide SkipList.Skeleton, Flatten, Ordered, Rank;
    OthersAreFilled(list, leaf, y);
    list.LeafReady(leaf, y);
    DeleteRefines(Index(list.leaves, list.level), y - 1, slot);
    ghost var vals := list.leaves;
    ghost var left := vals[y - 1].(slots := Without(vals[y - 1].slots, slot));
    ShrinkLeaf(leaf.leaf, slot, vals[y - 1]);
    list.leaves := Replace(vals, y - 1, [left]);
    list.SkeletonShape();
    FilledAfterChange(list, vals, y, left);
  }

  lemma StartErasing(list: SkipList, all: seq<Node>, pos: nat)
    requires |list.lists| == SKIP_MAXLEVEL && list.Stacked() && list.lists[0] == all && Distinct(all)
    requires 1 <= pos < |all| && all[pos].level < SKIP_MAXLEVEL
    requires forall b {:trigger all[b]} :: 0 <= b < |all| ==> all[b] in list.nodes && (all[b].dead <==> b == pos)
    ensures Erasing(list, all, pos, all[pos].level)
  {
    hide AtLevel, Without;
    forall j | all[pos].level < j < SKIP_MAXLEVEL
      ensures AtLevel(Without(all, pos), j, |all| - 1) == AtLevel(all, j, |all|) {
      AtLevelWithout(all, pos, j, |all|);
    }
  }

  lemma Erased(list: SkipList, all: seq<Node>, pos: nat)
    requires Erasing(list, all, pos, -1)
    requires forall j, k :: 0 <= j < k < |all| ==> NoSharing(all[j], all[k])
    ensures |list.lists| == SKIP_MAXLEVEL && |all| > 0
    ensures list.lists[0] == Without(all, pos) && all[pos] !in list.lists[0] && list.Stacked() && list.Apart()
      && list.Live()
  {
    hide AtLevel;
    WithoutSize(all, pos);
    AtLevelAll(Without(all, pos));
    forall k | 0 <= k < |all| - 1 ensures Without(all, pos)[k] in list.nodes && !Without(all, pos)[k].dead {
      assert Without(all, pos)[k] == all[if k < pos then k else k + 1];
    }
  }

  lemma WithoutSize(all: seq<Node>, pos: nat)
    requires pos < |all|
    ensures |Without(all, pos)| == |all| - 1
  {
  }

  lemma FilledAfterErase(list: SkipList, all: seq<Node>, vals: seq<LeafVal>, y: nat, leaf: Leaf)
    requires |list.lists| == SKIP_MAXLEVEL && 1 <= y < |all| == |vals| + 1
    requires list.lists[0] == Without(all, y) && OthersFilled(list, all, vals, y, leaf)
    requires list.leaves == Replace(vals, y - 1, []) && Sized(list.leaves)
    ensures list.Filled()
  {
  }

  /** Marking the emptied leaf dead is all that changes before the unlinking starts. */
  method MarkDead(list: SkipList, leaf: Node, ghost all: seq<Node>, ghost y: nat)
    requires list.Skeleton() && list.lists[0] == all && y > 0 && list.At(leaf, y, 0) && leaf.level < SKIP_MAXLEVEL
    modifies leaf`dead
    ensures list.Wired() && Erasing(list, all, y, leaf.level)
    ensures all[0] == list.head && list.head.level == SKIP_MAXLEVEL
    ensures forall j, k :: 0 <= j < k < |all| ==> NoSharing(all[j], all[k])
  {
    hide AtLevel;
    assert list.LevelWired(0) && Distinct(all);
    leaf.dead := true;
    forall i | 0 <= i < SKIP_MAXLEVEL ensures list.LevelWired(i) {
      assert old(list.LevelWired(i));
    }
    StartErasing(list, all, y);
  }

  /** Unlinks the dead leaf and drops it from the abstract leaves. */
  method EraseAndSettle(list: SkipList, cpu: Cpu, leaf: Node, ghost all: seq<Node>, ghost y: nat)
    requires list.Wired() && leaf.level < SKIP_MAXLEVEL && Erasing(list, all, y, leaf.level) && y < |all|
      && leaf == all[y]
    requires all[0] == list.head && list.head.level == SKIP_MAXLEVEL && list.head.leaf == null && cpu.held == {}
    requires forall j, k :: 0 <= j < k < |all| ==> NoSharing(all[j], all[k])
    requires 1 <= y < |all| == |list.leaves| + 1 && leaf.leaf != null
      && OthersFilled(list, all, list.leaves, y, leaf.leaf)
    requires Sized(Replace(list.leaves, y - 1, []))
    modifies list`leaves, list`lists, list.nodes, cpu`held
    ensures list.Skeleton() && list.Filled() && cpu.held == {}
    ensures list.leaves == old(Replace(list.leaves, y - 1, []))
    ensures leaf !in list.lists[0]
  {
    hide SkipList.Wired, Erasing, SkipList.Fills, Replace, SkipList.Stacked, SkipList.Apart, SkipList.Live,
      SkipList.Filled;
    ghost var vals := list.leaves;
    SlErase(list, cpu, leaf, all, y);
    list.leaves := Replace(vals, y - 1, []);
    Erased(list, all, y);
    FilledAfterErase(list, all, vals, y, leaf.leaf);
  }

  /** The leaf lost its only slot: dead, unlocked, then unlinked everywhere. */
  method RemoveLeaf(list: SkipList, cpu: Cpu, leaf: Node, slot: nat, ghost y: nat)
    requires list.Valid() && y > 0 && list.At(leaf, y, 0) && slot < |list.leaves[y - 1].slots|
      && |list.leaves[y - 1].slots| == 1
    requires cpu.held == {leaf}
    modifies list`leaves, list`lists, list.nodes, leaf.leaf, leaf.leaf.keys, leaf.leaf.ptrs, cpu`held
    ensures list.Valid() && cpu.held == {}
    ensures Index(list.leaves, list.level) == old(DeleteSpec(Index(list.leaves, list.level), y - 1, slot))
    ensures leaf !in list.lists[0]
  {
    hide SkipList.Skeleton, Flatten, Ordered, Rank, Erasing, SkipList.Wired, OthersFilled, SkipList.Filled, Replace;
    OthersAreFilled(list, leaf, y);
    list.LeafReady(leaf, y);
    list.AliveAt(leaf, y);
    DeleteRefines(Index(list.leaves, list.level), y - 1, slot);
    ghost var all := list.lists[0];
    EmptyLeaf(list, leaf, slot, y);
    MarkDead(list, leaf, all, y);
    list.UnlockNode(cpu, leaf);
    EraseAndSettle(list, cpu, leaf, all, y);
  }

  /** Taking out the only slot leaves the leaf empty and disturbs no other leaf. */
  method EmptyLeaf(list: SkipList, leaf: Node, slot: nat, ghost y: nat)
    requires list.Valid() && y > 0 && list.At(leaf, y, 0) && slot < |list.leaves[y - 1].slots|
      && |list.leaves[y - 1].slots| == 1
    modifies leaf.leaf, leaf.leaf.keys, leaf.leaf.ptrs
    ensures list.Skeleton() && list.head.leaf == null && leaf.leaf != null
    ensures |list.lists[0]| == |list.leaves| + 1 && OthersFilled(list, list.lists[0], list.leaves, y, leaf.leaf)
  {
    hide SkipList.Skeleton, Flatten, Ordered, Rank;
    OthersAreFilled(list, leaf, y);
    list.LeafReady(leaf, y);
    HeadHasNoLeaf(list);
    ghost var all, vals := list.lists[0], list.leaves;
    ShrinkLeaf(leaf.leaf, slot, list.leaves[y - 1]);
    if leaf.leaf.nr != 0 {
      assert false;
    }
    forall k {:trigger vals[k]} | 0 <= k < |vals| && k != y - 1
      ensures FilledApart(list, all[k + 1], vals[k], leaf.leaf)
    {
      assert old(FilledApart(list, all[k + 1], vals[k], leaf.leaf)) && old(LeafFills(all[k + 1].leaf, vals[k]));
    }
  }

  lemma HeadHasNoLeaf(list: SkipList)
    requires list.Skeleton()
    ensures list.head.leaf == null
  {
  }

  ghost predicate RemovedAt(was: Index, now: Index, s: Slot, k: nat, i: nat) {
    k < |was.leaves| && i < |was.leaves[k].slots| && was.leaves[k].slots[i] == s && now == DeleteSpec(was, k, i)
  }

  /** The slot returned overlaps the query and is the one slot taken out; NULL means nothing changed. */
  ghost predicate Deleted(was: Index, now: Index, r: SlotPtr, key: nat, size: nat) {
    && Answers(was.leaves, r, key, size)
    && (if r.Ref? then exists k: nat, i: nat :: RemovedAt(was, now, r.slot, k, i) else now == was)
  }

  /** skiplist_delete. */
  method SkiplistDelete(list: SkipList, cpu: Cpu, key: nat, size: nat) returns (r: SlotPtr)
    requires list.Valid() && size > 0 && cpu.held == {}
    modifies list.Footprint(), cpu`held
    ensures list.Valid() && cpu.held == {}
    ensures Deleted(old(Index(list.leaves, list.level)), Index(list.leaves, list.level), r, key, size)
  {
    hide SkipList.Valid, SkipList.At, Answers, Stopped, NoHome, Ordered, DeleteSpec;
    list.WellFormedLeaves();
    list.Basics();
    var leaf, p, x, y := LookupLeaf(list, key);
    if leaf == null {
      MissAnswers(list.leaves, 0, key, size);
      return Null;
    }
    list.LeafReady(leaf, y);
    list.AtIsPosition(leaf, y);
    list.LockNode(cpu, leaf, y);
    var ok := VerifyKeyInLeaf(list, leaf, key, size, y);
    if !ok {
      assert false;
    }
    var ret, slot := leaf.leaf.SlotLocked(key, size);
    if ret != 0 {
      MissAnswers(list.leaves, y - 1, key, size);
      list.UnlockNode(cpu, leaf);
      return Null;
    }
    r := leaf.leaf.ptrs[slot];
    HitAnswers(list.leaves, y - 1, slot, key, size);
    DeleteFound(list, cpu, leaf, slot, y);
  }

  /** delete_slot and what follows it. */
  method DeleteFound(list: SkipList, cpu: Cpu, leaf: Node, slot: nat, ghost y: nat)
    requires list.Valid() && y > 0 && list.At(leaf, y, 0) && slot < |list.leaves[y - 1].slots| && cpu.held == {leaf}
    modifies list.Footprint(), cpu`held
    ensures list.Valid() && cpu.held == {}
    ensures 0 < y <= old(|list.leaves|) && slot < old(|list.leaves[y - 1].slots|)
    ensures RemovedAt(old(Index(list.leaves, list.level)), Index(list.leaves, list.level),
                      old(list.leaves[y - 1].slots[slot]), y - 1, slot)
  {
    hide SkipList.Skeleton, SkipList.Filled, WellFormed, Capped, DeleteSpec;
    list.LeafReady(leaf, y);
    list.InFootprint(leaf, y);
    if leaf.leaf.nr == 1 {
      RemoveLeaf(list, cpu, leaf, slot, y);
    } else {
      DeleteFromLeaf(list, leaf, slot, y);
      list.UnlockNode(cpu, leaf);
    }
  }
}
