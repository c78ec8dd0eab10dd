/** From a chosen leaf to a finished insert: overlap check, in-leaf search, add. */
module InsertPath {
  import opened Extents
  import opened Sequences
  import opened Leaves
  import opened Towers
  import opened IndexSpec
  import opened SkipLists
  import opened TowerLinks
  import opened Inserting

  const EEXIST: int := 17

  /** check_overlap: does the range run into the next leaf? */
  method CheckOverlap(list: SkipList, cpu: Cpu, leaf: Node, key: nat, size: nat, ghost y: nat) returns (ret: int)
    requires list.Valid() && y > 0 && list.At(leaf, y, 0) && RightOfIsFree(list, cpu, y)
    modifies cpu`held
    ensures cpu.held == old(cpu.held)
    ensures y < |list.leaves| ==> list.leaves[y].slots != []
    ensures ret == 0 <==> (y < |list.leaves| ==> key + size <= list.leaves[y].Min())
  {
    hide SkipList.Skeleton, SkipList.Filled, WellFormed, Capped;
    list.Basics();
    list.Successor(leaf, y);
    var p := leaf.next[0];
    if p == null {
      return 0;
    }
    ret := 0;
    list.LockNode(cpu, p, y + 1);
    var min := list.MinKey(p, y + 1);
    if key + size > min {
      ret := 1;
    }
    list.UnlockNode(cpu, p);
  }

  /** Where the slot belongs in its home leaf, and whether it fits there. */
  lemma RankAtHome(ls: seq<LeafVal>, key: nat, size: nat)
    requires WellFormed(ls) && ls != [] && size > 0
    ensures ls[Home(ls, key)].Max() <= key ==>
      var q := ls[Home(ls, key)].slots; Free(q, key, size) && Rank(q, key) == |q|
  {
    var q := ls[Home(ls, key)].slots;
    LeavesInOrder(ls);
    if ls[Home(ls, key)].Max() <= key {
      forall i | 0 <= i < |q| ensures q[i].End() <= key {
        assert i < |q| - 1 ==> q[i].End() <= q[|q| - 1].key;
      }
      SeparatesIsRank(q, |q|, key, size);
    }
  }

  method FindSlot(list: SkipList, leaf: Node, key: nat, size: nat, ghost y: nat) returns (ret: int, slot: nat)
    requires list.Valid() && y > 0 && list.At(leaf, y, 0) && size > 0
    requires list.leaves != [] && y - 1 == Home(list.leaves, key)
    ensures ret == 0 <==> !Free(list.leaves[y - 1].slots, key, size)
    ensures ret != 0 ==> slot == Rank(list.leaves[y - 1].slots, key)
  {
    hide SkipList.Valid, SkipList.At, WellFormed, Ordered, Home;
    list.LeafReady(leaf, y);
    list.WellFormedLeaves();
    if key < leaf.leaf.max {
      ret, slot := leaf.leaf.SlotLocked(key, size);
    } else {
      RankAtHome(list.leaves, key, size);
      ret, slot := 1, leaf.leaf.nr;
    }
  }

  /** Adding the slot to its home leaf is the specified insert. */
  lemma AddAtHomeIsInsert(ix: Index, s: Slot, pending: nat, spare0: bool)
    requires WellFormed(ix.leaves) && Capped(ix) && ix.leaves != [] && s.size > 0
    requires Free(Flatten(ix.leaves), s.key, s.size) && pending < SKIP_MAXLEVEL && pending <= ix.level + 1
    ensures var k := Home(ix.leaves, s.key); var l := ix.leaves[k];
      var h := SplitHeight(l.height, pending, spare0);
      && WellFormed(Replace(ix.leaves, k, AddKey(l, Rank(l.slots, s.key), s, h)))
      && Added(ix, s, Rank(l.slots, s.key), h, k + 1) == InsertSpec(ix, s, pending, spare0)
  {
    InsertRefines(ix, s, pending, spare0);
  }

  /** The tests before an insert, which decide whether the range is free in the whole list. */
  method TestHome(list: SkipList, cpu: Cpu, s: Slot, leaf: Node, ghost y: nat) returns (ok: bool, slot: nat)
    requires list.Valid() && y > 0 && list.At(leaf, y, 0) && s.size > 0
    requires list.leaves != [] && y - 1 == Home(list.leaves, s.key) && RightOfIsFree(list, cpu, y)
    modifies cpu`held
    ensures cpu.held == old(cpu.held)
    ensures ok <==> Free(Flatten(list.leaves), s.key, s.size)
    ensures ok ==> slot == Rank(list.leaves[y - 1].slots, s.key)
  {
    hide SkipList.Valid, SkipList.At, WellFormed, Flatten, Rank;
    list.WellFormedLeaves();
    FreeAtHomeIsFree(list.leaves, s.key, s.size);
    slot := 0;
    var ret := CheckOverlap(list, cpu, leaf, s.key, s.size, y);
    if ret != 0 {
      return false, 0;
    }
    ret, slot := FindSlot(list, leaf, s.key, s.size, y);
    ok := ret != 0;
  }

  /** find_or_add_key: insert into the home leaf unless something overlaps. */
  method FindOrAddKey(list: SkipList, cpu: Cpu, s: Slot, leaf: Node, token: nat, ghost y: nat) returns (ret: int)
    requires list.Valid() && y > 0 && list.At(leaf, y, 0) && leaf in cpu.held && s.size > 0
    requires list.leaves != [] && y - 1 == Home(list.leaves, s.key)
    requires Preloaded(list, cpu, token) && RightOfIsFree(list, cpu, y) && cpu.held <= list.nodes
    requires |list.leaves[y - 1].slots| == KEYS_PER_NODE ==> CursorCovers(list, cpu, y, leaf, PendingLevel(cpu, token))
    modifies list.Footprint(), cpu.Footprint()
    ensures list.Valid() && cpu.held == old(cpu.held) && cpu.cursor == old(cpu.cursor)
    ensures ret == if old(Free(Flatten(list.leaves), s.key, s.size)) then 0 else -EEXIST
    ensures Index(list.leaves, list.level) == old(
      if Free(Flatten(list.leaves), s.key, s.size)
      then InsertSpec(Index(list.leaves, list.level), s, PendingLevel(cpu, token), cpu.preload[0] != null)
      else Index(list.leaves, list.level))
  {
    hide SkipList.Skeleton, SkipList.Filled, WellFormed, CursorReady, Flatten, Rank, Home, AddKey, Replace,
      Free, InsertSpec, Added, Spare, SkipList.Footprint;
    list.WellFormedLeaves();
    list.LeafReady(leaf, y);
    list.InFootprint(leaf, y);
    var ok, slot := TestHome(list, cpu, s, leaf, y);
    if !ok {
      return -EEXIST;
    }
    SparePending(list, cpu, token);
    AddAtHomeIsInsert(Index(list.leaves, list.level), s, PendingLevel(cpu, token), cpu.preload[0] != null);
    ghost var h := SplitHeight(leaf.level, PendingLevel(cpu, token), cpu.preload[0] != null);
    AddKeyToLeaf(list, cpu, leaf, s, slot, token, h, y);
    ret := 0;
  }

  lemma SparePending(list: SkipList, cpu: Cpu, token: nat)
    requires Preloaded(list, cpu, token)
    ensures token < |cpu.preload| && cpu.preload[token] != null
    ensures PendingLevel(cpu, token) < SKIP_MAXLEVEL && PendingLevel(cpu, token) <= list.level + 1
  {
  }
}
