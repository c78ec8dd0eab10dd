/** Inserting a slot: into a leaf with room, or by splitting a full one. */
module Inserting {
  import opened Extents
  import opened Sequences
  import opened Leaves
  import opened Towers
  import opened IndexSpec
  import opened SkipLists
  import opened TowerLinks

  /** A preallocated leaf that is not part of the list yet. */
  ghost predicate Spare(list: SkipList, n: Node)
    reads list`nodes, list`store, list.store, n
  {
    && n !in list.nodes && !n.dead && n.level < SKIP_MAXLEVEL
    && |n.next| == |n.prev| == n.level + 1
    && n.leaf != null && n.leaf !in list.store && n.leaf.Roomy()
    && forall l {:trigger l in list.store} :: l in list.store ==> l.keys != n.leaf.keys && l.ptrs != n.leaf.ptrs
  }

  /** Everything add_key_to_leaf needs of the cursor to put a node of this height after position y. */
  ghost predicate CursorCovers(list: SkipList, cpu: Cpu, y: nat, after: Node, level: nat)
    reads list`lists, cpu`cursor, cpu`held
  {
    |list.lists| > 0 && forall i :: after.level < i <= level ==> CursorReady(list, cpu, list.lists[0], y, i)
  }

  ghost predicate RightOfIsFree(list: SkipList, cpu: Cpu, y: nat)
    reads list`lists, cpu`held
  {
    |list.lists| > 0 && NoneHeldPast(cpu, list.lists[0], y)
  }

  lemma SpareStandsApart(list: SkipList, n: Node, k: nat)
    requires list.Valid() && Spare(list, n) && k < |list.lists[0]|
    ensures NoSharing(list.lists[0][k], n) && NoSharing(n, list.lists[0][k]) && list.lists[0][k] != n
  {
    assert list.lists[0][k] in list.nodes;
    if k > 0 {
      assert list.Fills(list.lists[0][k], list.leaves[k - 1]);
    }
  }

  lemma ApartSpliced(a: seq<Node>, y: nat, n: Node)
    requires y <= |a|
    requires forall j, k :: 0 <= j < k < |a| ==> NoSharing(a[j], a[k])
    requires forall k {:trigger a[k]} :: 0 <= k < |a| ==> NoSharing(a[k], n) && NoSharing(n, a[k])
    ensures forall j, k :: 0 <= j < k < |a| + 1 ==> NoSharing(Splice(a, y, n)[j], Splice(a, y, n)[k])
  {
  }

  /** The linking half of a split: the new leaf's node joins every level of its tower. */
  method AttachAfter(list: SkipList, cpu: Cpu, node: Node, after: Node, ghost y: nat)
    requires list.Valid() && list.At(after, y, 0) && after in cpu.held
    requires Spare(list, node) && RightOfIsFree(list, cpu, y) && CursorCovers(list, cpu, y, after, node.level)
    modifies list`lists, list`nodes, list`store, list.nodes, node, cpu`held
    ensures list.Skeleton() && cpu.held == old(cpu.held)
    ensures list.lists[0] == Splice(old(list.lists[0]), y + 1, node)
    ensures list.store == old(list.store) + {node.leaf}
    ensures list.nodes == old(list.nodes) + {node}
  {
    hide Linked, Flatten, Ordered;
    ghost var all := list.lists[0];
    forall k | 0 <= k < |all| ensures NoSharing(all[k], node) && NoSharing(node, all[k]) && all[k] != node {
      SpareStandsApart(list, node, k);
    }
    ApartSpliced(all, y + 1, node);
    assert list.Live();
    list.nodes := list.nodes + {node};
    list.store := list.store + {node.leaf};
    LinkAfterNode(list, cpu, node, after, node.level, all, y);
    LinkedTower(list, all, y, node);
  }

  /** The new leaf sits right of the one it was split from. */
  lemma FilledAfterSplit(list: SkipList, all: seq<Node>, vals: seq<LeafVal>, y: nat, node: Node, left: LeafVal,
          right: LeafVal)
    requires |list.lists| == SKIP_MAXLEVEL && 1 <= y < |all| == |vals| + 1
    requires list.lists[0] == Splice(all, y + 1, node)
    requires list.leaves == Replace(vals, y - 1, [left, right]) && Sized(list.leaves)
    requires forall k {:trigger vals[k]} :: 0 <= k < |vals| && k != y - 1 ==>
      vals[k].slots != [] && list.Fills(all[k + 1], vals[k])
    requires left.slots != [] && list.Fills(all[y], left)
    requires right.slots != [] && list.Fills(node, right)
    ensures list.Filled()
  {
  }

  lemma FilledAfterChange(list: SkipList, vals: seq<LeafVal>, y: nat, left: LeafVal)
    requires |list.lists| == SKIP_MAXLEVEL && 1 <= y < |list.lists[0]| == |vals| + 1
    requires list.leaves == Replace(vals, y - 1, [left]) && Sized(list.leaves)
    requires forall k {:trigger vals[k]} :: 0 <= k < |vals| && k != y - 1 ==>
      vals[k].slots != [] && list.Fills(list.lists[0][k + 1], vals[k])
    requires left.slots != [] && list.Fills(list.lists[0][y], left)
    ensures list.Filled()
  {
  }

  /** Room for the slot: the insert label of add_key_to_leaf. */
  method InsertInRoom(list: SkipList, leaf: Node, s: Slot, slot: nat, ghost y: nat)
    requires list.Valid() && y > 0 && list.At(leaf, y, 0)
    requires |list.leaves[y - 1].slots| < KEYS_PER_NODE && slot <= |list.leaves[y - 1].slots|
    requires WellFormed(Replace(list.leaves, y - 1, AddKey(list.leaves[y - 1], slot, s, 0)))
    modifies list`leaves, leaf.leaf, leaf.leaf.keys, leaf.leaf.ptrs
    ensures list.Valid() && list.leaves == old(Replace(list.leaves, y - 1, AddKey(list.leaves[y - 1], slot, s, 0)))
  {
    hide Linked, AtLevel, Flatten, Ordered, Rank;
    ghost var vals := list.leaves;
    ghost var left := AddKey(vals[y - 1], slot, s, 0)[0];
    assert list.Fills(leaf, vals[y - 1]);
    leaf.leaf.InsertShift(slot, s);
    list.leaves := Replace(vals, y - 1, [left]);
    FilledAfterChange(list, vals, y, left);
  }

  /** What the split leaf keeps: everything when the slot goes past its end, else its lower half. */
  function Kept(l: LeafVal, slot: nat): LeafVal
    requires |l.slots| == KEYS_PER_NODE
  {
    if slot == KEYS_PER_NODE then l else l.(slots := l.slots[..HALF])
  }

  /** What the new leaf starts with. */
  function Split(l: LeafVal, slot: nat, s: Slot, height: nat): (r: LeafVal)
    requires |l.slots| == KEYS_PER_NODE && slot <= KEYS_PER_NODE
    ensures r.slots != []
  {
    if slot == KEYS_PER_NODE then LeafVal([s], height) else LeafVal(Leaf.UpperHalf(l.slots, slot, s), height)
  }

  function Halves(l: LeafVal, slot: nat, s: Slot, height: nat): seq<LeafVal>
    requires |l.slots| == KEYS_PER_NODE && slot <= KEYS_PER_NODE
  {
    [Kept(l, slot), Split(l, slot, s, height)]
  }

  lemma HalvesCapped(ls: seq<LeafVal>, k: nat, slot: nat, s: Slot, height: nat, level: nat)
    requires k < |ls| && |ls[k].slots| == KEYS_PER_NODE && slot <= KEYS_PER_NODE
    requires Capped(Index(ls, level)) && height <= level
    ensures Capped(Index(Replace(ls, k, Halves(ls[k], slot, s, height)), level))
  {
  }

  lemma KeptShape(l: LeafVal, slot: nat, s: Slot, height: nat)
    requires |l.slots| == KEYS_PER_NODE && slot <= KEYS_PER_NODE
    ensures Kept(l, slot).slots != [] && Kept(l, slot).height == l.height
    ensures Split(l, slot, s, height).slots != [] && Split(l, slot, s, height).height == height
  {
  }

  method FillSplit(leaf: Leaf, split: Leaf, s: Slot, slot: nat, ghost l: LeafVal, ghost height: nat)
    requires l.slots != [] && LeafFills(leaf, l) && |l.slots| == KEYS_PER_NODE && slot <= KEYS_PER_NODE
    requires split.Roomy() && leaf != split && leaf.keys != split.keys && leaf.ptrs != split.ptrs
    modifies split, split.keys, split.ptrs
    ensures LeafFills(split, Split(l, slot, s, height))
  {
    if slot == leaf.nr {
      split.SetSingle(s);
    } else {
      split.FillUpperHalf(leaf, slot, s);
    }
  }

  method Shrink(leaf: Leaf, slot: nat, ghost l: LeafVal)
    requires l.slots != [] && LeafFills(leaf, l) && |l.slots| == KEYS_PER_NODE && slot <= KEYS_PER_NODE
    modifies leaf
    ensures LeafFills(leaf, Kept(l, slot))
  {
    hide Leaf.Holds;
    if slot != KEYS_PER_NODE {
      assert leaf.nr == KEYS_PER_NODE by { leaf.CountsSlots(); }
      leaf.KeepLowerHalf();
      assert leaf.slots == l.slots[..HALF];
    }
  }

  ghost predicate FilledApart(list: SkipList, n: Node, v: LeafVal, leaf: Leaf)
    reads list`store, list.store, (set l | l in list.store :: l.keys), (set l | l in list.store :: l.ptrs)
  {
    && v.slots != [] && list.Fills(n, v)
    && n.leaf != leaf && n.leaf.keys != leaf.keys && n.leaf.ptrs != leaf.ptrs
  }

  /** Every leaf but the one at position y holds what it should, in storage of its own. */
  ghost predicate OthersFilled(list: SkipList, all: seq<Node>, vals: seq<LeafVal>, y: nat, leaf: Leaf)
    requires |all| == |vals| + 1
    reads list`store, list.store, (set l | l in list.store :: l.keys), (set l | l in list.store :: l.ptrs)
  {
    forall k {:trigger vals[k]} :: 0 <= k < |vals| && k != y - 1 ==> FilledApart(list, all[k + 1], vals[k], leaf)
  }

  lemma OthersAreFilled(list: SkipList, leaf: Node, y: nat)
    requires list.Valid() && y > 0 && list.At(leaf, y, 0)
    ensures |list.lists[0]| == |list.leaves| + 1 && y <= |list.leaves| && leaf.leaf != null
      && list.leaves[y - 1].slots != []
    ensures list.Fills(leaf, list.leaves[y - 1])
    ensures OthersFilled(list, list.lists[0], list.leaves, y, leaf.leaf)
  {
    assert list.Fills(leaf, list.leaves[y - 1]);
    forall k {:trigger list.leaves[k]} | 0 <= k < |list.leaves| && k != y - 1
      ensures FilledApart(list, list.lists[0][k + 1], list.leaves[k], leaf.leaf)
    {
      assert list.Fills(list.lists[0][k + 1], list.leaves[k]);
      if k + 1 < y {
        assert NoSharing(list.lists[0][k + 1], list.lists[0][y]);
      } else {
        assert NoSharing(list.lists[0][y], list.lists[0][k + 1]);
      }
    }
  }

  /** First half of a split: the new leaf is filled and linked while the old one is still full. */
  method FillAndAttach(list: SkipList, cpu: Cpu, leaf: Node, split: Node, s: Slot, slot: nat, ghost y: nat)
    requires list.Valid() && y > 0 && list.At(leaf, y, 0) && leaf in cpu.held
    requires |list.leaves[y - 1].slots| == KEYS_PER_NODE && slot <= KEYS_PER_NODE
    requires Spare(list, split)
    requires RightOfIsFree(list, cpu, y) && CursorCovers(list, cpu, y, leaf, split.level)
    modifies list`lists, list`nodes, list`store, list.nodes, split
    modifies split.leaf, split.leaf.keys, split.leaf.ptrs, cpu`held
    ensures list.Skeleton() && cpu.held == old(cpu.held)
    ensures list.lists[0] == old(Splice(list.lists[0], y + 1, split))
    ensures |old(list.lists[0])| == |list.leaves| + 1 && leaf.leaf != null && list.leaves[y - 1].slots != []
    ensures leaf.leaf != split.leaf
    ensures OthersFilled(list, old(list.lists[0]), list.leaves, y, leaf.leaf)
    ensures list.Fills(leaf, list.leaves[y - 1])
    ensures list.Fills(split, Split(list.leaves[y - 1], slot, s, split.level))
  {
    hide SkipList.Skeleton, Flatten, Ordered, Leaf.UpperHalf, CursorCovers;
    OthersAreFilled(list, leaf, y);
    ghost var all := list.lists[0];
    ghost var vals := list.leaves;
    FillSplit(leaf.leaf, split.leaf, s, slot, list.leaves[y - 1], split.level);
    AttachAfter(list, cpu, split, leaf, y);
    forall k {:trigger vals[k]} | 0 <= k < |vals| && k != y - 1
      ensures FilledApart(list, all[k + 1], vals[k], leaf.leaf)
    {
      assert old(FilledApart(list, all[k + 1], vals[k], leaf.leaf)) && old(LeafFills(all[k + 1].leaf, vals[k]));
    }
  }

  /** Locking the new leaf takes nothing away from the cursor. */
  method LockSplit(list: SkipList, cpu: Cpu, split: Node, after: Node, ghost y: nat)
    requires |list.lists| > 0 && split !in list.lists[0] && split !in cpu.held
    requires RightOfIsFree(list, cpu, y) && CursorCovers(list, cpu, y, after, split.level)
    modifies cpu`held
    ensures cpu.held == old(cpu.held) + {split}
    ensures RightOfIsFree(list, cpu, y) && CursorCovers(list, cpu, y, after, split.level)
  {
    list.LockNew(cpu, split);
    forall i | after.level < i <= split.level ensures CursorReady(list, cpu, list.lists[0], y, i) {
      assert old(CursorReady(list, cpu, list.lists[0], y, i));
    }
  }

  lemma SpareIsUnlinked(list: SkipList, n: Node)
    requires list.Valid() && Spare(list, n)
    ensures |list.lists| > 0 && n !in list.lists[0]
  {
  }

  /** Second half of a split: the old leaf shrinks, and the abstract leaves follow. */
  method ShrinkAndSettle(list: SkipList, leaf: Node, split: Node, s: Slot, slot: nat, ghost y: nat,
          ghost all: seq<Node>)
    requires list.Skeleton() && 1 <= y < |all| == |list.leaves| + 1 && all[y] == leaf
    requires |list.leaves[y - 1].slots| == KEYS_PER_NODE && slot <= KEYS_PER_NODE
    requires leaf.leaf != null && leaf.leaf != split.leaf && list.lists[0] == Splice(all, y + 1, split)
    requires OthersFilled(list, all, list.leaves, y, leaf.leaf) && list.Fills(leaf, list.leaves[y - 1])
    requires list.Fills(split, Split(list.leaves[y - 1], slot, s, split.level))
    requires Sized(Replace(list.leaves, y - 1, Halves(list.leaves[y - 1], slot, s, split.level)))
    modifies list`leaves, leaf.leaf
    ensures list.Skeleton() && list.Filled()
    ensures list.leaves == old(Replace(list.leaves, y - 1, Halves(list.leaves[y - 1], slot, s, split.level)))
  {
    hide SkipList.Skeleton, Kept, Split, Replace;
    ghost var vals := list.leaves;
    ghost var l := vals[y - 1];
    ghost var left, right := Kept(l, slot), Split(l, slot, s, split.level);
    KeptShape(l, slot, s, split.level);
    Shrink(leaf.leaf, slot, l);
    list.leaves := Replace(vals, y - 1, [left, right]);
    list.SkeletonShape();
    FilledAfterSplit(list, all, vals, y, split, left, right);
  }

  /** Splitting a full leaf: fill the new leaf, link it, then shrink the old one. */
  method SplitLeaf(list: SkipList, cpu: Cpu, leaf: Node, split: Node, s: Slot, slot: nat, ghost y: nat)
    requires list.Valid() && y > 0 && list.At(leaf, y, 0) && leaf in cpu.held
    requires |list.leaves[y - 1].slots| == KEYS_PER_NODE && slot <= KEYS_PER_NODE
    requires Spare(list, split) && split.level <= list.level && split !in cpu.held
    requires RightOfIsFree(list, cpu, y) && CursorCovers(list, cpu, y, leaf, split.level)
    requires WellFormed(Replace(list.leaves, y - 1, Halves(list.leaves[y - 1], slot, s, split.level)))
    modifies list`lists, list`nodes, list`store, list`leaves, list.nodes, split
    modifies leaf.leaf, split.leaf, split.leaf.keys, split.leaf.ptrs, cpu`held
    ensures list.Valid() && cpu.held == old(cpu.held)
    ensures list.lists[0] == old(Splice(list.lists[0], y + 1, split))
    ensures list.leaves == old(Replace(list.leaves, y - 1, Halves(list.leaves[y - 1], slot, s, split.level)))
  {
    hide SkipList.Skeleton, WellFormed, Halves, CursorCovers, SkipList.Filled, SkipList.Fills, OthersFilled, Replace,
      Split;
    OthersAreFilled(list, leaf, y);
    HalvesCapped(list.leaves, y - 1, slot, s, split.level, list.level);
    WellFormedIsSized(Replace(list.leaves, y - 1, Halves(list.leaves[y - 1], slot, s, split.level)));
    ghost var all := list.lists[0];
    SpareIsUnlinked(list, split);
    LockSplit(list, cpu, split, leaf, y);
    FillAndAttach(list, cpu, leaf, split, s, slot, y);
    ShrinkAndSettle(list, leaf, split, s, slot, y, all);
    list.UnlockNode(cpu, split);
  }

  /** Past the middle the split already includes the slot; before it, the split alone changes nothing. */
  lemma SplitThenInsert(ls: seq<LeafVal>, k: nat, slot: nat, s: Slot, h: nat)
    requires WellFormed(ls) && k < |ls| && |ls[k].slots| == KEYS_PER_NODE && slot <= KEYS_PER_NODE
    ensures |AddKey(ls[k], slot, s, h)| == 2
    ensures slot >= HALF ==> Halves(ls[k], slot, s, h) == AddKey(ls[k], slot, s, h)
    ensures slot < HALF ==> h < SKIP_MAXLEVEL ==> WellFormed(Replace(ls, k, Halves(ls[k], slot, s, h)))
    ensures slot < HALF ==>
      var mid := Replace(ls, k, Halves(ls[k], slot, s, h));
      && |mid| > k && mid[k] == Kept(ls[k], slot)
      && Replace(mid, k, AddKey(mid[k], slot, s, 0)) == Replace(ls, k, AddKey(ls[k], slot, s, h))
  {
    if slot < HALF {
      var r := Halves(ls[k], slot, s, h);
      HalvesFlatten(ls, k, slot, s, h);
      if h < SKIP_MAXLEVEL {
        ReplaceSized(ls, k, r);
      }
      ReplaceTwice(ls, k, r[0], r[1], AddKey(r[0], slot, s, 0)[0]);
    }
  }

  lemma HalvesFlatten(ls: seq<LeafVal>, k: nat, slot: nat, s: Slot, h: nat)
    requires k < |ls| && |ls[k].slots| == KEYS_PER_NODE && slot < HALF
    ensures Flatten(Replace(ls, k, Halves(ls[k], slot, s, h))) == Flatten(ls)
  {
    var r := Halves(ls[k], slot, s, h);
    assert Flatten(r) == ls[k].slots by {
      assert r[1..][1..] == [] && r[1..][0] == r[1];
      assert Flatten(r[1..]) == r[1].slots;
    }
    ReplaceFlattens(ls, k, r);
    FlattenAround(ls, k);
  }

  lemma ReplaceTwice<T>(a: seq<T>, k: nat, x: T, y: T, z: T)
    requires k < |a|
    ensures Replace(Replace(a, k, [x, y]), k, [z]) == Replace(a, k, [z, y])
    ensures Replace(a, k, [x, y])[k] == x && |Replace(a, k, [x, y])| == |a| + 1
  {
  }

  /** The preload area holds a leaf for the token, and perhaps one of height 0 in entry 0. */
  ghost predicate Preloaded(list: SkipList, cpu: Cpu, token: nat)
    reads list`nodes, list`store, list`level, list.store, cpu`preload, cpu.preload
  {
    && token < |cpu.preload| && cpu.preload[token] != null
    && Spare(list, cpu.preload[token])
    && cpu.preload[token].level <= list.level + 1
    && (cpu.preload[0] != null ==>
          Spare(list, cpu.preload[0]) && cpu.preload[0].level == 0)
  }

  function PendingLevel(cpu: Cpu, token: nat): nat
    requires token < |cpu.preload| && cpu.preload[token] != null
    reads cpu
  {
    cpu.preload[token].level
  }

  /** Which preloaded leaf a split of `leaf` takes. */
  method TakePreload(list: SkipList, cpu: Cpu, leaf: Node, token: nat) returns (split: Node)
    requires Preloaded(list, cpu, token) && |cpu.preload| > 0
    modifies cpu`preload
    ensures Spare(list, split) && split.level <= list.level + 1
    ensures split.level == old(SplitHeight(leaf.level, PendingLevel(cpu, token), cpu.preload[0] != null))
    ensures split.level <= old(PendingLevel(cpu, token))
    ensures var reserve := leaf.level > 0 && old(PendingLevel(cpu, token)) <= leaf.level && old(cpu.preload[0]) != null;
      && split == old(if reserve then cpu.preload[0] else cpu.preload[token])
      && cpu.preload == old(cpu.preload)[(if reserve then 0 else token) := null]
    ensures split in old(cpu.Footprint()) && split.leaf in old(cpu.Footprint())
    ensures split.leaf.keys in old(cpu.Footprint()) && split.leaf.ptrs in old(cpu.Footprint())
  {
    var used := token;
    split := cpu.preload[token];
    cpu.SpareInFootprint(split);
    if cpu.preload[0] != null {
      cpu.SpareInFootprint(cpu.preload[0]);
    }
    if leaf.level > 0 && split.level <= leaf.level {
      if cpu.preload[0] != null {
        used := 0;
        split := cpu.preload[0];
      }
    }
    cpu.preload := cpu.preload[used := null];
  }

  /** list->level rises to the new leaf's level when that is higher. */
  method RaiseLevel(list: SkipList, level: nat)
    requires list.Valid() && level <= list.level + 1 && level < SKIP_MAXLEVEL
    modifies list`level
    ensures list.Valid() && list.level == if level > old(list.level) then level else old(list.level)
  {
    hide SkipList.Skeleton, SkipList.Filled, WellFormed;
    if level > list.level {
      list.level := level;
    }
  }

  /** The index with the slot added to the leaf at position y, split if need be by a node of height h. */
  ghost function Added(ix: Index, s: Slot, slot: nat, h: nat, y: nat): Index
    requires 0 < y <= |ix.leaves| && 1 <= |ix.leaves[y - 1].slots| <= KEYS_PER_NODE
    requires slot <= |ix.leaves[y - 1].slots|
  {
    var r := AddKey(ix.leaves[y - 1], slot, s, h);
    Index(Replace(ix.leaves, y - 1, r), if |r| == 2 && h > ix.level then h else ix.level)
  }

  lemma StillAt(list: SkipList, leaf: Node, y: nat, all: seq<Node>, split: Node)
    requires list.Valid() && y < |all| && all[y] == leaf && list.lists[0] == Splice(all, y + 1, split)
    ensures list.At(leaf, y, 0)
  {
  }

  lemma CoversLess(list: SkipList, cpu: Cpu, y: nat, after: Node, high: nat, low: nat)
    requires CursorCovers(list, cpu, y, after, high) && low <= high
    ensures CursorCovers(list, cpu, y, after, low)
  {
  }

  /** A full leaf: split it, and if the slot belongs in the lower half put it there afterwards. */
  method AddBySplitting(list: SkipList, cpu: Cpu, leaf: Node, split: Node, s: Slot, slot: nat, ghost y: nat)
    requires list.Valid() && y > 0 && list.At(leaf, y, 0) && leaf in cpu.held
    requires |list.leaves[y - 1].slots| == KEYS_PER_NODE && slot <= KEYS_PER_NODE
    requires Spare(list, split) && split.level <= list.level + 1 && split !in cpu.held
    requires RightOfIsFree(list, cpu, y) && CursorCovers(list, cpu, y, leaf, split.level)
    requires WellFormed(Replace(list.leaves, y - 1, AddKey(list.leaves[y - 1], slot, s, split.level)))
    modifies list, list.nodes, split, leaf.leaf, leaf.leaf.keys, leaf.leaf.ptrs
    modifies split.leaf, split.leaf.keys, split.leaf.ptrs, cpu`held
    ensures list.Valid() && cpu.held == old(cpu.held)
    ensures Index(list.leaves, list.level) == old(Added(Index(list.leaves, list.level), s, slot, split.level, y))
  {
    hide SkipList.Skeleton, SkipList.Filled, WellFormed, Halves, AddKey, Replace, CursorCovers, RightOfIsFree, Capped;
    ghost var vals, all := list.leaves, list.lists[0];
    list.WellFormedLeaves();
    OthersAreFilled(list, leaf, y);
    SplitThenInsert(vals, y - 1, slot, s, split.level);
    RaiseLevel(list, split.level);
    SplitLeaf(list, cpu, leaf, split, s, slot, y);
    if slot < HALF {
      StillAt(list, leaf, y, all, split);
      InsertInRoom(list, leaf, s, slot, y);
    }
  }

  /** add_key_to_leaf. */
  method AddKeyToLeaf(list: SkipList, cpu: Cpu, leaf: Node, s: Slot, slot: nat, token: nat, ghost h: nat, ghost y: nat)
    requires list.Valid() && y > 0 && list.At(leaf, y, 0) && leaf in cpu.held
    requires slot <= |list.leaves[y - 1].slots| && Preloaded(list, cpu, token) && cpu.held <= list.nodes
    requires h == SplitHeight(leaf.level, PendingLevel(cpu, token), cpu.preload[0] != null)
    requires RightOfIsFree(list, cpu, y)
    requires |list.leaves[y - 1].slots| == KEYS_PER_NODE ==> CursorCovers(list, cpu, y, leaf, PendingLevel(cpu, token))
    requires WellFormed(Replace(list.leaves, y - 1, AddKey(list.leaves[y - 1], slot, s, h)))
    modifies list.Footprint(), cpu.Footprint()
    ensures list.Valid() && cpu.held == old(cpu.held) && cpu.cursor == old(cpu.cursor)
    ensures Index(list.leaves, list.level) == old(Added(Index(list.leaves, list.level), s, slot, h, y))
  {
    hide SkipList.Skeleton, SkipList.Filled, WellFormed, CursorCovers, RightOfIsFree, Capped, Replace, SplitHeight,
      SkipList.Footprint, Cpu.Footprint;
    list.LeafReady(leaf, y);
    list.InFootprint(leaf, y);
    cpu.SpareInFootprint(cpu.preload[token]);
    if leaf.leaf.nr == KEYS_PER_NODE {
      var split := TakePreload(list, cpu, leaf, token);
      CoversLess(list, cpu, y, leaf, old(PendingLevel(cpu, token)), split.level);
      AddBySplitting(list, cpu, leaf, split, s, slot, y);
    } else {
      InsertInRoom(list, leaf, s, slot, y);
    }
  }
}
