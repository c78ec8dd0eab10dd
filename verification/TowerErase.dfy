/** Unlinking a dead, empty leaf from every level of its tower, top down. */
module TowerErase {
  import opened Sequences
  import opened Towers
  import opened SkipLists
  import opened TowerLinks

  /** The node at position pos is dead and gone from the levels above i; every other node is alive. */
  ghost predicate Erasing(list: SkipList, all: seq<Node>, pos: nat, i: int)
    reads list`lists, list`nodes, all
  {
    && 1 <= pos < |all| && |list.lists| == SKIP_MAXLEVEL && Distinct(all)
    && (forall j {:trigger list.lists[j]} :: 0 <= j < SKIP_MAXLEVEL ==>
          (list.lists[j] == if j > i then AtLevel(Without(all, pos), j, |all| - 1) else AtLevel(all, j, |all|)))
    && (forall b {:trigger all[b]} :: 0 <= b < |all| ==> all[b] in list.nodes && (all[b].dead <==> b == pos))
  }

  /** The dead node's neighbours on level i, and where they stand on level 0. */
  lemma ErasePlace(all: seq<Node>, pos: nat, i: nat) returns (k: nat, w: nat, z: nat)
    requires 1 <= pos < |all| && all[pos].level >= i && all[0].level >= i
    ensures var l := AtLevel(all, i, |all|);
      && 1 <= k < |l| && l[k] == all[pos] && w < pos < z && l[k - 1] == all[w]
      && (k + 1 < |l| ==> z < |all| && l[k + 1] == all[z])
      && AtLevel(Without(all, pos), i, |all| - 1) == Without(l, k)
  {
    hide AtLevel, Without;
    k, z := NextTall(all, i, pos);
    w := pos - 1;
    while all[w].level < i
      invariant 0 <= w < pos && forall c :: w < c < pos ==> all[c].level < i
      decreases w
    {
      w := w - 1;
    }
    var k', y := NextTall(all, i, w);
    AtLevelStep(all, i, w);
    AtLevelSkips(all, i, w + 1, pos);
    AtLevelWithout(all, pos, i, |all|);
  }

  /** Where a dead node stands on level i and on level 0. */
  ghost predicate Place(list: SkipList, all: seq<Node>, pos: nat, i: nat, k: nat, w: nat, z: nat)
    reads list`lists
  {
    && |list.lists| == SKIP_MAXLEVEL && i < SKIP_MAXLEVEL && list.lists[0] == all && 1 <= pos < |all|
    && 1 <= k < |list.lists[i]| && list.lists[i][k] == all[pos]
    && w < pos < z && list.lists[i][k - 1] == all[w]
    && (k + 1 < |list.lists[i]| ==> z < |all| && list.lists[i][k + 1] == all[z])
  }

  /** The live node to the left, locked together with the dead one. */
  method LockLeft(list: SkipList, cpu: Cpu, node: Node, i: nat, ghost all: seq<Node>, ghost pos: nat, ghost k: nat,
          ghost w: nat, ghost z: nat)
    returns (prev: Node)
    requires list.Wired() && Erasing(list, all, pos, i) && all[0] == list.head && cpu.held == {}
    requires Place(list, all, pos, i, k, w, z) && node == all[pos]
    modifies cpu`held
    ensures prev == all[w] && prev != node && cpu.held == {prev, node}
  {
    hide Linked;
    assert all[0] in list.nodes && !list.head.dead;
    assert all[w] != all[pos];
    ghost var m;
    var live, test;
    live, m := list.FindLivePrev(node, i, k);
    assert m == k - 1;
    prev := live;
    list.LockNode(cpu, prev, w);
    list.LockNode(cpu, node, pos);
    test, m := list.FindLivePrev(node, i, k);
    if test != prev || prev.dead {
      assert false;
    }
  }

  /** The live node to the right, if there is one; alone every recheck succeeds at once. */
  method LockRight(list: SkipList, cpu: Cpu, prev: Node, node: Node, i: nat, ghost all: seq<Node>, ghost pos: nat,
          ghost k: nat, ghost w: nat, ghost z: nat)
    returns (next: Node?)
    requires list.Wired() && Erasing(list, all, pos, i) && all[0] == list.head
    requires Place(list, all, pos, i, k, w, z) && node == all[pos] && prev == all[w] && cpu.held == {prev, node}
    modifies cpu`held
    ensures next == NextOf(list.lists[i], k) && next != prev && next != node
    ensures cpu.held == {prev, node} + if next == null then {} else {next}
  {
    hide Linked;
    assert all[0] in list.nodes && !list.head.dead;
    assert z < |all| ==> all[w] != all[z] && all[pos] != all[z];
    ghost var m;
    var test;
    next, m := list.FindLiveNext(prev, i, k - 1);
    assert m == k + 1;
    if next != null {
      list.LockNode(cpu, next, z);
      test, m := list.FindLiveNext(prev, i, k - 1);
      if test != next || next.dead {
        assert false;
      }
      test, m := list.FindLivePrev(next, i, k + 1);
      if test != prev {
        assert false;
      }
    } else {
      test, m := list.FindLiveNext(prev, i, k - 1);
      if test != null {
        assert false;
      }
    }
  }

  /** The stores of an unlink, with the ghost level lists kept in step. */
  method StoreUnlink(list: SkipList, prev: Node, next: Node?, i: nat, ghost k: nat)
    requires list.Wired() && i < SKIP_MAXLEVEL && 1 <= k < |list.lists[i]| && list.lists[i][k - 1] == prev
    requires next == NextOf(list.lists[i], k)
    modifies list`lists, list.nodes
    ensures list.Wired() && list.lists == old(list.lists)[i := Without(old(list.lists[i]), k)]
    ensures forall n {:trigger n.dead} :: n in list.nodes ==> n.dead == old(n.dead)
  {
    hide Linked;
    ghost var a := list.lists[i];
    assert list.LevelWired(i);
    Unlink(a, k, prev, next, list.head, i, if next != null then next else list.head);
    list.lists := list.lists[i := Without(a, k)];
    list.OtherLevelsKept(i);
    forall n | n in list.lists[i] ensures n in list.nodes {
      WithoutMembers(a, k, n);
    }
    assert list.lists[i][0] == a[0];
    assert Linked(list.lists[i], i);
    assert list.LevelWired(i);
  }

  /** erase_one_level. */
  method EraseOneLevel(list: SkipList, cpu: Cpu, node: Node, i: nat, ghost all: seq<Node>, ghost pos: nat)
    requires list.Wired() && i < SKIP_MAXLEVEL && Erasing(list, all, pos, i) && all[0] == list.head && cpu.held == {}
    requires node == all[pos] && node.level >= i && list.head.level == SKIP_MAXLEVEL
    modifies list`lists, list.nodes, cpu`held
    ensures list.Wired() && Erasing(list, all, pos, i - 1) && cpu.held == {}
  {
    hide SkipList.Wired, AtLevel, Without;
    ghost var k, w, z := ErasePlace(all, pos, i);
    AtLevelAll(all);
    var prev := LockLeft(list, cpu, node, i, all, pos, k, w, z);
    var next := LockRight(list, cpu, prev, node, i, all, pos, k, w, z);
    StoreUnlink(list, prev, next, i, k);
    list.UnlockNode(cpu, prev);
    list.UnlockNode(cpu, node);
    list.UnlockNode(cpu, next);
  }

  /** sl_erase: one level at a time from the top of the leaf's tower. */
  method SlErase(list: SkipList, cpu: Cpu, node: Node, ghost all: seq<Node>, ghost pos: nat)
    requires list.Wired() && node.level < SKIP_MAXLEVEL && Erasing(list, all, pos, node.level)
    requires all[0] == list.head && node == all[pos] && list.head.level == SKIP_MAXLEVEL && cpu.held == {}
    modifies list`lists, list.nodes, cpu`held
    ensures list.Wired() && Erasing(list, all, pos, -1) && cpu.held == {}
  {
    hide SkipList.Wired, Erasing;
    ErasingShape(list, all, pos, node.level);
    var i: int := node.level;
    while i >= 0
      invariant -1 <= i <= node.level && list.Wired() && Erasing(list, all, pos, i) && cpu.held == {}
    {
      EraseOneLevel(list, cpu, node, i, all, pos);
      i := i - 1;
    }
  }

  lemma ErasingShape(list: SkipList, all: seq<Node>, pos: nat, i: int)
    requires Erasing(list, all, pos, i)
    ensures 1 <= pos < |all|
  {
  }
}
