/** Linking a new leaf into every level of its tower, and unlinking a dead one. */
module TowerLinks {
  import opened Sequences
  import opened Towers
  import opened SkipLists

  ghost predicate AllAlive(list: SkipList, all: seq<Node>)
    reads list, all
  {
    forall n {:trigger n in all} :: n in all ==> n in list.nodes && !n.dead
  }

  ghost predicate NoneHeldPast(cpu: Cpu, all: seq<Node>, x: nat)
    reads cpu`held
  {
    forall b {:trigger all[b]} :: x < b < |all| ==> all[b] !in cpu.held
  }

  lemma LinkingFacts(list: SkipList, cpu: Cpu, all: seq<Node>, x: nat, node: Node, i: nat, prev: Node, c: nat)
    returns (k: nat, z: nat)
    requires x < |all| && list.Linking(all, x, node, i) && i < SKIP_MAXLEVEL && i <= node.level
    requires Precedes(all, x, prev, c, i) && AllAlive(list, all) && NoneHeldPast(cpu, all, x)
    ensures k < |list.lists[i]| && list.lists[i][k] == prev && node !in list.lists[i]
    ensures AtLevel(Splice(all, x + 1, node), i, |all| + 1) == Splice(list.lists[i], k + 1, node)
    ensures k + 1 < |list.lists[i]| ==>
      z < |list.lists[0]| && list.lists[0][z] == list.lists[i][k + 1] && list.MayLock(cpu, z)
    ensures forall n :: n in list.lists[i] ==> !n.dead
  {
    hide AtLevel;
    k, z := LinkSpot(all, x, node, i, c);
    var l := list.lists[i];
    AtLevelFrom(all, i, |all|);
    AtLevelAll(all);
    AtLevelAll(Splice(all, x + 1, node));
    if i > 0 {
      z := z + 1;
    }
    if k + 1 < |l| {
      forall b | z <= b < |list.lists[0]| ensures list.lists[0][b] !in cpu.held {
        assert list.lists[0][b] == if i == 0 then all[b] else all[b - 1];
      }
    }
  }

  lemma AtLevelAll(all: seq<Node>)
    ensures AtLevel(all, 0, |all|) == all
  {
    AtLevelAllUpTo(all, |all|);
    assert all[..|all|] == all;
  }

  lemma AtLevelAllUpTo(all: seq<Node>, x: nat)
    requires x <= |all|
    ensures AtLevel(all, 0, x) == all[..x]
  {
  }

  method LinkStep(list: SkipList, cpu: Cpu, prev: Node, node: Node, i: nat, ghost all: seq<Node>, ghost x: nat,
          ghost c: nat)
    requires list.Wired() && list.head in list.nodes
    requires x < |all| && list.Linking(all, x, node, i) && i < SKIP_MAXLEVEL && i <= node.level
    requires Precedes(all, x, prev, c, i)
    requires node in list.nodes && |node.next| == |node.prev| == node.level + 1
    requires prev in cpu.held && AllAlive(list, all) && NoneHeldPast(cpu, all, x)
    modifies list`lists, list.nodes, cpu`held
    ensures list.Wired() && list.Linking(all, x, node, i + 1)
    ensures cpu.held == old(cpu.held)
    ensures |node.next| == |node.prev| == node.level + 1
    ensures forall n {:trigger n.dead} :: n in list.nodes ==> n.dead == old(n.dead)
  {
    hide SkipList.Wired, Splice, AtLevel;
    ghost var k, z := LinkingFacts(list, cpu, all, x, node, i, prev, c);
    list.LinkOneLevel(cpu, prev, node, i, k, z);
    assert SameElsewhere(node, i);
  }

  /** Cursor entry i is held and is the node to link after on level i. */
  ghost predicate CursorReady(list: SkipList, cpu: Cpu, all: seq<Node>, x: nat, i: nat)
    reads cpu`cursor, cpu`held
  {
    && i < |cpu.cursor| && cpu.cursor[i] != null && cpu.cursor[i] in cpu.held
    && exists c: nat :: Precedes(all, x, cpu.cursor[i], c, i)
  }

  /** A new node about to follow position x, with everything the links will need in place. */
  ghost predicate LinkReady(list: SkipList, cpu: Cpu, all: seq<Node>, x: nat, node: Node, i: nat)
    reads list, list.nodes, all, node, cpu
  {
    && list.Wired() && list.head in list.nodes
    && x < |all| && list.Linking(all, x, node, i) && node.level < SKIP_MAXLEVEL
    && node in list.nodes && |node.next| == |node.prev| == node.level + 1
    && AllAlive(list, all) && NoneHeldPast(cpu, all, x)
  }

  /** sl_link_after_node: from `after` up to its height, from the cursor above that. */
  method LinkAfterNode(list: SkipList, cpu: Cpu, node: Node, after: Node, level: nat, ghost all: seq<Node>,
          ghost x: nat)
    requires level == node.level && LinkReady(list, cpu, all, x, node, 0)
    requires all[x] == after && after in cpu.held
    requires forall i :: after.level < i <= level ==> CursorReady(list, cpu, all, x, i)
    modifies list`lists, list.nodes, cpu`held
    ensures LinkReady(list, cpu, all, x, node, level + 1) && cpu.held == old(cpu.held)
    ensures forall n {:trigger n.dead} :: n in list.nodes ==> n.dead == old(n.dead)
  {
    hide SkipList.Wired, SkipList.Linking;
    var i := 0;
    while i <= after.level && i <= level
      invariant 0 <= i <= level + 1
      invariant LinkReady(list, cpu, all, x, node, i) && cpu.held == old(cpu.held)
      invariant i <= after.level || i == after.level + 1
      invariant forall n {:trigger n.dead} :: n in list.nodes ==> n.dead == old(n.dead)
    {
      LinkStep(list, cpu, after, node, i, all, x, x);
      i := i + 1;
    }
    while i <= level
      invariant 0 <= i <= level + 1
      invariant LinkReady(list, cpu, all, x, node, i) && cpu.held == old(cpu.held)
      invariant i <= level ==> after.level < i
      invariant forall n {:trigger n.dead} :: n in list.nodes ==> n.dead == old(n.dead)
    {
      assert CursorReady(list, cpu, all, x, i);
      ghost var c: nat :| Precedes(all, x, cpu.cursor[i], c, i);
      LinkStep(list, cpu, cpu.cursor[i], node, i, all, x, c);
      i := i + 1;
    }
  }

  /** sl_link_node: every level from the cursor. */
  method LinkNode(list: SkipList, cpu: Cpu, node: Node, level: nat, ghost all: seq<Node>, ghost x: nat)
    requires level == node.level && LinkReady(list, cpu, all, x, node, 0)
    requires forall i :: 0 <= i <= level ==> CursorReady(list, cpu, all, x, i)
    modifies list`lists, list.nodes, cpu`held
    ensures LinkReady(list, cpu, all, x, node, level + 1) && cpu.held == old(cpu.held)
    ensures forall n {:trigger n.dead} :: n in list.nodes ==> n.dead == old(n.dead)
  {
    hide SkipList.Wired, SkipList.Linking;
    var i := 0;
    while i <= level
      invariant 0 <= i <= level + 1
      invariant LinkReady(list, cpu, all, x, node, i) && cpu.held == old(cpu.held)
      invariant forall n {:trigger n.dead} :: n in list.nodes ==> n.dead == old(n.dead)
    {
      assert CursorReady(list, cpu, all, x, i);
      ghost var c: nat :| Precedes(all, x, cpu.cursor[i], c, i);
      LinkStep(list, cpu, cpu.cursor[i], node, i, all, x, c);
      i := i + 1;
    }
  }

  lemma LinkedTower(list: SkipList, all: seq<Node>, x: nat, node: Node)
    requires x < |all| && list.Linking(all, x, node, node.level + 1) && node.level < SKIP_MAXLEVEL
    ensures list.lists[0] == Splice(all, x + 1, node) && list.Stacked()
  {
    hide AtLevel;
    AtLevelAll(Splice(all, x + 1, node));
    forall i | 0 <= i < SKIP_MAXLEVEL ensures list.lists[i] == AtLevel(list.lists[0], i, |list.lists[0]|) {
      if i > node.level {
        AtLevelSplice(all, x + 1, node, i, |all|);
      }
    }
  }
}
