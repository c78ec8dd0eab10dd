/** Nodes of the extent skip list and the doubly linked level lists they form. */
module Towers {
  import opened Leaves
  import opened Sequences

  const SKIP_MAXLEVEL: nat := 32

  /** struct sl_node; a leaf's node knows its leaf (container_of), the list head has none. */
  class Node {
    const level: nat
    const leaf: Leaf?
    var dead: bool
    var prev: seq<Node?>
    var next: seq<Node?>

    constructor (level: nat, leaf: Leaf?)
      ensures this.level == level && this.leaf == leaf && !dead
      ensures |prev| == |next| == level + 1
      ensures forall i :: 0 <= i <= level ==> prev[i] == next[i] == null
    {
      this.level := level;
      this.leaf := leaf;
      dead := false;
      prev := seq(level + 1, _ => null);
      next := seq(level + 1, _ => null);
    }
  }

  /** a[0] is the head; the rest hang off it in order at level i, and the head's prev is the last. */
  ghost predicate Linked(a: seq<Node>, i: nat)
    reads a
  {
    |a| > 0 && Distinct(a) && NextLinked(a, i) && PrevLinked(a, i)
  }

  ghost predicate NextLinked(a: seq<Node>, i: nat)
    reads a
  {
    forall k {:trigger a[k].next} :: 0 <= k < |a| ==> i < |a[k].next| && a[k].next[i] == NextOf(a, k)
  }

  ghost predicate PrevLinked(a: seq<Node>, i: nat)
    reads a
  {
    forall k {:trigger a[k].prev} :: 0 <= k < |a| ==> i < |a[k].prev| && a[k].prev[i] == PrevOf(a, k)
  }

  ghost function NextOf(a: seq<Node>, k: nat): Node?
    requires k < |a|
  {
    if k + 1 < |a| then a[k + 1] else null
  }

  /** The head's prev is the last node of the level, or null when the level is empty. */
  ghost function PrevOf(a: seq<Node>, k: nat): Node?
    requires k < |a|
  {
    if k > 0 then a[k - 1] else if |a| == 1 then null else a[|a| - 1]
  }

  /** Level i of a node's pointers may have changed; nothing else has. */
  twostate predicate SameElsewhere(n: Node, i: nat)
    reads n
  {
    && |n.next| == |old(n.next)| && |n.prev| == |old(n.prev)|
    && (forall j :: 0 <= j < |n.next| && j != i ==> n.next[j] == old(n.next)[j])
    && (forall j :: 0 <= j < |n.prev| && j != i ==> n.prev[j] == old(n.prev)[j])
  }

  ghost function Nexts(a: seq<Node>): (r: seq<seq<Node?>>)
    reads a
    ensures |r| == |a|
    ensures forall j {:trigger r[j]} {:trigger a[j].next} :: 0 <= j < |a| ==> r[j] == a[j].next
  {
    seq(|a|, j requires 0 <= j < |a| reads a => a[j].next)
  }

  ghost function Prevs(a: seq<Node>): (r: seq<seq<Node?>>)
    reads a
    ensures |r| == |a|
    ensures forall j {:trigger r[j]} {:trigger a[j].prev} :: 0 <= j < |a| ==> r[j] == a[j].prev
  {
    seq(|a|, j requires 0 <= j < |a| reads a => a[j].prev)
  }

  lemma LinkedNext(a: seq<Node>, k: nat, node: Node, i: nat, was: seq<seq<Node?>>)
    requires k < |a| == |was|
    requires forall j {:trigger was[j]} :: 0 <= j < |a| ==> i < |was[j]| && was[j][i] == NextOf(a, j)
    requires forall j {:trigger a[j].next} :: 0 <= j < |a| && j != k ==> a[j].next == was[j]
    requires i < |node.next| && node.next[i] == NextOf(a, k)
    requires i < |a[k].next| && a[k].next[i] == node
    ensures NextLinked(Splice(a, k + 1, node), i)
  {
  }

  lemma LinkedPrev(a: seq<Node>, k: nat, m: nat, node: Node, i: nat, was: seq<seq<Node?>>)
    requires k < |a| == |was| && m == if k + 1 < |a| then k + 1 else 0
    requires forall j {:trigger was[j]} :: 0 <= j < |a| ==> i < |was[j]| && was[j][i] == PrevOf(a, j)
    requires forall j {:trigger a[j].prev} :: 0 <= j < |a| && j != m ==> a[j].prev == was[j]
    requires i < |node.prev| && node.prev[i] == a[k]
    requires i < |a[m].prev| && a[m].prev[i] == node
    ensures PrevLinked(Splice(a, k + 1, node), i)
  {
  }

  /** What the pointers of a linked level are before they change. */
  lemma LinkedAs(a: seq<Node>, i: nat) returns (nexts: seq<seq<Node?>>, prevs: seq<seq<Node?>>)
    requires Linked(a, i)
    ensures a != [] && |nexts| == |a| == |prevs|
    ensures forall j {:trigger nexts[j]} {:trigger a[j].next} :: 0 <= j < |a| ==> nexts[j] == a[j].next
    ensures forall j {:trigger prevs[j]} {:trigger a[j].prev} :: 0 <= j < |a| ==> prevs[j] == a[j].prev
    ensures forall j {:trigger nexts[j]} :: 0 <= j < |a| ==> i < |nexts[j]| && nexts[j][i] == NextOf(a, j)
    ensures forall j {:trigger prevs[j]} :: 0 <= j < |a| ==> i < |prevs[j]| && prevs[j][i] == PrevOf(a, j)
  {
    nexts, prevs := Nexts(a), Prevs(a);
  }

  lemma LinkedAgain(b: seq<Node>, i: nat)
    requires b != [] && Distinct(b) && NextLinked(b, i) && PrevLinked(b, i)
    ensures Linked(b, i)
  {
  }

  /** The five pointer stores of sl_link_one_level. */
  method LinkBetween(ghost a: seq<Node>, ghost k: nat, prev: Node, node: Node, next: Node?, head: Node, i: nat,
          ghost after: Node)
    requires Linked(a, i) && k < |a| && a[k] == prev && a[0] == head
    requires next == NextOf(a, k) && after == if next != null then next else head
    requires node !in a && i < |node.next| && i < |node.prev|
    modifies prev`next, node`next, node`prev, after`prev
    ensures Linked(Splice(a, k + 1, node), i)
    ensures i < |old(prev.next)| && i < |old(after.prev)|
    ensures node.next == old(node.next[i := next]) && node.prev == old(node.prev[i := prev])
    ensures prev.next == old(prev.next[i := node])
    ensures next != null ==> next.prev == old(next.prev[i := node]) && head.prev == old(head.prev)
    ensures next == null ==> head.prev == old(head.prev[i := node])
  {
    SpliceDistinct(a, k + 1, node);
    DistinctAt(a, k);
    DistinctAt(a, if next != null then k + 1 else 0);
    ghost var nexts, prevs := LinkedAs(a, i);
    hide Splice, Linked, NextLinked, PrevLinked, Distinct;
    node.next := node.next[i := next];
    node.prev := node.prev[i := prev];
    prev.next := prev.next[i := node];
    if next != null {
      next.prev := next.prev[i := node];
    } else {
      head.prev := head.prev[i := node];
    }
    LinkedNext(a, k, node, i, nexts);
    LinkedPrev(a, k, if next != null then k + 1 else 0, node, i, prevs);
    LinkedAgain(Splice(a, k + 1, node), i);
  }

  lemma UnlinkedNext(a: seq<Node>, k: nat, i: nat, was: seq<seq<Node?>>)
    requires 1 <= k < |a| == |was|
    requires forall j {:trigger was[j]} :: 0 <= j < |a| ==> i < |was[j]| && was[j][i] == NextOf(a, j)
    requires forall j {:trigger a[j].next} :: 0 <= j < |a| && j != k - 1 ==> a[j].next == was[j]
    requires i < |a[k - 1].next| && a[k - 1].next[i] == NextOf(a, k)
    ensures NextLinked(Without(a, k), i)
  {
  }

  lemma UnlinkedPrev(a: seq<Node>, k: nat, m: nat, i: nat, was: seq<seq<Node?>>)
    requires 1 <= k < |a| == |was| && m == if k + 1 < |a| then k + 1 else 0
    requires forall j {:trigger was[j]} :: 0 <= j < |a| ==> i < |was[j]| && was[j][i] == PrevOf(a, j)
    requires forall j {:trigger a[j].prev} :: 0 <= j < |a| && j != m ==> a[j].prev == was[j]
    requires i < |a[m].prev| && a[m].prev[i] == if m == 0 && k == 1 then null else a[k - 1]
    ensures PrevLinked(Without(a, k), i)
  {
  }

  /** The stores of erase_one_level, once prev and next are known to surround the node. */
  method Unlink(ghost a: seq<Node>, ghost k: nat, prev: Node, next: Node?, head: Node, i: nat, ghost after: Node)
    requires Linked(a, i) && 1 <= k < |a| && a[k - 1] == prev && a[0] == head
    requires next == NextOf(a, k) && after == if next != null then next else head
    modifies prev`next, after`prev
    ensures Linked(Without(a, k), i)
    ensures i < |old(prev.next)| && i < |old(after.prev)|
    ensures prev.next == old(prev.next[i := next])
    ensures next != null ==> next.prev == old(next.prev[i := prev])
    ensures next == null ==> head.prev == old(head.prev[i := if prev != head then prev else null])
  {
    WithoutDistinct(a, k);
    DistinctAt(a, k - 1);
    DistinctAt(a, if next != null then k + 1 else 0);
    ghost var nexts, prevs := LinkedAs(a, i);
    hide Without, Linked, NextLinked, PrevLinked, Distinct;
    prev.next := prev.next[i := next];
    if next != null {
      next.prev := next.prev[i := prev];
    } else if prev != head {
      head.prev := head.prev[i := prev];
    } else {
      head.prev := head.prev[i := null];
    }
    UnlinkedNext(a, k, i, nexts);
    UnlinkedPrev(a, k, if next != null then k + 1 else 0, i, prevs);
    LinkedAgain(Without(a, k), i);
  }
}
