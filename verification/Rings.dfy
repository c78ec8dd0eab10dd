/** The circular doubly linked lists of the sequential skip list, one per level, on pointer towers. */
module Rings {
  import opened Sequences

  /** A pointer to a struct sl_link is a node together with a level; next and prev hold the nodes. */
  class Node {
    const key: int
    const val: int
    const height: nat
    var prev: seq<Node?>
    var next: seq<Node?>

    /** sl_node_alloc: room for height + 1 links. */
    constructor (key: int, val: int, height: nat)
      ensures this.key == key && this.val == val && this.height == height
      ensures |prev| == |next| == height + 1
    {
      this.key, this.val, this.height := key, val, height;
      prev := seq(height + 1, _ => null);
      next := seq(height + 1, _ => null);
    }
  }

  function Fore(a: seq<Node>, k: nat): Node
    requires k < |a|
  {
    if k + 1 < |a| then a[k + 1] else a[0]
  }

  function Back(a: seq<Node>, k: nat): Node
    requires k < |a|
  {
    if k > 0 then a[k - 1] else a[|a| - 1]
  }

  /** a[0] is the head; next goes round in order and prev is its inverse. */
  ghost predicate Ring(a: seq<Node>, i: nat)
    reads a
  {
    |a| > 0 && Distinct(a) && ForeLinked(a, i) && BackLinked(a, i)
  }

  ghost predicate ForeLinked(a: seq<Node>, i: nat)
    reads a
  {
    forall k {:trigger a[k].next} :: 0 <= k < |a| ==> i < |a[k].next| && a[k].next[i] == Fore(a, k)
  }

  ghost predicate BackLinked(a: seq<Node>, i: nat)
    reads a
  {
    forall k {:trigger a[k].prev} :: 0 <= k < |a| ==> i < |a[k].prev| && a[k].prev[i] == Back(a, k)
  }

  ghost function Nexts(a: seq<Node>): (r: seq<seq<Node?>>)
    reads a
    ensures |r| == |a|
    ensures forall j {:trigger r[j]} {:trigger a[j].next} :: 0 <= j < |a| ==> r[j] == a[j].next
  {
    seq(|a|, j requires 0 <= j < |a| reads a => a[j].next)
  }

  ghost function Prevs(a: seq<Node>): (r: seq<seq<Node?>>)
    reads a
    ensures |r| == |a|
    ensures forall j {:trigger r[j]} {:trigger a[j].prev} :: 0 <= j < |a| ==> r[j] == a[j].prev
  {
    seq(|a|, j requires 0 <= j < |a| reads a => a[j].prev)
  }

  lemma AddedFore(a: seq<Node>, k: nat, node: Node, i: nat, was: seq<seq<Node?>>)
    requires k < |a| == |was|
    requires forall j {:trigger was[j]} :: 0 <= j < |a| ==> i < |was[j]| && was[j][i] == Fore(a, j)
    requires forall j {:trigger a[j].next} :: 0 <= j < |a| && j != k ==> a[j].next == was[j]
    requires i < |node.next| && node.next[i] == Fore(a, k)
    requires i < |a[k].next| && a[k].next[i] == node
    ensures ForeLinked(Splice(a, k + 1, node), i)
  {
  }

  lemma AddedBack(a: seq<Node>, k: nat, m: nat, node: Node, i: nat, was: seq<seq<Node?>>)
    requires k < |a| == |was| && m == if k + 1 < |a| then k + 1 else 0
    requires forall j {:trigger was[j]} :: 0 <= j < |a| ==> i < |was[j]| && was[j][i] == Back(a, j)
    requires forall j {:trigger a[j].prev} :: 0 <= j < |a| && j != m ==> a[j].prev == was[j]
    requires i < |node.prev| && node.prev[i] == a[k]
    requires i < |a[m].prev| && a[m].prev[i] == node
    ensures BackLinked(Splice(a, k + 1, node), i)
  {
  }

  /** list_add: the new link goes between prev and prev->next. */
  method ListAdd(ghost a: seq<Node>, ghost k: nat, node: Node, prev: Node, i: nat, ghost next: Node)
    requires Ring(a, i) && k < |a| && a[k] == prev && next == Fore(a, k)
    requires node !in a && i < |node.next| && i < |node.prev|
    modifies prev`next, node`next, node`prev, next`prev
    ensures Ring(Splice(a, k + 1, node), i)
    ensures i < |old(prev.next)| && i < |old(next.prev)|
    ensures node.next == old(node.next[i := next]) && node.prev == old(node.prev[i := prev])
    ensures prev.next == old(prev.next[i := node]) && next.prev == old(next.prev[i := node])
  {
    SpliceDistinct(a, k + 1, node);
    DistinctAt(a, k);
    DistinctAt(a, if k + 1 < |a| then k + 1 else 0);
    ghost var nexts, prevs := Nexts(a), Prevs(a);
    hide Splice, Distinct, Nexts, Prevs;
    var after := prev.next[i];
    assert after == next;
    after.prev := after.prev[i := node];
    node.next := node.next[i := after];
    node.prev := node.prev[i := prev];
    prev.next := prev.next[i := node];
    AddedFore(a, k, node, i, nexts);
    AddedBack(a, k, if k + 1 < |a| then k + 1 else 0, node, i, prevs);
  }

  lemma RemovedFore(a: seq<Node>, k: nat, i: nat, was: seq<seq<Node?>>)
    requires 1 <= k < |a| == |was|
    requires forall j {:trigger was[j]} :: 0 <= j < |a| ==> i < |was[j]| && was[j][i] == Fore(a, j)
    requires forall j {:trigger a[j].next} :: 0 <= j < |a| && j != k - 1 && j != k ==> a[j].next == was[j]
    requires i < |a[k - 1].next| && a[k - 1].next[i] == Fore(a, k)
    ensures ForeLinked(Without(a, k), i)
  {
  }

  lemma RemovedBack(a: seq<Node>, k: nat, m: nat, i: nat, was: seq<seq<Node?>>)
    requires 1 <= k < |a| == |was| && m == if k + 1 < |a| then k + 1 else 0
    requires forall j {:trigger was[j]} :: 0 <= j < |a| ==> i < |was[j]| && was[j][i] == Back(a, j)
    requires forall j {:trigger a[j].prev} :: 0 <= j < |a| && j != m && j != k ==> a[j].prev == was[j]
    requires i < |a[m].prev| && a[m].prev[i] == a[k - 1]
    ensures BackLinked(Without(a, k), i)
  {
  }

  /** list_del: prev and next are joined, and the link points to itself afterwards. */
  method ListDel(ghost a: seq<Node>, ghost k: nat, node: Node, i: nat, ghost prev: Node, ghost next: Node)
    requires Ring(a, i) && 1 <= k < |a| && a[k] == node && prev == a[k - 1] && next == Fore(a, k)
    modifies prev`next, next`prev, node`next, node`prev
    ensures Ring(Without(a, k), i)
    ensures i < |old(prev.next)| && i < |old(next.prev)| && i < |old(node.next)| && i < |old(node.prev)|
    ensures prev.next == old(prev.next[i := next]) && next.prev == old(next.prev[i := prev])
    ensures node.next == old(node.next[i := node]) && node.prev == old(node.prev[i := node])
  {
    WithoutDistinct(a, k);
    DistinctAt(a, k);
    DistinctAt(a, k - 1);
    DistinctAt(a, if k + 1 < |a| then k + 1 else 0);
    ghost var nexts, prevs := Nexts(a), Prevs(a);
    hide Without, Distinct, Nexts, Prevs;
    var before, after := node.prev[i], node.next[i];
    assert before == prev && after == next && prev != node && next != node;
    after.prev := after.prev[i := before];
    before.next := before.next[i := after];
    node.next := node.next[i := node];
    node.prev := node.prev[i := node];
    RemovedFore(a, k, i, nexts);
    RemovedBack(a, k, if k + 1 < |a| then k + 1 else 0, i, prevs);
  }
}
