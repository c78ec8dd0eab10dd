/** The extent skip list in memory: towers of leaves, and the locks of the CPU working on it. */
module SkipLists {
  import opened Sequences
  import opened Leaves
  import opened Towers
  import opened IndexSpec

  /** The nodes among the first `upto` of a that have a link at level i. */
  ghost function AtLevel(a: seq<Node>, i: nat, upto: nat): (r: seq<Node>)
    requires upto <= |a|
  {
    if upto == 0 then []
    else AtLevel(a, i, upto - 1) + Link(a[upto - 1], i)
  }

  lemma AtLevelPrefix(a: seq<Node>, i: nat, x: nat, y: nat)
    requires x <= y <= |a|
    ensures AtLevel(a, i, x) <= AtLevel(a, i, y)
  {
  }

  lemma AtLevelStep(a: seq<Node>, i: nat, x: nat)
    requires x < |a| && a[x].level >= i
    ensures |AtLevel(a, i, x + 1)| == |AtLevel(a, i, x)| + 1
  {
  }

  lemma AtLevelSkips(a: seq<Node>, i: nat, x: nat, y: nat)
    requires x <= y <= |a|
    requires forall c :: x <= c < y ==> a[c].level < i
    ensures AtLevel(a, i, y) == AtLevel(a, i, x)
  {
  }

  /** The node after a[x] at level i is the next one in the whole order that is tall enough. */
  lemma NextTall(a: seq<Node>, i: nat, x: nat) returns (k: nat, y: nat)
    requires x < |a| && a[x].level >= i
    ensures k == |AtLevel(a, i, x)|
    ensures var l := AtLevel(a, i, |a|);
      && k < |l| && l[k] == a[x]
      && x < y <= |a| && (forall c :: x < c < y ==> a[c].level < i)
      && (if y == |a| then k + 1 == |l| else a[y].level >= i && k + 1 < |l| && l[k + 1] == a[y])
  {
    k := |AtLevel(a, i, x)|;
    y := x + 1;
    while y < |a| && a[y].level < i
      invariant x < y <= |a| && forall c :: x < c < y ==> a[c].level < i
    {
      y := y + 1;
    }
    AtLevelSkips(a, i, x + 1, y);
    if y < |a| {
      AtLevelPrefix(a, i, y + 1, |a|);
    }
  }

  lemma AtLevelFrom(a: seq<Node>, i: nat, x: nat)
    requires x <= |a|
    ensures forall n :: n in AtLevel(a, i, x) ==> n in a && n.level >= i
  {
  }

  lemma AtLevelSame(a: seq<Node>, b: seq<Node>, i: nat, x: nat)
    requires x <= |a| && x <= |b| && a[..x] == b[..x]
    ensures AtLevel(a, i, x) == AtLevel(b, i, x)
  {
    if x > 0 {
      assert a[x - 1] == a[..x][x - 1] == b[x - 1];
      assert a[..x - 1] == a[..x][..x - 1] == b[..x - 1];
      AtLevelSame(a, b, i, x - 1);
    }
  }

  function Link(n: Node, i: nat): seq<Node> {
    if n.level >= i then [n] else []
  }

  lemma AtLevelSplice(a: seq<Node>, p: nat, n: Node, i: nat, y: nat)
    requires p <= y <= |a|
    ensures |AtLevel(a, i, p)| <= |AtLevel(a, i, y)|
    ensures n.level >= i ==> AtLevel(Splice(a, p, n), i, y + 1) == Splice(AtLevel(a, i, y), |AtLevel(a, i, p)|, n)
    ensures n.level < i ==> AtLevel(Splice(a, p, n), i, y + 1) == AtLevel(a, i, y)
  {
    var b := Splice(a, p, n);
    if y == p {
      assert a[..p] == b[..p];
      AtLevelSame(a, b, i, p);
    } else {
      AtLevelSplice(a, p, n, i, y - 1);
      assert b[y] == a[y - 1];
      SpliceAppend(AtLevel(a, i, y - 1), |AtLevel(a, i, p)|, n, Link(a[y - 1], i));
    }
  }

  lemma AtLevelWithoutLast(a: seq<Node>, p: nat, i: nat)
    requires p < |a|
    ensures a[p].level >= i ==>
      |AtLevel(a, i, p)| < |AtLevel(a, i, p + 1)| && AtLevel(a, i, p + 1)[|AtLevel(a, i, p)|] == a[p]
    ensures a[p].level >= i ==> AtLevel(Without(a, p), i, p) == Without(AtLevel(a, i, p + 1), |AtLevel(a, i, p)|)
    ensures a[p].level < i ==> AtLevel(Without(a, p), i, p) == AtLevel(a, i, p + 1)
  {
    assert a[..p] == Without(a, p)[..p];
    AtLevelSame(a, Without(a, p), i, p);
  }

  lemma AtLevelWithout(a: seq<Node>, p: nat, i: nat, y: nat)
    requires p < y <= |a|
    ensures a[p].level >= i ==> |AtLevel(a, i, p)| < |AtLevel(a, i, y)| && AtLevel(a, i, y)[|AtLevel(a, i, p)|] == a[p]
    ensures a[p].level >= i ==> AtLevel(Without(a, p), i, y - 1) == Without(AtLevel(a, i, y), |AtLevel(a, i, p)|)
    ensures a[p].level < i ==> AtLevel(Without(a, p), i, y - 1) == AtLevel(a, i, y)
  {
    if y == p + 1 {
      AtLevelWithoutLast(a, p, i);
    } else {
      AtLevelWithout(a, p, i, y - 1);
      assert Without(a, p)[y - 2] == a[y - 1];
      if a[p].level >= i {
        WithoutAppend(AtLevel(a, i, y - 1), |AtLevel(a, i, p)|, Link(a[y - 1], i));
      }
    }
  }

  ghost function LeavesOf(ns: set<Node>): set<Leaf> {
    set n | n in ns && n.leaf != null :: n.leaf
  }

  ghost function Parts(ls: set<Leaf>): set<object> {
    ls + (set l | l in ls :: l.keys) + (set l | l in ls :: l.ptrs)
  }

  lemma PartsOf(ls: set<Leaf>, l: Leaf)
    requires l in ls
    ensures l in Parts(ls) && l.keys in Parts(ls) && l.ptrs in Parts(ls)
  {
  }

  /** What one CPU works with: its per-CPU insertion area, and the node locks it holds. */
  class Cpu {
    var cursor: seq<Node?>
    var preload: seq<Node?>
    var held: set<Node>

    constructor ()
      ensures held == {} && preload == [] && cursor == []
    {
      held := {};
      cursor := [];
      preload := [];
    }

    /** The preallocated nodes, their leaves and the leaves' arrays. */
    ghost function Spares(): set<Node>
      reads this
    {
      set n: Node | n in preload
    }

    ghost function Footprint(): set<object>
      reads this
    {
      {this} + Spares() + Parts(LeavesOf(Spares()))
    }

    lemma SpareInFootprint(n: Node)
      requires n in preload && n.leaf != null
      ensures this in Footprint() && n in Footprint()
      ensures n.leaf in Footprint() && n.leaf.keys in Footprint() && n.leaf.ptrs in Footprint()
    {
    }
  }

  class SkipList {
    const head: Node
    var level: nat
    ghost var lists: seq<seq<Node>>  // lists[i]: the head, then the leaves with a link at level i
    ghost var leaves: seq<LeafVal>   // the leaves of lists[0] as values
    ghost var nodes: set<Node>       // every node the pointers of this list may involve
    ghost var store: set<Leaf>       // every leaf of such a node

    /** On every level the pointers make a list headed by `head`. */
    ghost predicate Wired()
      reads this`lists, this`nodes, nodes
    {
      && |lists| == SKIP_MAXLEVEL
      && forall i {:trigger lists[i]} {:trigger LevelWired(i)} :: 0 <= i < SKIP_MAXLEVEL ==> LevelWired(i)
    }

    /** Level i holds exactly the nodes of level 0 whose towers reach it, in the same order. */
    ghost predicate Stacked()
      reads this`lists
      requires |lists| == SKIP_MAXLEVEL
    {
      forall i {:trigger lists[i]} :: 0 <= i < SKIP_MAXLEVEL ==> lists[i] == AtLevel(lists[0], i, |lists[0]|)
    }

    /** The leaf objects hold the abstract leaves. */
    ghost predicate Filled()
      reads this`lists, this`leaves, this`store, store, (set l | l in store :: l.keys), (set l | l in store :: l.ptrs)
      requires |lists| == SKIP_MAXLEVEL
    {
      && |lists[0]| == |leaves| + 1
      && Sized(leaves)
      && forall k {:trigger leaves[k]} :: 0 <= k < |leaves| ==> Fills(lists[0][k + 1], leaves[k])
    }

    ghost predicate Fills(n: Node, v: LeafVal)
      reads this`store, store, (set l | l in store :: l.keys), (set l | l in store :: l.ptrs)
      requires v.slots != []
    {
      && n.level == v.height
      && n.leaf != null && n.leaf in store && LeafFills(n.leaf, v)
    }

    /** No two leaves share storage. */
    ghost predicate Apart()
      reads this`lists
      requires |lists| == SKIP_MAXLEVEL
    {
      forall j, k :: 0 <= j < k < |lists[0]| ==> NoSharing(lists[0][j], lists[0][k])
    }

    ghost predicate Live()
      reads this`lists, this`nodes, nodes
      requires |lists| == SKIP_MAXLEVEL
    {
      forall k {:trigger lists[0][k]} :: 0 <= k < |lists[0]| ==> lists[0][k] in nodes && !lists[0][k].dead
    }

    /** Everything about the towers, nothing about what the leaves hold. */
    ghost predicate Skeleton()
      reads this`lists, this`nodes, nodes
    {
      head.level == SKIP_MAXLEVEL && head.leaf == null && Wired() && Stacked() && Apart() && Live()
    }

    ghost predicate Valid()
      reads this, nodes, store, (set l | l in store :: l.keys), (set l | l in store :: l.ptrs)
    {
      Skeleton() && Filled() && WellFormed(leaves) && Capped(Index(leaves, level))
    }

    ghost function Footprint(): set<object>
      reads this
    {
      {this} + nodes + Parts(store)
    }

    constructor ()
      ensures Valid() && leaves == [] && level == 0 && fresh(nodes)
    {
      var h := new Node(SKIP_MAXLEVEL, null);
      head := h;
      level := 0;
      lists := seq(SKIP_MAXLEVEL, _ => [h]);
      leaves := [];
      nodes := {h};
      store := {};
      new;
      forall i | 0 <= i < SKIP_MAXLEVEL ensures lists[i] == AtLevel(lists[0], i, |lists[0]|) && LevelWired(i) {
        assert AtLevel([h], i, 1) == AtLevel([h], i, 0) + [h];
      }
      assert Wired() && Stacked();
      assert Filled() && Apart() && Live();
    }

    /** Skips dead nodes to the right of p at level i. */
    method FindLiveNext(p: Node, i: nat, ghost k: nat) returns (node: Node?, ghost m: nat)
      requires Wired() && i < SKIP_MAXLEVEL && k < |lists[i]| && lists[i][k] == p
      ensures k < m <= |lists[i]| && node == if m < |lists[i]| then lists[i][m] else null
      ensures m < |lists[i]| ==> lists[i][m] in nodes && !lists[i][m].dead
      ensures forall c :: k < c < m ==> lists[i][c] in nodes && lists[i][c].dead
    {
      node := p;
      m := k;
      while node != null
        invariant k <= m <= |lists[i]|
        invariant node == if m < |lists[i]| then lists[i][m] else null
        invariant forall c :: k < c <= m && c < |lists[i]| ==> lists[i][c] in nodes && lists[i][c].dead
        decreases |lists[i]| - m
      {
        assert lists[i][m].next[i] == NextOf(lists[i], m);
        node := node.next[i];
        m := m + 1;
        if node == null || !node.dead {
          return;
        }
      }
    }

    /** Skips dead nodes to the left of node at level i; the head has no live predecessor. */
    method FindLivePrev(node: Node, i: nat, ghost k: nat) returns (r: Node?, ghost m: nat)
      requires Wired() && i < SKIP_MAXLEVEL && k < |lists[i]| && lists[i][k] == node
      requires head in nodes && !head.dead
      ensures k == 0 ==> r == null
      ensures k > 0 ==> m < k && r == lists[i][m] && r in nodes && !r.dead
      ensures k > 0 ==> forall c :: m < c < k ==> lists[i][c] in nodes && lists[i][c].dead
    {
      assert lists[i][0] == head;
      if node == head {
        assert Linked(lists[i], i);
        return null, 0;
      }
      r := node;
      m := k;
      while r != null
        invariant 0 < m <= k && r == lists[i][m]
        invariant forall c :: m <= c < k ==> lists[i][c] in nodes && lists[i][c].dead
        decreases m
      {
        assert lists[i][m].prev[i] == PrevOf(lists[i], m);
        r := r.prev[i];
        m := m - 1;
        if !r.dead {
          return;
        }
      }
    }
  
    /** p stands at position x of level 0 and has a link at level i. */
    ghost predicate At(p: Node, x: nat, i: int)
      reads this`lists
    {
      |lists| > 0 && x < |lists[0]| && lists[0][x] == p && p.level >= i
    }

    /** y is the first position after x with a link at level i, and leaf the node there; none at the end. */
    ghost predicate Follows(leaf: Node?, x: nat, y: nat, i: int)
      reads this`lists
    {
      && |lists| > 0 && x < y <= |lists[0]|
      && leaf == (if y < |lists[0]| then lists[0][y] else null)
      && (leaf != null ==> leaf.level >= i)
      && forall c :: x < c < y ==> lists[0][c].level < i
    }

    lemma SkeletonShape()
      requires Skeleton()
      ensures |lists| == SKIP_MAXLEVEL
    {
    }

    lemma Basics()
      requires Valid()
      ensures |lists| > 0 && |lists[0]| == |leaves| + 1 && level < SKIP_MAXLEVEL
      ensures At(head, 0, SKIP_MAXLEVEL) && At(head, 0, level) && At(head, 0, 0)
    {
    }

    lemma WellFormedLeaves()
      requires Valid()
      ensures WellFormed(leaves) && Capped(Index(leaves, level))
    {
    }

    lemma AtIsPosition(p: Node, x: nat)
      requires At(p, x, 0)
      ensures |lists| > 0 && x < |lists[0]| && lists[0][x] == p
    {
    }

    /** sl_next_leaf: y is where the answer stands in level-0 order. */
    method NextLeaf(p: Node, i: nat, ghost x: nat) returns (leaf: Node?, ghost y: nat)
      requires Valid() && i < SKIP_MAXLEVEL && At(p, x, i)
      ensures Follows(leaf, x, y, i) && x < y <= |leaves| + 1
      ensures leaf != null ==> At(leaf, y, i) && At(leaf, y, 0) && y <= |leaves| && leaf.leaf != null
      ensures leaf == null ==> y == |leaves| + 1
    {
      ghost var k;
      k, y := NextTall(lists[0], i, x);
      assert lists[i] == AtLevel(lists[0], i, |lists[0]|);
      ghost var m;
      leaf, m := FindLiveNext(p, i, k);
      AllLive(i, k + 1);
      if y < |lists[0]| {
        assert Fills(lists[0][y], leaves[y - 1]);
      }
    }

    /** Nothing on a level of a valid list is dead. */
    lemma AllLive(i: nat, k: nat)
      requires Valid() && i < SKIP_MAXLEVEL && k <= |lists[i]|
      ensures k < |lists[i]| ==> lists[i][k] in nodes && !lists[i][k].dead
    {
      if k < |lists[i]| {
        assert lists[i] == AtLevel(lists[0], i, |lists[0]|);
        AtLevelFrom(lists[0], i, |lists[0]|);
        assert lists[i][k] in lists[0];
      }
    }

    /** find_live_prev on a leaf just reached from p at level i gives p back. */
    method PrevLeaf(leaf: Node, i: nat, ghost p: Node, ghost x: nat, ghost y: nat) returns (r: Node?)
      requires Valid() && i < SKIP_MAXLEVEL && At(p, x, i) && Follows(leaf, x, y, i)
      ensures r == p && !p.dead && !leaf.dead
    {
      ghost var k, y' := NextTall(lists[0], i, x);
      assert y' == y;
      assert lists[i] == AtLevel(lists[0], i, |lists[0]|);
      ghost var m;
      AllLive(i, k);
      AllLive(0, 0);
      AllLive(0, y);
      r, m := FindLivePrev(leaf, i, k + 1);
    }

    method MinKey(n: Node, ghost y: nat) returns (min: nat)
      requires Valid() && y > 0 && At(n, y, 0)
      ensures y <= |leaves| && leaves[y - 1].slots != [] && min == leaves[y - 1].Min()
    {
      assert Fills(n, leaves[y - 1]);
      min := n.leaf.keys[0];
    }

    method MaxKey(n: Node, ghost y: nat) returns (max: nat)
      requires Valid() && y > 0 && At(n, y, 0)
      ensures y <= |leaves| && leaves[y - 1].slots != [] && max == leaves[y - 1].Max()
    {
      assert Fills(n, leaves[y - 1]);
      max := n.leaf.max;
    }

    lemma LeafReady(n: Node, y: nat)
      requires Valid() && y > 0 && At(n, y, 0)
      ensures y <= |leaves| && leaves[y - 1].slots != []
      ensures n.leaf != null && n.leaf.Valid() && n.leaf.slots == leaves[y - 1].slots && n.leaf.nr > 0
      ensures n.leaf.max == leaves[y - 1].Max() && n.leaf.keys[0] == leaves[y - 1].Min()
      ensures !n.dead && n.level == leaves[y - 1].height < SKIP_MAXLEVEL
    {
      assert Fills(n, leaves[y - 1]);
      LeavesInOrder(leaves);
      AllLive(0, y);
    }

    /** The level-0 pointer of the node at position y. */
    lemma Successor(n: Node, y: nat)
      requires Valid() && At(n, y, 0)
      ensures |n.next| > 0 && n.next[0] == (if y + 1 < |lists[0]| then lists[0][y + 1] else null)
      ensures y + 1 < |lists[0]| ==> At(lists[0][y + 1], y + 1, 0)
    {
    }

    /** The raw next pointer at level i. */
    lemma NextPointer(n: Node, x: nat, i: nat) returns (y: nat)
      requires Valid() && i < SKIP_MAXLEVEL && At(n, x, i)
      ensures i < |n.next| && Follows(n.next[i], x, y, i)
    {
      var k;
      k, y := NextTall(lists[0], i, x);
      assert lists[i] == AtLevel(lists[0], i, |lists[0]|);
      assert LevelWired(i);
      assert lists[i][k].next[i] == NextOf(lists[i], k);
    }

    /** The raw prev pointer at level i of a leaf. */
    lemma PrevPointer(n: Node, x: nat, i: nat) returns (w: nat)
      requires Valid() && i < SKIP_MAXLEVEL && At(n, x, i) && x > 0
      ensures i < |n.prev| && n.prev[i] != null && At(n.prev[i], w, i) && Follows(n, w, x, i)
    {
      w := x - 1;
      assert lists[0][0] == head;
      while lists[0][w].level < i
        invariant 0 <= w < x && forall c :: w < c < x ==> lists[0][c].level < i
        decreases w
      {
        w := w - 1;
      }
      var k, y := NextTall(lists[0], i, w);
      assert y == x;
      assert lists[i] == AtLevel(lists[0], i, |lists[0]|);
      assert LevelWired(i);
      assert lists[i][k + 1].prev[i] == PrevOf(lists[i], k + 1);
    }

    lemma AliveAt(n: Node, x: nat)
      requires Valid() && At(n, x, 0)
      ensures n in nodes && !n.dead
    {
    }

    lemma PrevPosition(n: Node, x: nat, p: Node, w: nat)
      requires Valid() && At(n, x, 0) && At(p, w, 0) && w < x
      ensures forall b :: x <= b < |lists[0]| ==> lists[0][b] != p && (b > x ==> lists[0][b] != n)
    {
    }

    /** head->prev at level 0 is the last leaf, whose next is null. */
    lemma LastPointer()
      requires Valid()
      ensures |head.prev| > 0
      ensures leaves == [] ==> head.prev[0] == null
      ensures leaves != [] ==> head.prev[0] != null && At(head.prev[0], |leaves|, 0)
      ensures leaves != [] ==> |head.prev[0].next| > 0 && head.prev[0].next[0] == null
    {
    }

    lemma InFootprint(n: Node, y: nat)
      requires Valid() && y > 0 && At(n, y, 0)
      ensures n in nodes && n.leaf != null && n.leaf in Footprint() && n.leaf.keys in Footprint()
        && n.leaf.ptrs in Footprint()
      ensures this in Footprint() && nodes <= Footprint()
    {
      assert Fills(n, leaves[y - 1]);
      PartsOf(store, n.leaf);
      AllLive(0, y);
    }

    /** The lock rule: every linked node the CPU already holds is to the left of n, which it does not hold. */
    ghost predicate MayLock(cpu: Cpu, y: nat)
      reads this`lists, cpu`held
    {
      |lists| > 0 && forall b {:trigger lists[0][b]} :: y <= b < |lists[0]| ==> lists[0][b] !in cpu.held
    }

    method LockNode(cpu: Cpu, n: Node, ghost y: nat)
      requires MayLock(cpu, y) && y < |lists[0]| && lists[0][y] == n
      modifies cpu`held
      ensures cpu.held == old(cpu.held) + {n}
    {
      cpu.held := cpu.held + {n};
    }

    /** A node that is not linked yet cannot be held by anyone else. */
    method LockNew(cpu: Cpu, n: Node)
      requires |lists| > 0 && n !in lists[0] && n !in cpu.held
      modifies cpu`held
      ensures cpu.held == old(cpu.held) + {n}
    {
      cpu.held := cpu.held + {n};
    }

    method UnlockNode(cpu: Cpu, n: Node?)
      requires n != null ==> n in cpu.held
      modifies cpu`held
      ensures cpu.held == if n == null then old(cpu.held) else old(cpu.held) - {n}
    {
      if n != null {
        cpu.held := cpu.held - {n};
      }
    }
  
    // ---- changing the pointers of one level

    ghost predicate LevelWired(j: nat)
      requires j < |lists|
      reads this`lists, this`nodes, nodes
    {
      lists[j] != [] && lists[j][0] == head && (forall n :: n in lists[j] ==> n in nodes) && Linked(lists[j], j)
    }

    /** Storing at level i leaves the pointers of every other level alone. */
    twostate lemma OtherLevelsKept(i: nat)
      requires old(Wired()) && |lists| == SKIP_MAXLEVEL && nodes == old(nodes)
      requires forall j :: 0 <= j < SKIP_MAXLEVEL && j != i ==> lists[j] == old(lists)[j]
      requires forall n {:trigger n in nodes} :: n in nodes ==> SameElsewhere(n, i)
      ensures forall j :: 0 <= j < SKIP_MAXLEVEL && j != i ==> LevelWired(j)
    {
      forall j | 0 <= j < SKIP_MAXLEVEL && j != i ensures LevelWired(j) {
        var a := lists[j];
        assert old(LevelWired(j));
        forall k | 0 <= k < |a| ensures SameElsewhere(a[k], i) {
          assert a[k] in nodes;
        }
      }
    }

    /** The retry loop of sl_link_one_level: alone it locks the next node at the first try. */
    method LockLiveNext(cpu: Cpu, prev: Node, i: nat, ghost k: nat, ghost z: nat) returns (next: Node?)
      requires Wired() && i < SKIP_MAXLEVEL && k < |lists[i]| && lists[i][k] == prev
      requires head in nodes && forall n :: n in lists[i] ==> !n.dead
      requires k + 1 < |lists[i]| ==> z < |lists[0]| && lists[0][z] == lists[i][k + 1] && MayLock(cpu, z)
      modifies cpu`held
      ensures next == NextOf(lists[i], k)
      ensures next != null ==> next !in old(cpu.held)
      ensures cpu.held == old(cpu.held) + if next == null then {} else {next}
    {
      assert LevelWired(i);
      ghost var m;
      next, m := FindLiveNext(prev, i, k);
      if next != null {
        assert m == k + 1;
        LockNode(cpu, next, z);
        var test;
        test, m := FindLiveNext(prev, i, k);
        if test != next || next.dead {
          assert false;
        }
        test, m := FindLivePrev(next, i, k + 1);
        if test != prev {
          assert false;
        }
      }
    }

    /** The stores of a link, with the ghost level lists kept in step. */
    method StoreLink(prev: Node, node: Node, next: Node?, i: nat, ghost k: nat)
      requires Wired() && i < SKIP_MAXLEVEL && k < |lists[i]| && lists[i][k] == prev
      requires next == NextOf(lists[i], k)
      requires node in nodes && node !in lists[i] && i < |node.next| && i < |node.prev|
      modifies this`lists, nodes
      ensures Wired() && lists == old(lists)[i := Splice(old(lists[i]), k + 1, node)]
      ensures forall n :: n in nodes ==> n.dead == old(n.dead) && SameElsewhere(n, i)
    {
      hide Linked;
      ghost var a := lists[i];
      assert LevelWired(i);
      LinkBetween(a, k, prev, node, next, head, i, if next != null then next else head);
      lists := lists[i := Splice(a, k + 1, node)];
      ghost var after := if next != null then next else head;
      assert SameElsewhere(prev, i);
      assert SameElsewhere(node, i);
      assert SameElsewhere(after, i);
      assert forall n :: n in nodes && n != prev && n != node && n != after ==> SameElsewhere(n, i);
      OtherLevelsKept(i);
      forall n | n in lists[i] ensures n in nodes {
        SpliceMembers(a, k + 1, node, n);
      }
      assert lists[i][0] == a[0];
      assert Linked(lists[i], i);
      assert LevelWired(i);
    }

    /** sl_link_one_level; k is where prev stands on the level and z where the next node stands on level 0. */
    method LinkOneLevel(cpu: Cpu, prev: Node, node: Node, i: nat, ghost k: nat, ghost z: nat)
      requires Wired() && i < SKIP_MAXLEVEL && k < |lists[i]| && lists[i][k] == prev
      requires node in nodes && node !in lists[i] && i < |node.next| && i < |node.prev|
      requires prev in cpu.held
      requires head in nodes && forall n :: n in lists[i] ==> !n.dead
      requires k + 1 < |lists[i]| ==> z < |lists[0]| && lists[0][z] == lists[i][k + 1] && MayLock(cpu, z)
      modifies this`lists, nodes, cpu`held
      ensures Wired() && lists == old(lists)[i := Splice(old(lists[i]), k + 1, node)]
      ensures cpu.held == old(cpu.held)
      ensures forall n :: n in nodes ==> n.dead == old(n.dead) && SameElsewhere(n, i)
    {
      hide Wired;
      var next := LockLiveNext(cpu, prev, i, k, z);
      StoreLink(prev, node, next, i, k);
      UnlockNode(cpu, next);
    }
  
    /** Halfway through linking node after position x of `all`: the levels below i have it. */
    ghost predicate Linking(all: seq<Node>, x: nat, node: Node, i: nat)
      requires x < |all|
      reads this`lists
    {
      && |lists| == SKIP_MAXLEVEL && node !in all
      && forall j {:trigger lists[j]} :: 0 <= j < SKIP_MAXLEVEL ==>
        (lists[j] == if j < i then AtLevel(Splice(all, x + 1, node), j, |all| + 1) else AtLevel(all, j, |all|))
    }

  }

  ghost predicate LeafFills(l: Leaf, v: LeafVal)
    requires v.slots != []
    reads l, l.keys, l.ptrs
  {
    l.Holds() && l.slots == v.slots && l.max == v.Max()
  }

  /** prev, at position c, is the last node at or before position x that reaches level i. */
  ghost predicate Precedes(all: seq<Node>, x: nat, prev: Node?, c: nat, i: nat) {
    c <= x < |all| && prev == all[c] && all[c].level >= i && forall d :: c < d <= x ==> all[d].level < i
  }

  /** Where on level i a node linked after position x goes: after prev, before the next tall node past x. */
  lemma LinkSpot(all: seq<Node>, x: nat, node: Node, i: nat, c: nat) returns (k: nat, z: nat)
    requires c <= x < |all| && all[c].level >= i && (forall d :: c < d <= x ==> all[d].level < i)
    requires node !in all && i <= node.level
    ensures var l := AtLevel(all, i, |all|);
      && k < |l| && l[k] == all[c] && node !in l
      && AtLevel(Splice(all, x + 1, node), i, |all| + 1) == Splice(l, k + 1, node)
      && x < z && (k + 1 < |l| ==> z < |all| && all[z] == l[k + 1])
  {
    hide *;
    k, z := NextTall(all, i, c);
    AtLevelStep(all, i, c);
    AtLevelSkips(all, i, c + 1, x + 1);
    AtLevelSplice(all, x + 1, node, i, |all|);
    AtLevelFrom(all, i, |all|);
  }

  ghost predicate NoSharing(m: Node, n: Node) {
    m.leaf != null && n.leaf != null ==>
      m.leaf != n.leaf && m.leaf.keys != n.leaf.keys && m.leaf.ptrs != n.leaf.ptrs
  }
}
