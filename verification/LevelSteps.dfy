/**
 One level of the concurrent extent skip list. Writers link new nodes after live ones, mark nodes dead
 and unlink dead ones in any order; the locks on the neighbours make each of these bodies one step.
 */
module LevelSteps {
  import opened Sequences

  const HEAD: int := 0
  const NIL: int := -1

  /**
   The pointers of one level. `key` is the least key a leaf has at the moment, and -1 for the head; a leaf's
   least key moves while it is live. `chain` is what next reaches from the head, dead nodes included. `rank`
   only records history: a number given to each node when it is linked, to place it after its predecessor.
   */
  datatype Level = Level(next: map<int, int>, prev: map<int, int>, dead: set<int>, key: map<int, int>,
                         rank: map<int, real>, chain: seq<int>)

  function PosOrNil(c: seq<int>, j: nat): int {
    if j < |c| then c[j] else NIL
  }

  ghost predicate Known(s: Level) {
    && s.next.Keys == s.prev.Keys == s.rank.Keys == s.key.Keys
    && s.dead <= s.key.Keys && NIL !in s.key && HEAD in s.key
    && (forall i :: 0 <= i < |s.chain| ==> s.chain[i] in s.key)
  }

  ghost predicate Sorted(s: Level)
    requires Known(s)
  {
    forall i, j :: 0 <= i < j < |s.chain| ==> s.rank[s.chain[i]] < s.rank[s.chain[j]]
  }

  /** The least keys of the live nodes rise along the chain; those of dead nodes say nothing any more. */
  ghost predicate LiveOrder(c: seq<int>, dead: set<int>, key: map<int, int>) {
    forall i, j :: 0 <= i < j < |c| && c[i] !in dead && c[j] !in dead ==>
      c[i] in key && c[j] in key && key[c[i]] < key[c[j]]
  }

  ghost predicate Pointers(s: Level) {
    |s.chain| > 0 && s.chain[0] == HEAD && Forward(s.chain, s.next) && Backward(s.chain, s.prev)
  }

  ghost predicate Forward(c: seq<int>, next: map<int, int>) {
    forall i {:trigger next[c[i]]} {:trigger c[i] in next} :: 0 <= i < |c| ==>
      c[i] in next && next[c[i]] == PosOrNil(c, i + 1)
  }

  ghost predicate Backward(c: seq<int>, prev: map<int, int>) {
    forall i {:trigger prev[c[i]]} {:trigger c[i] in prev} :: 0 <= i < |c| ==>
      c[i] in prev && prev[c[i]] == BackOf(c, i)
  }

  /** The head's prev caches the last node of the level. */
  function BackOf(c: seq<int>, i: nat): int
    requires i < |c|
  {
    if i > 0 then c[i - 1] else if |c| == 1 then NIL else c[|c| - 1]
  }

  /** A node that is no longer reachable still points back to an earlier node. */
  ghost predicate PointsBack(s: Level, x: int)
    requires Known(s) && x in s.key
  {
    s.prev[x] in s.rank && s.rank[s.prev[x]] < s.rank[x]
  }

  ghost predicate Inv(s: Level) {
    && Known(s) && Sorted(s) && Pointers(s) && HEAD !in s.dead && LiveOrder(s.chain, s.dead, s.key)
    && (forall x {:trigger x in s.dead} :: x in s.key && x !in s.dead ==> x in s.chain)
    && (forall x {:trigger PointsBack(s, x)} :: x in s.key && x != HEAD ==> PointsBack(s, x))
  }

  // ---- live neighbours

  /** First position after i that holds a live node, or the end. */
  function LiveAfter(c: seq<int>, dead: set<int>, i: nat): (j: nat)
    requires i < |c|
    ensures i < j <= |c| && (j < |c| ==> c[j] !in dead)
    ensures forall m :: i < m < j ==> c[m] in dead
    decreases |c| - i
  {
    if i + 1 == |c| || c[i + 1] !in dead then i + 1 else LiveAfter(c, dead, i + 1)
  }

  /** find_live_next for the node at position i of the chain. */
  function LiveNext(s: Level, i: nat): int
    requires i < |s.chain|
  {
    PosOrNil(s.chain, LiveAfter(s.chain, s.dead, i))
  }

  ghost function Before(s: Level, x: int): set<int>
    requires Known(s) && x in s.key
  {
    set y | y in s.rank.Keys && s.rank[y] < s.rank[x]
  }

  /** find_live_prev: back over dead nodes, reachable or not. */
  ghost function LivePrev(s: Level, x: int): (p: int)
    requires Inv(s) && x in s.key && x != HEAD
    ensures p in s.key && p !in s.dead && p in s.chain && s.rank[p] < s.rank[x]
    decreases Before(s, x)
  {
    assert PointsBack(s, x);
    var p := s.prev[x];
    assert p in Before(s, x);
    if p !in s.dead then p else LivePrev(s, p)
  }

  // ---- the steps

  /** A rank between a node and the next live one, which there always is. */
  function RankAfter(s: Level, i: nat): real
    requires i < |s.chain|
  {
    var p, x := s.chain[i], LiveNext(s, i);
    var low := if p in s.rank then s.rank[p] else 0.0;
    if x in s.rank then (low + s.rank[x]) / 2.0 else low + 1.0
  }

  /** What a link of n after the live node at position i leaves: the dead nodes that followed are cut out too. */
  function Linked(s: Level, i: nat, n: int, k: int): Level
    requires i < |s.chain|
  {
    var j := LiveAfter(s.chain, s.dead, i);
    var p, x := s.chain[i], PosOrNil(s.chain, j);
    Level(s.next[n := x][p := n], s.prev[n := p][if x != NIL then x else HEAD := n], s.dead, s.key[n := k],
          s.rank[n := RankAfter(s, i)], s.chain[..i + 1] + [n] + s.chain[j..])
  }

  /** What unlinking leaves when the live predecessor stands at position i: nothing dead remains right after it. */
  function Unlinked(s: Level, i: nat): Level
    requires i < |s.chain|
  {
    var j := LiveAfter(s.chain, s.dead, i);
    var p, x := s.chain[i], PosOrNil(s.chain, j);
    s.(next := s.next[p := x],
       prev := s.prev[if x != NIL then x else HEAD := if x != NIL || p != HEAD then p else NIL],
       chain := s.chain[..i + 1] + s.chain[j..])
  }

  function Marked(s: Level, d: int): Level {
    s.(dead := s.dead + {d})
  }

  /** A new node may go after a live one, between its key and the next live key. */
  ghost predicate CanLink(s: Level, i: nat, n: int, k: int) {
    && Known(s) && i < |s.chain| && s.chain[i] !in s.dead && n !in s.key && n != NIL
    && s.key[s.chain[i]] < k && (LiveNext(s, i) != NIL ==> LiveNext(s, i) in s.key && k < s.key[LiveNext(s, i)])
  }

  /** A live leaf's least key may move to anything between those of its live neighbours. */
  ghost predicate CanMove(s: Level, i: nat, k: int) {
    && Inv(s) && 0 < i < |s.chain| && s.chain[i] !in s.dead && s.chain[i] in s.key && s.chain[i] != HEAD
    && s.key[LivePrev(s, s.chain[i])] < k
    && (LiveNext(s, i) != NIL ==> LiveNext(s, i) in s.key && k < s.key[LiveNext(s, i)])
  }

  /** A slot is put before the first one of a leaf, or the first one is taken out and others stay. */
  ghost predicate MoveStep(s: Level, t: Level, i: nat, k: int) {
    CanMove(s, i, k) && t == s.(key := s.key[s.chain[i] := k])
  }

  /** sl_link_one_level. */
  ghost predicate LinkStep(s: Level, t: Level, i: nat, n: int, k: int) {
    CanLink(s, i, n, k) && t == Linked(s, i, n, k)
  }

  /** skiplist_delete marks an emptied leaf dead; its own pointers stay as they are. */
  ghost predicate MarkStep(s: Level, t: Level, d: int) {
    d in s.key && d != HEAD && d !in s.dead && t == Marked(s, d)
  }

  /** erase_one_level on a dead node, whether or not it is still reachable. */
  ghost predicate EraseStep(s: Level, t: Level, d: int, i: nat) {
    Inv(s) && d in s.dead && i < |s.chain| && s.chain[i] == LivePrev(s, d) && t == Unlinked(s, i)
  }

  // ---- every step keeps the invariant

  /** The chain with the positions between i and j replaced by `mid`. */
  function Cut(c: seq<int>, i: nat, j: nat, mid: seq<int>): (r: seq<int>)
    requires i < j <= |c|
    ensures |r| == i + 1 + |mid| + |c| - j
    ensures forall m :: 0 <= m < |r| ==>
      r[m] == if m <= i then c[m] else if m < i + 1 + |mid| then mid[m - i - 1] else c[m - |mid| - i - 1 + j]
  {
    c[..i + 1] + mid + c[j..]
  }

  lemma ForwardLinked(c: seq<int>, next: map<int, int>, i: nat, j: nat, n: int)
    requires Distinct(c) && i < j <= |c| && n !in c && Forward(c, next)
    ensures Forward(Cut(c, i, j, [n]), next[n := PosOrNil(c, j)][c[i] := n])
  {
  }

  lemma BackwardLinked(c: seq<int>, prev: map<int, int>, i: nat, j: nat, n: int)
    requires Distinct(c) && i < j <= |c| && n !in c && Backward(c, prev)
    ensures Backward(Cut(c, i, j, [n]), prev[n := c[i]][if j < |c| then c[j] else c[0] := n])
  {
  }

  lemma ForwardUnlinked(c: seq<int>, next: map<int, int>, i: nat, j: nat)
    requires Distinct(c) && i < j <= |c| && Forward(c, next)
    ensures Forward(Cut(c, i, j, []), next[c[i] := PosOrNil(c, j)])
  {
  }

  lemma BackwardUnlinked(c: seq<int>, prev: map<int, int>, i: nat, j: nat)
    requires Distinct(c) && i < j <= |c| && Backward(c, prev)
    ensures Backward(Cut(c, i, j, []), prev[if j < |c| then c[j] else c[0] := if j < |c| || i > 0 then c[i] else NIL])
  {
  }

  lemma ChainDistinct(s: Level)
    requires Known(s) && Sorted(s)
    ensures Distinct(s.chain)
  {
  }

  lemma LiveAfterBounds(c: seq<int>, dead: set<int>, i: nat)
    requires i < |c|
    ensures i < LiveAfter(c, dead, i) <= |c|
  {
  }

  lemma LinkedSorted(s: Level, i: nat, n: int, k: int)
    requires Known(s) && Sorted(s) && CanLink(s, i, n, k)
    ensures Known(Linked(s, i, n, k)) && Sorted(Linked(s, i, n, k))
  {
    var j := LiveAfter(s.chain, s.dead, i);
    var t, c := Linked(s, i, n, k), Cut(s.chain, i, j, [n]);
    assert t.chain == c;
    LinkedKnown(s, i, n, k);
    forall a, b | 0 <= a < b < |c| ensures t.rank[c[a]] < t.rank[c[b]] {
    }
  }

  lemma LinkedKnown(s: Level, i: nat, n: int, k: int)
    requires Known(s) && CanLink(s, i, n, k)
    ensures Known(Linked(s, i, n, k))
  {
  }

  lemma LinkKeepsShape(s: Level, i: nat, n: int, k: int)
    requires Known(s) && Sorted(s) && Pointers(s) && CanLink(s, i, n, k)
    ensures Known(Linked(s, i, n, k)) && Sorted(Linked(s, i, n, k)) && Pointers(Linked(s, i, n, k))
  {
    hide LiveAfter;
    var j := LiveAfter(s.chain, s.dead, i);
    LiveAfterBounds(s.chain, s.dead, i);
    var t := Linked(s, i, n, k);
    assert t.chain == Cut(s.chain, i, j, [n]);
    ChainDistinct(s);
    ForwardLinked(s.chain, s.next, i, j, n);
    BackwardLinked(s.chain, s.prev, i, j, n);
    LinkedSorted(s, i, n, k);
  }

  lemma UnlinkedKnown(s: Level, i: nat)
    requires Known(s) && i < |s.chain|
    ensures Known(Unlinked(s, i))
  {
  }

  lemma CutSorted(s: Level, i: nat, j: nat, t: Level)
    requires Known(s) && Sorted(s) && i < j <= |s.chain| && Known(t) && t.rank == s.rank
      && t.chain == Cut(s.chain, i, j, [])
    ensures Sorted(t)
  {
  }

  lemma UnlinkKeepsShape(s: Level, i: nat)
    requires Known(s) && Sorted(s) && Pointers(s) && i < |s.chain|
    ensures Known(Unlinked(s, i)) && Sorted(Unlinked(s, i)) && Pointers(Unlinked(s, i))
  {
    hide LiveAfter, Known, Sorted, Distinct, Forward, Backward;
    var j := LiveAfter(s.chain, s.dead, i);
    LiveAfterBounds(s.chain, s.dead, i);
    ChainDistinct(s);
    ForwardUnlinked(s.chain, s.next, i, j);
    BackwardUnlinked(s.chain, s.prev, i, j);
    UnlinkedKnown(s, i);
    HeadFirst(s, i);
    NotNil(s, j);
    CutSorted(s, i, j, Unlinked(s, i));
  }

  lemma NotNil(s: Level, j: nat)
    requires Known(s)
    ensures j < |s.chain| ==> s.chain[j] != NIL
  {
  }

  lemma StepsRight(s: Level, j: nat)
    requires Inv(s)
    ensures forall m {:trigger s.chain[m]} :: 0 <= m < |s.chain| ==> s.chain[m] != NIL
    ensures j < |s.chain| ==> s.chain[j] in s.next && s.next[s.chain[j]] == PosOrNil(s.chain, j + 1)
  {
  }

  lemma HeadFirst(s: Level, i: nat)
    requires Known(s) && Sorted(s) && Pointers(s) && i < |s.chain|
    ensures s.chain[i] == HEAD <==> i == 0
  {
  }

  /** No live node is lost by cutting out the dead ones after position i. */
  lemma CutKeepsLive(s: Level, i: nat, mid: seq<int>, x: int)
    requires i < |s.chain| && x in s.chain && x !in s.dead
    ensures x in Cut(s.chain, i, LiveAfter(s.chain, s.dead, i), mid)
  {
  }

  lemma CutOrder(c: seq<int>, dead: set<int>, key: map<int, int>, i: nat, j: nat)
    requires LiveOrder(c, dead, key) && i < j <= |c|
    ensures LiveOrder(Cut(c, i, j, []), dead, key)
  {
  }

  lemma OrderWith(c: seq<int>, dead: set<int>, key: map<int, int>, i: nat, j: nat, n: int, k: int)
    requires LiveOrder(c, dead, key) && i < j <= |c| && n !in c && n !in dead
    requires c[i] !in dead && (forall m :: i < m < j ==> c[m] in dead) && (j < |c| ==> c[j] !in dead)
    requires c[i] in key && key[c[i]] < k && (j < |c| ==> c[j] in key && k < key[c[j]])
    ensures LiveOrder(Cut(c, i, j, [n]), dead, key[n := k])
  {
    var d, t := Cut(c, i, j, [n]), key[n := k];
    forall a, b | 0 <= a < b < |d| && d[a] !in dead && d[b] !in dead
      ensures d[a] in t && d[b] in t && t[d[a]] < t[d[b]]
    {
      var x, y := if a <= i then a else a - i - 2 + j, if b <= i then b else b - i - 2 + j;
      assert a != i + 1 ==> d[a] == c[x];
      assert b != i + 1 ==> d[b] == c[y];
      assert a < i ==> key[c[a]] < key[c[i]];
      assert b > i + 2 ==> key[c[j]] < key[c[y]];
    }
  }

  lemma LinkedLive(s: Level, i: nat, n: int, k: int)
    requires Inv(s) && CanLink(s, i, n, k)
    ensures var t := Linked(s, i, n, k);
      LiveOrder(t.chain, t.dead, t.key) && forall x {:trigger x in t.dead} :: x in t.key && x !in t.dead ==>
        x in t.chain
  {
    hide LiveOrder, Sorted, Pointers, PointsBack;
    var j := LiveAfter(s.chain, s.dead, i);
    var t := Linked(s, i, n, k);
    assert t.chain == Cut(s.chain, i, j, [n]);
    NotNil(s, j);
    OrderWith(s.chain, s.dead, s.key, i, j, n, k);
    forall x | x in t.key && x !in t.dead ensures x in t.chain {
      if x == n {
        assert t.chain[i + 1] == n;
      } else {
        CutKeepsLive(s, i, [n], x);
      }
    }
  }

  lemma RankBetween(s: Level, i: nat)
    requires Known(s) && Sorted(s) && i < |s.chain|
    ensures s.chain[i] in s.rank && s.rank[s.chain[i]] < RankAfter(s, i)
    ensures LiveNext(s, i) != NIL ==> LiveNext(s, i) in s.rank && RankAfter(s, i) < s.rank[LiveNext(s, i)]
  {
  }

  /** Only the next live node's prev, and the head's, change; both still point to something earlier. */
  lemma RankedStore(prev: map<int, int>, rank: map<int, real>, n: int, p: int, x: int, r: real, y: int)
    requires p in rank && rank[p] < r && n !in rank && (x != NIL ==> x in rank && r < rank[x])
    requires y != HEAD && (y == n || (y in rank && y in prev && prev[y] in rank && rank[prev[y]] < rank[y]))
    ensures var prev2, rank2 := prev[n := p][if x != NIL then x else HEAD := n], rank[n := r];
      y in prev2 && y in rank2 && prev2[y] in rank2 && rank2[prev2[y]] < rank2[y]
  {
  }

  lemma LinkedPointsBack(s: Level, i: nat, n: int, k: int, x: int)
    requires Inv(s) && CanLink(s, i, n, k) && Known(Linked(s, i, n, k)) && x in Linked(s, i, n, k).key && x != HEAD
    ensures PointsBack(Linked(s, i, n, k), x)
  {
    hide LiveOrder, LiveAfter, RankAfter, Sorted, Pointers;
    RankBetween(s, i);
    assert x in s.key ==> PointsBack(s, x);
    RankedStore(s.prev, s.rank, n, s.chain[i], LiveNext(s, i), RankAfter(s, i), x);
  }

  lemma LinkKeepsInv(s: Level, i: nat, n: int, k: int)
    requires Inv(s) && CanLink(s, i, n, k)
    ensures Inv(Linked(s, i, n, k))
  {
    LinkKeepsShape(s, i, n, k);
    LinkedLive(s, i, n, k);
    hide LiveOrder, LiveAfter, Sorted, Pointers, PointsBack;
    var t := Linked(s, i, n, k);
    forall x | x in t.key && x != HEAD ensures PointsBack(t, x) {
      LinkedPointsBack(s, i, n, k, x);
    }
  }

  lemma UnlinkedPointsBack(s: Level, i: nat, x: int)
    requires Inv(s) && i < |s.chain| && Known(Unlinked(s, i)) && x in s.key && x != HEAD
    ensures PointsBack(Unlinked(s, i), x)
  {
    hide LiveOrder, LiveAfter;
    LiveAfterBounds(s.chain, s.dead, i);
    assert PointsBack(s, x);
  }

  lemma UnlinkedLive(s: Level, i: nat)
    requires Inv(s) && i < |s.chain|
    ensures var t := Unlinked(s, i);
      LiveOrder(t.chain, t.dead, t.key) && forall x {:trigger x in t.dead} :: x in t.key && x !in t.dead ==>
        x in t.chain
  {
    hide LiveOrder, LiveAfter, Sorted, Pointers, PointsBack;
    var t := Unlinked(s, i);
    LiveAfterBounds(s.chain, s.dead, i);
    CutOrder(s.chain, s.dead, s.key, i, LiveAfter(s.chain, s.dead, i));
    assert t.chain == Cut(s.chain, i, LiveAfter(s.chain, s.dead, i), []);
    forall x | x in t.key && x !in t.dead ensures x in t.chain {
      CutKeepsLive(s, i, [], x);
    }
  }

  lemma UnlinkKeepsInv(s: Level, i: nat)
    requires Inv(s) && i < |s.chain| && s.chain[i] !in s.dead
    ensures Inv(Unlinked(s, i))
  {
    UnlinkKeepsShape(s, i);
    UnlinkedLive(s, i);
    hide LiveOrder, LiveAfter, Sorted, Pointers, PointsBack, Forward, Backward;
    var t := Unlinked(s, i);
    forall x | x in t.key && x != HEAD ensures PointsBack(t, x) {
      UnlinkedPointsBack(s, i, x);
    }
  }

  lemma MarkKeepsInv(s: Level, d: int)
    requires Inv(s) && d in s.key && d != HEAD && d !in s.dead
    ensures Inv(Marked(s, d))
  {
    var t := Marked(s, d);
    forall x | x in t.key && x != HEAD ensures PointsBack(t, x) {
      assert PointsBack(s, x);
    }
  }

  lemma MovedOrder(s: Level, i: nat, w: nat, j: nat, k: int)
    requires Distinct(s.chain) && LiveOrder(s.chain, s.dead, s.key) && w < i < j <= |s.chain|
    requires s.chain[w] !in s.dead && (forall m :: w < m < i ==> s.chain[m] in s.dead)
    requires s.chain[i] !in s.dead && (forall m :: i < m < j ==> s.chain[m] in s.dead)
    requires j < |s.chain| ==> s.chain[j] !in s.dead
    requires s.chain[w] in s.key && s.key[s.chain[w]] < k
    requires j < |s.chain| ==> s.chain[j] in s.key && k < s.key[s.chain[j]]
    ensures LiveOrder(s.chain, s.dead, s.key[s.chain[i] := k])
  {
    var c := s.chain;
    forall a, b | 0 <= a < b < |c| && c[a] !in s.dead && c[b] !in s.dead
      ensures (a == i || (c[a] in s.key && c[a] != c[i])) && (b == i || (c[b] in s.key && c[b] != c[i]))
      ensures (if a == i then k else s.key[c[a]]) < if b == i then k else s.key[c[b]]
    {
      assert b == i ==> a <= w;
      assert a == i ==> b >= j;
    }
  }

  lemma RekeyedKnown(s: Level, x: int, k: int)
    requires Known(s) && Sorted(s) && x in s.key
    ensures Known(s.(key := s.key[x := k])) && Sorted(s.(key := s.key[x := k]))
    ensures forall y :: y in s.key && PointsBack(s, y) ==> PointsBack(s.(key := s.key[x := k]), y)
  {
  }

  lemma MovedLive(s: Level, i: nat, k: int)
    requires CanMove(s, i, k)
    ensures LiveOrder(s.chain, s.dead, s.key[s.chain[i] := k])
  {
    var w := LivePrevInChain(s, i);
    hide LiveOrder, Sorted, Pointers, PointsBack;
    var j := LiveAfter(s.chain, s.dead, i);
    NotNil(s, j);
    ChainDistinct(s);
    MovedOrder(s, i, w, j, k);
  }

  lemma MoveKeepsInv(s: Level, i: nat, k: int)
    requires CanMove(s, i, k)
    ensures Inv(s.(key := s.key[s.chain[i] := k]))
  {
    MovedLive(s, i, k);
    RekeyedKnown(s, s.chain[i], k);
    hide LiveOrder, Sorted, PointsBack, LivePrev, LiveNext;
    var t := s.(key := s.key[s.chain[i] := k]);
    forall x | x in t.key && x != HEAD ensures PointsBack(t, x) {
      assert PointsBack(s, x);
    }
  }

  // ---- what the invariant says about the live nodes

  lemma PrevInChain(s: Level, i: nat)
    requires Inv(s) && 0 < i < |s.chain|
    ensures s.chain[i] in s.key && s.chain[i] != HEAD && s.chain[i - 1] in s.key
    ensures s.chain[i] in s.prev && s.prev[s.chain[i]] == s.chain[i - 1]
    ensures LivePrev(s, s.chain[i]) == if s.chain[i - 1] in s.dead then LivePrev(s, s.chain[i - 1]) else s.chain[i - 1]
  {
  }

  /** A dead node in the chain has as live predecessor the nearest live node before it. */
  lemma {:induction false} LivePrevInChain(s: Level, i: nat) returns (j: nat)
    requires Inv(s) && 0 < i < |s.chain|
    ensures s.chain[i] in s.key && s.chain[i] != HEAD
    ensures j < i && s.chain[j] == LivePrev(s, s.chain[i]) && s.chain[j] !in s.dead
    ensures forall m :: j < m < i ==> s.chain[m] in s.dead
    decreases i
  {
    hide Inv, LivePrev, Known, Sorted;
    InvShape(s);
    PrevInChain(s, i);
    if s.chain[i - 1] !in s.dead {
      j := i - 1;
    } else {
      j := LivePrevInChain(s, i - 1);
    }
  }

  /** On live nodes find_live_next and find_live_prev are inverse to each other, and both keep key order. */
  lemma LiveNeighboursInverse(s: Level, i: nat)
    requires Inv(s) && i < |s.chain| && s.chain[i] !in s.dead && LiveNext(s, i) != NIL
    ensures LiveNext(s, i) in s.key && LiveNext(s, i) != HEAD && LiveNext(s, i) !in s.dead
    ensures LivePrev(s, LiveNext(s, i)) == s.chain[i] && s.chain[i] in s.key
    ensures s.key[s.chain[i]] < s.key[LiveNext(s, i)]
  {
    var j := LiveAfter(s.chain, s.dead, i);
    HeadFirst(s, j);
    var m := LivePrevInChain(s, j);
    assert m == i;
  }

  /** After an unlink nothing dead stands right after its live predecessor, and the erased node is gone. */
  lemma ErasedIsUnreachable(s: Level, t: Level, d: int, i: nat)
    requires EraseStep(s, t, d, i)
    ensures d !in t.chain && d in t.dead
  {
    hide Inv, Known, Sorted, LiveAfter;
    var j := LiveAfter(s.chain, s.dead, i);
    LiveAfterBounds(s.chain, s.dead, i);
    assert t.chain == Cut(s.chain, i, j, []);
    InvShape(s);
    ChainDistinct(s);
    if d in s.chain {
      var m :| 0 <= m < |s.chain| && s.chain[m] == d;
      assert m != 0;
      var w := LivePrevInChain(s, m);
      SamePlace(s, w, i);
      BetweenLive(s, i, m);
      DroppedNode(s.chain, i, j, m);
    } else if d in t.chain {
      CutMembers(s.chain, i, j, d);
    }
  }

  lemma InvShape(s: Level)
    requires Inv(s)
    ensures Known(s) && Sorted(s) && |s.chain| > 0 && s.chain[0] == HEAD && HEAD !in s.dead
  {
  }

  lemma BetweenLive(s: Level, i: nat, m: nat)
    requires i < m < |s.chain| && forall c :: i < c <= m ==> s.chain[c] in s.dead
    ensures m < LiveAfter(s.chain, s.dead, i)
  {
  }

  lemma DroppedNode(c: seq<int>, i: nat, j: nat, m: nat)
    requires Distinct(c) && i < m < j <= |c|
    ensures c[m] !in Cut(c, i, j, [])
  {
  }

  lemma CutMembers(c: seq<int>, i: nat, j: nat, d: int)
    requires i < j <= |c| && d in Cut(c, i, j, [])
    ensures d in c
  {
  }

  lemma SamePlace(s: Level, a: nat, b: nat)
    requires Distinct(s.chain) && a < |s.chain| && b < |s.chain| && s.chain[a] == s.chain[b]
    ensures a == b
  {
  }

  /** The last pointer cached in the head leads to the last live node: it is that node, or its live predecessor is. */
  lemma CachedLastIsLive(s: Level) returns (j: nat)
    requires Inv(s) && |s.chain| > 1
    ensures s.prev[HEAD] in s.key && s.prev[HEAD] != HEAD
    ensures j < |s.chain| && s.chain[j] !in s.dead && (forall m :: j < m < |s.chain| ==> s.chain[m] in s.dead)
    ensures s.chain[j] == if s.prev[HEAD] !in s.dead then s.prev[HEAD] else LivePrev(s, s.prev[HEAD])
  {
    var last := |s.chain| - 1;
    assert s.prev[s.chain[0]] == s.chain[last];
    HeadFirst(s, last);
    if s.chain[last] !in s.dead {
      j := last;
    } else {
      j := LivePrevInChain(s, last);
    }
  }

  // ---- what each step does to the live nodes

  /** The live nodes of a chain in order, head included. */
  function LiveOf(c: seq<int>, dead: set<int>): seq<int> {
    if c == [] then [] else (if c[0] in dead then [] else [c[0]]) + LiveOf(c[1..], dead)
  }

  lemma {:induction false} LiveConcat(a: seq<int>, b: seq<int>, dead: set<int>)
    ensures LiveOf(a + b, dead) == LiveOf(a, dead) + LiveOf(b, dead)
  {
    if a == [] {
      assert a + b == b;
    } else {
      assert (a + b)[1..] == a[1..] + b;
      LiveConcat(a[1..], b, dead);
    }
  }

  lemma {:induction false} LiveNone(c: seq<int>, dead: set<int>)
    requires forall m :: 0 <= m < |c| ==> c[m] in dead
    ensures LiveOf(c, dead) == []
  {
    if c != [] {
      LiveNone(c[1..], dead);
    }
  }

  /** The dead nodes between a node and the next live one do not count. */
  lemma LiveAround(c: seq<int>, dead: set<int>, i: nat)
    requires i < |c|
    ensures i < LiveAfter(c, dead, i) <= |c|
    ensures LiveOf(c[i + 1..], dead) == LiveOf(c[LiveAfter(c, dead, i)..], dead)
    ensures LiveOf(c, dead) == LiveOf(c[..i + 1], dead) + LiveOf(c[i + 1..], dead)
  {
    var j := LiveAfter(c, dead, i);
    assert c == c[..i + 1] + c[i + 1..] && c[i + 1..] == c[i + 1..j] + c[j..];
    LiveConcat(c[..i + 1], c[i + 1..], dead);
    LiveConcat(c[i + 1..j], c[j..], dead);
    LiveNone(c[i + 1..j], dead);
    hide LiveOf;
  }

  /** A link puts the node, with its least key, between its live predecessor and the next live node, and no other. */
  lemma {:induction false} LinkAddsLive(s: Level, t: Level, i: nat, n: int, k: int)
    requires Inv(s) && LinkStep(s, t, i, n, k)
    ensures LiveOf(s.chain, s.dead) == LiveOf(s.chain[..i + 1], s.dead) + LiveOf(s.chain[i + 1..], s.dead)
    ensures LiveOf(t.chain, t.dead) == LiveOf(s.chain[..i + 1], s.dead) + [n] + LiveOf(s.chain[i + 1..], s.dead)
    ensures n in t.key && n !in t.dead && t.dead == s.dead && t.key == s.key[n := k]
    ensures i + 1 < |t.chain| && t.chain[i] == s.chain[i] && t.chain[i + 1] == n
    ensures LiveNext(t, i) == n && LiveNext(t, i + 1) == LiveNext(s, i)
  {
    hide Inv, Sorted, Pointers, LiveOrder, LiveOf, LiveAfter;
    InvShape(s);
    LiveAround(s.chain, s.dead, i);
    var c, j := s.chain, LiveAfter(s.chain, s.dead, i);
    LiveConcat(c[..i + 1] + [n], c[j..], s.dead);
    LiveConcat(c[..i + 1], [n], s.dead);
    OneLive(n, s.dead);
    NextIsLive(t.chain, t.dead, i);
    LinkedNext(c, s.dead, i, n);
  }

  lemma OneLive(n: int, dead: set<int>)
    ensures LiveOf([n], dead) == if n in dead then [] else [n]
  {
    assert [n][1..] == [];
  }

  lemma NextIsLive(c: seq<int>, dead: set<int>, i: nat)
    requires i + 1 < |c| && c[i + 1] !in dead
    ensures LiveAfter(c, dead, i) == i + 1
  {
  }

  lemma LinkedNext(c: seq<int>, dead: set<int>, i: nat, n: int)
    requires i < |c|
    ensures var j := LiveAfter(c, dead, i); var d := c[..i + 1] + [n] + c[j..];
      PosOrNil(d, LiveAfter(d, dead, i + 1)) == PosOrNil(c, j)
  {
    var j := LiveAfter(c, dead, i);
    var d := c[..i + 1] + [n] + c[j..];
    assert j < |c| ==> d[i + 2] == c[j];
  }

  /** Marking takes exactly the one node out of the live ones. */
  lemma {:induction false} MarkDropsLive(s: Level, t: Level, d: int) returns (a: seq<int>, b: seq<int>)
    requires Inv(s) && MarkStep(s, t, d)
    ensures LiveOf(s.chain, s.dead) == a + [d] + b && LiveOf(t.chain, t.dead) == a + b && d !in a + b
    ensures t.dead == s.dead + {d} && t.key == s.key
  {
    InvShape(s);
    ChainDistinct(s);
    LiveInChain(s, d);
    var i :| 0 <= i < |s.chain| && s.chain[i] == d;
    a, b := LiveOf(s.chain[..i], s.dead), LiveOf(s.chain[i + 1..], s.dead);
    MarkedSplit(s.chain, s.dead, i);
    hide Inv, Known, Sorted, LiveOf;
  }

  lemma LiveInChain(s: Level, d: int)
    requires Inv(s) && d in s.key && d !in s.dead
    ensures d in s.chain
  {
  }

  lemma MarkedSplit(c: seq<int>, dead: set<int>, i: nat)
    requires Distinct(c) && i < |c| && c[i] !in dead
    ensures var a, b := LiveOf(c[..i], dead), LiveOf(c[i + 1..], dead);
      && LiveOf(c, dead) == a + [c[i]] + b && LiveOf(c, dead + {c[i]}) == a + b && c[i] !in a + b
  {
    hide LiveOf;
    var l, d, r := c[..i], c[i], c[i + 1..];
    assert c == l + [d] + r;
    LiveMiddle(l, d, r, dead);
    LiveMiddle(l, d, r, dead + {d});
    Elsewhere(c, i);
    LiveWithout(l, dead, d);
    LiveWithout(r, dead, d);
  }

  lemma LiveMiddle(l: seq<int>, d: int, r: seq<int>, dead: set<int>)
    ensures LiveOf(l + [d] + r, dead) == LiveOf(l, dead) + (if d in dead then [] else [d]) + LiveOf(r, dead)
  {
    LiveConcat(l + [d], r, dead);
    LiveConcat(l, [d], dead);
    OneLive(d, dead);
    hide LiveOf;
  }

  lemma Elsewhere(c: seq<int>, i: nat)
    requires Distinct(c) && i < |c|
    ensures c[i] !in c[..i] && c[i] !in c[i + 1..]
  {
  }

  lemma {:induction false} LiveWithout(c: seq<int>, dead: set<int>, d: int)
    requires d !in c
    ensures LiveOf(c, dead + {d}) == LiveOf(c, dead) && d !in LiveOf(c, dead)
  {
    if c != [] {
      LiveWithout(c[1..], dead, d);
    }
  }

  /** Erasing takes no live node out. */
  lemma {:induction false} EraseKeepsLive(s: Level, t: Level, d: int, i: nat)
    requires EraseStep(s, t, d, i)
    ensures LiveOf(t.chain, t.dead) == LiveOf(s.chain, s.dead) && t.dead == s.dead && t.key == s.key
  {
    hide Inv, LiveOf, LiveAfter;
    LiveAround(s.chain, s.dead, i);
    var c, j := s.chain, LiveAfter(s.chain, s.dead, i);
    assert t.chain == c[..i + 1] + c[j..];
    LiveConcat(c[..i + 1], c[j..], s.dead);
  }

  /** Moving a least key changes that one key and nothing else. */
  lemma MoveKeepsLive(s: Level, t: Level, i: nat, k: int)
    requires MoveStep(s, t, i, k)
    ensures LiveOf(t.chain, t.dead) == LiveOf(s.chain, s.dead) && t.next == s.next && t.prev == s.prev
    ensures s.chain[i] in t.key && t.key[s.chain[i]] == k && t.key.Keys == s.key.Keys
    ensures forall x :: x in s.key && x != s.chain[i] ==> t.key[x] == s.key[x]
  {
    hide Inv, LiveOf;
  }

  // ---- runs

  ghost predicate Step(s: Level, t: Level) {
    || (exists i: nat, n, k :: LinkStep(s, t, i, n, k))
    || (exists d :: MarkStep(s, t, d))
    || (exists d, i: nat :: EraseStep(s, t, d, i))
    || (exists i: nat, k :: MoveStep(s, t, i, k))
  }

  lemma LinkFreezes(s: Level, i: nat, n: int, k: int, x: int)
    requires Inv(s) && CanLink(s, i, n, k) && x in s.dead
    ensures x in s.key && x in Linked(s, i, n, k).next && x in Linked(s, i, n, k).prev
    ensures Linked(s, i, n, k).next[x] == s.next[x] && Linked(s, i, n, k).prev[x] == s.prev[x]
  {
  }

  lemma UnlinkFreezes(s: Level, i: nat, x: int)
    requires Inv(s) && i < |s.chain| && s.chain[i] !in s.dead && x in s.dead
    ensures x in s.key && x in Unlinked(s, i).next && x in Unlinked(s, i).prev
    ensures Unlinked(s, i).next[x] == s.next[x] && Unlinked(s, i).prev[x] == s.prev[x]
  {
  }

  /** The pointers of a dead node stay as they were when it died. */
  lemma DeadPointersFrozen(s: Level, t: Level, x: int)
    requires Inv(s) && Step(s, t) && x in s.dead
    ensures x in t.dead && x in s.next && x in s.prev && x in t.next && x in t.prev
    ensures t.next[x] == s.next[x] && t.prev[x] == s.prev[x]
  {
    hide CanLink, LiveAfter, Sorted, Pointers;
    if exists i: nat, n, k :: LinkStep(s, t, i, n, k) {
      var i: nat, n, k :| LinkStep(s, t, i, n, k);
      LinkFreezes(s, i, n, k, x);
    } else if exists d :: MarkStep(s, t, d) {
      var d :| MarkStep(s, t, d);
    } else if exists d, i: nat :: EraseStep(s, t, d, i) {
      var d, i: nat :| EraseStep(s, t, d, i);
      UnlinkFreezes(s, i, x);
    }
  }

  function EmptyLevel(): Level {
    Level(map[HEAD := NIL], map[HEAD := NIL], {}, map[HEAD := -1], map[HEAD := 0.0], [HEAD])
  }

  ghost predicate Run(states: seq<Level>) {
    && |states| > 0 && states[0] == EmptyLevel()
    && forall i :: 0 <= i < |states| - 1 ==> Step(states[i], states[i + 1])
  }

  lemma StepKeepsInv(s: Level, t: Level)
    requires Inv(s) && Step(s, t)
    ensures Inv(t)
  {
    hide Inv, CanLink, Linked, Unlinked, Marked;
    if exists i: nat, n, k :: LinkStep(s, t, i, n, k) {
      var i: nat, n, k :| LinkStep(s, t, i, n, k);
      LinkKeepsInv(s, i, n, k);
    } else if exists d :: MarkStep(s, t, d) {
      var d :| MarkStep(s, t, d);
      MarkKeepsInv(s, d);
    } else if exists d, i: nat :: EraseStep(s, t, d, i) {
      var d, i: nat :| EraseStep(s, t, d, i);
      UnlinkKeepsInv(s, i);
    } else {
      var i: nat, k :| MoveStep(s, t, i, k);
      MoveKeepsInv(s, i, k);
    }
  }

  /** Whatever order the steps come in, the live nodes stay in key order and correctly linked. */
  lemma {:induction false} RunKeepsInv(states: seq<Level>, n: nat)
    requires Run(states) && n < |states|
    ensures Inv(states[n])
  {
    hide Inv;
    if n == 0 {
      EmptyInv();
    } else {
      RunKeepsInv(states, n - 1);
      StepKeepsInv(states[n - 1], states[n]);
    }
  }

  ghost predicate Links(s: Level, t: Level, x: int) {
    exists i: nat, k :: LinkStep(s, t, i, x, k)
  }

  ghost predicate LinksAt(states: seq<Level>, m: nat, x: int)
    requires m + 1 < |states|
  {
    Links(states[m], states[m + 1], x)
  }

  ghost predicate MarksAt(states: seq<Level>, m: nat, x: int)
    requires m + 1 < |states|
  {
    MarkStep(states[m], states[m + 1], x)
  }

  ghost predicate WasLinked(states: seq<Level>, n: nat, x: int)
    requires n < |states|
  {
    exists m: nat :: m < n && LinksAt(states, m, x)
  }

  ghost predicate WasMarked(states: seq<Level>, n: nat, x: int)
    requires n < |states|
  {
    exists m: nat :: m < n && MarksAt(states, m, x)
  }

  lemma StepKnows(s: Level, t: Level, x: int)
    requires Inv(s) && Step(s, t)
    ensures x in t.key <==> x in s.key || Links(s, t, x)
    ensures x in t.dead <==> x in s.dead || MarkStep(s, t, x)
  {
    hide Inv, Known, LiveAfter, LiveNext, RankAfter, CanMove;
    InvShape(s);
    InvKnows(s);
    if exists i: nat, n, k :: LinkStep(s, t, i, n, k) {
      var i: nat, n, k :| LinkStep(s, t, i, n, k);
      assert t.key == s.key[n := k] && t.dead == s.dead;
    } else if exists d :: MarkStep(s, t, d) {
      var d :| MarkStep(s, t, d);
    } else if exists d, i: nat :: EraseStep(s, t, d, i) {
      var d, i: nat :| EraseStep(s, t, d, i);
    } else {
      var i: nat, k :| MoveStep(s, t, i, k);
      MovedIsKnown(s, i, k);
    }
  }

  lemma MovedIsKnown(s: Level, i: nat, k: int)
    requires CanMove(s, i, k)
    ensures s.chain[i] in s.key
  {
  }

  lemma InvKnows(s: Level)
    requires Inv(s)
    ensures forall x {:trigger x in s.chain} :: x in s.chain ==> x in s.key
    ensures forall x {:trigger x in s.dead} :: x in s.dead ==> x in s.key
  {
  }

  lemma {:induction false} RunKnows(states: seq<Level>, n: nat, x: int)
    requires Run(states) && n < |states| && x != HEAD
    ensures x in states[n].key <==> WasLinked(states, n, x)
    ensures x in states[n].dead <==> WasMarked(states, n, x)
  {
    if n > 0 {
      RunKnows(states, n - 1, x);
      RunKeepsInv(states, n - 1);
      StepKnows(states[n - 1], states[n], x);
      WasEarlier(states, n, x);
    }
    hide Inv, Step, LinkStep, MarkStep;
  }

  lemma WasEarlier(states: seq<Level>, n: nat, x: int)
    requires 0 < n < |states|
    ensures WasLinked(states, n, x) <==> WasLinked(states, n - 1, x) || LinksAt(states, n - 1, x)
    ensures WasMarked(states, n, x) <==> WasMarked(states, n - 1, x) || MarksAt(states, n - 1, x)
  {
    if WasLinked(states, n, x) {
      var m: nat :| m < n && LinksAt(states, m, x);
    }
    if WasMarked(states, n, x) {
      var m: nat :| m < n && MarksAt(states, m, x);
    }
    hide LinkStep, MarkStep, Step;
  }

  lemma {:induction false} LiveIffIn(c: seq<int>, dead: set<int>, x: int)
    ensures x in LiveOf(c, dead) <==> x in c && x !in dead
  {
    if c != [] {
      LiveIffIn(c[1..], dead, x);
    }
  }

  /** After any run, a node is live on the level exactly when it has been linked and not been marked dead. */
  lemma {:induction false} LiveAfterRun(states: seq<Level>, n: nat, x: int)
    requires Run(states) && n < |states| && x != HEAD
    ensures x in LiveOf(states[n].chain, states[n].dead) <==> WasLinked(states, n, x) && !WasMarked(states, n, x)
  {
    RunKeepsInv(states, n);
    RunKnows(states, n, x);
    LiveIffIn(states[n].chain, states[n].dead, x);
    InvKnows(states[n]);
    if x in states[n].key && x !in states[n].dead {
      LiveInChain(states[n], x);
    }
    hide Inv, Run, WasLinked, WasMarked, LiveOf;
  }

  lemma EmptyInv()
    ensures Inv(EmptyLevel())
  {
  }

  lemma LinkedMembers(s: Level, i: nat, n: int, k: int, d: int)
    requires i < |s.chain| && d in Linked(s, i, n, k).chain
    ensures d in s.chain || d == n
  {
  }

  lemma UnlinkedMembers(s: Level, i: nat, d: int)
    requires i < |s.chain| && d in Unlinked(s, i).chain
    ensures d in s.chain
  {
  }

  /** A dead node outside the chain never gets back in. */
  lemma StaysOut(s: Level, t: Level, d: int)
    requires Inv(s) && Step(s, t) && d in s.dead && d !in s.chain
    ensures d in t.dead && d !in t.chain
  {
    hide LiveAfter, Sorted, Pointers;
    if d in t.chain {
      if exists i: nat, n, k :: LinkStep(s, t, i, n, k) {
        var i: nat, n, k :| LinkStep(s, t, i, n, k);
        LinkedMembers(s, i, n, k, d);
      } else if exists x, i: nat :: EraseStep(s, t, x, i) {
        var x, i: nat :| EraseStep(s, t, x, i);
        UnlinkedMembers(s, i, d);
      }
    }
  }

  /** Once erased, a node is unreachable in every later state of the run. */
  lemma {:induction false} ErasedForever(states: seq<Level>, m: nat, n: nat, d: int, i: nat)
    requires Run(states) && m < n < |states| && EraseStep(states[m], states[m + 1], d, i)
    ensures d in states[n].dead && d !in states[n].chain
    decreases n
  {
    hide Inv, EraseStep, Step;
    if n == m + 1 {
      ErasedIsUnreachable(states[m], states[n], d, i);
    } else {
      ErasedForever(states, m, n - 1, d, i);
      RunKeepsInv(states, n - 1);
      StaysOut(states[n - 1], states[n], d);
    }
  }

  /** What following next from the head j times reaches. */
  ghost function Follow(s: Level, j: nat): int {
    if j == 0 then HEAD
    else if Follow(s, j - 1) in s.next then s.next[Follow(s, j - 1)] else NIL
  }

  /** The chain is exactly what next reaches from the head. */
  lemma {:induction false} FollowIsChain(s: Level, j: nat)
    requires Inv(s)
    ensures Follow(s, j) == PosOrNil(s.chain, j)
  {
    if j > 0 {
      FollowIsChain(s, j - 1);
      if j - 1 < |s.chain| {
        assert s.chain[j - 1] in s.next;
      }
    }
  }
}
