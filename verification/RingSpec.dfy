/** The sequential skip list as a value: the sequence of nodes on each level, and the list's level. */
module RingSpec {
  import opened Rings
  import opened Sequences

  const SL_MAXLEVEL: nat := 32

  /** rings[i] is the ring of level i, head first. */
  datatype Levels = Levels(rings: seq<seq<Node>>, level: int)

  ghost predicate Sorted(a: seq<Node>) {
    forall j, k :: 1 <= j < k < |a| ==> a[j].key < a[k].key
  }

  /** The first position after the head whose key is not below `key`. */
  ghost function Place(a: seq<Node>, key: int): (p: nat)
    requires |a| > 0
    ensures 1 <= p <= |a|
    ensures p < |a| ==> a[p].key >= key
    ensures p > 1 ==> a[p - 1].key < key
  {
    if |a| == 1 || a[|a| - 1].key < key then |a| else Place(a[..|a| - 1], key)
  }

  lemma PlaceIs(a: seq<Node>, key: int, p: nat)
    requires Sorted(a) && 1 <= p <= |a|
    requires p > 1 ==> a[p - 1].key < key
    requires p < |a| ==> a[p].key >= key
    ensures Place(a, key) == p
  {
  }

  ghost predicate Has(a: seq<Node>, key: int)
    requires |a| > 0
  {
    var p := Place(a, key);
    p < |a| && a[p].key == key
  }

  lemma HasIs(a: seq<Node>, key: int)
    requires |a| > 0 && Sorted(a)
    ensures Has(a, key) <==> exists n :: n in a[1..] && n.key == key
  {
  }

  ghost predicate Headed(rings: seq<seq<Node>>) {
    && |rings| == SL_MAXLEVEL
    && (forall i {:trigger rings[i]} :: 0 <= i < SL_MAXLEVEL ==> |rings[i]| > 0)
    && (forall i {:trigger rings[i]} :: 0 <= i < SL_MAXLEVEL ==> rings[i][0] == rings[0][0])
  }

  /** A node is on every level up to its height; one list is a sublist of the one below. */
  ghost predicate Stacked(rings: seq<seq<Node>>) {
    && Headed(rings)
    && (forall i, n {:trigger n in rings[i]} :: 0 <= i < SL_MAXLEVEL && n in rings[i] ==>
      n in rings[0] && n.height >= i)
    && (forall i, n {:trigger n in rings[i]} :: 0 <= i < SL_MAXLEVEL && n in rings[0] && n.height >= i ==>
      n in rings[i])
    && (forall n :: n in rings[0] ==> n.height < SL_MAXLEVEL)
  }

  ghost predicate InOrder(rings: seq<seq<Node>>) {
    forall i {:trigger rings[i]} :: 0 <= i < |rings| ==> Sorted(rings[i]) && Distinct(rings[i])
  }

  /** Nothing above level t, and something on it unless it is -1. */
  ghost predicate IsTop(rings: seq<seq<Node>>, t: int) {
    && -1 <= t < |rings|
    && (t >= 0 ==> |rings[t]| > 1)
    && (forall i {:trigger rings[i]} :: t < i < |rings| ==> |rings[i]| == 1)
  }

  /** The level of a list freshly allocated is 0 though no level has a node yet. */
  ghost predicate LevelRight(s: Levels) {
    IsTop(s.rings, s.level) || (s.level == 0 && IsTop(s.rings, -1))
  }

  ghost predicate Good(s: Levels) {
    Stacked(s.rings) && InOrder(s.rings) && LevelRight(s)
  }

  /** Two rings in order with the same nodes and head are the same. */
  lemma PositionsAgree(a: seq<Node>, b: seq<Node>, j: nat) returns (k: nat)
    requires |a| > 0 && |b| > 0 && a[0] == b[0] && Distinct(a) && j < |a|
    requires forall n :: n in a ==> n in b
    ensures k < |b| && b[k] == a[j] && (k == 0 <==> j == 0)
  {
    assert a[j] in b;
    k :| 0 <= k < |b| && b[k] == a[j] && (j == 0 ==> k == 0);
  }

  /** Each level is a sublist of the one below it: positions map up in order. */
  lemma {:induction false} SublistOfBelow(s: Levels, i: nat, j: nat, k: nat) returns (x: nat, y: nat)
    requires Good(s) && i + 1 < SL_MAXLEVEL && j < k < |s.rings[i + 1]|
    ensures x < y < |s.rings[i]|
    ensures s.rings[i][x] == s.rings[i + 1][j] && s.rings[i][y] == s.rings[i + 1][k]
  {
    var a, b := s.rings[i + 1], s.rings[i];
    forall n | n in a ensures n in b {
      assert n in s.rings[i + 1];
      assert n in s.rings[0] && n.height >= i;
    }
    x := PositionsAgree(a, b, j);
    y := PositionsAgree(a, b, k);
    assert a[j] != a[k];
    assert j > 0 ==> a[j].key < a[k].key;
    assert forall u, v :: 1 <= u < v < |b| ==> b[u].key < b[v].key;
  }

  /** The map the list stands for, read off level 0. */
  ghost function MapOf(a: seq<Node>): map<int, int>
    requires |a| > 0
  {
    if |a| == 1 then map[]
    else MapOf(a[..|a| - 1])[a[|a| - 1].key := a[|a| - 1].val]
  }

  lemma {:induction false} MapAt(a: seq<Node>, key: int)
    requires |a| > 0 && Sorted(a)
    ensures key in MapOf(a) <==> Has(a, key)
    ensures Has(a, key) ==> MapOf(a)[key] == a[Place(a, key)].val
  {
    if |a| > 1 {
      MapAt(a[..|a| - 1], key);
      if a[|a| - 1].key == key {
        PlaceIs(a, key, |a| - 1);
      }
    }
  }

  lemma {:induction false} SizeOfMap(a: seq<Node>)
    requires |a| > 0 && Sorted(a)
    ensures |MapOf(a)| == |a| - 1
  {
    if |a| > 1 {
      var b := a[..|a| - 1];
      SizeOfMap(b);
      MapAt(b, a[|a| - 1].key);
      HasIs(b, a[|a| - 1].key);
    }
  }

  ghost function Added(a: seq<Node>, node: Node): seq<Node>
    requires |a| > 0
  {
    Splice(a, Place(a, node.key), node)
  }

  lemma AbsentNotIn(a: seq<Node>, node: Node)
    requires |a| > 0 && Sorted(a) && !Has(a, node.key) && node != a[0]
    ensures node !in a
  {
  }

  lemma SpliceSorted(a: seq<Node>, p: nat, node: Node)
    requires Sorted(a) && 1 <= p <= |a|
    requires p > 1 ==> a[p - 1].key < node.key
    requires p < |a| ==> node.key < a[p].key
    ensures Sorted(Splice(a, p, node))
  {
  }

  lemma AddedSorted(a: seq<Node>, node: Node)
    requires |a| > 0 && Sorted(a) && !Has(a, node.key)
    ensures Sorted(Added(a, node)) && Added(a, node)[0] == a[0]
    ensures Has(Added(a, node), node.key) && Place(Added(a, node), node.key) == Place(a, node.key)
  {
    var p := Place(a, node.key);
    SpliceSorted(a, p, node);
    hide Sorted;
    PlaceIs(Added(a, node), node.key, p);
  }

  lemma AddedMembers(a: seq<Node>, node: Node)
    requires |a| > 0 && Distinct(a) && node !in a
    ensures Distinct(Added(a, node))
    ensures forall n :: n in Added(a, node) <==> n in a || n == node
  {
  }

  ghost function Dropped(a: seq<Node>, key: int): seq<Node>
    requires |a| > 0
  {
    if Has(a, key) then Without(a, Place(a, key)) else a
  }

  lemma DroppedSorted(a: seq<Node>, key: int)
    requires |a| > 0 && Sorted(a) && Has(a, key)
    ensures Sorted(Dropped(a, key)) && Dropped(a, key)[0] == a[0]
    ensures !Has(Dropped(a, key), key)
  {
  }

  lemma DroppedMembers(a: seq<Node>, key: int)
    requires |a| > 0 && Distinct(a) && Has(a, key)
    ensures Distinct(Dropped(a, key))
    ensures forall n :: n in Dropped(a, key) <==> n in a && n != a[Place(a, key)]
  {
    var p := Place(a, key);
    WithoutDistinct(a, p);
    forall n: Node ensures n in Dropped(a, key) <==> n in a && n != a[p] {
      WithoutMembers(a, p, n);
    }
  }

  lemma MapOfAppend(a: seq<Node>, node: Node)
    requires |a| > 0
    ensures MapOf(a + [node]) == MapOf(a)[node.key := node.val]
  {
  }

  lemma AddedPrefix(a: seq<Node>, node: Node)
    requires |a| > 1 && Sorted(a) && !Has(a, node.key) && a[|a| - 1].key >= node.key
    ensures !Has(a[..|a| - 1], node.key) && a[|a| - 1].key != node.key
    ensures Added(a, node) == Added(a[..|a| - 1], node) + [a[|a| - 1]]
  {
  }

  lemma {:induction false} AddedMap(a: seq<Node>, node: Node)
    requires |a| > 0 && Sorted(a) && !Has(a, node.key)
    ensures MapOf(Added(a, node)) == MapOf(a)[node.key := node.val]
  {
    var b := a[..|a| - 1];
    if |a| == 1 || a[|b|].key < node.key {
      assert Added(a, node) == a + [node];
      MapOfAppend(a, node);
    } else {
      AddedPrefix(a, node);
      AddedMap(b, node);
      MapOfAppend(Added(b, node), a[|b|]);
    }
  }

  lemma DroppedLast(a: seq<Node>, key: int)
    requires |a| > 1 && Sorted(a) && Has(a, key) && a[|a| - 1].key == key
    ensures Dropped(a, key) == a[..|a| - 1] && key !in MapOf(a[..|a| - 1])
  {
    var b := a[..|a| - 1];
    PlaceIs(a, key, |a| - 1);
    MapAt(b, key);
    PlaceIs(b, key, |b|);
  }

  lemma DroppedPrefix(a: seq<Node>, key: int)
    requires |a| > 1 && Has(a, key) && a[|a| - 1].key != key
    ensures Has(a[..|a| - 1], key) && Dropped(a, key) == Dropped(a[..|a| - 1], key) + [a[|a| - 1]]
  {
    var b := a[..|a| - 1];
    WithoutAppend(b, Place(a, key), [a[|b|]]);
    assert a == b + [a[|b|]];
  }

  lemma {:induction false} DroppedMap(a: seq<Node>, key: int)
    requires |a| > 0 && Sorted(a) && Has(a, key)
    ensures MapOf(Dropped(a, key)) == MapOf(a) - {key}
  {
    hide Dropped;
    var b, last := a[..|a| - 1], a[|a| - 1];
    if last.key == key {
      DroppedLast(a, key);
    } else {
      DroppedPrefix(a, key);
      DroppedMap(b, key);
      DroppedSorted(b, key);
      MapOfAppend(Dropped(b, key), last);
    }
  }

  /** Taking out what was just put in gives back the ring. */
  lemma DropUndoesAdd(a: seq<Node>, node: Node)
    requires |a| > 0 && Sorted(a) && !Has(a, node.key)
    ensures Dropped(Added(a, node), node.key) == a
  {
    hide Sorted;
    AddedSorted(a, node);
    WithoutSplice(a, Place(a, node.key), node);
  }

  /** The height of the node holding the key, or -1. */
  ghost function HeightOf(a: seq<Node>, key: int): int
    requires |a| > 0
  {
    if Has(a, key) then a[Place(a, key)].height else -1
  }

  /** node added to the rings of levels lo to its height. */
  ghost function InsertRings(rings: seq<seq<Node>>, node: Node, lo: int): (r: seq<seq<Node>>)
    requires forall i {:trigger rings[i]} :: 0 <= i < |rings| ==> |rings[i]| > 0
    ensures |r| == |rings|
    ensures forall i {:trigger r[i]} :: 0 <= i < |r| ==>
      r[i] == if lo <= i <= node.height then Added(rings[i], node) else rings[i]
  {
    seq(|rings|, i requires 0 <= i < |rings| => if lo <= i <= node.height then Added(rings[i], node) else rings[i])
  }

  /** The key's node taken out of the rings of levels lo and up. */
  ghost function EraseRings(rings: seq<seq<Node>>, key: int, lo: int): (r: seq<seq<Node>>)
    requires forall i {:trigger rings[i]} :: 0 <= i < |rings| ==> |rings[i]| > 0
    ensures |r| == |rings|
    ensures forall i {:trigger r[i]} :: 0 <= i < |r| ==> r[i] == if lo <= i then Dropped(rings[i], key) else rings[i]
  {
    seq(|rings|, i requires 0 <= i < |rings| => if lo <= i then Dropped(rings[i], key) else rings[i])
  }

  ghost function Top(rings: seq<seq<Node>>): (t: int)
    requires forall i {:trigger rings[i]} :: 0 <= i < |rings| ==> |rings[i]| > 0
    ensures IsTop(rings, t)
  {
    if rings == [] then -1
    else if |rings[|rings| - 1]| > 1 then |rings| - 1
    else
      var t := Top(rings[..|rings| - 1]);
      assert forall i {:trigger rings[i]} :: 0 <= i < |rings| - 1 ==> rings[i] == rings[..|rings| - 1][i];
      t
  }

  /** sl_insert of a node with its drawn height; a present key stops the descent at its node's height. */
  ghost function InsertSpec(s: Levels, node: Node): Levels
    requires Headed(s.rings)
  {
    Levels(InsertRings(s.rings, node, HeightOf(s.rings[0], node.key) + 1),
           if node.height > s.level then node.height else s.level)
  }

  ghost function EraseSpec(s: Levels, key: int): Levels
    requires Headed(s.rings)
  {
    if Has(s.rings[0], key) then
      var rings := EraseRings(s.rings, key, 0);
      Levels(rings, Top(rings))
    else s
  }

  lemma HasBelow(s: Levels, key: int, i: nat)
    requires Good(s) && i < SL_MAXLEVEL
    ensures Has(s.rings[i], key) <==> HeightOf(s.rings[0], key) >= i
    ensures Has(s.rings[i], key) ==> s.rings[i][Place(s.rings[i], key)] == s.rings[0][Place(s.rings[0], key)]
  {
    var a, b := s.rings[0], s.rings[i];
    if Has(b, key) {
      var n := b[Place(b, key)];
      assert n in s.rings[i];
      var j :| 0 <= j < |a| && a[j] == n;
      assert b[0] != n;
      PlaceIs(a, key, j);
    }
    if Has(a, key) && HeightOf(a, key) >= i {
      var n := a[Place(a, key)];
      assert n in s.rings[0];
      assert n in s.rings[i];
      var j :| 0 <= j < |b| && b[j] == n;
      assert a[0] != n;
      PlaceIs(b, key, j);
    }
  }

  lemma HeightInRange(s: Levels, key: int)
    requires Good(s)
    ensures -1 <= HeightOf(s.rings[0], key) < SL_MAXLEVEL
    ensures Has(s.rings[0], key) ==> HeightOf(s.rings[0], key) <= s.level
  {
    if Has(s.rings[0], key) {
      var n := s.rings[0][Place(s.rings[0], key)];
      assert n in s.rings[0] && n != s.rings[0][0];
      assert n in s.rings[n.height];
      assert |s.rings[n.height]| > 1;
    }
  }

  lemma InsertLevel(s: Levels, node: Node, i: nat)
    requires Good(s) && !Has(s.rings[0], node.key) && i < SL_MAXLEVEL && node != s.rings[0][0]
    ensures var a := InsertSpec(s, node).rings[i];
      && |a| > 0 && a[0] == s.rings[i][0] && Sorted(a) && Distinct(a)
      && (forall n :: n in a <==> n in s.rings[i] || (n == node && i <= node.height))
      && node !in s.rings[i]
  {
    hide Sorted, Distinct;
    HasBelow(s, node.key, i);
    AbsentNotIn(s.rings[i], node);
    AddedSorted(s.rings[i], node);
    AddedMembers(s.rings[i], node);
  }

  lemma StackedAnew(rings: seq<seq<Node>>, t: seq<seq<Node>>, node: Node)
    requires Stacked(rings) && |t| == SL_MAXLEVEL && node.height < SL_MAXLEVEL
    requires forall i {:trigger t[i]} :: 0 <= i < SL_MAXLEVEL ==> |t[i]| > 0 && t[i][0] == rings[i][0]
    requires forall i, n {:trigger n in t[i]} :: 0 <= i < SL_MAXLEVEL ==>
      (n in t[i] <==> n in rings[i] || (n == node && i <= node.height))
    ensures Stacked(t)
  {
  }

  lemma InsertStacked(s: Levels, node: Node)
    requires Good(s) && !Has(s.rings[0], node.key) && node.height < SL_MAXLEVEL && node != s.rings[0][0]
    ensures Stacked(InsertSpec(s, node).rings) && InOrder(InsertSpec(s, node).rings)
  {
    hide Sorted, Distinct, Has, HeightOf;
    var t := InsertSpec(s, node).rings;
    forall i | 0 <= i < SL_MAXLEVEL
      ensures |t[i]| > 0 && t[i][0] == s.rings[i][0] && Sorted(t[i]) && Distinct(t[i])
      ensures forall n {:trigger n in t[i]} :: n in t[i] <==> n in s.rings[i] || (n == node && i <= node.height)
    {
      InsertLevel(s, node, i);
    }
    StackedAnew(s.rings, t, node);
  }

  /** Inserting an absent key: every invariant is kept and the map gains exactly that key. */
  lemma {:induction false} InsertKeepsGood(s: Levels, node: Node)
    requires Good(s) && !Has(s.rings[0], node.key) && node.height < SL_MAXLEVEL && node != s.rings[0][0]
    ensures var t := InsertSpec(s, node);
      Good(t) && IsTop(t.rings, t.level)
      && MapOf(t.rings[0]) == MapOf(s.rings[0])[node.key := node.val]
  {
    hide Sorted, Distinct;
    InsertStacked(s, node);
    AddedMap(s.rings[0], node);
    assert HeightOf(s.rings[0], node.key) == -1 by { HasBelow(s, node.key, 0); }
    var t := InsertSpec(s, node);
    assert |s.rings[t.level]| > 0 && |t.rings[t.level]| > 1;
  }

  lemma EraseLevel(s: Levels, key: int, i: nat)
    requires Good(s) && Has(s.rings[0], key) && i < SL_MAXLEVEL
    ensures var a := EraseRings(s.rings, key, 0)[i];
      && |a| > 0 && a[0] == s.rings[i][0] && Sorted(a) && Distinct(a)
      && (forall n :: n in a <==> n in s.rings[i] && n != s.rings[0][Place(s.rings[0], key)])
  {
    hide Sorted, Distinct;
    HasBelow(s, key, i);
    var e := s.rings[0][Place(s.rings[0], key)];
    assert e in s.rings[0];
    if Has(s.rings[i], key) {
      DroppedSorted(s.rings[i], key);
      DroppedMembers(s.rings[i], key);
    } else {
      assert e !in s.rings[i];
    }
  }

  lemma StackedWithout(rings: seq<seq<Node>>, t: seq<seq<Node>>, e: Node)
    requires Stacked(rings) && |t| == SL_MAXLEVEL
    requires forall i {:trigger t[i]} :: 0 <= i < SL_MAXLEVEL ==> |t[i]| > 0 && t[i][0] == rings[i][0]
    requires forall i, n {:trigger n in t[i]} :: 0 <= i < SL_MAXLEVEL ==> (n in t[i] <==> n in rings[i] && n != e)
    ensures Stacked(t)
  {
  }

  lemma EraseStacked(s: Levels, key: int)
    requires Good(s) && Has(s.rings[0], key)
    ensures Stacked(EraseRings(s.rings, key, 0)) && InOrder(EraseRings(s.rings, key, 0))
  {
    hide Sorted, Distinct;
    var t := EraseRings(s.rings, key, 0);
    var e := s.rings[0][Place(s.rings[0], key)];
    forall i | 0 <= i < SL_MAXLEVEL
      ensures |t[i]| > 0 && t[i][0] == s.rings[i][0] && Sorted(t[i]) && Distinct(t[i])
      ensures forall n {:trigger n in t[i]} :: n in t[i] <==> n in s.rings[i] && n != e
    {
      EraseLevel(s, key, i);
    }
    StackedWithout(s.rings, t, e);
  }

  /** Erasing a present key: every invariant is kept and the map loses exactly that key. */
  lemma {:induction false} EraseKeepsGood(s: Levels, key: int)
    requires Good(s) && Has(s.rings[0], key)
    ensures var t := EraseSpec(s, key);
      Good(t) && IsTop(t.rings, t.level) && !Has(t.rings[0], key)
      && MapOf(t.rings[0]) == MapOf(s.rings[0]) - {key}
  {
    hide Sorted, Distinct;
    EraseStacked(s, key);
    DroppedMap(s.rings[0], key);
    DroppedSorted(s.rings[0], key);
  }

  lemma TopIsUnique(rings: seq<seq<Node>>, t: int, u: int)
    requires IsTop(rings, t) && IsTop(rings, u)
    ensures t == u
  {
  }

  lemma EmptyTop(s: Levels)
    requires Good(s)
    ensures IsTop(s.rings, if |s.rings[0]| == 1 then -1 else s.level)
  {
    if s.level >= 0 {
      var a := s.rings[s.level];
      assert a[|a| - 1] in s.rings[s.level];
      assert a[|a| - 1] in s.rings[0];
    }
  }

  /** Inserting an absent key and erasing it restores every level, and the list's level unless it was fresh. */
  lemma {:induction false} EraseUndoesInsert(s: Levels, node: Node)
    requires Good(s) && !Has(s.rings[0], node.key) && node.height < SL_MAXLEVEL && node != s.rings[0][0]
    ensures EraseSpec(InsertSpec(s, node), node.key) == s.(level := if |s.rings[0]| == 1 then -1 else s.level)
  {
    hide Sorted, Distinct, Has;
    var t := InsertSpec(s, node);
    InsertKeepsGood(s, node);
    var u := EraseSpec(t, node.key);
    assert Has(t.rings[0], node.key) by { MapAt(t.rings[0], node.key); }
    forall i | 0 <= i < SL_MAXLEVEL ensures u.rings[i] == s.rings[i] {
      HasBelow(s, node.key, i);
      DropUndoesAdd(s.rings[i], node);
    }
    assert u.rings == s.rings;
    EmptyTop(s);
    TopIsUnique(s.rings, if |s.rings[0]| == 1 then -1 else s.level, u.level);
  }

  /** A present key and a drawn height no greater than its node's: nothing changes. */
  lemma DuplicateShortKeeps(s: Levels, node: Node)
    requires Good(s) && Has(s.rings[0], node.key) && node.height <= HeightOf(s.rings[0], node.key)
    ensures InsertSpec(s, node) == s
  {
    var t := InsertSpec(s, node);
    assert t.rings == s.rings;
    var e := s.rings[0][Place(s.rings[0], node.key)];
    assert e in s.rings[0] && e != s.rings[0][0];
    assert e in s.rings[e.height];
    assert |s.rings[e.height]| > 1;
  }

  /** A present key and a greater height: the new node stays on exactly the levels above the old one's. */
  lemma DuplicateTallDangles(s: Levels, node: Node, i: nat)
    requires Good(s) && Has(s.rings[0], node.key) && node !in s.rings[0] && i < SL_MAXLEVEL
    requires HeightOf(s.rings[0], node.key) < node.height < SL_MAXLEVEL
    ensures var h := HeightOf(s.rings[0], node.key);
      InsertSpec(s, node).rings[i] == if h < i <= node.height then Added(s.rings[i], node) else s.rings[i]
    ensures node in InsertSpec(s, node).rings[i] <==> HeightOf(s.rings[0], node.key) < i <= node.height
    ensures !Stacked(InsertSpec(s, node).rings)
  {
    hide Sorted, Distinct, Has;
    var t := InsertSpec(s, node);
    assert node !in s.rings[i] && node !in s.rings[node.height];
    assert HeightOf(s.rings[0], node.key) >= 0 by { HasBelow(s, node.key, 0); }
    AddedMembers(s.rings[i], node);
    AddedMembers(s.rings[node.height], node);
    assert node in t.rings[node.height] && node !in t.rings[0];
  }

  /** The level follows the node left dangling: it is again the highest level with a node on it. */
  lemma DuplicateTallLevel(s: Levels, node: Node)
    requires Good(s) && Has(s.rings[0], node.key) && node !in s.rings[0]
    requires HeightOf(s.rings[0], node.key) < node.height < SL_MAXLEVEL
    ensures var t := InsertSpec(s, node);
      && IsTop(t.rings, t.level) && t.level == if node.height > s.level then node.height else s.level
  {
    var t, h := InsertSpec(s, node), HeightOf(s.rings[0], node.key);
    HeightInRange(s, node.key);
    HasBelow(s, node.key, 0);
    DuplicateTallDangles(s, node, node.height);
    forall i | 0 <= i < SL_MAXLEVEL
      ensures |t.rings[i]| == if h < i <= node.height then |s.rings[i]| + 1 else |s.rings[i]|
    {
      DuplicateTallDangles(s, node, i);
    }
    hide Sorted, Distinct, Has, HeightOf, InOrder, InsertRings;
  }

  /** An insert that fails changes nothing iff the drawn height does not exceed the height of the node present. */
  lemma {:induction false} FailedInsertKeepsIff(s: Levels, node: Node)
    requires Good(s) && Has(s.rings[0], node.key) && node !in s.rings[0] && node.height < SL_MAXLEVEL
    ensures InsertSpec(s, node) == s <==> node.height <= HeightOf(s.rings[0], node.key)
  {
    if node.height <= HeightOf(s.rings[0], node.key) {
      DuplicateShortKeeps(s, node);
    } else {
      DuplicateTallDangles(s, node, node.height);
    }
  }
}
