/** The sequential skip list in memory: pointer towers, walked level by level. */
module RingLists {
  import opened Rings
  import opened RingSpec
  import opened RingRuns
  import opened Sequences

  const EEXIST: int := 17
  const EINVAL: int := 22

  /** Level i of a node's links may have changed; nothing else has. */
  twostate predicate SameElsewhere(n: Node, i: nat)
    reads n
  {
    && |n.next| == |old(n.next)| && |n.prev| == |old(n.prev)|
    && (forall j :: 0 <= j < |n.next| && j != i ==> n.next[j] == old(n.next)[j])
    && (forall j :: 0 <= j < |n.prev| && j != i ==> n.prev[j] == old(n.prev)[j])
  }

  lemma LoneRing(head: Node, i: nat)
    requires i < |head.next| && i < |head.prev| && head.next[i] == head.prev[i] == head
    ensures Ring([head], i)
  {
  }

  lemma FreshIsGood(head: Node)
    requires head.height + 1 == SL_MAXLEVEL
    ensures Good(Levels(seq(SL_MAXLEVEL, _ => [head]), 0))
  {
  }

  /** struct sl_list. nodes are all that were ever allocated for it, freed those given back. */
  class RingList {
    const head: Node
    var level: int
    var size: int
    ghost var rings: seq<seq<Node>>
    ghost var nodes: set<Node>
    ghost var freed: set<Node>

    ghost predicate RingWired(i: nat)
      reads this`rings, this`nodes, nodes
    {
      && i < |rings| && rings[i] != [] && rings[i][0] == head
      && (forall n :: n in rings[i] ==> n in nodes)
      && Ring(rings[i], i)
    }

    /** Every level is a ring through the head. */
    ghost predicate Wired()
      reads this`rings, this`nodes, nodes
    {
      && head in nodes && head.height + 1 == SL_MAXLEVEL && |rings| == SL_MAXLEVEL
      && (forall n :: n in nodes ==> |n.next| == |n.prev| == n.height + 1)
      && (forall i {:trigger rings[i]} :: 0 <= i < SL_MAXLEVEL ==> RingWired(i))
    }

    ghost function Abs(): Levels
      reads this`rings, this`level
    {
      Levels(rings, level)
    }

    ghost predicate Valid()
      reads this, nodes
    {
      && Wired() && Good(Abs()) && size == |rings[0]| - 1
      && freed <= nodes && forall n :: n in rings[0] ==> n !in freed
    }

    /** sl_list_alloc. */
    constructor ()
      ensures Valid() && fresh(nodes) && level == 0 && size == 0
      ensures rings == seq(SL_MAXLEVEL, _ => [head])
    {
      hide Ring, Good;
      var first := new Node(0, 0, SL_MAXLEVEL - 1);
      head := first;
      level, size := 0, 0;
      rings := seq(SL_MAXLEVEL, _ => [first]);
      nodes, freed := {first}, {};
      new;
      head.next := seq(SL_MAXLEVEL, _ => head);
      head.prev := seq(SL_MAXLEVEL, _ => head);
      forall i | 0 <= i < SL_MAXLEVEL ensures RingWired(i) {
        assert rings[i] == [head] && head.next[i] == head.prev[i] == head;
        LoneRing(head, i);
      }
      FreshIsGood(head);
    }

    /** What following next round one level and looking back along prev amounts to. */
    lemma RingSteps(i: nat)
      requires Wired() && i < SL_MAXLEVEL
      ensures |rings| == SL_MAXLEVEL && |rings[i]| > 0 && rings[i][0] == head
      ensures forall k {:trigger rings[i][k]} :: 0 < k < |rings[i]| ==> rings[i][k] != head
      ensures forall k {:trigger rings[i][k].next} :: 0 <= k < |rings[i]| ==>
        i < |rings[i][k].next| && rings[i][k].next[i] == Fore(rings[i], k)
      ensures forall k {:trigger rings[i][k].prev} :: 0 <= k < |rings[i]| ==>
        i < |rings[i][k].prev| && rings[i][k].prev[i] == Back(rings[i], k)
    {
      assert RingWired(i);
    }

    /** The scan of one level, from pos to the first key not below the one sought, or round to the head. */
    method ScanLevel(pos: Node, i: nat, key: int, ghost k: nat) returns (q: Node, ghost m: nat)
      requires Wired() && i < SL_MAXLEVEL && k < |rings[i]| && rings[i][k] == pos
      requires Sorted(rings[i]) && (k > 0 ==> pos.key < key)
      ensures m == Place(rings[i], key) && m <= |rings[i]|
      ensures q == if m < |rings[i]| then rings[i][m] else head
      ensures i < |q.prev| && q.prev[i] == rings[i][m - 1] && (m > 1 ==> rings[i][m - 1].key < key)
      ensures q != head && q.key == key <==> Has(rings[i], key)
    {
      hide Wired, RingWired, Ring, ForeLinked, BackLinked, Sorted;
      RingSteps(i);
      ghost var a := rings[i];
      q, m := pos.next[i], k + 1;
      while q != head && q.key < key
        invariant k < m <= |a| && q == (if m < |a| then a[m] else head)
        invariant m > 1 ==> a[m - 1].key < key
        decreases |a| - m
      {
        q, m := q.next[i], m + 1;
      }
      PlaceIs(a, key, m);
    }

    lemma GoodLevel(s: Levels, i: nat)
      requires Good(s) && i < SL_MAXLEVEL
      ensures |s.rings| == SL_MAXLEVEL && |s.rings[i]| > 0 && Sorted(s.rings[i])
      ensures Headed(s.rings)
      ensures -1 <= s.level < SL_MAXLEVEL
      ensures s.level == -1 ==> forall key :: !Has(s.rings[0], key)
    {
    }

    /** pos-- : the same tower, one level lower. */
    lemma StepDown(s: Levels, n: Node, i: nat) returns (k: nat)
      requires Good(s) && 1 <= i < SL_MAXLEVEL && n in s.rings[i]
      ensures k < |s.rings[i - 1]| && s.rings[i - 1][k] == n && (k == 0 <==> n == s.rings[0][0])
    {
      assert n in s.rings[0] && n.height >= i - 1;
      assert n in s.rings[i - 1];
      k :| 0 <= k < |s.rings[i - 1]| && s.rings[i - 1][k] == n;
      assert s.rings[i - 1][0] == s.rings[0][0];
    }

    /** The level where the key is first met, going down, is the height of its node. */
    lemma MetAtHeight(was: Levels, key: int, i: nat)
      requires Good(was) && i <= was.level && Has(was.rings[i], key)
      requires i < was.level ==> !Has(was.rings[i + 1], key)
      ensures Has(was.rings[0], key) && HeightOf(was.rings[0], key) == i
      ensures was.rings[i][Place(was.rings[i], key)] == was.rings[0][Place(was.rings[0], key)]
    {
      hide Sorted, Has, Place;
      HasBelow(was, key, i);
      HasBelow(was, key, 0);
      HeightInRange(was, key);
      if i < was.level {
        HasBelow(was, key, i + 1);
      }
    }

    /** The descent sl_search and sl_erase share: the first level, going down, on which the key is met, or -1. */
    method Descend(key: int) returns (q: Node, i: int)
      requires Valid()
      ensures i == HeightOf(rings[0], key)
      ensures i >= 0 ==> Has(rings[0], key) && q == rings[0][Place(rings[0], key)] && q.key == key
    {
      hide Sorted, Has, Ring, Distinct, Stacked, InOrder, Place;
      var pos: Node := head;
      i, q := level, head;
      ghost var k: nat := 0;
      GoodLevel(Abs(), 0);
      while i >= 0
        invariant -1 <= i <= level
        invariant i >= 0 ==> k < |rings[i]| && rings[i][k] == pos && (k > 0 ==> pos.key < key)
        invariant -1 <= i < level ==> |rings[i + 1]| > 0 && !Has(rings[i + 1], key)
      {
        GoodLevel(Abs(), i);
        ghost var m;
        q, m := ScanLevel(pos, i, key, k);
        if q != head && q.key == key {
          MetAtHeight(Abs(), key, i);
          return q, i;
        }
        pos := q.prev[i];
        if i > 0 {
          GoodLevel(Abs(), i - 1);
          k := StepDown(Abs(), pos, i);
        }
        i := i - 1;
      }
    }

    /** sl_search; 0 is NULL. */
    method SlSearch(key: int) returns (val: int)
      requires Valid()
      ensures val == Answer(Abs(), key)
    {
      MapAt(rings[0], key);
      HasBelow(Abs(), key, 0);
      var q, i := Descend(key);
      return if i >= 0 then q.val else 0;
    }

    twostate lemma OtherRingsKept(i: nat)
      requires old(Wired()) && |rings| == SL_MAXLEVEL && nodes == old(nodes)
      requires forall j :: 0 <= j < SL_MAXLEVEL && j != i ==> rings[j] == old(rings)[j]
      requires forall n {:trigger n in nodes} :: n in nodes ==> SameElsewhere(n, i)
      ensures forall j :: 0 <= j < SL_MAXLEVEL && j != i ==> RingWired(j)
    {
      forall j | 0 <= j < SL_MAXLEVEL && j != i ensures RingWired(j) {
        var a := rings[j];
        assert old(RingWired(j));
        forall k | 0 <= k < |a| ensures SameElsewhere(a[k], i) {
          assert a[k] in nodes;
        }
      }
    }

    /** list_add of level i's link after prev, which stands at k. */
    method LinkAt(node: Node, prev: Node, i: nat, ghost k: nat)
      requires Wired() && i < SL_MAXLEVEL && k < |rings[i]| && rings[i][k] == prev
      requires node in nodes && node !in rings[i] && i <= node.height
      modifies this`rings, nodes
      ensures Wired() && rings == old(rings)[i := Splice(old(rings[i]), k + 1, node)]
    {
      hide Ring;
      ghost var a := rings[i];
      assert RingWired(i);
      ghost var next := Fore(a, k);
      assert next in a && prev in a;
      ListAdd(a, k, node, prev, i, next);
      rings := rings[i := Splice(a, k + 1, node)];
      assert SameElsewhere(prev, i);
      assert SameElsewhere(node, i);
      assert SameElsewhere(next, i);
      assert forall n :: n in nodes && n != prev && n != node && n != next ==> SameElsewhere(n, i);
      OtherRingsKept(i);
      forall n | n in rings[i] ensures n in nodes {
        SpliceMembers(a, k + 1, node, n);
      }
      assert rings[i][0] == a[0];
      assert RingWired(i);
    }

    /** list_del of level i's link, which stands at k. */
    method UnlinkAt(node: Node, i: nat, ghost k: nat)
      requires Wired() && i < SL_MAXLEVEL && 1 <= k < |rings[i]| && rings[i][k] == node
      modifies this`rings, nodes
      ensures Wired() && rings == old(rings)[i := Without(old(rings[i]), k)]
    {
      hide Ring;
      ghost var a := rings[i];
      assert RingWired(i);
      ghost var prev, next := a[k - 1], Fore(a, k);
      assert next in a && prev in a && node in a;
      ListDel(a, k, node, i, prev, next);
      rings := rings[i := Without(a, k)];
      assert SameElsewhere(prev, i);
      assert SameElsewhere(node, i);
      assert SameElsewhere(next, i);
      assert forall n :: n in nodes && n != prev && n != node && n != next ==> SameElsewhere(n, i);
      OtherRingsKept(i);
      forall n | n in rings[i] ensures n in nodes {
        WithoutMembers(a, k, n);
      }
      assert rings[i][0] == a[0];
      assert RingWired(i);
    }

    /** sl_node_alloc hands over a node that is on no level yet. */
    method Adopt(node: Node)
      requires Wired() && node !in nodes && |node.next| == |node.prev| == node.height + 1
      modifies this`nodes
      ensures Wired() && nodes == old(nodes) + {node}
    {
      nodes := nodes + {node};
      forall i | 0 <= i < SL_MAXLEVEL ensures RingWired(i) {
        assert old(RingWired(i));
      }
    }

    /** The levels above i have the node, those from i down do not. */
    ghost predicate Inserting(was: Levels, node: Node, i: int) 
      requires Headed(was.rings)
      reads this`rings
    {
      rings == InsertRings(was.rings, node, i + 1)
    }

    lemma StillBelow(was: Levels, node: Node, i: nat)
      requires Good(was) && Inserting(was, node, i) && i < SL_MAXLEVEL
      ensures |rings| == SL_MAXLEVEL && rings[i] == was.rings[i] && |rings[i]| > 0
      ensures Sorted(rings[i])
    {
    }

    lemma LinkedBelow(was: Levels, node: Node, i: nat, before: seq<seq<Node>>)
      requires Good(was) && i < SL_MAXLEVEL && i <= node.height
      requires before == InsertRings(was.rings, node, i + 1)
      requires rings == before[i := Added(was.rings[i], node)]
      ensures Inserting(was, node, i - 1)
    {
    }

    /** Where the descent stops, the levels above the old node's height have been linked. */
    lemma StopsAtHeight(was: Levels, node: Node, i: int)
      requires Good(was) && -1 <= i <= node.height < SL_MAXLEVEL && Inserting(was, node, i)
      requires i >= 0 ==> Has(was.rings[i], node.key)
      requires i < node.height ==> !Has(was.rings[i + 1], node.key)
      ensures rings == InsertSpec(was, node).rings
      ensures i >= 0 <==> Has(was.rings[0], node.key)
    {
      hide Has, Sorted, Distinct, Place, Added;
      if i >= 0 { HasBelow(was, node.key, i); }
      if i < node.height { HasBelow(was, node.key, i + 1); }
      HasBelow(was, node.key, 0);
      var h := HeightOf(was.rings[0], node.key);
      if i == node.height {
        assert InsertRings(was.rings, node, i + 1) == was.rings;
        assert InsertRings(was.rings, node, h + 1) == was.rings;
      } else {
        assert -1 <= h == i;
      }
    }

    lemma InsertedValid(was: Levels, node: Node)
      requires Wired() && Good(was) && Abs() == InsertSpec(was, node) && node.height < SL_MAXLEVEL
      requires was.rings[0][0] == head && node != head
      requires node.height <= HeightOf(was.rings[0], node.key) || !Has(was.rings[0], node.key)
      requires size == |was.rings[0]| - if Has(was.rings[0], node.key) then 1 else 0
      requires freed <= nodes && forall n :: n in was.rings[0] ==> n !in freed
      requires !Has(was.rings[0], node.key) ==> node !in freed
      ensures Valid()
    {
      if Has(was.rings[0], node.key) {
        DuplicateShortKeeps(was, node);
      } else {
        InsertKeepsGood(was, node);
        AbsentNotIn(was.rings[0], node);
        AddedMembers(was.rings[0], node);
      }
    }

    lemma AllInNodes()
      requires Wired()
      ensures forall i {:trigger rings[i]} :: 0 <= i < SL_MAXLEVEL ==>
        i < |rings| && rings[i] != [] && rings[i][0] == head
      ensures forall i, n {:trigger n in rings[i]} :: 0 <= i < SL_MAXLEVEL && n in rings[i] ==> n in nodes
    {
    }

    /** One turn of the loop of sl_insert: scan a level, link the node unless the key is met, step down. */
    method InsertOneLevel(ghost was: Levels, entry: Node, pos: Node, i: nat, ghost k: nat)
        returns (met: bool, below: Node, ghost m: nat)
      requires Wired() && Good(was) && Inserting(was, entry, i) && was.rings[0][0] == head
      requires i <= entry.height < SL_MAXLEVEL && entry in nodes && entry !in was.rings[i]
      requires k < |was.rings[i]| && was.rings[i][k] == pos && (k > 0 ==> pos.key < entry.key)
      modifies this`rings, nodes
      ensures Wired() && Inserting(was, entry, if met then i else i - 1)
      ensures met <==> Has(was.rings[i], entry.key)
      ensures !met && i > 0 ==> m < |was.rings[i - 1]| && was.rings[i - 1][m] == below && (m > 0 ==>
        below.key < entry.key)
    {
      hide Sorted, Has, Ring, Distinct, InOrder, Place, InsertRings, HeightOf;
      StillBelow(was, entry, i);
      ghost var before := rings;
      var q;
      q, m := ScanLevel(pos, i, entry.key, k);
      if q != head && q.key == entry.key {
        return true, q, m;
      }
      met, below := false, q.prev[i];
      LinkAt(entry, below, i, m - 1);
      LinkedBelow(was, entry, i, before);
      if i > 0 {
        m := StepDown(was, below, i);
      }
    }

    /** sl_insert with the level it draws; the node is the one it allocates. */
    method SlInsert(key: int, val: int, drawn: nat) returns (r: int, ghost node: Node)
      requires Valid() && drawn < SL_MAXLEVEL
      modifies this, nodes
      ensures fresh(node) && node.key == key && node.val == val && node.height == drawn
      ensures Wired() && Abs() == InsertSpec(old(Abs()), node)
      ensures nodes == old(nodes) + {node}
      ensures r == if Has(old(rings[0]), key) then -EEXIST else 0
      ensures size == old(size) + if r == 0 then 1 else 0
      ensures freed == old(freed) + if r == 0 then {} else {node}
      ensures r == 0 || drawn <= HeightOf(old(rings[0]), key) ==> Valid()
    {
      hide Wired, Good, Has, InsertRings, HeightOf;
      ghost var was := Abs();
      GoodLevel(was, drawn);
      AllInNodes();
      var entry := new Node(key, val, drawn);
      node := entry;
      Adopt(entry);
      if drawn > level {
        level := drawn;
      }
      var i, pos: Node := drawn, head;
      ghost var k: nat := 0;
      while i >= 0
        invariant -1 <= i <= drawn && Wired() && Inserting(was, node, i)
        invariant level == InsertSpec(was, node).level && size == old(size)
        invariant freed == old(freed) && nodes == old(nodes) + {node}
        invariant i >= 0 ==> k < |was.rings[i]| && was.rings[i][k] == pos && (k > 0 ==> pos.key < key)
        invariant i < drawn ==> !Has(was.rings[i + 1], key)
      {
        var met;
        met, pos, k := InsertOneLevel(was, entry, pos, i, k);
        if met {
          StopsAtHeight(was, node, i);
          freed := freed + {node};
          if drawn <= HeightOf(was.rings[0], key) {
            InsertedValid(was, node);
          }
          return -EEXIST, node;
        }
        i := i - 1;
      }
      StopsAtHeight(was, node, -1);
      size := size + 1;
      InsertedValid(was, node);
      return 0, node;
    }

    /** The levels above i have lost the key's node, and the list's level is that of what is left. */
    ghost predicate Erasing(was: Levels, key: int, i: int)
      requires Headed(was.rings)
      reads this`rings, this`level
    {
      rings == EraseRings(was.rings, key, i + 1) && IsTop(rings, level)
    }

    lemma ErasingBelow(was: Levels, key: int, i: nat)
      requires Good(was) && Erasing(was, key, i) && i < SL_MAXLEVEL && Has(was.rings[i], key)
      ensures |rings| == SL_MAXLEVEL && rings[i] == was.rings[i]
      ensures Has(was.rings[0], key)
      ensures var k := Place(was.rings[i], key);
        1 <= k < |rings[i]| && rings[i][k] == was.rings[0][Place(was.rings[0], key)]
    {
      HasBelow(was, key, i);
    }

    /** sl_erase lowers the level by one exactly when the level just emptied was the top. */
    lemma LevelFollows(was: Levels, key: int, i: nat, before: seq<seq<Node>>, t: int)
      requires Good(was) && i < SL_MAXLEVEL && Has(was.rings[i], key)
      requires before == EraseRings(was.rings, key, i + 1) && IsTop(before, t)
      requires rings == before[i := Without(was.rings[i], Place(was.rings[i], key))]
      requires level == if |rings[i]| == 1 then t - 1 else t
      ensures Erasing(was, key, i - 1)
    {
      hide Sorted, Distinct;
      assert rings == EraseRings(was.rings, key, i);
      HasBelow(was, key, i);
      assert before[i] == was.rings[i] && |before[i]| > 1;
      assert |rings[i]| > 1 || t == i by {
        if t > i {
          SomeLeft(was, key, i, t);
        }
      }
      if i > 0 {
        HasBelow(was, key, i - 1);
      }
    }

    /** A node left on level t is left on every level below. */
    lemma SomeLeft(was: Levels, key: int, i: nat, t: nat)
      requires Good(was) && i < t < SL_MAXLEVEL && Has(was.rings[i], key)
      requires |Dropped(was.rings[t], key)| > 1
      ensures |Dropped(was.rings[i], key)| > 1
    {
      var a := Dropped(was.rings[t], key);
      HasBelow(was, key, i);
      EraseLevel(was, key, i);
      EraseLevel(was, key, t);
      assert a[1] in a && a[1] != a[0];
      assert a[1] in was.rings[t];
      assert a[1] in was.rings[i];
      assert a[1] in Dropped(was.rings[i], key);
    }

    lemma ErasingStarts(was: Levels, key: int)
      requires Good(was) && Abs() == was && Has(was.rings[0], key)
      ensures Erasing(was, key, HeightOf(was.rings[0], key))
    {
      HeightInRange(was, key);
      var r := EraseRings(was.rings, key, HeightOf(was.rings[0], key) + 1);
      forall i | 0 <= i < SL_MAXLEVEL ensures r[i] == rings[i] {
        HasBelow(was, key, i);
      }
      EmptyTop(was);
    }

    /** One turn of the inner loop of sl_erase: drop a link, and lower the list if its level emptied. */
    method EraseOneLevel(ghost was: Levels, node: Node, i: nat)
      requires Wired() && Good(was) && was.rings[0][0] == head && Erasing(was, node.key, i)
      requires i < SL_MAXLEVEL && Has(was.rings[i], node.key) && Has(was.rings[0], node.key)
      requires node == was.rings[0][Place(was.rings[0], node.key)]
      modifies this`rings, this`level, nodes
      ensures Wired() && Erasing(was, node.key, i - 1)
    {
      hide Sorted, Distinct, Ring, InOrder, EraseRings, IsTop, Place, Has;
      ErasingBelow(was, node.key, i);
      ghost var before, t := rings, level;
      UnlinkAt(node, i, Place(was.rings[i], node.key));
      var empty := HeadAlone(i);
      if empty {
        level := level - 1;
      }
      LevelFollows(was, node.key, i, before, t);
    }

    /** list->head[i].next == &list->head[i]. */
    method HeadAlone(i: nat) returns (empty: bool)
      requires Wired() && i < SL_MAXLEVEL
      ensures empty <==> |rings[i]| == 1
    {
      assert RingWired(i);
      empty := head.next[i] == head;
    }

    lemma ErasingEnds(was: Levels, key: int)
      requires Good(was) && Has(was.rings[0], key) && Erasing(was, key, -1)
      ensures Abs() == EraseSpec(was, key)
    {
    }

    /** The inner loop of sl_erase, from the height of the node found down to level 0. */
    method EraseTower(ghost was: Levels, node: Node, height: nat)
      requires Wired() && Good(was) && Abs() == was && was.rings[0][0] == head && Has(was.rings[0], node.key)
      requires node == was.rings[0][Place(was.rings[0], node.key)] && height == HeightOf(was.rings[0], node.key)
      modifies this`rings, this`level, nodes
      ensures Wired() && Abs() == EraseSpec(was, node.key)
    {
      hide Wired, Good, EraseRings, Place, Has, HeightOf, EraseSpec, Erasing;
      ErasingStarts(was, node.key);
      HeightInRange(was, node.key);
      GoodLevel(was, 0);
      var i: int := height;
      while i >= 0
        invariant -1 <= i <= height && Wired() && Erasing(was, node.key, i)
      {
        HasBelow(was, node.key, i);
        EraseOneLevel(was, node, i);
        i := i - 1;
      }
      ErasingEnds(was, node.key);
    }

    lemma ErasedValid(was: Levels, key: int)
      requires Wired() && Good(was) && Has(was.rings[0], key) && Abs() == EraseSpec(was, key)
      requires size == |was.rings[0]| - 2
      requires freed <= nodes
      requires forall n :: n in was.rings[0] && n != was.rings[0][Place(was.rings[0], key)] ==> n !in freed
      ensures Valid()
    {
      EraseKeepsGood(was, key);
      DroppedMembers(was.rings[0], key);
    }

    /** sl_erase. */
    method SlErase(key: int) returns (r: int, ghost node: Node)
      requires Valid()
      modifies this, nodes
      ensures Valid() && Abs() == EraseSpec(old(Abs()), key)
      ensures nodes == old(nodes)
      ensures r == if Has(old(rings[0]), key) then 0 else -EINVAL
      ensures size == old(size) - if r == 0 then 1 else 0
      ensures r == 0 ==> node == old(rings[0])[Place(old(rings[0]), key)] && freed == old(freed) + {node}
      ensures r != 0 ==> freed == old(freed)
    {
      hide Wired, Good, Place, EraseRings;
      ghost var was := Abs();
      GoodLevel(was, 0);
      AllInNodes();
      var q, i := Descend(key);
      if i >= 0 {
        assert q in rings[0];
        EraseTower(was, q, i);
        freed := freed + {q};
        size := size - 1;
        ErasedValid(was, key);
        return 0, q;
      }
      return -EINVAL, head;
    }
  }
}
