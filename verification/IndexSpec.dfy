/** The extent skip list as a value: its leaves in order, each with its slots and tower height. */
module IndexSpec {
  import opened Extents
  import opened Leaves
  import opened Sequences
  import opened Towers

  datatype LeafVal = LeafVal(slots: seq<Slot>, height: nat) {
    function Min(): nat
      requires slots != []
    {
      slots[0].key
    }

    function Max(): nat
      requires slots != []
    {
      slots[|slots| - 1].End()
    }
  }

  function Flatten(ls: seq<LeafVal>): seq<Slot> {
    if ls == [] then [] else ls[0].slots + Flatten(ls[1..])
  }

  ghost predicate Sized(ls: seq<LeafVal>) {
    forall k :: 0 <= k < |ls| ==> 1 <= |ls[k].slots| <= KEYS_PER_NODE && ls[k].height < SKIP_MAXLEVEL
  }

  /** 1 to 32 slots in every leaf, and all slots of the list in order without overlap. */
  ghost predicate WellFormed(ls: seq<LeafVal>) {
    Sized(ls) && Ordered(Flatten(ls))
  }

  lemma WellFormedIsSized(ls: seq<LeafVal>)
    requires WellFormed(ls)
    ensures Sized(ls)
  {
  }

  // ---- sequences of slots on one side of a key

  ghost predicate Below(q: seq<Slot>, key: nat) {
    forall j :: 0 <= j < |q| ==> q[j].End() <= key
  }

  ghost predicate Above(q: seq<Slot>, key: nat) {
    forall j :: 0 <= j < |q| ==> key <= q[j].key
  }

  lemma FlattenConcat(a: seq<LeafVal>, b: seq<LeafVal>)
    ensures Flatten(a + b) == Flatten(a) + Flatten(b)
  {
    if a == [] {
      assert a + b == b;
    } else {
      assert (a + b)[1..] == a[1..] + b;
      FlattenConcat(a[1..], b);
    }
  }

  /** Leaf k sits in the flattened list between what precedes and what follows it. */
  lemma FlattenAround(ls: seq<LeafVal>, k: nat)
    requires k < |ls|
    ensures Flatten(ls) == Flatten(ls[..k]) + ls[k].slots + Flatten(ls[k + 1..])
  {
    hide Flatten;
    var a, rest := ls[..k], [ls[k]] + ls[k + 1..];
    assert ls == a + rest;
    FlattenCons(ls[k], ls[k + 1..]);
    FlattenConcat(a, rest);
    ConcatAssociates(Flatten(a), ls[k].slots, Flatten(ls[k + 1..]));
  }

  lemma FlattenCons(l: LeafVal, rest: seq<LeafVal>)
    ensures Flatten([l] + rest) == l.slots + Flatten(rest)
  {
  }

  lemma {:induction false} FlattenBelow(ls: seq<LeafVal>, key: nat)
    requires forall k :: 0 <= k < |ls| ==> Below(ls[k].slots, key)
    ensures Below(Flatten(ls), key)
  {
    if ls != [] {
      assert Below(ls[0].slots, key);
      FlattenBelow(ls[1..], key);
    }
  }

  lemma {:induction false} FlattenAbove(ls: seq<LeafVal>, key: nat)
    requires forall k :: 0 <= k < |ls| ==> Above(ls[k].slots, key)
    ensures Above(Flatten(ls), key)
  {
    if ls != [] {
      assert Above(ls[0].slots, key);
      FlattenAbove(ls[1..], key);
    }
  }

  lemma OrderedParts(a: seq<Slot>, b: seq<Slot>)
    requires Ordered(a + b)
    ensures Ordered(a) && Ordered(b)
    ensures forall i, j :: 0 <= i < |a| && 0 <= j < |b| ==> a[i].End() <= b[j].key
  {
    var q := a + b;
    forall i | 0 <= i < |a| ensures q[i] == a[i] {}
    forall j | 0 <= j < |b| ensures q[|a| + j] == b[j] {}
    forall i, j | 0 <= i < j < |b| ensures b[i].End() <= b[j].key {
      assert q[|a| + i].End() <= q[|a| + j].key;
    }
    forall j | 0 <= j < |b| ensures b[j].size > 0 {
      assert q[|a| + j].size > 0;
    }
    forall i, j | 0 <= i < |a| && 0 <= j < |b| ensures a[i].End() <= b[j].key {
      assert q[i].End() <= q[|a| + j].key;
    }
  }

  /** What a leaf's neighbours look like: everything before ends by its min, everything after starts past its max. */
  lemma LeafInOrder(ls: seq<LeafVal>, k: nat)
    requires WellFormed(ls) && k < |ls|
    ensures Ordered(ls[k].slots) && ls[k].Min() < ls[k].Max()
    ensures Below(Flatten(ls[..k]), ls[k].Min())
    ensures Above(Flatten(ls[k + 1..]), ls[k].Max())
  {
    var a, b, c := Flatten(ls[..k]), ls[k].slots, Flatten(ls[k + 1..]);
    FlattenAround(ls, k);
    OrderedParts(a + b, c);
    OrderedParts(a, b);
    assert (a + b)[|a| + |b| - 1] == b[|b| - 1];
    assert b[0].size > 0;
  }

  lemma {:induction false} SlotsInFlatten(ls: seq<LeafVal>, k: nat, i: nat)
    requires k < |ls| && i < |ls[k].slots|
    ensures |Flatten(ls[..k])| + i < |Flatten(ls)|
    ensures Flatten(ls)[|Flatten(ls[..k])| + i] == ls[k].slots[i]
  {
    FlattenAround(ls, k);
  }

  /** Leaves do not overlap either: an earlier leaf's max is at most a later leaf's min. */
  lemma LeavesInOrder(ls: seq<LeafVal>)
    requires WellFormed(ls)
    ensures forall k :: 0 <= k < |ls| ==> Ordered(ls[k].slots) && ls[k].Min() < ls[k].Max()
    ensures forall j, k :: 0 <= j < k < |ls| ==> ls[j].Max() <= ls[k].Min()
  {
    forall k | 0 <= k < |ls| ensures Ordered(ls[k].slots) && ls[k].Min() < ls[k].Max() {
      LeafInOrder(ls, k);
    }
    forall j, k | 0 <= j < k < |ls| ensures ls[j].Max() <= ls[k].Min() {
      LeafInOrder(ls, k);
      var last := |ls[j].slots| - 1;
      assert ls[..k][j] == ls[j];
      SlotsInFlatten(ls[..k], j, last);
    }
  }

  lemma TwoLeaves(ls: seq<LeafVal>, j: nat, k: nat)
    requires WellFormed(ls) && j < |ls| && k < |ls|
    ensures ls[j].Min() < ls[j].Max() && ls[k].Min() < ls[k].Max()
    ensures j < k ==> ls[j].Max() <= ls[k].Min()
    ensures j <= k ==> ls[j].Max() <= ls[k].Max() && ls[j].Min() <= ls[k].Min()
  {
    LeavesInOrder(ls);
  }

  lemma SlotWithinLeaf(ls: seq<LeafVal>, k: nat, i: nat)
    requires WellFormed(ls) && k < |ls| && i < |ls[k].slots|
    ensures ls[k].slots != [] && Ordered(ls[k].slots)
    ensures ls[k].slots[i].size > 0 && ls[k].Min() <= ls[k].slots[i].key && ls[k].slots[i].End() <= ls[k].Max()
  {
    LeavesInOrder(ls);
    var q := ls[k].slots;
    assert i > 0 ==> q[0].End() <= q[i].key;
    assert i < |q| - 1 ==> q[i].End() <= q[|q| - 1].key;
  }

  /** Every slot of the flattened list sits in some leaf. */
  lemma LeafOfSlot(ls: seq<LeafVal>, at: nat) returns (k: nat, i: nat)
    requires at < |Flatten(ls)|
    ensures k < |ls| && i < |ls[k].slots| && ls[k].slots[i] == Flatten(ls)[at]
    ensures at == |Flatten(ls[..k])| + i
  {
    if at < |ls[0].slots| {
      k, i := 0, at;
    } else {
      k, i := LeafOfSlot(ls[1..], at - |ls[0].slots|);
      k := k + 1;
      assert ls[..k][1..] == ls[1..][..k - 1];
    }
  }

  // ---- which leaf a key belongs to

  /** The first leaf at or after `from` whose max is beyond the key, or |ls|. */
  function FirstPast(ls: seq<LeafVal>, key: nat, from: nat): (h: nat)
    requires Sized(ls) && from <= |ls|
    ensures from <= h <= |ls|
    ensures forall j :: from <= j < h ==> ls[j].Max() <= key
    ensures h < |ls| ==> key < ls[h].Max()
    decreases |ls| - from
  {
    if from == |ls| || key < ls[from].Max() then from else FirstPast(ls, key, from + 1)
  }

  /** The leaf an insert of `key` goes to: the first one ending past the key, else the last one. */
  function Home(ls: seq<LeafVal>, key: nat): (k: nat)
    requires Sized(ls) && ls != []
    ensures k < |ls|
    ensures forall j :: 0 <= j < k ==> ls[j].Max() <= key
    ensures key < ls[k].Max() || k == |ls| - 1
  {
    var h := FirstPast(ls, key, 0);
    if h == |ls| then |ls| - 1 else h
  }

  /** The two tests find_or_add_key makes: the next leaf's min, and the slots of the leaf. */
  ghost predicate FreeAtHome(ls: seq<LeafVal>, key: nat, size: nat)
    requires Sized(ls) && ls != []
  {
    var k := Home(ls, key);
    Free(ls[k].slots, key, size) && (k + 1 < |ls| ==> key + size <= ls[k + 1].Min())
  }

  /** Position of the new slot in the flattened list. */
  function Offset(ls: seq<LeafVal>, key: nat): nat
    requires Sized(ls) && ls != []
  {
    var k := Home(ls, key);
    |Flatten(ls[..k])| + Rank(ls[k].slots, key)
  }

  lemma HomeSurroundings(ls: seq<LeafVal>, key: nat)
    requires WellFormed(ls) && ls != []
    ensures Below(Flatten(ls[..Home(ls, key)]), key)
    ensures Ordered(ls[Home(ls, key)].slots)
  {
    var k := Home(ls, key);
    LeavesInOrder(ls);
    forall j | 0 <= j < |ls[..k]| ensures Below(ls[..k][j].slots, key) {
      var q := ls[j].slots;
      forall i | 0 <= i < |q| ensures q[i].End() <= key {
        assert ls[j].Max() <= key;
        assert i < |q| - 1 ==> q[i].End() <= q[|q| - 1].key;
      }
    }
    FlattenBelow(ls[..k], key);
  }

  /** Looking at the home leaf and its right neighbour decides whether the whole list is free there. */
  lemma FreeAtHomeIsFree(ls: seq<LeafVal>, key: nat, size: nat)
    requires WellFormed(ls) && ls != [] && size > 0
    ensures FreeAtHome(ls, key, size) <==> Free(Flatten(ls), key, size)
    ensures FreeAtHome(ls, key, size) ==> Offset(ls, key) == Rank(Flatten(ls), key)
  {
    var k := Home(ls, key);
    HomeSurroundings(ls, key);
    LeavesInOrder(ls);
    if FreeAtHome(ls, key, size) {
      SeparatedAtHome(ls, key, size);
      SeparatesIsRank(Flatten(ls), Offset(ls, key), key, size);
    }
    if Free(Flatten(ls), key, size) {
      var q := ls[k].slots;
      forall i | 0 <= i < |q| ensures !Overlaps(q[i], key, size) {
        SlotsInFlatten(ls, k, i);
      }
      if k + 1 < |ls| {
        SlotsInFlatten(ls, k + 1, 0);
      }
    }
  }

  lemma SeparatedAtHome(ls: seq<LeafVal>, key: nat, size: nat)
    requires WellFormed(ls) && ls != [] && size > 0 && FreeAtHome(ls, key, size)
    ensures Separates(Flatten(ls), Offset(ls, key), key, size)
  {
    var k := Home(ls, key);
    var a, b, c := Flatten(ls[..k]), ls[k].slots, Flatten(ls[k + 1..]);
    HomeSurroundings(ls, key);
    FreeIffSeparates(b, key, size);
    AboveNext(ls, k, key + size);
    FlattenAround(ls, k);
  }

  lemma AboveNext(ls: seq<LeafVal>, k: nat, key: nat)
    requires WellFormed(ls) && k < |ls|
    requires k + 1 < |ls| ==> key <= ls[k + 1].Min()
    ensures Above(Flatten(ls[k + 1..]), key)
  {
    if k + 1 < |ls| {
      LeafInOrder(ls, k + 1);
      FlattenAround(ls, k + 1);
      var rest := ls[k + 1..];
      assert rest[0] == ls[k + 1] && rest[1..] == ls[k + 2..];
      var q := ls[k + 1].slots;
      forall i | 0 <= i < |q| ensures key <= q[i].key {
        assert i > 0 ==> q[0].End() <= q[i].key;
      }
    }
  }

  // ---- insert

  datatype Index = Index(leaves: seq<LeafVal>, level: nat)

  /** Towers are no taller than the list's level says. */
  ghost predicate Capped(ix: Index) {
    && ix.level < SKIP_MAXLEVEL
    && forall k :: 0 <= k < |ix.leaves| ==> ix.leaves[k].height <= ix.level
  }

  /** A full leaf is split by a node of the pending height, or of height 0 when one is in reserve. */
  function SplitHeight(leafHeight: nat, pending: nat, spare0: bool): nat {
    if leafHeight > 0 && pending <= leafHeight && spare0 then 0 else pending
  }

  /** What add_key_to_leaf makes of leaf l: itself with the slot, or two leaves. */
  function AddKey(l: LeafVal, i: nat, s: Slot, height: nat): (r: seq<LeafVal>)
    requires 1 <= |l.slots| <= KEYS_PER_NODE && i <= |l.slots|
    ensures 1 <= |r| <= 2
    ensures r[0].height == l.height && (|r| == 2 ==> r[1].height == height)
    ensures forall k :: 0 <= k < |r| ==> 1 <= |r[k].slots| <= KEYS_PER_NODE
  {
    if |l.slots| < KEYS_PER_NODE then
      [l.(slots := Splice(l.slots, i, s))]
    else if i == |l.slots| then
      [l, LeafVal([s], height)]
    else if i >= HALF then
      [l.(slots := l.slots[..HALF]), LeafVal(l.slots[HALF..i] + [s] + l.slots[i..], height)]
    else
      [l.(slots := Splice(l.slots[..HALF], i, s)), LeafVal(l.slots[HALF..], height)]
  }

  lemma AddKeyFlattens(l: LeafVal, i: nat, s: Slot, height: nat)
    requires 1 <= |l.slots| <= KEYS_PER_NODE && i <= |l.slots|
    ensures Flatten(AddKey(l, i, s, height)) == Splice(l.slots, i, s)
  {
    var r := AddKey(l, i, s, height);
    assert Flatten(r[1..]) == if |r| == 1 then [] else r[1].slots by {
      if |r| == 2 { assert r[1..][1..] == []; }
    }
  }

  lemma ReplaceFlattens(ls: seq<LeafVal>, k: nat, r: seq<LeafVal>)
    requires k < |ls|
    ensures Flatten(Replace(ls, k, r)) == Flatten(ls[..k]) + Flatten(r) + Flatten(ls[k + 1..])
  {
    FlattenConcat(ls[..k] + r, ls[k + 1..]);
    FlattenConcat(ls[..k], r);
  }

  /** The list after a successful insert. */
  function InsertSpec(ix: Index, s: Slot, pending: nat, spare0: bool): Index
    requires Sized(ix.leaves)
  {
    if ix.leaves == [] then
      Index([LeafVal([s], pending)], if pending > ix.level then ix.level + 1 else ix.level)
    else
      var k := Home(ix.leaves, s.key);
      var l := ix.leaves[k];
      var h := SplitHeight(l.height, pending, spare0);
      var r := AddKey(l, Rank(l.slots, s.key), s, h);
      Index(Replace(ix.leaves, k, r), if |r| == 2 && h > ix.level then h else ix.level)
  }

  /** A successful insert puts the slot in its place in key order and keeps every invariant. */
  lemma InsertRefines(ix: Index, s: Slot, pending: nat, spare0: bool)
    requires WellFormed(ix.leaves) && Capped(ix) && s.size > 0
    requires Free(Flatten(ix.leaves), s.key, s.size)
    requires pending < SKIP_MAXLEVEL && pending <= ix.level + 1
    ensures var n := InsertSpec(ix, s, pending, spare0);
      && Flatten(n.leaves) == Insert(Flatten(ix.leaves), s)
      && WellFormed(n.leaves) && Capped(n)
      && ix.level <= n.level <= ix.level + 1
  {
    InsertFlattens(ix, s, pending, spare0);
    InsertKeepsOrder(Flatten(ix.leaves), s);
    InsertSized(ix, s, pending, spare0);
  }

  lemma FirstFlattens(s: Slot, h: nat)
    ensures Flatten([LeafVal([s], h)]) == Insert(Flatten([]), s) == [s]
  {
  }

  lemma InsertFlattens(ix: Index, s: Slot, pending: nat, spare0: bool)
    requires WellFormed(ix.leaves) && s.size > 0
    requires Free(Flatten(ix.leaves), s.key, s.size)
    ensures Flatten(InsertSpec(ix, s, pending, spare0).leaves) == Insert(Flatten(ix.leaves), s)
  {
    var ls := ix.leaves;
    if ls == [] {
      FirstFlattens(s, pending);
    } else {
      AddedAtHome(ls, s);
      InsertAtHome(ix, s, pending, spare0);
    }
  }

  lemma InsertAtHome(ix: Index, s: Slot, pending: nat, spare0: bool)
    requires Sized(ix.leaves) && ix.leaves != []
    ensures Offset(ix.leaves, s.key) <= |Flatten(ix.leaves)|
    ensures Flatten(InsertSpec(ix, s, pending, spare0).leaves) ==
      Splice(Flatten(ix.leaves), Offset(ix.leaves, s.key), s)
  {
    hide Flatten, SplitHeight, AddKey, Rank, Splice, Sized, Home;
    var ls := ix.leaves;
    var k := Home(ls, s.key);
    SizedLeaf(ls, k);
    KeyAddedFlattens(ls, k, Rank(ls[k].slots, s.key), s, SplitHeight(ls[k].height, pending, spare0));
  }

  lemma SizedLeaf(ls: seq<LeafVal>, k: nat)
    requires Sized(ls) && k < |ls|
    ensures 1 <= |ls[k].slots| <= KEYS_PER_NODE
  {
  }

  lemma AddedAtHome(ls: seq<LeafVal>, s: Slot)
    requires WellFormed(ls) && ls != [] && s.size > 0 && Free(Flatten(ls), s.key, s.size)
    ensures Sized(ls) && Offset(ls, s.key) <= |Flatten(ls)|
    ensures Insert(Flatten(ls), s) == Splice(Flatten(ls), Offset(ls, s.key), s)
  {
    FreeAtHomeIsFree(ls, s.key, s.size);
    hide Flatten, Ordered, Free, Offset, FreeAtHome;
  }

  lemma KeyAddedFlattens(ls: seq<LeafVal>, k: nat, i: nat, s: Slot, h: nat)
    requires Sized(ls) && k < |ls| && i <= |ls[k].slots|
    ensures |Flatten(ls[..k])| + i <= |Flatten(ls)|
    ensures Flatten(Replace(ls, k, AddKey(ls[k], i, s, h))) == Splice(Flatten(ls), |Flatten(ls[..k])| + i, s)
  {
    var l := ls[k];
    FlattenAround(ls, k);
    AddKeyFlattens(l, i, s, h);
    ReplaceFlattens(ls, k, AddKey(l, i, s, h));
    hide *;
    SpliceMiddle(Flatten(ls[..k]), l.slots, Flatten(ls[k + 1..]), i, s);
  }

  lemma ReplaceSized(ls: seq<LeafVal>, k: nat, r: seq<LeafVal>)
    requires Sized(ls) && Sized(r) && k < |ls|
    ensures Sized(Replace(ls, k, r))
  {
  }

  lemma InsertStaysSized(ix: Index, s: Slot, pending: nat, spare0: bool)
    requires Sized(ix.leaves) && pending < SKIP_MAXLEVEL
    ensures Sized(InsertSpec(ix, s, pending, spare0).leaves)
  {
    var ls := ix.leaves;
    if ls != [] {
      var k := Home(ls, s.key);
      var h := SplitHeight(ls[k].height, pending, spare0);
      var r := AddKey(ls[k], Rank(ls[k].slots, s.key), s, h);
      assert Sized(r);
      ReplaceSized(ls, k, r);
    }
  }

  lemma InsertSized(ix: Index, s: Slot, pending: nat, spare0: bool)
    requires Sized(ix.leaves) && Capped(ix)
    requires pending < SKIP_MAXLEVEL && pending <= ix.level + 1
    ensures Sized(InsertSpec(ix, s, pending, spare0).leaves) && Capped(InsertSpec(ix, s, pending, spare0))
    ensures ix.level <= InsertSpec(ix, s, pending, spare0).level <= ix.level + 1
  {
    InsertStaysSized(ix, s, pending, spare0);
    var ls := ix.leaves;
    if ls != [] {
      var k := Home(ls, s.key);
      var h := SplitHeight(ls[k].height, pending, spare0);
      var r := AddKey(ls[k], Rank(ls[k].slots, s.key), s, h);
      ReplaceCapped(ls, k, r, if |r| == 2 && h > ix.level then h else ix.level);
    }
  }

  lemma ReplaceCapped(ls: seq<LeafVal>, k: nat, r: seq<LeafVal>, level: nat)
    requires k < |ls| && level < SKIP_MAXLEVEL
    requires Capped(Index(ls, level)) && Capped(Index(r, level))
    ensures Capped(Index(Replace(ls, k, r), level))
  {
  }

  lemma ReplaceHeights(ls: seq<LeafVal>, k: nat, r: seq<LeafVal>)
    requires k < |ls| && 1 <= |r| <= 2 && r[0].height == ls[k].height
    ensures var n := Replace(ls, k, r);
      && |n| == |ls| + |r| - 1 && (|r| == 2 ==> n[k + 1] == r[1])
      && (forall j {:trigger n[j]} :: 0 <= j <= k ==> n[j].height == ls[j].height)
      && (forall j {:trigger ls[j]} :: k < j < |ls| ==> n[j + |r| - 1].height == ls[j].height)
  {
    var n := Replace(ls, k, r);
    forall j | k < j < |ls| ensures n[j + |r| - 1] == ls[j] {
    }
  }

  /** Leaf k of the old list stands at the same place in the new one, or one further on behind a leaf split off. */
  ghost predicate HeightsKept(ls: seq<LeafVal>, n: seq<LeafVal>, k: nat) {
    && |ls| <= |n| <= |ls| + 1
    && (forall j {:trigger n[j]} :: 0 <= j <= k && j < |ls| ==> n[j].height == ls[j].height)
    && (forall j {:trigger ls[j]} :: k < j < |ls| ==> n[j + |n| - |ls|].height == ls[j].height)
  }

  /**
    * The towers after an insert: no leaf's changes. A split puts a leaf of the drawn level after one that is lower or
    * of height 0, which also raises the list's level to it; with a leaf of height 0 in reserve, a split of a tall leaf
    * never makes another leaf no taller than it, except of height 0.
    */
  lemma {:induction false} InsertHeights(ix: Index, s: Slot, pending: nat, spare0: bool)
    requires Sized(ix.leaves)
    ensures ix.leaves == [] ==> var n := InsertSpec(ix, s, pending, spare0);
      |n.leaves| == 1 && n.leaves[0].height == pending
        && n.level == if pending > ix.level then ix.level + 1 else ix.level
    ensures ix.leaves != [] ==> var n, k := InsertSpec(ix, s, pending, spare0), Home(ix.leaves, s.key);
      && HeightsKept(ix.leaves, n.leaves, k)
      && (|n.leaves| == |ix.leaves| ==> n.level == ix.level)
      && (|n.leaves| > |ix.leaves| ==>
            var h, g := ix.leaves[k].height, n.leaves[k + 1].height;
            && (h == 0 || pending > h || !spare0 ==> g == pending)
            && (0 < h && pending <= h && spare0 ==> g == 0)
            && n.level == if g > ix.level then g else ix.level)
  {
    if ix.leaves != [] {
      var ls, k := ix.leaves, Home(ix.leaves, s.key);
      var g := SplitHeight(ls[k].height, pending, spare0);
      SizedLeaf(ls, k);
      AddKeyHeights(ls[k], Rank(ls[k].slots, s.key), s, g);
      ReplaceHeights(ls, k, AddKey(ls[k], Rank(ls[k].slots, s.key), s, g));
    }
    hide AddKey, Rank, Home, Sized, Replace;
  }

  lemma AddKeyHeights(l: LeafVal, i: nat, s: Slot, g: nat)
    requires 1 <= |l.slots| <= KEYS_PER_NODE && i <= |l.slots|
    ensures var r := AddKey(l, i, s, g); 1 <= |r| <= 2 && r[0].height == l.height && (|r| == 2 ==> r[1].height == g)
  {
  }

  /** A split leaves both leaves at least half full, but one past the end leaves the full leaf as it is. */
  lemma SplitsEvenly(l: LeafVal, i: nat, s: Slot, g: nat)
    requires 1 <= |l.slots| <= KEYS_PER_NODE && i <= |l.slots|
    ensures var r := AddKey(l, i, s, g);
      && (|r| == 2 <==> |l.slots| == KEYS_PER_NODE)
      && (|r| == 2 && i == |l.slots| ==> r[0] == l && r[1].slots == [s])
      && (|r| == 2 && i < |l.slots| ==> 2 * |r[0].slots| >= KEYS_PER_NODE && 2 * |r[1].slots| >= KEYS_PER_NODE)
  {
  }

  // ---- delete

  /** Leaf k loses its i-th slot, and the list loses the leaf when that was its only one. */
  function DeleteSpec(ix: Index, k: nat, i: nat): Index
    requires k < |ix.leaves| && i < |ix.leaves[k].slots|
  {
    var l := ix.leaves[k];
    var left := Without(l.slots, i);
    ix.(leaves := Replace(ix.leaves, k, if left == [] then [] else [l.(slots := left)]))
  }

  /** Exactly one slot goes; the others keep their order and every invariant holds. */
  lemma DeleteRefines(ix: Index, k: nat, i: nat)
    requires WellFormed(ix.leaves) && Capped(ix)
    requires k < |ix.leaves| && i < |ix.leaves[k].slots|
    ensures var n := DeleteSpec(ix, k, i);
      var at := |Flatten(ix.leaves[..k])| + i;
      && at < |Flatten(ix.leaves)| && Flatten(ix.leaves)[at] == ix.leaves[k].slots[i]
      && Flatten(n.leaves) == Without(Flatten(ix.leaves), at)
      && WellFormed(n.leaves) && Capped(n) && n.level == ix.level
  {
    var q, at := Flatten(ix.leaves), |Flatten(ix.leaves[..k])| + i;
    DeleteFlattens(ix, k, i);
    DeleteSized(ix, k, i);
    WithoutOrder(q, at);
    hide Flatten, DeleteSpec, Capped, Ordered, Without, Sized;
  }

  lemma DeleteFlattens(ix: Index, k: nat, i: nat)
    requires k < |ix.leaves| && i < |ix.leaves[k].slots|
    ensures var at := |Flatten(ix.leaves[..k])| + i;
      && at < |Flatten(ix.leaves)| && Flatten(ix.leaves)[at] == ix.leaves[k].slots[i]
      && Flatten(DeleteSpec(ix, k, i).leaves) == Without(Flatten(ix.leaves), at)
  {
    var ls := ix.leaves;
    var l := ls[k];
    var left := Without(l.slots, i);
    var r := if left == [] then [] else [l.(slots := left)];
    FlattenAround(ls, k);
    ReplaceFlattens(ls, k, r);
    assert Flatten(r) == left by {
      assert r != [] ==> r[1..] == [];
    }
    WithoutMiddle(Flatten(ls[..k]), l.slots, Flatten(ls[k + 1..]), i);
  }

  lemma DeleteSized(ix: Index, k: nat, i: nat)
    requires Sized(ix.leaves) && Capped(ix) && k < |ix.leaves| && i < |ix.leaves[k].slots|
    ensures Sized(DeleteSpec(ix, k, i).leaves) && Capped(DeleteSpec(ix, k, i)) && DeleteSpec(ix, k, i).level == ix.level
  {
    var l := ix.leaves[k];
    var left := Without(l.slots, i);
    var r := if left == [] then [] else [l.(slots := left)];
    ReplaceSized(ix.leaves, k, r);
    ReplaceCapped(ix.leaves, k, r, ix.level);
  }
}
