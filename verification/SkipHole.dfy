/** skiplist_insert_hole as a whole, run alone. */
module SkipHole {
  import opened Extents
  import opened Sequences
  import opened Leaves
  import opened Towers
  import opened IndexSpec
  import opened SkipLists
  import opened TowerLinks
  import opened Inserting
  import opened InsertPath
  import opened Lookup
  import opened SkipInsert
  import opened Holes

  const EAGAIN: int := 11

  /** The inner loop of the hole walk over one leaf's keys. */
  method ScanLeaf(leaf: Leaf, end: nat, size: nat, limit: nat, k: nat) returns (r: ScanResult)
    requires leaf.Holds()
    ensures r == Scan(leaf.slots, 0, end, size, limit, k)
  {
    var lastEnd: nat := end;
    var i := 0;
    while i < leaf.nr
      invariant 0 <= i <= leaf.nr
      invariant Scan(leaf.slots, i, lastEnd, size, limit, k) == Scan(leaf.slots, 0, end, size, limit, k)
    {
      if lastEnd <= leaf.keys[i] {
        if leaf.keys[i] - lastEnd >= size {
          if lastEnd + size > limit {
            return Exhausted;
          }
          return Found(lastEnd);
        }
        lastEnd := AlignStart(leaf.keys[i] + leaf.ptrs[i].slot.size, k);
        if lastEnd + size > limit {
          return Exhausted;
        }
      }
      i := i + 1;
    }
    r := Through(lastEnd);
  }

  /** A leaf that ends before the candidate start can be skipped without looking at its keys. */
  lemma {:induction false} SkippedLeaf(q: seq<Slot>, i: nat, end: nat, size: nat, limit: nat, k: nat)
    requires i <= |q| && forall j :: 0 <= j < |q| ==> q[j].key < end
    ensures Scan(q, i, end, size, limit, k) == Through(end)
    decreases |q| - i
  {
    if i < |q| {
      SkippedLeaf(q, i + 1, end, size, limit, k);
    }
  }

  lemma KeysBelowMax(l: LeafVal)
    requires l.slots != [] && Ordered(l.slots)
    ensures forall j :: 0 <= j < |l.slots| ==> l.slots[j].key < l.Max()
  {
  }

  method VisitHole(list: SkipList, leaf: Node, end: nat, size: nat, limit: nat, k: nat, ghost y: nat)
    returns (r: ScanResult)
    requires list.Valid() && y > 0 && list.At(leaf, y, 0)
    ensures y <= |list.leaves| && r == Scan(list.leaves[y - 1].slots, 0, end, size, limit, k)
  {
    hide SkipList.Valid, SkipList.At, Ordered, Scan;
    list.LeafReady(leaf, y);
    var max := list.MaxKey(leaf, y);
    if end > max {
      KeysBelowMax(list.leaves[y - 1]);
      SkippedLeaf(list.leaves[y - 1].slots, 0, end, size, limit, k);
      return Through(end);
    }
    r := ScanLeaf(leaf.leaf, end, size, limit, k);
  }

  /** The walk at level 0, two locks at a time, until a hole turns up or the list ends. */
  method WalkHoles(list: SkipList, cpu: Cpu, from: Node, end: nat, size: nat, limit: nat, k: nat, ghost x0: nat)
    returns (r: ScanResult, leaf: Node?, ghost y: nat)
    requires list.Valid() && list.At(from, x0, 0) && cpu.held == {from} && x0 <= |list.leaves|
    modifies cpu`held
    ensures r == ScanLeaves(list.leaves, x0, end, size, limit, k)
    ensures r.Found? <==> leaf != null
    ensures leaf == null ==> cpu.held == {}
    ensures leaf != null ==> y > 0 && list.At(leaf, y, 0) && cpu.held == {leaf}
  {
    hide SkipList.Valid, SkipList.At, SkipList.Follows, Scan;
    var p: Node, lastEnd := from, end;
    ghost var x := x0;
    leaf, y := list.NextLeaf(p, 0, x);
    OneStep(list, leaf, x, y);
    while leaf != null
      invariant list.At(p, x, 0) && list.Follows(leaf, x, y, 0) && cpu.held == {p} && x <= |list.leaves|
      invariant leaf != null ==> list.At(leaf, y, 0) && y == x + 1 <= |list.leaves|
      invariant leaf == null ==> x == |list.leaves|
      invariant ScanLeaves(list.leaves, x, lastEnd, size, limit, k) == ScanLeaves(list.leaves, x0, end, size, limit, k)
      decreases |list.leaves| - x
    {
      NextToIt(list, p, leaf, x, y);
      NothingRight(list, cpu, p, x, y);
      list.AtIsPosition(leaf, y);
      list.LockNode(cpu, leaf, y);
      r := VisitHole(list, leaf, lastEnd, size, limit, k, y);
      match r {
        case Found(_) =>
          list.UnlockNode(cpu, p);
          return;
        case Exhausted =>
          list.UnlockNode(cpu, leaf);
          list.UnlockNode(cpu, p);
          leaf := null;
          return;
        case Through(next) =>
          lastEnd := next;
          list.UnlockNode(cpu, p);
          p, x := leaf, y;
          leaf, y := list.NextLeaf(p, 0, x);
          OneStep(list, leaf, x, y);
      }
    }
    list.UnlockNode(cpu, p);
    r := Through(lastEnd);
  }

  lemma NextToIt(list: SkipList, p: Node, leaf: Node, x: nat, y: nat)
    requires list.Valid() && list.At(p, x, 0) && list.Follows(leaf, x, y, 0)
    ensures p != leaf && y == x + 1
  {
    OneStep(list, leaf, x, y);
    assert list.LevelWired(0) && Distinct(list.lists[0]);
  }

  lemma OneStep(list: SkipList, leaf: Node?, x: nat, y: nat)
    requires list.Valid() && list.Follows(leaf, x, y, 0)
    ensures y == x + 1 && (leaf == null <==> x == |list.leaves|)
  {
    list.Basics();
    var after := list.lists[0][if y > x + 1 then x + 1 else x];
  }

  /** Where the walk starts: from the hint at the head, else from the aligned end of the leaf before it. */
  function HoleStart(ls: seq<LeafVal>, x: nat, hint: nat, k: nat): nat
    requires x <= |ls| && (x > 0 ==> ls[x - 1].slots != [])
  {
    if x == 0 then AlignStart(hint, k) else AlignStart(ls[x - 1].Max(), k)
  }

  /** Position x is where a lookup of the hint stops: past leaves that end by it, all of them if it lies in no leaf. */
  ghost predicate StartsAt(ls: seq<LeafVal>, x: nat, hint: nat) {
    && Passed(ls, x, hint)
    && (NoHome(ls, hint) && x < |ls| ==> ls[x].slots != [] && hint < ls[x].Min())
  }

  lemma StoppedStarts(list: SkipList, x: nat, y: nat, hint: nat)
    requires list.Valid() && Stopped(list, x, y, 0, hint)
    ensures StartsAt(list.leaves, x, hint)
  {
    hide SkipList.Valid;
    StopsAtGap(list, x, y, hint);
  }

  method FindStart(list: SkipList, cpu: Cpu, hint: nat, size: nat, k: nat) returns (p: Node, end: nat, ghost x: nat)
    requires list.Valid() && cpu.held == {}
    modifies cpu`held
    ensures list.At(p, x, 0) && cpu.held == {p} && Passed(list.leaves, x, hint) && StartsAt(list.leaves, x, hint)
      && end == HoleStart(list.leaves, x, hint, k)
  {
    hide SkipList.Valid, SkipList.At, Stopped, NoHome;
    list.Basics();
    end := 0;
    if hint > end {
      end := hint;
    }
    end := AlignStart(end, k);
    var leaf;
    ghost var y;
    leaf, p, x, y := LookupLeaf(list, hint);
    if leaf != null {
      var ok := VerifyKeyInLeaf(list, leaf, hint, size, y);
      if !ok {
        assert false;
      }
      HasHome(list.leaves, y - 1, hint);
    } else {
      StoppedStarts(list, x, y, hint);
    }
    list.AtIsPosition(p, x);
    list.LockNode(cpu, p, x);
    list.AliveAt(p, x);
    if p.dead {
      assert false;
    }
    HeadIsFirst(list, p, x);
    if p != list.head {
      var max := list.MaxKey(p, x);
      if max > hint {
        assert false;
      }
      end := AlignStart(max, k);
    }
  }

  lemma HasHome(ls: seq<LeafVal>, k: nat, key: nat)
    requires IsHomeOf(ls, k, key)
    ensures !NoHome(ls, key)
  {
  }

  lemma HomeOfPoint(ls: seq<LeafVal>, k: nat, key: nat)
    requires WellFormed(ls) && IsHomeOf(ls, k, key)
    ensures ls != [] && k == Home(ls, key)
  {
    TwoLeaves(ls, k, Home(ls, key));
    TwoLeaves(ls, Home(ls, key), k);
  }

  /** The try_insert label: straight into the locked leaf when the hole lies inside its range, else a full insert. */
  method TryInsert(list: SkipList, cpu: Cpu, s: Slot, leaf: Node?, token: nat, pending: nat, ghost y: nat)
    returns (ret: int)
    requires list.Valid() && s.size > 0 && Preloaded(list, cpu, token) && pending == PendingLevel(cpu, token)
    requires leaf == null ==> cpu.held == {}
    requires leaf != null ==> y > 0 && list.At(leaf, y, 0) && cpu.held == {leaf}
    modifies list.Footprint(), cpu.Footprint()
    ensures list.Valid() && cpu.held == {}
    ensures Inserted(old(Index(list.leaves, list.level)), Index(list.leaves, list.level), s,
                     old(PendingLevel(cpu, token)), old(cpu.preload[0] != null), ret)
  {
    hide SkipList.Valid, SkipList.At, Spare, Free, InsertSpec, CursorReady, Flatten, Ordered, Parts, LeavesOf;
    list.WellFormedLeaves();
    WellFormedIsSized(list.leaves);
    if leaf != null {
      list.LeafReady(leaf, y);
      list.AliveAt(leaf, y);
      NothingRight(list, cpu, leaf, y, y + 1);
      if (pending == 0 || leaf.leaf.nr < KEYS_PER_NODE) && !leaf.dead && s.key >= leaf.leaf.keys[0]
        && s.End() <= leaf.leaf.max {
        HomeOfPoint(list.leaves, y - 1, s.key);
        ret := FindOrAddKey(list, cpu, s, leaf, token, y);
        list.UnlockNode(cpu, leaf);
        return;
      }
      list.UnlockNode(cpu, leaf);
    }
    ret := SkiplistInsert(list, cpu, s, token);
  }

  /** What skiplist_insert_hole leaves behind, for any hint; `s` is the slot as it was filled in. */
  ghost predicate HoleDone(was: Index, now: Index, ret: int, s: Slot, size: nat, limit: nat, k: nat, pending: nat,
          spare0: bool)
    requires Sized(was.leaves)
  {
    && (ret == 0 || ret == -EEXIST || ret == -EAGAIN)
    && (ret == 0 ==>
      s.size == size && Aligned(s.key, k) && s.End() <= limit && Free(Flatten(was.leaves), s.key, s.size))
    && (ret == 0 ==> now == InsertSpec(was, s, pending, spare0))
    && (ret != 0 ==> now == was)
    && (ret == -EAGAIN ==> !Free(Flatten(was.leaves), s.key, s.size))
  }

  /** What is returned for the outcome of a walk: -EEXIST when it offers no room, else the offer is what is tried. */
  ghost predicate Offered(r: ScanResult, ret: int, s: Slot, size: nat, limit: nat) {
    match r
    case Exhausted => ret == -EEXIST
    case Found(key) => ret != -EEXIST && s == Slot(key, size)
    case Through(end) => if end + size > limit then ret == -EEXIST else ret != -EEXIST && s == Slot(end, size)
  }

  /** The walk started where the lookup of the hint stopped. */
  ghost predicate OfferedFrom(ls: seq<LeafVal>, x: nat, hint: nat, ret: int, s: Slot, size: nat, limit: nat, k: nat) {
    StartsAt(ls, x, hint) && x <= |ls| && (x > 0 ==> ls[x - 1].slots != [])
    && Offered(ScanLeaves(ls, x, HoleStart(ls, x, hint, k), size, limit, k), ret, s, size, limit)
  }

  /** What a scan offers lies at or past where it started. */
  ghost predicate AtOrPast(r: ScanResult, bound: nat) {
    match r
    case Exhausted => true
    case Found(key) => key >= bound
    case Through(end) => end >= bound
  }

  lemma {:induction false} ScanGoesRight(q: seq<Slot>, i: nat, end: nat, size: nat, limit: nat, k: nat)
    requires i <= |q|
    ensures AtOrPast(Scan(q, i, end, size, limit, k), end)
    decreases |q| - i
  {
    if i < |q| {
      var next := if end > q[i].key then end else AlignStart(q[i].End(), k);
      AlignStartIsLeast(q[i].End(), k);
      ScanGoesRight(q, i + 1, next, size, limit, k);
    }
  }

  lemma {:induction false} WalkGoesRight(ls: seq<LeafVal>, x: nat, end: nat, size: nat, limit: nat, k: nat)
    requires x <= |ls|
    ensures AtOrPast(ScanLeaves(ls, x, end, size, limit, k), end)
    decreases |ls| - x
  {
    if x < |ls| {
      var r := Scan(ls[x].slots, 0, end, size, limit, k);
      ScanGoesRight(ls[x].slots, 0, end, size, limit, k);
      if r.Through? {
        WalkGoesRight(ls, x + 1, r.end, size, limit, k);
      }
    }
  }

  /** The one place before the hint that a walk can offer: right behind the leaf it started after. */
  ghost predicate RoomBehind(ls: seq<LeafVal>, x: nat, hint: nat, size: nat, k: nat)
    requires Sized(ls)
  {
    0 < x <= |ls| && AlignStart(ls[x - 1].Max(), k) < hint
    && (x == |ls| || ls[x].Min() >= AlignStart(ls[x - 1].Max(), k) + size)
  }

  lemma BehindFirstSlot(q: seq<Slot>, end: nat, size: nat, limit: nat, k: nat)
    requires q != [] && end <= q[0].key < end + size
    ensures AtOrPast(Scan(q, 0, end, size, limit, k), q[0].End())
  {
    AlignStartIsLeast(q[0].End(), k);
    ScanGoesRight(q, 1, AlignStart(q[0].End(), k), size, limit, k);
  }

  lemma BehindFirstLeaf(ls: seq<LeafVal>, x: nat, end: nat, size: nat, limit: nat, k: nat)
    requires x < |ls| && ls[x].slots != [] && end <= ls[x].Min() < end + size
    ensures AtOrPast(ScanLeaves(ls, x, end, size, limit, k), ls[x].Min())
  {
    BehindFirstSlot(ls[x].slots, end, size, limit, k);
    var r := Scan(ls[x].slots, 0, end, size, limit, k);
    if r.Through? {
      WalkGoesRight(ls, x + 1, r.end, size, limit, k);
    }
  }

  lemma StartIsFirstPast(ls: seq<LeafVal>, x: nat, hint: nat)
    requires WellFormed(ls) && Sized(ls) && StartsAt(ls, x, hint) && NoHome(ls, hint)
    ensures x == FirstPast(ls, hint, 0)
  {
    var h := FirstPast(ls, hint, 0);
    if h < x {
      TwoLeaves(ls, h, x - 1);
    } else if x < h {
      TwoLeaves(ls, x, x);
    }
  }

  /**
    * A hint that lies in no leaf is not a lower bound: the range tried starts before the hint exactly when the leaves
    * that end by the hint leave an aligned place before it that is clear up to the next leaf.
    */
  lemma {:induction false} HoleBeforeHintIff(ls: seq<LeafVal>, x: nat, hint: nat, ret: int, s: Slot, size: nat,
          limit: nat, k: nat)
    requires WellFormed(ls) && Sized(ls) && OfferedFrom(ls, x, hint, ret, s, size, limit, k)
    requires NoHome(ls, hint) && ret != -EEXIST && size > 0
    ensures s.key < hint <==> RoomBehind(ls, FirstPast(ls, hint, 0), hint, size, k)
  {
    hide WellFormed;
    StartIsFirstPast(ls, x, hint);
    var start := HoleStart(ls, x, hint, k);
    AlignStartIsLeast(hint, k);
    WalkGoesRight(ls, x, start, size, limit, k);
    if x < |ls| && start < hint && ls[x].Min() < start + size {
      BehindFirstLeaf(ls, x, start, size, limit, k);
    }
  }

  /** For any hint, the range tried can start before it only in room behind a leaf that ends by the hint. */
  lemma {:induction false} HoleBeforeHintOnly(ls: seq<LeafVal>, x: nat, hint: nat, ret: int, s: Slot, size: nat,
          limit: nat, k: nat)
    requires Sized(ls) && OfferedFrom(ls, x, hint, ret, s, size, limit, k) && ret != -EEXIST && s.key < hint
    ensures 0 < x <= |ls| && ls[x - 1].Max() <= AlignStart(ls[x - 1].Max(), k) <= s.key
  {
    var start := HoleStart(ls, x, hint, k);
    AlignStartIsLeast(hint, k);
    if x > 0 {
      AlignStartIsLeast(ls[x - 1].Max(), k);
    }
    WalkGoesRight(ls, x, start, size, limit, k);
  }

  /** Without a hint, over slots that are all aligned: the least aligned free place, or none below the limit. */
  ghost predicate FirstFitDone(q: seq<Slot>, ret: int, s: Slot, size: nat, limit: nat, k: nat) {
    && ret != -EAGAIN
    && (ret == 0 ==> FirstFit(q, s.key, size, k))
    && (ret == -EEXIST ==> NoFitFrom(q, 0, size, limit, k))
  }

  /** The outcome of the walk, from whichever leaf it started at. */
  lemma WalkOutcome(ls: seq<LeafVal>, x: nat, hint: nat, size: nat, limit: nat, k: nat)
    requires WellFormed(ls) && Passed(ls, x, hint) && size > 0
    ensures var r := ScanLeaves(ls, x, HoleStart(ls, x, hint, k), size, limit, k);
      && (r.Found? ==> Aligned(r.key, k) && r.key + size <= limit)
      && (r.Through? ==> Aligned(r.end, k))
      && (hint == 0 && AllAligned(Flatten(ls), k) ==>
            && (r.Found? ==> FirstFit(Flatten(ls), r.key, size, k))
            && (r.Through? ==> FirstFit(Flatten(ls), r.end, size, k))
            && (r.Exhausted? ==> NoFitFrom(Flatten(ls), 0, size, limit, k)))
  {
    hide WellFormed, FirstFit, Fits, AllAligned, Flatten, Aligned, Scan;
    var start := HoleStart(ls, x, hint, k);
    AlignStartIsLeast(if x == 0 then hint else ls[x - 1].Max(), k);
    ScanLeavesIsScan(ls, x, start, size, limit, k);
    ScanAligned(Flatten(ls[x..]), 0, start, size, limit, k);
    if hint == 0 && AllAligned(Flatten(ls), k) {
      StartsAtZero(ls, x, k);
      assert ls[0..] == ls;
      OrderedLeaves(ls);
      ScanFromZero(Flatten(ls), size, limit, k);
    }
  }

  /** For any hint and any stored keys, no aligned free place at or past the hint is passed over. */
  ghost predicate NoRoomSkipped(q: seq<Slot>, hint: nat, ret: int, s: Slot, size: nat, limit: nat, k: nat) {
    if ret == -EEXIST then NoFitFrom(q, hint, size, limit, k) else NoFitIn(q, hint, s.key, size, k)
  }

  /** The walk starts past no aligned place that the hint allows. */
  lemma StartSkipsNone(ls: seq<LeafVal>, x: nat, hint: nat, q: seq<Slot>, size: nat, k: nat)
    requires Passed(ls, x, hint) && Sized(ls)
    ensures x <= |ls| && (x > 0 ==> ls[x - 1].slots != [])
    ensures NoFitIn(q, hint, HoleStart(ls, x, hint, k), size, k)
  {
    AlignStartIsLeast(if x == 0 then hint else ls[x - 1].Max(), k);
    hide AlignStart;
  }

  /** What is free in the whole list is free in the leaves the walk looks at. */
  lemma FreeInSuffix(ls: seq<LeafVal>, x: nat, key: nat, size: nat)
    requires x <= |ls| && Free(Flatten(ls), key, size)
    ensures Free(Flatten(ls[x..]), key, size)
  {
    assert ls == ls[..x] + ls[x..];
    FlattenConcat(ls[..x], ls[x..]);
    FreeInTail(Flatten(ls[..x]), Flatten(ls[x..]), key, size);
    hide Flatten, Free;
  }

  lemma FreeInTail(a: seq<Slot>, b: seq<Slot>, key: nat, size: nat)
    requires Free(a + b, key, size)
    ensures Free(b, key, size)
  {
    forall i | 0 <= i < |b| ensures !Overlaps(b[i], key, size) {
      assert (a + b)[|a| + i] == b[i];
    }
  }

  lemma {:induction false} WalkSkipsNoRoom(ls: seq<LeafVal>, x: nat, hint: nat, ret: int, s: Slot, size: nat,
          limit: nat, k: nat)
    requires Passed(ls, x, hint) && Sized(ls) && OfferedFrom(ls, x, hint, ret, s, size, limit, k)
    ensures NoRoomSkipped(Flatten(ls), hint, ret, s, size, limit, k)
  {
    var start, q := HoleStart(ls, x, hint, k), Flatten(ls[x..]);
    StartSkipsNone(ls, x, hint, q, size, k);
    ScanLeavesIsScan(ls, x, start, size, limit, k);
    ScanSkipsNoRoom(q, 0, hint, start, size, limit, k);
    forall key: nat | Fits(Flatten(ls), key, size, k) ensures Fits(q, key, size, k) {
      FreeInSuffix(ls, x, key, size);
    }
    hide Flatten, Free, Aligned, Scan, ScanLeaves, AlignStart, StartsAt, HoleStart;
  }

  /** The leaves before the one the walk starts at hold only keys before the start. */
  lemma StartPastKeys(ls: seq<LeafVal>, x: nat, hint: nat, k: nat)
    requires WellFormed(ls) && Passed(ls, x, hint)
    ensures x <= |ls| && (x > 0 ==> ls[x - 1].slots != []) && Below(Flatten(ls[..x]), HoleStart(ls, x, hint, k))
    ensures Flatten(ls) == Flatten(ls[..x]) + Flatten(ls[x..]) && Ordered(Flatten(ls[x..]))
  {
    SuffixOrdered(ls, x);
    if x == 0 {
      assert ls[..0] == [] && Flatten([]) == [];
    } else {
      AlignStartIsLeast(ls[x - 1].Max(), k);
      BelowMax(ls, x);
    }
    hide WellFormed, AlignStart, Ordered;
  }

  lemma SuffixOrdered(ls: seq<LeafVal>, x: nat)
    requires WellFormed(ls) && x <= |ls|
    ensures Flatten(ls) == Flatten(ls[..x]) + Flatten(ls[x..]) && Ordered(Flatten(ls[x..]))
  {
    assert ls == ls[..x] + ls[x..];
    FlattenConcat(ls[..x], ls[x..]);
    OrderedParts(Flatten(ls[..x]), Flatten(ls[x..]));
    hide Flatten, Ordered;
  }

  /** All slots of the first leaves end by the max of the last of these. */
  lemma BelowMax(ls: seq<LeafVal>, x: nat)
    requires WellFormed(ls) && 0 < x <= |ls| && ls[x - 1].slots != []
    ensures Below(Flatten(ls[..x]), ls[x - 1].Max())
  {
    LeafInOrder(ls, x - 1);
    EndsByLast(ls[x - 1].slots);
    var a, q := Flatten(ls[..x - 1]), ls[x - 1].slots;
    FlattenUpTo(ls, x);
    var b: seq<Slot> := a + q;
    forall j | 0 <= j < |b| ensures b[j].End() <= ls[x - 1].Max() {
    }
    hide WellFormed, Flatten, Ordered;
  }

  lemma FlattenUpTo(ls: seq<LeafVal>, x: nat)
    requires 0 < x <= |ls|
    ensures Flatten(ls[..x]) == Flatten(ls[..x - 1]) + ls[x - 1].slots
  {
    var l := ls[x - 1];
    assert ls[..x] == ls[..x - 1] + [l] && [l] == [l] + [];
    FlattenConcat(ls[..x - 1], [l]);
    FlattenCons(l, []);
  }

  lemma EndsByLast(q: seq<Slot>)
    requires Ordered(q) && q != []
    ensures Below(q, q[|q| - 1].End())
  {
    forall j | 0 <= j < |q| ensures q[j].End() <= q[|q| - 1].End() {
      assert j < |q| - 1 ==> q[j].End() <= q[|q| - 1].key;
    }
  }

  /** A place that turns out to be taken is taken by a slot that begins before it. */
  lemma {:induction false} TakenByEarlier(ls: seq<LeafVal>, x: nat, hint: nat, ret: int, s: Slot, size: nat, limit: nat,
          k: nat)
    requires WellFormed(ls) && Passed(ls, x, hint) && size > 0 && OfferedFrom(ls, x, hint, ret, s, size, limit, k)
    requires ret != -EEXIST && !Free(Flatten(ls), s.key, s.size)
    ensures Straddled(Flatten(ls), s.key)
  {
    var a, b, start := Flatten(ls[..x]), Flatten(ls[x..]), HoleStart(ls, x, hint, k);
    StartPastKeys(ls, x, hint, k);
    ScanLeavesIsScan(ls, x, start, size, limit, k);
    ScanBetweenKeys(b, 0, start, size, limit, k);
    WalkGoesRight(ls, x, start, size, limit, k);
    NoneBeginsInBoth(a, b, s.key, size);
    TakenIsStraddled(a + b, s.key, size);
    hide Flatten, Free, Scan, ScanLeaves, HoleStart, StartsAt, WellFormed, NoneBegins, Straddled;
  }

  lemma NoneBeginsInBoth(a: seq<Slot>, b: seq<Slot>, key: nat, size: nat)
    requires Below(a, key) && Ordered(a + b) && NoneBegins(b, key, size)
    ensures NoneBegins(a + b, key, size)
  {
    forall i | 0 <= i < |a + b| ensures (a + b)[i].key < key || key + size <= (a + b)[i].key {
      if i < |a| {
        assert (a + b)[i] == a[i] && (a + b)[i].size > 0;
      }
    }
  }

  lemma OrderedLeaves(ls: seq<LeafVal>)
    requires WellFormed(ls)
    ensures Ordered(Flatten(ls))
  {
  }

  /** No leaf ends at or before 0, so a walk for hint 0 starts at the head, at 0. */
  lemma StartsAtZero(ls: seq<LeafVal>, x: nat, k: nat)
    requires WellFormed(ls) && Passed(ls, x, 0)
    ensures x == 0 && HoleStart(ls, x, 0, k) == 0
  {
    hide WellFormed, AlignStart;
    if x > 0 {
      TwoLeaves(ls, x - 1, x - 1);
    }
    ZeroAligned(k);
  }

  /** skiplist_insert_hole, after skiplist_preload has filled the entry for the token. */
  method SkiplistInsertHole(list: SkipList, cpu: Cpu, hint: nat, limit: nat, size: nat, k: nat, token: nat)
    returns (ret: int, s: Slot)
    requires list.Valid() && size > 0 && Preloaded(list, cpu, token) && cpu.held == {}
    modifies list.Footprint(), cpu.Footprint()
    ensures list.Valid() && cpu.held == {}
    ensures HoleDone(old(Index(list.leaves, list.level)), Index(list.leaves, list.level), ret, s, size, limit, k,
                     old(PendingLevel(cpu, token)), old(cpu.preload[0] != null))
    ensures exists x: nat :: OfferedFrom(old(list.leaves), x, hint, ret, s, size, limit, k)
    ensures Sized(old(list.leaves)) && (NoHome(old(list.leaves), hint) && ret != -EEXIST ==>
      (s.key < hint <==> RoomBehind(old(list.leaves), FirstPast(old(list.leaves), hint, 0), hint, size, k)))
    ensures NoRoomSkipped(old(Flatten(list.leaves)), hint, ret, s, size, limit, k)
    ensures ret == -EAGAIN ==> Straddled(old(Flatten(list.leaves)), s.key)
    ensures hint == 0 && AllAligned(old(Flatten(list.leaves)), k) ==>
      FirstFitDone(old(Flatten(list.leaves)), ret, s, size, limit, k)
  {
    hide SkipList.Valid, SkipList.At, Spare, InsertSpec, Flatten, Passed, HoleStart, ScanLeaves, Aligned, Free,
      WellFormed, AllAligned, Parts, LeavesOf, StartsAt, NoRoomSkipped, Straddled;
    list.WellFormedLeaves();
    WellFormedIsSized(list.leaves);
    var pending := cpu.preload[token].level;
    s := Slot(AlignStart(hint, k), size);
    var p, end;
    ghost var x, y;
    p, end, x := FindStart(list, cpu, hint, size, k);
    PassedBound(list.leaves, x, hint);
    WalkOutcome(list.leaves, x, hint, size, limit, k);
    var r, leaf;
    r, leaf, y := WalkHoles(list, cpu, p, end, size, limit, k, x);
    ghost var ls := list.leaves;
    if r.Exhausted? || (r.Through? && r.end + size > limit) {
      assert OfferedFrom(ls, x, hint, -EEXIST, s, size, limit, k);
      WalkSkipsNoRoom(ls, x, hint, -EEXIST, s, size, limit, k);
      return -EEXIST, s;
    }
    s := Slot(if r.Found? then r.key else r.end, size);
    ret := TryInsert(list, cpu, s, leaf, token, pending, y);
    if ret == -EEXIST {
      ret := -EAGAIN;
    }
    assert OfferedFrom(ls, x, hint, ret, s, size, limit, k);
    WalkSkipsNoRoom(ls, x, hint, ret, s, size, limit, k);
    if ret == -EAGAIN {
      TakenByEarlier(ls, x, hint, ret, s, size, limit, k);
    }
    if NoHome(ls, hint) {
      HoleBeforeHintIff(ls, x, hint, ret, s, size, limit, k);
    }
  }

  lemma PassedBound(ls: seq<LeafVal>, x: nat, hint: nat)
    requires Passed(ls, x, hint)
    ensures x <= |ls|
  {
  }
}
