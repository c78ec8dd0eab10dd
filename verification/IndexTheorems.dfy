/** What the operations of the extent skip list add up to: inverses, runs, and packing. */
module IndexTheorems {
  import opened Extents
  import opened Sequences
  import opened Leaves
  import opened IndexSpec
  import opened Lookup
  import opened SkipInsert
  import opened SkipDelete
  import opened SkipHole

  /** A delete takes exactly the returned slot out of the list, order kept, or changes nothing. */
  lemma DeleteTakesOne(was: Index, now: Index, r: SlotPtr, key: nat, size: nat) returns (at: nat)
    requires WellFormed(was.leaves) && Capped(was) && Deleted(was, now, r, key, size) && r.Ref?
    ensures at < |Flatten(was.leaves)| && Flatten(was.leaves)[at] == r.slot
    ensures Flatten(now.leaves) == Without(Flatten(was.leaves), at)
    ensures WellFormed(now.leaves) && Capped(now) && now.level == was.level
  {
    hide WellFormed, Capped, Answers, DeleteSpec, Flatten;
    var k: nat, i: nat :| RemovedAt(was, now, r.slot, k, i);
    DeleteRefines(was, k, i);
    at := |Flatten(was.leaves[..k])| + i;
  }

  /** Deleting any point of a slot just inserted returns that slot and restores the stored sequence. */
  lemma DeleteUndoesInsert(was: Index, mid: Index, now: Index, s: Slot, pending: nat, spare0: bool, r: SlotPtr,
          point: nat)
    requires WellFormed(was.leaves) && Capped(was) && s.size > 0
    requires pending < 32 && pending <= was.level + 1
    requires Inserted(was, mid, s, pending, spare0, 0)
    requires s.key <= point < s.End() && Deleted(mid, now, r, point, 1)
    ensures r == Ref(s) && Flatten(now.leaves) == Flatten(was.leaves)
    ensures WellFormed(now.leaves) && Capped(now)
  {
    var q := Flatten(was.leaves);
    InsertRefines(was, s, pending, spare0);
    var at := Rank(q, s.key);
    assert Insert(q, s)[at] == s;
    assert StoredAt(Flatten(mid.leaves), at, s);
    PointLookupExact(mid.leaves, r, point);
    assert Stored(mid.leaves, s) && Covers(s, point);
    var i := DeleteTakesOne(mid, now, r, point, 1);
    RemoveUndoesInsert(q, s, i, point);
  }

  // ---- runs

  datatype Op =
    | InsertOp(slot: Slot, pending: nat, spare0: bool, ret: int)
    | HoleOp(size: nat, limit: nat, align: nat, pending: nat, spare0: bool, slot: Slot, ret: int)
    | DeleteOp(key: nat, size: nat, found: SlotPtr)

  /** One operation of a run: its arguments, its result, and what it does to the index. */
  ghost predicate Step(was: Index, op: Op, now: Index) {
    match op
    case InsertOp(s, pending, spare0, ret) =>
      && Sized(was.leaves) && s.size > 0 && pending < 32 && pending <= was.level + 1
      && Inserted(was, now, s, pending, spare0, ret)
    case HoleOp(size, limit, align, pending, spare0, s, ret) =>
      && Sized(was.leaves) && size > 0 && pending < 32 && pending <= was.level + 1
      && HoleDone(was, now, ret, s, size, limit, align, pending, spare0)
    case DeleteOp(key, size, found) =>
      size > 0 && Deleted(was, now, found, key, size)
  }

  /** A run from the empty list. */
  ghost predicate Run(states: seq<Index>, ops: seq<Op>) {
    && |states| == |ops| + 1 && states[0] == Index([], 0)
    && forall i :: 0 <= i < |ops| ==> Step(states[i], ops[i], states[i + 1])
  }

  /** The slots a run should leave: inserts that returned 0, less what deletes returned. */
  ghost function Contents(ops: seq<Op>, n: nat): multiset<Slot>
    requires n <= |ops|
  {
    if n == 0 then multiset{} else
      match ops[n - 1]
      case InsertOp(s, _, _, ret) => Contents(ops, n - 1) + if ret == 0 then multiset{s} else multiset{}
      case HoleOp(_, _, _, _, _, s, ret) => Contents(ops, n - 1) + if ret == 0 then multiset{s} else multiset{}
      case DeleteOp(_, _, found) => Contents(ops, n - 1) - if found.Ref? then multiset{found.slot} else multiset{}
  }

  lemma AddKeeps(was: Index, s: Slot, pending: nat, spare0: bool)
    requires WellFormed(was.leaves) && Capped(was) && s.size > 0 && Free(Flatten(was.leaves), s.key, s.size)
    requires pending < 32 && pending <= was.level + 1
    ensures var now := InsertSpec(was, s, pending, spare0);
      WellFormed(now.leaves) && Capped(now)
        && multiset(Flatten(now.leaves)) == multiset(Flatten(was.leaves)) + multiset{s}
  {
    InsertRefines(was, s, pending, spare0);
    OrderedLeaves(was.leaves);
    InsertKeepsOrder(Flatten(was.leaves), s);
  }

  lemma StepKeeps(was: Index, op: Op, now: Index)
    requires WellFormed(was.leaves) && Capped(was) && Step(was, op, now)
    ensures WellFormed(now.leaves) && Capped(now)
    ensures op.InsertOp? ==> (op.ret == 0 <==> Free(Flatten(was.leaves), op.slot.key, op.slot.size))
    ensures multiset(Flatten(now.leaves)) == match op
      case InsertOp(s, _, _, ret) => multiset(Flatten(was.leaves)) + if ret == 0 then multiset{s} else multiset{}
      case HoleOp(_, _, _, _, _, s, ret) => multiset(Flatten(was.leaves)) + if ret == 0 then multiset{s} else multiset{}
      case DeleteOp(_, _, found) =>
        multiset(Flatten(was.leaves)) - if found.Ref? then multiset{found.slot} else multiset{}
  {
    hide WellFormed, Capped, Answers, Flatten, Deleted, InsertSpec;
    match op
    case InsertOp(s, pending, spare0, ret) =>
      if ret == 0 {
        AddKeeps(was, s, pending, spare0);
      }
    case HoleOp(_, _, _, pending, spare0, s, ret) =>
      if ret == 0 {
        AddKeeps(was, s, pending, spare0);
      }
    case DeleteOp(key, size, found) =>
      if found.Ref? {
        var at := DeleteTakesOne(was, now, found, key, size);
        OrderedLeaves(was.leaves);
        RemoveKeepsOrder(Flatten(was.leaves), at);
      } else {
        MissKeeps(was, now, found, key, size);
      }
  }

  lemma MissKeeps(was: Index, now: Index, r: SlotPtr, key: nat, size: nat)
    requires Deleted(was, now, r, key, size) && r.Null?
    ensures now == was
  {
  }

  /** After any run from the empty list every invariant holds and the stored slots are exactly the run's balance. */
  lemma {:induction false} RunRefinesSet(states: seq<Index>, ops: seq<Op>, n: nat)
    requires Run(states, ops) && n <= |ops|
    ensures WellFormed(states[n].leaves) && Capped(states[n])
    ensures multiset(Flatten(states[n].leaves)) == Contents(ops, n)
  {
    hide WellFormed, Capped, Flatten, Step;
    if n == 0 {
      EmptyRun(states, ops);
    } else {
      RunRefinesSet(states, ops, n - 1);
      StepKeeps(states[n - 1], ops[n - 1], states[n]);
    }
  }

  lemma EmptyRun(states: seq<Index>, ops: seq<Op>)
    requires Run(states, ops)
    ensures WellFormed(states[0].leaves) && Capped(states[0]) && Flatten(states[0].leaves) == []
  {
  }

  lemma StoredIsInFlatten(ls: seq<LeafVal>, s: Slot)
    ensures Stored(ls, s) <==> s in Flatten(ls)
  {
    if s in Flatten(ls) {
      var at: nat :| at < |Flatten(ls)| && Flatten(ls)[at] == s;
      assert StoredAt(Flatten(ls), at, s);
    }
  }

  /** After any run, looking up a point finds the slot inserted there and not deleted since, and nothing else. */
  lemma {:induction false} LookupAfterRun(states: seq<Index>, ops: seq<Op>, n: nat, r: SlotPtr, key: nat)
    requires Run(states, ops) && n <= |ops| && Answers(states[n].leaves, r, key, 1)
    ensures r.Ref? ==> r.slot in Contents(ops, n) && Covers(r.slot, key)
    ensures forall s :: s in Contents(ops, n) && Covers(s, key) ==> r == Ref(s)
  {
    hide Step, WellFormed, Capped, Answers, Stored, Contents;
    var ls := states[n].leaves;
    RunRefinesSet(states, ops, n);
    PointLookupExact(ls, r, key);
    forall s ensures s in Contents(ops, n) <==> Stored(ls, s) {
      StoredIsInFlatten(ls, s);
    }
  }

  // ---- ascending fill

  /** A level drawn for one insert, and whether a leaf of height 0 was in reserve. */
  datatype Draw = Draw(pending: nat, spare0: bool)

  /** Inserting the first n slots in the given order into an empty list. */
  ghost function Fill(slots: seq<Slot>, draws: seq<Draw>, n: nat): (ix: Index)
    requires n <= |slots| && n <= |draws|
  {
    if n == 0 then Index([], 0)
    else
      var before := Fill(slots, draws, n - 1);
      if Sized(before.leaves)
      then InsertSpec(before, slots[n - 1], draws[n - 1].pending, draws[n - 1].spare0)
      else before
  }

  /** n slots in as few leaves as possible: all of them full but perhaps the last. */
  ghost predicate Packed(ls: seq<LeafVal>, n: nat) {
    && (forall k :: 0 <= k < |ls| ==> ls[k].slots != [])
    && (forall k :: 0 <= k < |ls| - 1 ==> |ls[k].slots| == KEYS_PER_NODE)
    && (ls == [] ==> n == 0)
    && (ls != [] ==> |ls[|ls| - 1].slots| <= KEYS_PER_NODE && n == KEYS_PER_NODE * (|ls| - 1) + |ls[|ls| - 1].slots|)
  }

  lemma PackedCount(ls: seq<LeafVal>, n: nat)
    requires Packed(ls, n)
    ensures |ls| == (n + KEYS_PER_NODE - 1) / KEYS_PER_NODE
  {
  }

  /** A slot past the end goes to the end of the last leaf, or into a leaf of its own when that is full. */
  lemma AppendPacks(ix: Index, s: Slot, pending: nat, spare0: bool, n: nat)
    requires Sized(ix.leaves) && Packed(ix.leaves, n)
    requires Below(Flatten(ix.leaves), s.key)
    ensures Packed(InsertSpec(ix, s, pending, spare0).leaves, n + 1)
  {
    var ls := ix.leaves;
    if ls != [] {
      LastPast(ls, s.key);
      var k := Home(ls, s.key);
      var h := SplitHeight(ls[k].height, pending, spare0);
      hide Home, Flatten, Rank, SplitHeight;
      var r := AddKey(ls[k], |ls[k].slots|, s, h);
      assert Replace(ls, k, r) == ls[..|ls| - 1] + r;
    }
  }

  lemma LastPast(ls: seq<LeafVal>, key: nat)
    requires Sized(ls) && ls != [] && Below(Flatten(ls), key)
    ensures Home(ls, key) == |ls| - 1 && Rank(ls[|ls| - 1].slots, key) == |ls[|ls| - 1].slots|
  {
    var k := Home(ls, key);
    SlotsInFlatten(ls, k, |ls[k].slots| - 1);
    var i := Rank(ls[|ls| - 1].slots, key);
    if i < |ls[|ls| - 1].slots| {
      SlotsInFlatten(ls, |ls| - 1, i);
    }
  }

  /** The whole sequence so far is what was put in, in as few leaves as possible. */
  ghost predicate Filled(ix: Index, slots: seq<Slot>, n: nat)
    requires n <= |slots|
  {
    Sized(ix.leaves) && Flatten(ix.leaves) == slots[..n] && Packed(ix.leaves, n)
  }

  lemma FillOnce(slots: seq<Slot>, draws: seq<Draw>, n: nat)
    requires n <= |slots| <= |draws| && (n > 0 ==> Sized(Fill(slots, draws, n - 1).leaves))
    ensures n == 0 ==> Filled(Fill(slots, draws, n), slots, n)
    ensures n > 0 ==>
      Fill(slots, draws, n)
      == InsertSpec(Fill(slots, draws, n - 1), slots[n - 1], draws[n - 1].pending, draws[n - 1].spare0)
  {
  }

  lemma {:induction false} FillHolds(slots: seq<Slot>, draws: seq<Draw>, n: nat)
    requires Ordered(slots) && n <= |slots| <= |draws|
    requires forall i :: 0 <= i < |slots| ==> draws[i].pending < 32
    ensures Filled(Fill(slots, draws, n), slots, n)
  {
    hide *;
    if n > 0 {
      FillHolds(slots, draws, n - 1);
      FillStep(Fill(slots, draws, n - 1), slots, draws[n - 1], n);
    }
    FillOnce(slots, draws, n);
  }

  /** The next slot lies past everything so far. */
  lemma FillStep(ix: Index, slots: seq<Slot>, d: Draw, n: nat)
    requires Ordered(slots) && 1 <= n <= |slots| && d.pending < 32 && Filled(ix, slots, n - 1)
    ensures Sized(ix.leaves) && Filled(InsertSpec(ix, slots[n - 1], d.pending, d.spare0), slots, n)
  {
    hide InsertSpec, Packed, Sized, Flatten, Ordered, Below;
    PrefixOrder(slots, n - 1);
    AppendPacks(ix, slots[n - 1], d.pending, d.spare0, n - 1);
    AppendFlattens(ix, slots[n - 1], d.pending, d.spare0);
    assert slots[..n] == slots[..n - 1] + [slots[n - 1]];
  }

  lemma PrefixOrder(slots: seq<Slot>, n: nat)
    requires Ordered(slots) && n < |slots|
    ensures Ordered(slots[..n]) && Below(slots[..n], slots[n].key) && slots[n].size > 0
  {
  }

  lemma BelowIsPast(q: seq<Slot>, s: Slot)
    requires Ordered(q) && s.size > 0 && Below(q, s.key)
    ensures Free(q, s.key, s.size) && Insert(q, s) == q + [s]
  {
  }

  lemma AppendFlattens(ix: Index, s: Slot, pending: nat, spare0: bool)
    requires Sized(ix.leaves) && Ordered(Flatten(ix.leaves)) && s.size > 0 && pending < 32
    requires Below(Flatten(ix.leaves), s.key)
    ensures Flatten(InsertSpec(ix, s, pending, spare0).leaves) == Flatten(ix.leaves) + [s]
    ensures Sized(InsertSpec(ix, s, pending, spare0).leaves)
  {
    hide Flatten, Insert, Ordered, Below, InsertSpec;
    BelowIsPast(Flatten(ix.leaves), s);
    InsertFlattens(ix, s, pending, spare0);
    InsertStaysSized(ix, s, pending, spare0);
  }

  /** Inserting n slots in ascending order gives ceil(n/32) leaves, all full but the last, whatever levels are drawn. */
  lemma AscendingFillIsPacked(slots: seq<Slot>, draws: seq<Draw>)
    requires Ordered(slots) && |slots| <= |draws|
    requires forall i :: 0 <= i < |slots| ==> draws[i].pending < 32
    ensures var ls := Fill(slots, draws, |slots|).leaves;
      && Flatten(ls) == slots
      && |ls| == (|slots| + KEYS_PER_NODE - 1) / KEYS_PER_NODE
      && forall k :: 0 <= k < |ls| - 1 ==> |ls[k].slots| == KEYS_PER_NODE
  {
    FillHolds(slots, draws, |slots|);
    PackedCount(Fill(slots, draws, |slots|).leaves, |slots|);
    assert slots[..|slots|] == slots;
  }
}
