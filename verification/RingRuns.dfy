/** Whole runs of the sequential skip list: it is a map, whatever heights are drawn. */
module RingRuns {
  import opened Sequences
  import opened Rings
  import opened RingSpec

  /** An insertion carries the node allocated for it, with its drawn height. */
  datatype Op = Insert(node: Node) | Erase(key: int)

  /** A present key may only be inserted again with a height that does not exceed its node's. */
  ghost predicate Allowed(s: Levels, op: Op)
    requires Good(s)
  {
    op.Insert? ==>
      && op.node.height < SL_MAXLEVEL && op.node != s.rings[0][0]
      && (Has(s.rings[0], op.node.key) ==> op.node.height <= HeightOf(s.rings[0], op.node.key))
  }

  lemma StepKeepsGood(s: Levels, op: Op)
    requires Good(s) && Allowed(s, op)
    ensures op.Insert? ==> Good(InsertSpec(s, op.node))
    ensures op.Erase? ==> Good(EraseSpec(s, op.key))
  {
    if op.Insert? {
      if Has(s.rings[0], op.node.key) {
        DuplicateShortKeeps(s, op.node);
      } else {
        InsertKeepsGood(s, op.node);
      }
    } else if Has(s.rings[0], op.key) {
      EraseKeepsGood(s, op.key);
    }
  }

  ghost function Step(s: Levels, op: Op): (t: Levels)
    requires Good(s) && Allowed(s, op)
    ensures Good(t)
  {
    StepKeepsGood(s, op);
    match op
    case Insert(node) => InsertSpec(s, node)
    case Erase(key) => EraseSpec(s, key)
  }

  ghost predicate Admits(s: Levels, ops: seq<Op>)
    requires Good(s)
    decreases |ops|
  {
    ops == [] || (Allowed(s, ops[0]) && Admits(Step(s, ops[0]), ops[1..]))
  }

  ghost function Run(s: Levels, ops: seq<Op>): (t: Levels)
    requires Good(s) && Admits(s, ops)
    ensures Good(t)
    decreases |ops|
  {
    if ops == [] then s else Run(Step(s, ops[0]), ops[1..])
  }

  /** What the operations mean for a map: an insertion never overwrites. */
  function MapStep(m: map<int, int>, op: Op): map<int, int> {
    match op
    case Insert(node) => if node.key in m then m else m[node.key := node.val]
    case Erase(key) => m - {key}
  }

  function MapRun(m: map<int, int>, ops: seq<Op>): map<int, int>
    decreases |ops|
  {
    if ops == [] then m else MapRun(MapStep(m, ops[0]), ops[1..])
  }

  /** One step does to the map what it should, and afterwards the level is exact if it was or if anything changed. */
  lemma {:induction false} StepIsMapStep(s: Levels, op: Op)
    requires Good(s) && Allowed(s, op)
    ensures MapOf(Step(s, op).rings[0]) == MapStep(MapOf(s.rings[0]), op)
    ensures IsTop(s.rings, s.level) || Step(s, op) != s ==> IsTop(Step(s, op).rings, Step(s, op).level)
  {
    hide Sorted, Distinct;
    if op.Insert? {
      MapAt(s.rings[0], op.node.key);
      if Has(s.rings[0], op.node.key) {
        DuplicateShortKeeps(s, op.node);
      } else {
        InsertKeepsGood(s, op.node);
      }
    } else {
      MapAt(s.rings[0], op.key);
      if Has(s.rings[0], op.key) {
        EraseKeepsGood(s, op.key);
      }
    }
  }

  /** Every run refines the map, keeps the level exact once it is, and counts the map's entries. */
  lemma {:induction false} RunIsMapRun(s: Levels, ops: seq<Op>)
    requires Good(s) && Admits(s, ops)
    ensures MapOf(Run(s, ops).rings[0]) == MapRun(MapOf(s.rings[0]), ops)
    ensures |MapOf(Run(s, ops).rings[0])| == |Run(s, ops).rings[0]| - 1
    ensures Run(s, ops) == s || IsTop(Run(s, ops).rings, Run(s, ops).level)
    ensures IsTop(s.rings, s.level) ==> IsTop(Run(s, ops).rings, Run(s, ops).level)
    decreases |ops|
  {
    hide Sorted, MapStep, Allowed;
    if ops == [] {
      SizeOfMap(s.rings[0]);
    } else {
      StepIsMapStep(s, ops[0]);
      RunIsMapRun(Step(s, ops[0]), ops[1..]);
    }
  }

  /** What sl_search answers; 0 stands for NULL. */
  ghost function Answer(s: Levels, key: int): int
    requires Good(s)
  {
    var m := MapOf(s.rings[0]);
    if key in m then m[key] else 0
  }

  /** The same operations up to the nodes' heights. */
  predicate Alike(a: seq<Op>, b: seq<Op>) {
    |a| == |b| && forall i :: 0 <= i < |a| ==> SameCall(a[i], b[i])
  }

  predicate SameCall(a: Op, b: Op) {
    match a
    case Insert(node) => b.Insert? && b.node.key == node.key && b.node.val == node.val
    case Erase(key) => b == a
  }

  lemma {:induction false} MapRunAlike(m: map<int, int>, a: seq<Op>, b: seq<Op>)
    requires Alike(a, b)
    ensures MapRun(m, a) == MapRun(m, b)
    decreases |a|
  {
    if a != [] {
      assert SameCall(a[0], b[0]);
      MapRunAlike(MapStep(m, a[0]), a[1..], b[1..]);
    }
  }

  /** Two lists built by the same operations answer every search alike, whatever heights were drawn. */
  lemma {:induction false} HeightsDoNotMatter(s: Levels, t: Levels, a: seq<Op>, b: seq<Op>, key: int)
    requires Good(s) && Good(t) && MapOf(s.rings[0]) == MapOf(t.rings[0])
    requires Admits(s, a) && Admits(t, b) && Alike(a, b)
    ensures Answer(Run(s, a), key) == Answer(Run(t, b), key)
    ensures |Run(s, a).rings[0]| == |Run(t, b).rings[0]|
  {
    RunIsMapRun(s, a);
    RunIsMapRun(t, b);
    MapRunAlike(MapOf(s.rings[0]), a, b);
  }
}
