/**
 A lock-free lookup against an insert, both one memory access at a time: the traversal of skiplist_lookup_leaf
 reads pointers, maxes and mins on its way down while add_key_to_leaf fills, links and shrinks leaves.
 */
module Traversals {
  import opened Extents
  import opened Leaves
  import opened Towers
  import opened IndexSpec
  import opened LeafStores

  const NIL: int := -1

  /**
   The list before the insert, the position y of the leaf inserted into, and the height g of the leaf that would be
   split off it. Node 0 is the head, node c the c-th leaf, and node |ls| + 1 the one split off.
   */
  datatype Env = Env(ls: seq<LeafVal>, y: nat, g: nat) {
    function New(): nat { |ls| + 1 }

    function Height(c: nat): nat {
      if c == 0 then SKIP_MAXLEVEL else if c <= |ls| then ls[c - 1].height else g
    }
  }

  ghost predicate Proper(e: Env) {
    WellFormed(e.ls) && 1 <= e.y <= |e.ls| && e.g < SKIP_MAXLEVEL
  }

  /** The first of the old nodes from d on that reaches level i. */
  function From(e: Env, d: nat, i: nat): (r: int)
    ensures r == NIL || (d <= r <= |e.ls| && e.Height(r) >= i)
    ensures forall m: nat :: d <= m <= |e.ls| && (r == NIL || m < r) ==> e.Height(m) < i
    decreases |e.ls| + 1 - d
  {
    if d > |e.ls| then NIL else if e.Height(d) >= i then d else From(e, d + 1, i)
  }

  function Succ(e: Env, c: nat, i: nat): int {
    From(e, c + 1, i)
  }

  /** The last of the old nodes up to c that reaches level i. */
  function UpTo(e: Env, c: nat, i: nat): (r: nat)
    requires i <= SKIP_MAXLEVEL && c <= |e.ls|
    ensures r <= c && e.Height(r) >= i
    ensures forall m :: r < m <= c ==> e.Height(m) < i
  {
    if e.Height(c) >= i then c else UpTo(e, c - 1, i)
  }

  /** What the new node follows on level i. */
  function Pred(e: Env, i: nat): nat
    requires Proper(e) && i <= SKIP_MAXLEVEL
  {
    UpTo(e, e.y, i)
  }

  // ---- memory

  /** top is list->level. */
  datatype World = World(mems: seq<Mem>, next: seq<seq<int>>, prev: seq<seq<int>>, top: nat)

  datatype Access =
    | LeafAccess(c: nat, st: Store)
    | SetNext(i: nat, c: nat, d: int)
    | SetPrev(i: nat, c: nat, d: int)
    | SetTop(level: nat)

  function Put(rows: seq<seq<int>>, i: nat, c: nat, d: int): seq<seq<int>> {
    if i < |rows| && c < |rows[i]| then rows[i := rows[i][c := d]] else rows
  }

  function Do(w: World, a: Access): World {
    match a
    case LeafAccess(c, st) => if c < |w.mems| then w.(mems := w.mems[c := Apply(w.mems[c], st)]) else w
    case SetNext(i, c, d) => w.(next := Put(w.next, i, c, d))
    case SetPrev(i, c, d) => w.(prev := Put(w.prev, i, c, d))
    case SetTop(level) => w.(top := level)
  }

  ghost predicate OneAccess(w: World, u: World) {
    exists a :: u == Do(w, a)
  }

  ghost predicate Sizes(e: Env, w: World) {
    && |w.mems| == |e.ls| + 2 && |w.next| == |w.prev| == SKIP_MAXLEVEL && w.top < SKIP_MAXLEVEL
    && forall i :: 0 <= i < SKIP_MAXLEVEL ==> |w.next[i]| == |w.prev[i]| == |e.ls| + 2
  }

  /** prog counts the stores of sl_link_one_level done so far, four to a level; the third makes the node reachable. */
  predicate LinkedAt(e: Env, prog: nat, i: nat) {
    i <= e.g && prog >= 4 * i + 3
  }

  ghost predicate NextLinks(e: Env, w: World, prog: nat)
    requires Proper(e) && Sizes(e, w)
  {
    && (forall i: nat, c: nat {:trigger w.next[i][c]} :: i < SKIP_MAXLEVEL && c <= |e.ls| && e.Height(c) >= i ==>
          w.next[i][c] == if c == Pred(e, i) && LinkedAt(e, prog, i) then e.New() else Succ(e, c, i))
    && (forall i: nat {:trigger w.next[i]} :: i <= e.g && prog >= 4 * i + 1 ==>
          w.next[i][e.New()] == Succ(e, Pred(e, i), i))
  }

  /** The node that the head's prev points to on level i, or NIL. */
  function LastOn(e: Env, i: nat): int
    requires i <= SKIP_MAXLEVEL
  {
    var r := UpTo(e, |e.ls|, i);
    if r == 0 then NIL else r
  }

  /** The second store of a level sets the new node's prev, the fourth that of what follows it, or of the head. */
  ghost predicate PrevLinks(e: Env, w: World, prog: nat)
    requires Proper(e) && Sizes(e, w)
  {
    LeafPrevs(e, w, prog) && HeadPrevs(e, w, prog) && NewPrevs(e, w, prog)
  }

  predicate LinkedBack(e: Env, prog: nat, i: nat) {
    i <= e.g && prog >= 4 * i + 4
  }

  ghost predicate LeafPrevs(e: Env, w: World, prog: nat)
    requires Proper(e) && Sizes(e, w)
  {
    forall i: nat, c: nat {:trigger w.prev[i][c]} :: i < SKIP_MAXLEVEL && 1 <= c <= |e.ls| && e.Height(c) >= i ==>
      w.prev[i][c] == if LinkedBack(e, prog, i) && c == Succ(e, Pred(e, i), i) then e.New() else UpTo(e, c - 1, i)
  }

  ghost predicate HeadPrevs(e: Env, w: World, prog: nat)
    requires Proper(e) && Sizes(e, w)
  {
    forall i: nat {:trigger w.prev[i]} :: i < SKIP_MAXLEVEL ==>
      w.prev[i][0] == if LinkedBack(e, prog, i) && Succ(e, Pred(e, i), i) == NIL then e.New() else LastOn(e, i)
  }

  ghost predicate NewPrevs(e: Env, w: World, prog: nat)
    requires Proper(e) && Sizes(e, w)
  {
    forall i: nat {:trigger w.prev[i]} :: i <= e.g && prog >= 4 * i + 2 ==> w.prev[i][e.New()] == Pred(e, i)
  }

  ghost predicate Links(e: Env, w: World, prog: nat)
    requires Proper(e) && Sizes(e, w)
  {
    NextLinks(e, w, prog) && PrevLinks(e, w, prog)
  }

  /** The two leaves of the insert are as in v, all others at rest. */
  ghost predicate Mems(e: Env, w: World, v: View)
    requires Proper(e) && Sizes(e, w)
  {
    && w.mems[e.y] == v.leaf && w.mems[e.New()] == v.split
    && forall c {:trigger w.mems[c]} :: 1 <= c <= |e.ls| && c != e.y ==>
      AtRest(w.mems[c], e.ls[c - 1].slots) && e.ls[c - 1].slots != [] && w.mems[c].max == e.ls[c - 1].Max()
  }

  /** A moment of the insert: memory, what its two leaves hold, and how far the linking has come. */
  datatype Moment = Moment(w: World, v: View, prog: nat)

  ghost predicate InStep(e: Env, m: Moment) {
    && m.prog <= 4 * (e.g + 1) && (m.v.stage == 0 <==> m.prog < 3) && (m.v.stage >= 2 ==> m.prog == 4 * (e.g + 1))
  }

  ghost predicate Good(e: Env, s: Slot, cut: nat, m: Moment)
    requires Proper(e)
  {
    && Sizes(e, m.w) && Mems(e, m.w, m.v) && Links(e, m.w, m.prog) && InStep(e, m)
    && var q := e.ls[e.y - 1].slots;
      q != [] && cut <= |q| && GoodView(m.v, q, cut) && ViewBounds(m.v, q, s)
  }

  ghost predicate Later(m: Moment, n: Moment) {
    m.v.stage <= n.v.stage && m.prog <= n.prog
  }

  /** No store takes a slot of the leaf out of sight, but for lowering nr, and the new leaf stays as it was filled. */
  ghost predicate Steady(e: Env, cut: nat, m: Moment, n: Moment)
    requires Proper(e)
  {
    n.v.split == m.v.split && NoSlotLost(m.v, n.v, e.ls[e.y - 1].slots, cut)
  }

  /** The moments between the stores of an insert of s, in order. */
  ghost predicate Insertion(e: Env, s: Slot, cut: nat, trace: seq<Moment>)
    requires Proper(e)
  {
    trace != [] && AllGood(e, s, cut, trace) && InOrder(trace) && AllSteps(e, cut, trace)
  }

  ghost predicate AllGood(e: Env, s: Slot, cut: nat, trace: seq<Moment>)
    requires Proper(e)
  {
    forall t {:trigger trace[t]} :: 0 <= t < |trace| ==> Good(e, s, cut, trace[t])
  }

  ghost predicate InOrder(trace: seq<Moment>) {
    forall t, u :: 0 <= t <= u < |trace| ==> Later(trace[t], trace[u])
  }

  ghost predicate AllSteps(e: Env, cut: nat, trace: seq<Moment>)
    requires Proper(e)
  {
    forall t {:trigger trace[t]} :: 0 <= t < |trace| - 1 ==> Follows(e, cut, trace[t], trace[t + 1])
  }

  /** One store later. */
  ghost predicate Follows(e: Env, cut: nat, m: Moment, n: Moment)
    requires Proper(e)
  {
    OneAccess(m.w, n.w) && Steady(e, cut, m, n)
  }

  /** The range of s is free and belongs in the leaf at y: past every leaf before it, short of every leaf after it. */
  ghost predicate Fits(e: Env, s: Slot)
    requires Proper(e)
  {
    && Free(e.ls[e.y - 1].slots, s.key, s.size)
    && (e.y > 1 ==> e.ls[e.y - 2].slots != [] && e.ls[e.y - 2].Max() <= s.key)
    && (e.y < |e.ls| ==> e.ls[e.y].slots != [] && s.End() <= e.ls[e.y].Min())
    && s.size > 0
  }

  // ---- the traversal

  /**
   Where skiplist_lookup_leaf stands, each value naming what it reads next: p->next, then the leaf's max, then its
   min, and when the key lies before the leaf, its prev and its min again. Again is the jump back to the start.
   */
  datatype Walker =
    | Ready(p: nat, level: nat)
    | Got(p: nat, level: nat, leaf: nat)
    | Seen(p: nat, level: nat, leaf: nat, max: nat)
    | Check(p: nat, level: nat, leaf: nat, min: nat)
    | Recheck(p: nat, level: nat, leaf: nat, min: nat)
    | Found(leaf: nat)
    | NotFound
    | Again

  /** What follows once a level holds nothing further; below level 0 the answer is NULL. */
  function Down(p: nat, level: nat): Walker {
    if level == 0 then NotFound else Ready(p, level - 1)
  }

  /** One read; a read outside the memory modelled would count as the answer NULL. */
  function Read(w: World, k: Walker, key: nat): Walker {
    match k
    case Ready(p, level) =>
      if level < |w.next| && p < |w.next[level]| then
        if w.next[level][p] < 0 then Down(p, level) else Got(p, level, w.next[level][p])
      else NotFound
    case Got(p, level, leaf) =>
      if leaf < |w.mems| then Seen(p, level, leaf, w.mems[leaf].max) else NotFound
    case Seen(p, level, leaf, max) =>
      if leaf < |w.mems| && |w.mems[leaf].keys| > 0 then
        var min := w.mems[leaf].keys[0];
        if key >= max then Ready(leaf, level) else if key < min then Check(p, level, leaf, min) else Found(leaf)
      else NotFound
    case Check(p, level, leaf, min) =>
      if level < |w.prev| && leaf < |w.prev[level]| then
        if w.prev[level][leaf] != p then Again else Recheck(p, level, leaf, min)
      else NotFound
    case Recheck(p, level, leaf, min) =>
      if leaf < |w.mems| && |w.mems[leaf].keys| > 0 then
        if w.mems[leaf].keys[0] != min then Again else Down(p, level)
      else NotFound
    case Found(_) => k
    case NotFound => k
    case Again => k
  }

  ghost predicate Times(ts: seq<nat>, n: nat) {
    && ts != [] && (forall i :: 0 <= i < |ts| ==> ts[i] < n)
    && forall i, j :: 0 <= i <= j < |ts| ==> ts[i] <= ts[j]
  }

  /** The traversal when its first read, of list->level, comes at ts[0] and its later ones at ts[1], ts[2] and so on. */
  ghost function Walk(trace: seq<Moment>, ts: seq<nat>, key: nat): Walker
    requires Times(ts, |trace|)
    decreases |ts|
  {
    var now := trace[ts[|ts| - 1]].w;
    if |ts| == 1 then Ready(0, now.top) else Read(now, Walk(trace, ts[..|ts| - 1], key), key)
  }

  // ---- where the point looked for lies, seen from each node

  /** A point of slot j of the leaf at z, which was stored before the insert; cut is where a split would cut leaf y. */
  datatype Aim = Aim(z: nat, j: nat, key: nat, cut: nat)

  ghost predicate Aimed(e: Env, a: Aim)
    requires Proper(e)
  {
    1 <= a.z <= |e.ls| && a.j < |e.ls[a.z - 1].slots| && Overlaps(e.ls[a.z - 1].slots[a.j], a.key, 1)
  }

  datatype Side = Passed | Holds | Beyond

  /** Whether the leaf ends by the key, encloses it, or begins past it. */
  function SideOf(e: Env, a: Aim, stage: nat, c: nat): Side {
    if c == e.New() then
      if a.z == e.y then if a.j < a.cut then Beyond else Holds
      else if a.z < e.y then Beyond else Passed
    else if c == e.y && a.z == e.y then
      if a.j >= a.cut && stage >= 2 then Passed else Holds
    else if c < a.z then Passed else if c == a.z then Holds else Beyond
  }

  ghost predicate OnSide(m: Mem, key: nat, side: Side) {
    |m.keys| > 0 && match side
      case Passed => m.max <= key
      case Holds => m.keys[0] <= key < m.max
      case Beyond => key < m.keys[0] && key < m.max
  }

  lemma StaticSide(e: Env, a: Aim, m: Mem, c: nat, stage: nat)
    requires Proper(e) && Aimed(e, a) && 1 <= c <= |e.ls| && c != e.y
    requires e.ls[c - 1].slots != [] && AtRest(m, e.ls[c - 1].slots) && m.max == e.ls[c - 1].Max()
    ensures OnSide(m, a.key, SideOf(e, a, stage, c))
  {
    hide WellFormed;
    SlotWithinLeaf(e.ls, a.z - 1, a.j);
    TwoLeaves(e.ls, c - 1, a.z - 1);
    TwoLeaves(e.ls, a.z - 1, c - 1);
  }

  /** Seen from a point in another leaf, the two leaves of the insert stay on one side. */
  lemma OtherSide(e: Env, s: Slot, a: Aim, v: View, stage: nat)
    requires Proper(e) && Fits(e, s) && Aimed(e, a) && a.z != e.y
    requires e.ls[e.y - 1].slots != [] && ViewBounds(v, e.ls[e.y - 1].slots, s)
    ensures OnSide(v.leaf, a.key, SideOf(e, a, stage, e.y))
    ensures v.stage >= 1 ==> OnSide(v.split, a.key, SideOf(e, a, stage, e.New()))
  {
    PointElsewhere(e, s, a);
    hide WellFormed, Fits, Aimed, Known;
  }

  lemma PointElsewhere(e: Env, s: Slot, a: Aim)
    requires Proper(e) && Fits(e, s) && Aimed(e, a) && a.z != e.y && e.ls[e.y - 1].slots != []
    ensures 1 <= a.z <= |e.ls|
    ensures s.key < s.End() && e.ls[e.y - 1].slots[0].key < e.ls[e.y - 1].slots[0].End()
    ensures a.z < e.y ==> a.key < e.ls[e.y - 1].slots[0].key && a.key < s.key
    ensures a.z > e.y ==> e.ls[e.y - 1].Max() <= a.key && s.End() <= a.key
  {
    if a.z < e.y {
      PointBefore(e, s, a);
    } else {
      PointAfter(e, s, a);
    }
    hide WellFormed, Fits, Aimed;
  }

  lemma PointBefore(e: Env, s: Slot, a: Aim)
    requires Proper(e) && Fits(e, s) && Aimed(e, a) && a.z < e.y && e.ls[e.y - 1].slots != []
    ensures s.key < s.End() && e.ls[e.y - 1].slots[0].key < e.ls[e.y - 1].slots[0].End()
    ensures a.key < e.ls[e.y - 1].slots[0].key && a.key < s.key
  {
    hide WellFormed, Free;
    SlotWithinLeaf(e.ls, a.z - 1, a.j);
    SlotWithinLeaf(e.ls, e.y - 1, 0);
    TwoLeaves(e.ls, a.z - 1, e.y - 2);
    TwoLeaves(e.ls, e.y - 2, e.y - 1);
  }

  lemma PointAfter(e: Env, s: Slot, a: Aim)
    requires Proper(e) && Fits(e, s) && Aimed(e, a) && a.z > e.y && e.ls[e.y - 1].slots != []
    ensures s.key < s.End() && e.ls[e.y - 1].slots[0].key < e.ls[e.y - 1].slots[0].End()
    ensures e.ls[e.y - 1].Max() <= a.key && s.End() <= a.key
  {
    hide WellFormed, Free;
    SlotWithinLeaf(e.ls, a.z - 1, a.j);
    SlotWithinLeaf(e.ls, e.y - 1, 0);
    TwoLeaves(e.ls, e.y, a.z - 1);
    TwoLeaves(e.ls, e.y - 1, e.y);
  }

  /** Seen from a point in the leaf inserted into: the old leaf holds it until its max goes down, the new at once. */
  lemma OwnSide(e: Env, s: Slot, a: Aim, v: View)
    requires Proper(e) && Aimed(e, a) && a.z == e.y
    requires var q := e.ls[e.y - 1].slots; q != [] && a.cut <= |q| && GoodView(v, q, a.cut) && ViewBounds(v, q, s)
    ensures OnSide(v.leaf, a.key, SideOf(e, a, v.stage, e.y)) && v.leaf.keys[0] <= a.key
    ensures v.stage >= 1 ==> OnSide(v.split, a.key, SideOf(e, a, v.stage, e.New()))
  {
    hide WellFormed, GoodFor;
    var q := e.ls[e.y - 1].slots;
    SlotWithinLeaf(e.ls, e.y - 1, a.j);
    assert 0 < a.j ==> q[0].End() <= q[a.j].key;
    assert a.cut > 0 && a.j < a.cut - 1 ==> q[a.j].End() <= q[a.cut - 1].key;
    assert a.cut > 0 && a.cut - 1 < a.j ==> q[a.cut - 1].End() <= q[a.j].key;
    assert a.cut < a.j ==> q[a.cut].End() <= q[a.j].key;
    assert q[|q| - 1].size > 0 && q[0].size > 0;
    assert a.cut > 0 ==> q[a.cut - 1].size > 0;
  }

  /** Every node a traversal can stand on shows the side it is on. */
  lemma SideShows(e: Env, s: Slot, a: Aim, m: Moment, c: nat)
    requires Proper(e) && Fits(e, s) && Aimed(e, a) && Good(e, s, a.cut, m)
    requires 1 <= c <= |e.ls| || (c == e.New() && m.v.stage >= 1)
    ensures OnSide(m.w.mems[c], a.key, SideOf(e, a, m.v.stage, c))
    ensures c == e.y == a.z ==> m.w.mems[c].keys[0] <= a.key
  {
    hide WellFormed, GoodView, ViewBounds, OnSide, AtRest, Links;
    if c == e.y || c == e.New() {
      if a.z == e.y {
        OwnSide(e, s, a, m.v);
        OwnLeast(e, s, a, m.v);
      } else {
        OtherSide(e, s, a, m.v, m.v.stage);
      }
    } else {
      StaticSide(e, a, m.w.mems[c], c, m.v.stage);
    }
  }

  lemma OwnLeast(e: Env, s: Slot, a: Aim, v: View)
    requires Proper(e) && Aimed(e, a) && a.z == e.y
    requires var q := e.ls[e.y - 1].slots; q != [] && a.cut <= |q| && GoodView(v, q, a.cut) && ViewBounds(v, q, s)
    ensures |v.leaf.keys| > 0 && v.leaf.keys[0] <= a.key
  {
    OwnSide(e, s, a, v);
  }

  // ---- what holds of a traversal at every moment

  predicate Stands(e: Env, prog: nat, c: nat, level: nat) {
    level < SKIP_MAXLEVEL && e.Height(c) >= level && (c <= |e.ls| || (c == e.New() && LinkedAt(e, prog, level)))
  }

  /** The head or a leaf that ends by the key. */
  predicate Behind(e: Env, a: Aim, stage: nat, c: nat) {
    c == 0 || SideOf(e, a, stage, c) == Passed
  }

  /** A leaf the point may be found in. */
  predicate Target(e: Env, a: Aim, stage: nat, c: nat) {
    if a.z == e.y then c == e.y || (c == e.New() && a.j >= a.cut && stage >= 1) else c == a.z
  }

  ghost predicate Sane(e: Env, a: Aim, m: Moment, k: Walker) {
    match k
    case Ready(p, level) => Stands(e, m.prog, p, level) && Behind(e, a, m.v.stage, p)
    case Got(p, level, leaf) =>
      && Stands(e, m.prog, p, level) && Behind(e, a, m.v.stage, p)
      && Stands(e, m.prog, leaf, level) && leaf > 0 && (level == 0 ==> SideOf(e, a, m.v.stage, leaf) != Beyond)
    case Seen(p, level, leaf, max) =>
      && Stands(e, m.prog, p, level) && Behind(e, a, m.v.stage, p)
      && Stands(e, m.prog, leaf, level) && leaf > 0 && (level == 0 ==> SideOf(e, a, m.v.stage, leaf) != Beyond)
      && (if a.key >= max then SideOf(e, a, m.v.stage, leaf) == Passed
          else SideOf(e, a, m.v.stage, leaf) != Passed || leaf == e.y == a.z)
    case Check(p, level, leaf, _) =>
      && Stands(e, m.prog, p, level) && Behind(e, a, m.v.stage, p)
      && Stands(e, m.prog, leaf, level) && leaf > 0 && level > 0
    case Recheck(p, level, leaf, _) =>
      && Stands(e, m.prog, p, level) && Behind(e, a, m.v.stage, p)
      && Stands(e, m.prog, leaf, level) && leaf > 0 && level > 0
    case Found(leaf) => Target(e, a, m.v.stage, leaf)
    case NotFound => false
    case Again => true
  }

  /** Writing on does not make a traversal lose its footing. */
  lemma SaneLater(e: Env, s: Slot, a: Aim, m: Moment, n: Moment, k: Walker)
    requires Proper(e) && Good(e, s, a.cut, m) && Good(e, s, a.cut, n) && Later(m, n) && Sane(e, a, m, k)
    ensures Sane(e, a, n, k)
  {
  }

  lemma NextStands(e: Env, w: World, prog: nat, p: nat, level: nat)
    requires Proper(e) && Sizes(e, w) && NextLinks(e, w, prog) && Stands(e, prog, p, level)
    ensures p < |w.next[level]|
    ensures w.next[level][p] == NIL || (w.next[level][p] > 0 && Stands(e, prog, w.next[level][p], level))
  {
  }

  /** On level 0 the next node comes next in the order of leaves, and the point is never jumped over. */
  lemma NextIsNear(e: Env, a: Aim, m: Moment, p: nat, s: Slot)
    requires Proper(e) && Aimed(e, a) && Good(e, s, a.cut, m)
    requires Stands(e, m.prog, p, 0) && Behind(e, a, m.v.stage, p)
    ensures p < |m.w.next[0]| && m.w.next[0][p] > 0 && SideOf(e, a, m.v.stage, m.w.next[0][p]) != Beyond
  {
    NextStands(e, m.w, m.prog, p, 0);
    assert Pred(e, 0) == e.y;
  }

  lemma ReachableShows(e: Env, s: Slot, a: Aim, m: Moment, c: nat, level: nat)
    requires Proper(e) && Fits(e, s) && Aimed(e, a) && Good(e, s, a.cut, m) && Stands(e, m.prog, c, level) && c > 0
    ensures c < |m.w.mems| && OnSide(m.w.mems[c], a.key, SideOf(e, a, m.v.stage, c))
    ensures c == e.y == a.z ==> m.w.mems[c].keys[0] <= a.key
  {
    hide WellFormed, GoodView, ViewBounds, OnSide, AtRest, Links, Mems, SideOf, Fits, Aimed;
    SideShows(e, s, a, m, c);
  }

  lemma StandsBelow(e: Env, prog: nat, c: nat, level: nat)
    requires Stands(e, prog, c, level) && level > 0
    ensures Stands(e, prog, c, level - 1)
  {
  }

  lemma GoodLinks(e: Env, s: Slot, cut: nat, m: Moment)
    requires Proper(e) && Good(e, s, cut, m)
    ensures Sizes(e, m.w) && Links(e, m.w, m.prog) && NextLinks(e, m.w, m.prog) && PrevLinks(e, m.w, m.prog)
  {
    hide NextLinks, PrevLinks, WellFormed, GoodView, ViewBounds;
  }

  lemma InRows(e: Env, w: World, c: nat, level: nat)
    requires Sizes(e, w)
    ensures |w.next| == |w.prev| == SKIP_MAXLEVEL && w.top < SKIP_MAXLEVEL && |w.mems| == |e.ls| + 2
    ensures level < SKIP_MAXLEVEL && c <= |e.ls| + 1 ==> c < |w.next[level]| && c < |w.prev[level]|
  {
  }

  lemma ReadNext(e: Env, s: Slot, a: Aim, m: Moment, p: nat, level: nat)
    requires Proper(e) && Aimed(e, a) && Good(e, s, a.cut, m) && Sane(e, a, m, Ready(p, level))
    ensures Sane(e, a, m, Read(m.w, Ready(p, level), a.key))
  {
    hide WellFormed, Good, NextLinks, Sizes, SideOf, Aimed, Stands, Behind;
    GoodLinks(e, s, a.cut, m);
    InRows(e, m.w, p, level);
    NextStands(e, m.w, m.prog, p, level);
    StandsInRange(e, m.prog, p, level);
    if level == 0 {
      NextIsNear(e, a, m, p, s);
    } else {
      StandsBelow(e, m.prog, p, level);
    }
  }

  lemma StandsInRange(e: Env, prog: nat, c: nat, level: nat)
    requires Stands(e, prog, c, level)
    ensures level < SKIP_MAXLEVEL && c < |e.ls| + 2
  {
  }

  lemma ReadLeaf(e: Env, s: Slot, a: Aim, m: Moment, k: Walker)
    requires Proper(e) && Fits(e, s) && Aimed(e, a) && Good(e, s, a.cut, m) && Sane(e, a, m, k)
    requires k.Got? || k.Seen?
    ensures Sane(e, a, m, Read(m.w, k, a.key))
  {
    ReachableShows(e, s, a, m, k.leaf, k.level);
    SideIsTarget(e, a, m, k.leaf, k.level);
    SideMeans(m.w.mems[k.leaf], a.key, SideOf(e, a, m.v.stage, k.leaf));
    LeafReads(m.w, k.p, k.level, k.leaf, if k.Seen? then k.max else 0, a.key);
    hide Proper, Read, OnSide, SideOf, Aimed, Fits, Stands, Good, Target;
  }

  lemma SideMeans(m: Mem, key: nat, side: Side)
    requires OnSide(m, key, side)
    ensures |m.keys| > 0 && (m.max <= key <==> side == Passed)
    ensures (side == Holds ==> m.keys[0] <= key) && (side == Beyond ==> key < m.keys[0])
  {
  }

  /** What the reads of a leaf's max and min lead to. */
  lemma LeafReads(w: World, p: nat, level: nat, leaf: nat, max: nat, key: nat)
    requires leaf < |w.mems| && |w.mems[leaf].keys| > 0
    ensures Read(w, Got(p, level, leaf), key) == Seen(p, level, leaf, w.mems[leaf].max)
    ensures Read(w, Seen(p, level, leaf, max), key) == if key >= max then Ready(leaf, level)
      else if key < w.mems[leaf].keys[0] then Check(p, level, leaf, w.mems[leaf].keys[0]) else Found(leaf)
  {
  }

  /** What the second looks at prev and min lead to. */
  lemma CheckReads(w: World, p: nat, level: nat, leaf: nat, min: nat, key: nat)
    requires level < |w.prev| && leaf < |w.prev[level]| && leaf < |w.mems| && |w.mems[leaf].keys| > 0
    ensures var k := Read(w, Check(p, level, leaf, min), key); k == Again || k == Recheck(p, level, leaf, min)
    ensures var k := Read(w, Recheck(p, level, leaf, min), key); k == Again || k == Down(p, level)
    ensures Read(w, Check(p, level, leaf, min), key) == Again <==> w.prev[level][leaf] != p
    ensures Read(w, Recheck(p, level, leaf, min), key) == Again <==> w.mems[leaf].keys[0] != min
  {
  }

  lemma SideIsTarget(e: Env, a: Aim, m: Moment, c: nat, level: nat)
    requires Proper(e) && InStep(e, m) && Stands(e, m.prog, c, level) && c > 0
    ensures SideOf(e, a, m.v.stage, c) == Holds || c == e.y == a.z ==> Target(e, a, m.v.stage, c)
  {
  }

  /** One read keeps a traversal sound: it is never led past the point, and never to the answer NULL. */
  lemma {:induction false} ReadKeepsSane(e: Env, s: Slot, a: Aim, m: Moment, k: Walker)
    requires Proper(e) && Fits(e, s) && Aimed(e, a) && Good(e, s, a.cut, m) && Sane(e, a, m, k)
    ensures Sane(e, a, m, Read(m.w, k, a.key))
  {
    match k
    case Ready(p, level) => ReadNext(e, s, a, m, p, level);
    case Got(_, _, _) => ReadLeaf(e, s, a, m, k);
    case Seen(_, _, _, _) => ReadLeaf(e, s, a, m, k);
    case Check(p, level, leaf, min) => ReadPrev(e, s, a, m, p, level, leaf, min);
    case Recheck(p, level, leaf, min) => ReadMinAgain(e, s, a, m, p, level, leaf, min);
    case _ =>
    hide Proper, Good, Sane, Aimed, Fits;
  }

  lemma ReadPrev(e: Env, s: Slot, a: Aim, m: Moment, p: nat, level: nat, leaf: nat, min: nat)
    requires Proper(e) && Fits(e, s) && Aimed(e, a) && Good(e, s, a.cut, m) && Sane(e, a, m, Check(p, level, leaf, min))
    ensures Sane(e, a, m, Read(m.w, Check(p, level, leaf, min), a.key))
  {
    InMemory(e, s, a, m, leaf, level);
    CheckReads(m.w, p, level, leaf, min, a.key);
    hide Read, Good, Aimed, Fits, Stands, Behind, Target, SideOf, Proper;
  }

  lemma ReadMinAgain(e: Env, s: Slot, a: Aim, m: Moment, p: nat, level: nat, leaf: nat, min: nat)
    requires Proper(e) && Fits(e, s) && Aimed(e, a) && Good(e, s, a.cut, m)
    requires Sane(e, a, m, Recheck(p, level, leaf, min))
    ensures Sane(e, a, m, Read(m.w, Recheck(p, level, leaf, min), a.key))
  {
    RecheckMeans(e, a, m, p, level, leaf, min);
    InMemory(e, s, a, m, leaf, level);
    StandsBelow(e, m.prog, p, level);
    CheckReads(m.w, p, level, leaf, min, a.key);
    DownIsSane(e, a, m, p, level);
    hide *;
  }

  lemma DownIsSane(e: Env, a: Aim, m: Moment, p: nat, level: nat)
    ensures Sane(e, a, m, Again)
    ensures level > 0 && Stands(e, m.prog, p, level - 1) && Behind(e, a, m.v.stage, p) ==> Sane(e, a, m, Down(p, level))
  {
    hide Stands, Behind;
  }

  lemma RecheckMeans(e: Env, a: Aim, m: Moment, p: nat, level: nat, leaf: nat, min: nat)
    requires Sane(e, a, m, Recheck(p, level, leaf, min))
    ensures Stands(e, m.prog, p, level) && Behind(e, a, m.v.stage, p)
    ensures Stands(e, m.prog, leaf, level) && leaf > 0 && level > 0
  {
  }

  lemma InMemory(e: Env, s: Slot, a: Aim, m: Moment, c: nat, level: nat)
    requires Proper(e) && Fits(e, s) && Aimed(e, a) && Good(e, s, a.cut, m) && Stands(e, m.prog, c, level) && c > 0
    ensures level < |m.w.prev| && c < |m.w.prev[level]| && c < |m.w.mems| && |m.w.mems[c].keys| > 0
  {
    StandsInRange(e, m.prog, c, level);
    ReachableShows(e, s, a, m, c, level);
    hide WellFormed, GoodView, ViewBounds, AtRest, Links, Mems, SideOf, Aimed, Fits, Stands;
  }

  // ---- whole lookups

  lemma {:induction false} WalkIsSane(e: Env, s: Slot, a: Aim, trace: seq<Moment>, ts: seq<nat>)
    requires Proper(e) && Fits(e, s) && Aimed(e, a) && Insertion(e, s, a.cut, trace) && Times(ts, |trace|)
    ensures Sane(e, a, trace[ts[|ts| - 1]], Walk(trace, ts, a.key))
    decreases |ts|
  {
    hide WellFormed, Fits, Aimed, Sane, Good, Read, Later;
    var n := trace[ts[|ts| - 1]];
    if |ts| == 1 {
      StartsSane(e, s, a, n);
    } else {
      var before := ts[..|ts| - 1];
      var m := trace[before[|before| - 1]];
      WalkIsSane(e, s, a, trace, before);
      SaneLater(e, s, a, m, n, Walk(trace, before, a.key));
      ReadKeepsSane(e, s, a, n, Walk(trace, before, a.key));
    }
  }

  lemma StartsSane(e: Env, s: Slot, a: Aim, m: Moment)
    requires Proper(e) && Good(e, s, a.cut, m)
    ensures Sane(e, a, m, Ready(0, m.w.top))
  {
  }

  /**
   The traversal alone: at every moment of an insert it ends at the leaf that held the point before, or at the leaf
   that was split off that one, or starts over; it never answers NULL.
   */
  lemma {:induction false} TraversalNeverNull(e: Env, s: Slot, a: Aim, trace: seq<Moment>, ts: seq<nat>)
    requires Proper(e) && Fits(e, s) && Aimed(e, a) && Insertion(e, s, a.cut, trace) && Times(ts, |trace|)
    ensures !Walk(trace, ts, a.key).NotFound?
    ensures Walk(trace, ts, a.key).Found? ==>
      Walk(trace, ts, a.key).leaf == a.z || (a.z == e.y && Walk(trace, ts, a.key).leaf == e.New())
  {
    WalkIsSane(e, s, a, trace, ts);
    SaneAnswer(e, a, trace[ts[|ts| - 1]], Walk(trace, ts, a.key));
    hide *;
  }

  lemma SaneAnswer(e: Env, a: Aim, m: Moment, k: Walker)
    requires Sane(e, a, m, k)
    ensures !k.NotFound? && (k.Found? ==> k.leaf == a.z || (a.z == e.y && k.leaf == e.New()))
  {
  }

  /** What skiplist_lookup_rcu makes of one traversal; StartsOver also stands for waiting in leaf_slot. */
  datatype Outcome = Unfinished | StartsOver | Finds(slot: Slot) | Absent

  /** The scan of the leaf found, then after a hit the read of the pointer, after a miss those of min and max. */
  ghost function Settle(scanned: Mem, fetched: Mem, first: Mem, last: Mem, key: nat): Outcome {
    if Readable(scanned) && |first.keys| > 0 then
      match LeafScan(scanned, key, 1)
      case Hit(i) => if i < |fetched.ptrs| && fetched.ptrs[i].Ref? then Finds(fetched.ptrs[i].slot) else Absent
      case Retry => StartsOver
      case Miss => if key + 1 < first.keys[0] || key >= last.max then StartsOver else Absent
    else Absent
  }

  /** The moments of the scan, of reading the pointer it hit, and of verify_key_in_leaf. */
  datatype Finish = Finish(scan: nat, fetch: nat, least: nat, most: nat)

  ghost predicate InTime(f: Finish, ts: seq<nat>, n: nat) {
    Times(ts, n) && ts[|ts| - 1] <= f.scan <= f.fetch < n && f.scan <= f.least <= f.most < n
  }

  /**
   The lookup of a point: a traversal at the times ts, then the rest. A read outside the memory modelled would count as
   the answer "absent".
   */
  ghost function Lookup(trace: seq<Moment>, ts: seq<nat>, f: Finish, key: nat): Outcome
    requires InTime(f, ts, |trace|)
  {
    match Walk(trace, ts, key)
    case Found(leaf) =>
      var scanned, fetched := trace[f.scan].w.mems, trace[f.fetch].w.mems;
      var first, last := trace[f.least].w.mems, trace[f.most].w.mems;
      if leaf < |scanned| && leaf < |fetched| && leaf < |first| && leaf < |last| then
        Settle(scanned[leaf], fetched[leaf], first[leaf], last[leaf], key)
      else Absent
    case NotFound => Absent
    case Again => StartsOver
    case _ => Unfinished
  }

  /** A scan whose hits are right goes wrong only if the pointer hit is NULL when it is read. */
  lemma Settles(scanned: Mem, fetched: Mem, first: Mem, last: Mem, key: nat, x: Slot)
    requires Readable(scanned) && |first.keys| > 0 && |fetched.ptrs| == |scanned.ptrs|
    requires FoundOrRetry(scanned, LeafScan(scanned, key, 1), x) || last.max <= key
    requires LeafScan(scanned, key, 1).Hit? ==> FoundOrRetry(scanned, LeafScan(scanned, key, 1), x)
    ensures Settle(scanned, fetched, first, last, key) == Absent <==> LosesHit(scanned, fetched, key)
    ensures fetched == scanned ==> !LosesHit(scanned, fetched, key)
    ensures var r := Settle(scanned, fetched, first, last, key); fetched == scanned && r.Finds? ==> r.slot == x
  {
  }

  /** The scan hits an entry whose pointer is NULL when it is read. */
  ghost predicate LosesHit(scanned: Mem, fetched: Mem, key: nat) {
    Readable(scanned) && LeafScan(scanned, key, 1).Hit? && NullAt(fetched, LeafScan(scanned, key, 1).slot)
  }

  /** Scanning a leaf where the point may be, and then looking at its max. */
  lemma TargetScan(e: Env, s: Slot, a: Aim, m: Moment, n: Moment, leaf: nat)
    requires Proper(e) && Aimed(e, a) && Good(e, s, a.cut, m) && Good(e, s, a.cut, n) && Later(m, n)
    requires Target(e, a, m.v.stage, leaf)
    ensures 1 <= leaf < |m.w.mems| && leaf < |n.w.mems| && Readable(m.w.mems[leaf]) && |n.w.mems[leaf].keys| > 0
    ensures |n.w.mems[leaf].ptrs| == |m.w.mems[leaf].ptrs|
    ensures FoundOrRetry(m.w.mems[leaf], LeafScan(m.w.mems[leaf], a.key, 1), e.ls[a.z - 1].slots[a.j])
      || n.w.mems[leaf].max <= a.key
  {
    hide WellFormed, LeafScan, FoundOrRetry, Links, ViewBounds, GoodView, AtRest, Ordered, Readable;
    SlotWithinLeaf(e.ls, a.z - 1, a.j);
    ViewReadable(m.v, e.ls[e.y - 1].slots, a.cut);
    ViewReadable(n.v, e.ls[e.y - 1].slots, a.cut);
    var q := e.ls[a.z - 1].slots;
    if leaf == e.New() {
      SplitPick(m.v, q, a.cut, a.j, a.key);
    } else if leaf == e.y {
      LeafPick(m.v, n.v, q, a.cut, a.j, a.key);
    } else {
      RestFinds(m.w.mems[leaf], q, a.j, a.key);
      RestFinds(n.w.mems[leaf], q, a.j, a.key);
    }
    if leaf <= e.New() {
      IsReadable(m.w.mems[leaf]);
      IsReadable(n.w.mems[leaf]);
    }
  }

  lemma IsReadable(m: Mem)
    requires Readable(m)
    ensures |m.keys| > 0 && |m.ptrs| == KEYS_PER_NODE + 1
  {
  }

  lemma ViewReadable(v: View, q: seq<Slot>, cut: nat)
    requires q != [] && cut <= |q| && GoodView(v, q, cut)
    ensures Readable(v.leaf) && |v.leaf.keys| > 0 && (v.stage >= 1 ==> Readable(v.split) && |v.split.keys| > 0)
  {
  }

  /** The slot that holds the point, or no answer yet. */
  ghost predicate NotAbsent(e: Env, a: Aim, r: Outcome)
    requires Proper(e) && Aimed(e, a)
  {
    r != Absent && (r.Finds? ==> r.slot == e.ls[a.z - 1].slots[a.j])
  }

  lemma RestFinds(m: Mem, q: seq<Slot>, j: nat, p: nat)
    requires Ordered(q) && AtRest(m, q) && j < |q| && Overlaps(q[j], p, 1)
    ensures Readable(m) && FoundOrRetry(m, LeafScan(m, p, 1), q[j])
  {
    RestIsGood(m, q);
  }

  lemma TargetHit(e: Env, s: Slot, a: Aim, m: Moment, leaf: nat)
    requires Proper(e) && Fits(e, s) && Aimed(e, a) && Good(e, s, a.cut, m)
    requires Target(e, a, m.v.stage, leaf) && 1 <= leaf < |m.w.mems| && Readable(m.w.mems[leaf])
    requires LeafScan(m.w.mems[leaf], a.key, 1).Hit?
    ensures FoundOrRetry(m.w.mems[leaf], LeafScan(m.w.mems[leaf], a.key, 1), e.ls[a.z - 1].slots[a.j])
  {
    hide WellFormed, LeafScan, FoundOrRetry, Links, GoodView, AtRest, Free, Ordered, Readable, Tidy;
    SlotWithinLeaf(e.ls, a.z - 1, a.j);
    var q := e.ls[a.z - 1].slots;
    if leaf == e.New() {
      SplitPick(m.v, q, a.cut, a.j, a.key);
    } else if leaf == e.y {
      HitIsStored(m.v.leaf, q, s, a.j, a.key);
    } else {
      RestFinds(m.w.mems[leaf], q, a.j, a.key);
    }
  }

  lemma LeafSettles(e: Env, s: Slot, a: Aim, m: Moment, fetch: Moment, least: Moment, most: Moment, leaf: nat)
    requires Proper(e) && Fits(e, s) && Aimed(e, a) && Target(e, a, m.v.stage, leaf)
    requires Good(e, s, a.cut, m) && Good(e, s, a.cut, fetch) && Good(e, s, a.cut, least) && Good(e, s, a.cut, most)
    requires Later(m, fetch) && Later(m, least) && Later(m, most)
    ensures leaf < |m.w.mems| && leaf < |fetch.w.mems| && leaf < |least.w.mems| && leaf < |most.w.mems|
    ensures var scanned, fetched := m.w.mems[leaf], fetch.w.mems[leaf];
      var r := Settle(scanned, fetched, least.w.mems[leaf], most.w.mems[leaf], a.key);
      && (r == Absent <==> LosesHit(scanned, fetched, a.key))
      && (fetched == scanned ==> NotAbsent(e, a, r))
  {
    TargetScan(e, s, a, m, most, leaf);
    TargetScan(e, s, a, m, least, leaf);
    TargetScan(e, s, a, m, fetch, leaf);
    if LeafScan(m.w.mems[leaf], a.key, 1).Hit? {
      TargetHit(e, s, a, m, leaf);
    }
    Settles(m.w.mems[leaf], fetch.w.mems[leaf], least.w.mems[leaf], most.w.mems[leaf], a.key,
            e.ls[a.z - 1].slots[a.j]);
    hide WellFormed, Aimed, Fits, Good, LeafScan, Target, Readable, Settle, FoundOrRetry, LosesHit;
  }

  lemma MomentGood(e: Env, s: Slot, cut: nat, trace: seq<Moment>, t: nat, u: nat)
    requires Proper(e) && Insertion(e, s, cut, trace) && t <= u < |trace|
    ensures Good(e, s, cut, trace[t]) && Good(e, s, cut, trace[u]) && Later(trace[t], trace[u])
  {
    hide Good, Later, OneAccess;
  }

  /** A finished traversal leaves the answer to the scan. */
  lemma Scanned(e: Env, s: Slot, a: Aim, trace: seq<Moment>, ts: seq<nat>, f: Finish)
    requires Proper(e) && Fits(e, s) && Aimed(e, a) && Insertion(e, s, a.cut, trace) && InTime(f, ts, |trace|)
    requires Walk(trace, ts, a.key).Found? && Target(e, a, trace[f.scan].v.stage, Walk(trace, ts, a.key).leaf)
    ensures var leaf := Walk(trace, ts, a.key).leaf;
      && leaf < |trace[f.scan].w.mems| && leaf < |trace[f.fetch].w.mems|
      && (Lookup(trace, ts, f, a.key) == Absent <==>
            LosesHit(trace[f.scan].w.mems[leaf], trace[f.fetch].w.mems[leaf], a.key))
    ensures f.fetch == f.scan ==> NotAbsent(e, a, Lookup(trace, ts, f, a.key))
  {
    MomentGood(e, s, a.cut, trace, f.scan, f.fetch);
    MomentGood(e, s, a.cut, trace, f.scan, f.least);
    MomentGood(e, s, a.cut, trace, f.scan, f.most);
    LeafSettles(e, s, a, trace[f.scan], trace[f.fetch], trace[f.least], trace[f.most], Walk(trace, ts, a.key).leaf);
    LookupIs(trace, ts, f, a.key);
    hide WellFormed, Aimed, Fits, Good, Walk, Lookup, Target, Settle, Insertion, NotAbsent, Later, LosesHit;
  }

  lemma LookupIs(trace: seq<Moment>, ts: seq<nat>, f: Finish, key: nat)
    requires InTime(f, ts, |trace|) && Walk(trace, ts, key).Found?
    ensures var leaf := Walk(trace, ts, key).leaf;
      var m, n, first, last := trace[f.scan].w.mems, trace[f.fetch].w.mems, trace[f.least].w.mems, trace[f.most].w.mems;
      leaf < |m| && leaf < |n| && leaf < |first| && leaf < |last| ==>
        Lookup(trace, ts, f, key) == Settle(m[leaf], n[leaf], first[leaf], last[leaf], key)
  {
    hide Walk, Settle;
  }

  /** Where a traversal for a point stored before is when the scan begins. */
  lemma WalkHolds(e: Env, s: Slot, a: Aim, trace: seq<Moment>, ts: seq<nat>, f: Finish)
    requires Proper(e) && Fits(e, s) && Aimed(e, a) && Insertion(e, s, a.cut, trace) && InTime(f, ts, |trace|)
    ensures var k := Walk(trace, ts, a.key); !k.NotFound? && (k.Found? ==> Target(e, a, trace[f.scan].v.stage, k.leaf))
  {
    hide WellFormed, Fits, Aimed, Good, Walk, Target, Insertion;
    WalkIsSane(e, s, a, trace, ts);
    MomentGood(e, s, a.cut, trace, ts[|ts| - 1], f.scan);
    SaneLater(e, s, a, trace[ts[|ts| - 1]], trace[f.scan], Walk(trace, ts, a.key));
  }

  /**
   At every moment of an insert, and with the reads of the lookup falling between its stores in any way, looking up
   a point stored before finds the slot stored there or starts over, as long as the pointer hit is read along with the
   scan: it never answers that the point is absent.
   */
  lemma {:induction false} LookupNeverAbsent(e: Env, s: Slot, a: Aim, trace: seq<Moment>, ts: seq<nat>, f: Finish)
    requires Proper(e) && Fits(e, s) && Aimed(e, a) && Insertion(e, s, a.cut, trace)
    requires InTime(f, ts, |trace|) && f.fetch == f.scan
    ensures NotAbsent(e, a, Lookup(trace, ts, f, a.key))
  {
    hide WellFormed, Fits, Aimed, Good, Walk, LeafScan, Target, Insertion;
    WalkHolds(e, s, a, trace, ts, f);
    if Walk(trace, ts, a.key).Found? {
      Scanned(e, s, a, trace, ts, f);
    }
  }

  // ---- the pointer read after the scan

  /** Entry i holds a slot and is in use, or has been given away in a split since the moment m. */
  ghost predicate Kept(m: Moment, n: Moment, cut: nat, i: nat) {
    && i < |n.v.leaf.ptrs|
    && if n.v.leaf.ptrs[i].Ref? && i < n.v.leaf.nr then true
       else m.v.stage < 3 == n.v.stage && (n.v.leaf.ptrs[i].Ref? || i == cut)
  }

  lemma KeptNext(e: Env, cut: nat, m: Moment, n: Moment, o: Moment, i: nat)
    requires Proper(e) && Kept(m, n, cut, i) && Steady(e, cut, n, o) && Later(m, n) && Later(n, o) && o.v.stage <= 3
    ensures Kept(m, o, cut, i)
  {
  }

  /** An entry in use holds a slot ever after, but for the first entry that a split gives away. */
  lemma {:induction false} EntryKept(e: Env, s: Slot, cut: nat, trace: seq<Moment>, i: nat, scan: nat, fetch: nat)
    requires Proper(e) && Insertion(e, s, cut, trace) && scan <= fetch < |trace|
    requires InUse(trace[scan].v.leaf, i)
    ensures Kept(trace[scan], trace[fetch], cut, i)
  {
    hide Good, Insertion, Steady, Later, WellFormed;
    if scan < fetch {
      EntryKept(e, s, cut, trace, i, scan, fetch - 1);
      NextSteady(e, s, cut, trace, fetch - 1);
      MomentGood(e, s, cut, trace, scan, fetch - 1);
      MomentGood(e, s, cut, trace, fetch - 1, fetch);
      MomentStage(e, s, cut, trace[fetch]);
      KeptNext(e, cut, trace[scan], trace[fetch - 1], trace[fetch], i);
    }
  }

  ghost predicate InUse(m: Mem, i: nat) {
    i < m.nr && i < |m.ptrs| && m.ptrs[i].Ref?
  }

  lemma NextSteady(e: Env, s: Slot, cut: nat, trace: seq<Moment>, t: nat)
    requires Proper(e) && Insertion(e, s, cut, trace) && t + 1 < |trace|
    ensures Steady(e, cut, trace[t], trace[t + 1])
  {
    hide Good, OneAccess, Later, Steady;
  }

  lemma MomentStage(e: Env, s: Slot, cut: nat, m: Moment)
    requires Proper(e) && Good(e, s, cut, m)
    ensures m.v.stage <= 3
  {
  }

  lemma {:induction false} SplitKept(e: Env, s: Slot, cut: nat, trace: seq<Moment>, t: nat, u: nat)
    requires Proper(e) && Insertion(e, s, cut, trace) && t <= u < |trace|
    ensures trace[u].v.split == trace[t].v.split
  {
    hide Insertion, NoSlotLost;
    if t < u {
      SplitKept(e, s, cut, trace, t, u - 1);
      NextSteady(e, s, cut, trace, u - 1);
    }
  }

  /** The one way for a lookup to lose a slot: it hit the entry before the split gave it away. */
  ghost predicate Lost(e: Env, a: Aim, trace: seq<Moment>, ts: seq<nat>, f: Finish)
    requires InTime(f, ts, |trace|)
  {
    && a.z == e.y && a.j == a.cut && Walk(trace, ts, a.key) == Found(e.y)
    && trace[f.scan].v.stage < 3 && Reopened(trace[f.fetch].v, a.cut)
  }

  lemma HitInUse(m: Mem, key: nat)
    requires Readable(m) && LeafScan(m, key, 1).Hit?
    ensures InUse(m, LeafScan(m, key, 1).slot)
  {
  }

  /** A leaf at rest, or one split off, keeps every slot that a scan can hit. */
  lemma HitElsewhere(e: Env, s: Slot, a: Aim, trace: seq<Moment>, scan: nat, fetch: nat, leaf: nat)
    requires Proper(e) && Insertion(e, s, a.cut, trace) && scan <= fetch < |trace|
    requires 1 <= leaf <= e.New() && leaf != e.y
    ensures leaf < |trace[scan].w.mems| && leaf < |trace[fetch].w.mems|
    ensures !LosesHit(trace[scan].w.mems[leaf], trace[fetch].w.mems[leaf], a.key)
  {
    MomentGood(e, s, a.cut, trace, scan, fetch);
    GoodSizes(e, s, a.cut, trace[scan]);
    GoodSizes(e, s, a.cut, trace[fetch]);
    SplitKept(e, s, a.cut, trace, scan, fetch);
    var m := trace[scan].w.mems[leaf];
    if Readable(m) && LeafScan(m, a.key, 1).Hit? {
      HitInUse(m, a.key);
      StillHeld(e, s, a.cut, trace[scan], trace[fetch], leaf, LeafScan(m, a.key, 1).slot);
    }
    hide WellFormed, Good, Insertion, LeafScan, Readable;
  }

  lemma StillHeld(e: Env, s: Slot, cut: nat, m: Moment, n: Moment, leaf: nat, i: nat)
    requires Proper(e) && Good(e, s, cut, m) && Good(e, s, cut, n) && n.v.split == m.v.split
    requires 1 <= leaf <= e.New() && leaf != e.y
    requires InUse(m.w.mems[leaf], i)
    ensures var u := n.w.mems[leaf]; i < |u.ptrs| && u.ptrs[i].Ref?
  {
    if leaf != e.New() {
      assert AtRest(m.w.mems[leaf], e.ls[leaf - 1].slots) && AtRest(n.w.mems[leaf], e.ls[leaf - 1].slots);
    }
    hide WellFormed, GoodView, ViewBounds, Links;
  }

  /** The entry of a slot before a split is that of its place in the leaf. */
  lemma EntryOfSlot(e: Env, s: Slot, a: Aim, m: Moment, n: Moment, i: nat)
    requires Proper(e) && Fits(e, s) && Aimed(e, a) && Good(e, s, a.cut, m) && Good(e, s, a.cut, n) && a.z == e.y
    requires m.v.stage < 3 == n.v.stage
    ensures a.cut < |e.ls[e.y - 1].slots| && AtRest(m.v.leaf, e.ls[e.y - 1].slots)
    ensures i == a.cut && i < |m.v.leaf.ptrs| && m.v.leaf.ptrs[i] == Ref(e.ls[a.z - 1].slots[a.j]) ==> a.j == a.cut
  {
    hide WellFormed, ViewBounds, Links, GoodFor, Free;
    SlotWithinLeaf(e.ls, a.z - 1, a.j);
    var q := e.ls[e.y - 1].slots;
    if i == a.cut && i < |m.v.leaf.ptrs| && m.v.leaf.ptrs[i] == Ref(q[a.j]) {
      SlotOfPointUnique(q, a.j, a.cut, a.key);
    }
  }

  /** What a lookup loses in the old leaf, it loses to the split. */
  lemma OwnLost(e: Env, s: Slot, a: Aim, m: Moment, n: Moment)
    requires Proper(e) && Fits(e, s) && Aimed(e, a) && Good(e, s, a.cut, m) && Good(e, s, a.cut, n) && a.z == e.y
    requires Target(e, a, m.v.stage, e.y) && LosesHit(m.v.leaf, n.v.leaf, a.key)
    requires Kept(m, n, a.cut, LeafScan(m.v.leaf, a.key, 1).slot)
    ensures a.j == a.cut && m.v.stage < 3 && Reopened(n.v, a.cut)
  {
    var i := LeafScan(m.v.leaf, a.key, 1).slot;
    HitMeans(m.v.leaf, n.v.leaf, a.key);
    OldLeaf(e, s, a.cut, m);
    TargetHit(e, s, a, m, e.y);
    LostIsGivenAway(m, n, a.cut, i);
    AimedSlot(e, a);
    EntryOfSlot(e, s, a, m, n, i);
    HitHolds(m.v.leaf, a.key, e.ls[a.z - 1].slots[a.j]);
    hide *;
  }

  /** What a lookup loses after a hit, it loses to the split. */
  lemma LostBySplit(e: Env, s: Slot, a: Aim, trace: seq<Moment>, scan: nat, fetch: nat, leaf: nat)
    requires Proper(e) && Fits(e, s) && Aimed(e, a) && Insertion(e, s, a.cut, trace) && scan <= fetch < |trace|
    requires Target(e, a, trace[scan].v.stage, leaf) && 1 <= leaf <= e.New()
    requires leaf < |trace[scan].w.mems| && leaf < |trace[fetch].w.mems|
    requires LosesHit(trace[scan].w.mems[leaf], trace[fetch].w.mems[leaf], a.key)
    ensures a.z == leaf == e.y && a.j == a.cut && trace[scan].v.stage < 3 && Reopened(trace[fetch].v, a.cut)
  {
    hide *;
    var m, n := trace[scan], trace[fetch];
    if leaf != e.y {
      HitElsewhere(e, s, a, trace, scan, fetch, leaf);
      assert false;
    }
    MomentGood(e, s, a.cut, trace, scan, fetch);
    OldLeaf(e, s, a.cut, m);
    OldLeaf(e, s, a.cut, n);
    TargetIsOwn(e, a, m.v.stage);
    HitMeans(m.v.leaf, n.v.leaf, a.key);
    EntryKept(e, s, a.cut, trace, LeafScan(m.v.leaf, a.key, 1).slot, scan, fetch);
    OwnLost(e, s, a, m, n);
  }

  lemma LostIsGivenAway(m: Moment, n: Moment, cut: nat, i: nat)
    requires Kept(m, n, cut, i) && NullAt(n.v.leaf, i)
    ensures i == cut && m.v.stage < 3 == n.v.stage && Reopened(n.v, cut)
  {
  }

  lemma HitMeans(m: Mem, n: Mem, key: nat)
    requires LosesHit(m, n, key)
    ensures Readable(m) && LeafScan(m, key, 1).Hit?
    ensures var i := LeafScan(m, key, 1).slot; NullAt(n, i) && InUse(m, i)
  {
    HitInUse(m, key);
    hide LeafScan, Readable;
  }

  lemma HitHolds(m: Mem, key: nat, x: Slot)
    requires LeafScan.requires(m, key, 1) && LeafScan(m, key, 1).Hit? && FoundOrRetry(m, LeafScan(m, key, 1), x)
    ensures var i := LeafScan(m, key, 1).slot; i < |m.ptrs| && m.ptrs[i] == Ref(x)
  {
    hide LeafScan;
  }

  lemma GoodSizes(e: Env, s: Slot, cut: nat, m: Moment)
    requires Proper(e) && Good(e, s, cut, m)
    ensures |m.w.mems| == |e.ls| + 2
  {
  }

  lemma OldLeaf(e: Env, s: Slot, cut: nat, m: Moment)
    requires Proper(e) && Good(e, s, cut, m)
    ensures e.y < |m.w.mems| && m.w.mems[e.y] == m.v.leaf
  {
  }

  lemma TargetIsOwn(e: Env, a: Aim, stage: nat)
    requires Proper(e) && Target(e, a, stage, e.y)
    ensures a.z == e.y
  {
  }

  /** A leaf at rest answers a scan for a point of slot j with entry j. */
  lemma RestHits(m: Mem, q: seq<Slot>, j: nat, p: nat)
    requires Ordered(q) && AtRest(m, q) && j < |q| && Overlaps(q[j], p, 1)
    ensures Readable(m) && j < |m.ptrs| && LeafScan(m, p, 1) == Hit(j)
  {
    forall x | 0 <= x <= j ensures m.keys[x] < p + 1 {
      assert x < j ==> q[x].End() <= q[j].key;
    }
    assert j + 1 < |q| ==> q[j].End() <= q[j + 1].key;
    CurIs(m.keys, m.nr, p + 1, 0, j);
  }

  lemma RestLoses(m: Mem, n: Mem, q: seq<Slot>, j: nat, p: nat)
    requires Ordered(q) && AtRest(m, q) && j < |q| && Overlaps(q[j], p, 1) && NullAt(n, j)
    ensures LosesHit(m, n, p)
  {
    RestHits(m, q, j, p);
    hide Ordered, AtRest, LeafScan, Readable;
  }

  lemma ReopenedLoses(e: Env, s: Slot, a: Aim, m: Moment, n: Moment)
    requires Proper(e) && Fits(e, s) && Aimed(e, a) && Good(e, s, a.cut, m) && Good(e, s, a.cut, n)
    requires a.z == e.y && a.j == a.cut && m.v.stage < 3 && Reopened(n.v, a.cut)
    ensures e.y < |m.w.mems| && e.y < |n.w.mems| && LosesHit(m.w.mems[e.y], n.w.mems[e.y], a.key)
  {
    OldLeaf(e, s, a.cut, m);
    OldLeaf(e, s, a.cut, n);
    EntryOfSlot(e, s, a, m, n, a.cut);
    AimedSlot(e, a);
    NullWhenReopened(n.v, a.cut);
    RestLoses(m.v.leaf, n.v.leaf, e.ls[a.z - 1].slots, a.j, a.key);
    hide *;
  }

  lemma AimedSlot(e: Env, a: Aim)
    requires Proper(e) && Aimed(e, a)
    ensures 1 <= a.z <= |e.ls| && a.j < |e.ls[a.z - 1].slots|
    ensures Overlaps(e.ls[a.z - 1].slots[a.j], a.key, 1) && Ordered(e.ls[a.z - 1].slots)
  {
    SlotWithinLeaf(e.ls, a.z - 1, a.j);
    hide WellFormed, Ordered;
  }

  lemma NullWhenReopened(v: View, cut: nat)
    requires Reopened(v, cut)
    ensures v.stage == 3 && NullAt(v.leaf, cut)
  {
  }

  /**
   With the pointer read at a moment of its own, as in the code, the lookup of a point stored before answers "absent" in
   one case exactly: its scan hit the first of the entries that the split gives away before nr went down, and the
   pointer is read while that entry, reopened for the slot being inserted, holds NULL.
   */
  lemma {:induction false} LookupAbsentIff(e: Env, s: Slot, a: Aim, trace: seq<Moment>, ts: seq<nat>, f: Finish)
    requires Proper(e) && Fits(e, s) && Aimed(e, a) && Insertion(e, s, a.cut, trace) && InTime(f, ts, |trace|)
    ensures Lookup(trace, ts, f, a.key) == Absent <==> Lost(e, a, trace, ts, f)
  {
    hide WellFormed, Fits, Aimed, Good, Walk, LeafScan, Target, Insertion, Reopened, LosesHit;
    WalkHolds(e, s, a, trace, ts, f);
    var k := Walk(trace, ts, a.key);
    if k.Found? {
      Scanned(e, s, a, trace, ts, f);
      MomentGood(e, s, a.cut, trace, f.scan, f.fetch);
      if Lookup(trace, ts, f, a.key) == Absent {
        TargetRange(e, a, trace[f.scan].v.stage, k.leaf);
        LostBySplit(e, s, a, trace, f.scan, f.fetch, k.leaf);
      }
      if Lost(e, a, trace, ts, f) {
        ReopenedLoses(e, s, a, trace[f.scan], trace[f.fetch]);
      }
    }
  }

  lemma TargetRange(e: Env, a: Aim, stage: nat, leaf: nat)
    requires Proper(e) && Aimed(e, a) && Target(e, a, stage, leaf)
    ensures 1 <= leaf <= e.New()
  {
  }
}
