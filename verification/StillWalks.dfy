/** The lock-free lookup while nobody stores anything: it ends, with the right answer, and starts over for no reason. */
module StillWalks {
  import opened Extents
  import opened Leaves
  import opened Towers
  import opened IndexSpec
  import opened Alone = Lookup
  import opened LeafStores
  import opened Traversals
  import opened InsertTraces

  /** n reads of a traversal, all at one moment. */
  function Reads(w: World, k: Walker, key: nat, n: nat): Walker
    decreases n
  {
    if n == 0 then k else Reads(w, Read(w, k, key), key, n - 1)
  }

  predicate Ended(k: Walker) {
    k.Found? || k.NotFound? || k.Again?
  }

  lemma {:induction false} EndedStays(w: World, k: Walker, key: nat, n: nat)
    requires Ended(k)
    ensures Reads(w, k, key, n) == k
    decreases n
  {
    if n > 0 {
      EndedStays(w, k, key, n - 1);
    }
  }

  lemma {:induction false} ReadsConcat(w: World, k: Walker, key: nat, m: nat, n: nat)
    ensures Reads(w, k, key, m + n) == Reads(w, Reads(w, k, key, m), key, n)
    decreases m
  {
    if m > 0 {
      ReadsConcat(w, Read(w, k, key), key, m - 1, n);
    }
  }

  // ---- the links at one moment

  /** Twice the place of an old leaf; the new one comes between the leaf split and the next. */
  function Pos(e: Env, c: nat): nat {
    if c == e.New() then 2 * e.y + 1 else 2 * c
  }

  /** The one state in which next and prev disagree: the new node is reachable, but its next points back past it. */
  predicate HalfLinked(prog: nat, level: nat) {
    prog == 4 * level + 3
  }

  lemma NextGoesRight(e: Env, w: World, prog: nat, p: nat, level: nat)
    requires Proper(e) && Sizes(e, w) && NextLinks(e, w, prog) && Stands(e, prog, p, level)
    ensures p < |w.next[level]|
    ensures var d := w.next[level][p]; d == NIL || (d > 0 && Stands(e, prog, d, level) && Pos(e, p) < Pos(e, d))
  {
    hide WellFormed;
  }

  /** What next leads to points back, but for a node that is only half linked. */
  lemma {:induction false} PrevAnswers(e: Env, w: World, prog: nat, p: nat, level: nat)
    requires Proper(e) && Sizes(e, w) && Links(e, w, prog) && Stands(e, prog, p, level) && w.next[level][p] != NIL
    ensures 0 < w.next[level][p] < |w.prev[level]|
    ensures w.prev[level][w.next[level][p]] == p <==> !(p == e.New() && HalfLinked(prog, level))
  {
    hide WellFormed;
    var y := Pred(e, level);
    SuccBack(e, y, level);
    if p != e.New() {
      SuccBack(e, p, level);
    }
    NextGoesRight(e, w, prog, p, level);
  }

  /** So with nothing stored since next was read, the recheck starts a traversal over in that state only. */
  lemma CheckAgainIff(e: Env, w: World, prog: nat, p: nat, level: nat, leaf: nat, min: nat, key: nat)
    requires Proper(e) && Sizes(e, w) && Links(e, w, prog) && Stands(e, prog, p, level) && w.next[level][p] == leaf
    ensures Read(w, Check(p, level, leaf, min), key) ==
      if p == e.New() && HalfLinked(prog, level) then Again else Recheck(p, level, leaf, min)
  {
    PrevAnswers(e, w, prog, p, level);
    hide WellFormed, Links;
  }

  // ---- a traversal left alone ends

  function LeafAhead(m: Mem, p: nat, level: nat, leaf: nat, key: nat): Walker {
    if |m.keys| == 0 then NotFound else if key >= m.max then Ready(leaf, level)
    else if key < m.keys[0] then Check(p, level, leaf, m.keys[0]) else Found(leaf)
  }

  /** What the next three reads make of a leaf ahead. */
  lemma ThreeReads(w: World, p: nat, level: nat, leaf: nat, key: nat)
    requires level < |w.next| && p < |w.next[level]| && w.next[level][p] == leaf && leaf < |w.mems|
    ensures Reads(w, Ready(p, level), key, 3) == LeafAhead(w.mems[leaf], p, level, leaf, key)
  {
    var seen := Seen(p, level, leaf, w.mems[leaf].max);
    assert Reads(w, Ready(p, level), key, 3) == Reads(w, Got(p, level, leaf), key, 2);
    assert Reads(w, Got(p, level, leaf), key, 2) == Reads(w, seen, key, 1);
    assert Reads(w, seen, key, 1) == Reads(w, Read(w, seen, key), key, 0);
  }

  /** The end of a level, and the second look at a leaf's min. */
  lemma LevelEnds(w: World, p: nat, level: nat, leaf: nat, key: nat)
    requires level < |w.next| && p < |w.next[level]|
    ensures w.next[level][p] == NIL ==> Read(w, Ready(p, level), key) == Down(p, level)
    ensures leaf < |w.mems| && |w.mems[leaf].keys| > 0 ==>
      Read(w, Recheck(p, level, leaf, w.mems[leaf].keys[0]), key) == Down(p, level)
  {
  }

  lemma TwoMore(w: World, k: Walker, key: nat, n: nat)
    ensures Reads(w, k, key, n + 1) == Read(w, Reads(w, k, key, n), key)
    ensures Reads(w, k, key, n + 2) == Read(w, Read(w, Reads(w, k, key, n), key), key)
  {
    var m := Reads(w, k, key, n);
    ReadsConcat(w, k, key, n, 1);
    ReadsConcat(w, k, key, n, 2);
    assert Reads(w, m, key, 1) == Reads(w, Read(w, m, key), key, 0);
    assert Reads(w, m, key, 2) == Reads(w, Read(w, m, key), key, 1);
    assert Reads(w, Read(w, m, key), key, 1) == Reads(w, Read(w, Read(w, m, key), key), key, 0);
    hide Read;
  }

  /** With nothing stored meanwhile every traversal ends, and not in Again unless a node is half linked. */
  lemma {:induction false} StillEnds(e: Env, w: World, prog: nat, p: nat, level: nat, key: nat) returns (n: nat)
    requires Proper(e) && Sizes(e, w) && Links(e, w, prog) && Stands(e, prog, p, level)
    ensures Ended(Reads(w, Ready(p, level), key, n))
    ensures Reads(w, Ready(p, level), key, n) == Again ==> prog % 4 == 3
    decreases level, 2 * |e.ls| + 2 - Pos(e, p), 1
  {
    hide WellFormed, Links, Stands, Read, Down, Sizes, Pos;
    StandsInRange(e, prog, p, level);
    LinksParts(e, w, prog);
    InRows(e, w, p, level);
    NextGoesRight(e, w, prog, p, level);
    LevelEnds(w, p, level, 0, key);
    if w.next[level][p] == NIL {
      PosBounded(e, p);
      n := StillDown(e, w, prog, p, level, key);
      n := n + 1;
    } else {
      n := StillAhead(e, w, prog, p, level, key);
    }
  }

  lemma {:induction false} StillAhead(e: Env, w: World, prog: nat, p: nat, level: nat, key: nat) returns (n: nat)
    requires Proper(e) && Sizes(e, w) && Links(e, w, prog) && Stands(e, prog, p, level)
    requires level < |w.next| && p < |w.next[level]| && w.next[level][p] != NIL
    ensures Ended(Reads(w, Ready(p, level), key, n))
    ensures Reads(w, Ready(p, level), key, n) == Again ==> prog % 4 == 3
    decreases level, 2 * |e.ls| + 2 - Pos(e, p), 0
  {
    hide WellFormed, Links, Stands, Read, Down, Sizes, Pos;
    var d := w.next[level][p];
    LinksParts(e, w, prog);
    NextGoesRight(e, w, prog, p, level);
    StandsInRange(e, prog, d, level);
    StandsInRange(e, prog, p, level);
    InRows(e, w, d, level);
    PosBounded(e, p);
    PosBounded(e, d);
    ThreeReads(w, p, level, d, key);
    var k := Reads(w, Ready(p, level), key, 3);
    if k.Ready? {
      n := StillEnds(e, w, prog, d, level, key);
      ReadsConcat(w, Ready(p, level), key, 3, n);
      n := 3 + n;
    } else if k.Check? {
      CheckAgainIff(e, w, prog, p, level, d, k.min, key);
      TwoMore(w, Ready(p, level), key, 3);
      LevelEnds(w, p, level, d, key);
      if Read(w, k, key) == Again {
        n := 4;
      } else {
        n := StillDown(e, w, prog, p, level, key);
        ReadsConcat(w, Ready(p, level), key, 5, n);
        n := 5 + n;
      }
    } else {
      n := 3;
    }
  }

  lemma PosBounded(e: Env, c: nat)
    requires c <= e.New() && e.y <= |e.ls|
    ensures Pos(e, c) <= 2 * |e.ls| + 1
  {
  }

  lemma LinksParts(e: Env, w: World, prog: nat)
    requires Proper(e) && Sizes(e, w) && Links(e, w, prog)
    ensures NextLinks(e, w, prog) && PrevLinks(e, w, prog)
  {
    hide NextLinks, PrevLinks;
  }

  /** Going down a level, or being told NULL at the lowest. */
  lemma {:induction false} StillDown(e: Env, w: World, prog: nat, p: nat, level: nat, key: nat) returns (n: nat)
    requires Proper(e) && Sizes(e, w) && Links(e, w, prog) && Stands(e, prog, p, level)
    ensures Ended(Reads(w, Down(p, level), key, n))
    ensures Reads(w, Down(p, level), key, n) == Again ==> prog % 4 == 3
    decreases level, 0, 0
  {
    hide WellFormed, Links, Stands;
    if level == 0 {
      n := 0;
    } else {
      StandsBelow(e, prog, p, level);
      n := StillEnds(e, w, prog, p, level - 1, key);
    }
  }

  // ---- a list at rest

  /** Where a traversal of a list at rest stands with respect to the key. */
  ghost predicate Guided(e: Env, key: nat, k: Walker)
    requires Proper(e)
  {
    match k
    case Ready(p, level) => OnLevel(e, p, level) && Alone.Passed(e.ls, p, key)
    case Got(p, level, leaf) =>
      OnLevel(e, p, level) && Alone.Passed(e.ls, p, key) && OnLevel(e, leaf, level) && leaf > 0 && Next(p, level, leaf)
    case Seen(p, level, leaf, max) =>
      && OnLevel(e, p, level) && Alone.Passed(e.ls, p, key) && OnLevel(e, leaf, level) && leaf > 0
        && Next(p, level, leaf)
      && e.ls[leaf - 1].slots != [] && max == e.ls[leaf - 1].Max()
    case Check(p, level, leaf, _) =>
      && OnLevel(e, p, level) && Alone.Passed(e.ls, p, key) && OnLevel(e, leaf, level) && leaf > 0
        && Next(p, level, leaf)
      && e.ls[leaf - 1].slots != [] && key < e.ls[leaf - 1].Min()
    case Recheck(p, level, leaf, _) =>
      && OnLevel(e, p, level) && Alone.Passed(e.ls, p, key) && OnLevel(e, leaf, level) && leaf > 0
        && Next(p, level, leaf)
      && e.ls[leaf - 1].slots != [] && key < e.ls[leaf - 1].Min()
    case Found(leaf) => leaf > 0 && IsHomeOf(e.ls, leaf - 1, key)
    case NotFound => NoHome(e.ls, key)
    case Again => true
  }

  predicate OnLevel(e: Env, c: nat, level: nat) {
    c <= |e.ls| && level < SKIP_MAXLEVEL && e.Height(c) >= level
  }

  /** On level 0 no leaf lies between. */
  predicate Next(p: nat, level: nat, leaf: nat) {
    level == 0 ==> leaf == p + 1
  }

  lemma QuietNext(e: Env, w: World, p: nat, level: nat)
    requires Proper(e) && Quiet(e, w) && OnLevel(e, p, level)
    ensures level < |w.next| && p < |w.next[level]|
    ensures var d := w.next[level][p];
      if d == NIL then level == 0 ==> p == |e.ls| else d > 0 && OnLevel(e, d, level) && Next(p, level, d)
  {
    hide WellFormed;
  }

  lemma QuietLeaf(e: Env, w: World, c: nat)
    requires Proper(e) && Quiet(e, w) && 1 <= c <= |e.ls|
    ensures c < |w.mems| && |w.mems[c].keys| > 0
    ensures var l := e.ls[c - 1];
      && l.slots != [] && AtRest(w.mems[c], l.slots) && w.mems[c].max == l.Max() && w.mems[c].keys[0] == l.Min()
  {
    hide WellFormed, Links;
  }

  /** Past the leaf at p and short of the one after it there is no home. */
  lemma NoneBetween(ls: seq<LeafVal>, p: nat, key: nat)
    requires WellFormed(ls) && Alone.Passed(ls, p, key)
    requires p < |ls| ==> ls[p].slots != [] && key < ls[p].Min()
    ensures NoHome(ls, key)
  {
    hide WellFormed;
    forall k: nat ensures !IsHomeOf(ls, k, key) {
      if IsHomeOf(ls, k, key) {
        if k < p {
          TwoLeaves(ls, k, p - 1);
        } else {
          TwoLeaves(ls, p, k);
        }
      }
    }
  }

  lemma DownGuided(e: Env, p: nat, level: nat, key: nat)
    requires Proper(e) && OnLevel(e, p, level) && Alone.Passed(e.ls, p, key)
    requires level == 0 && p < |e.ls| ==> e.ls[p].slots != [] && key < e.ls[p].Min()
    ensures Guided(e, key, Down(p, level))
  {
    if level == 0 {
      NoneBetween(e.ls, p, key);
    }
    hide WellFormed, NoHome;
  }

  lemma NextGuided(e: Env, w: World, p: nat, level: nat, key: nat)
    requires Proper(e) && Quiet(e, w) && Guided(e, key, Ready(p, level))
    ensures Guided(e, key, Read(w, Ready(p, level), key))
  {
    QuietNext(e, w, p, level);
    if w.next[level][p] == NIL {
      DownGuided(e, p, level, key);
    }
    hide WellFormed, Quiet, NoHome, OnLevel, Down, Next;
  }

  lemma LeafGuided(e: Env, w: World, k: Walker, key: nat)
    requires Proper(e) && Quiet(e, w) && Guided(e, key, k) && (k.Got? || k.Seen?)
    ensures Guided(e, key, Read(w, k, key))
  {
    LeafOnLevel(e, k.leaf, k.level);
    QuietLeaf(e, w, k.leaf);
    hide WellFormed, Quiet, NoHome, OnLevel, Down, Next, AtRest;
  }

  lemma LeafOnLevel(e: Env, c: nat, level: nat)
    requires OnLevel(e, c, level)
    ensures c <= |e.ls| && level < SKIP_MAXLEVEL
  {
  }

  lemma CheckGuided(e: Env, w: World, k: Walker, key: nat)
    requires Proper(e) && Quiet(e, w) && Guided(e, key, k) && (k.Check? || k.Recheck?)
    ensures Guided(e, key, Read(w, k, key))
  {
    LeafOnLevel(e, k.leaf, k.level);
    QuietLeaf(e, w, k.leaf);
    RowsAlike(e, w, k.leaf, k.level);
    NextIs(k.p, k.level, k.leaf);
    DownGuided(e, k.p, k.level, key);
    hide WellFormed, Quiet, NoHome, OnLevel, Down, Next, AtRest;
  }

  lemma NextIs(p: nat, level: nat, leaf: nat)
    requires Next(p, level, leaf)
    ensures level == 0 ==> leaf == p + 1
  {
  }

  lemma {:induction false} ReadGuided(e: Env, w: World, k: Walker, key: nat)
    requires Proper(e) && Quiet(e, w) && Guided(e, key, k)
    ensures Guided(e, key, Read(w, k, key))
  {
    match k
    case Ready(p, level) => NextGuided(e, w, p, level, key);
    case Got(_, _, _) => LeafGuided(e, w, k, key);
    case Seen(_, _, _, _) => LeafGuided(e, w, k, key);
    case Check(_, _, _, _) => CheckGuided(e, w, k, key);
    case Recheck(_, _, _, _) => CheckGuided(e, w, k, key);
    case _ =>
    hide Quiet, Guided, WellFormed;
  }

  lemma RowsAlike(e: Env, w: World, c: nat, level: nat)
    requires Proper(e) && Quiet(e, w) && c <= |e.ls| && level < SKIP_MAXLEVEL
    ensures level < |w.prev| && c < |w.prev[level]|
  {
    hide Links;
  }

  lemma {:induction false} ReadsGuided(e: Env, w: World, k: Walker, key: nat, n: nat)
    requires Proper(e) && Quiet(e, w) && Guided(e, key, k)
    ensures Guided(e, key, Reads(w, k, key, n))
    decreases n
  {
    if n > 0 {
      ReadGuided(e, w, k, key);
      ReadsGuided(e, w, Read(w, k, key), key, n - 1);
    }
    hide Guided, Quiet, Read;
  }

  lemma QuietStart(e: Env, w: World, key: nat)
    requires Proper(e) && Quiet(e, w)
    ensures w.top < SKIP_MAXLEVEL && Guided(e, key, Ready(0, w.top)) && Stands(e, 0, 0, w.top)
    ensures Sizes(e, w) && Links(e, w, 0)
  {
    hide Links;
  }

  /**
   In a list at rest every traversal ends: at the leaf with min <= key < max, or with NULL when there is none, and it
   does not start over on the way.
   */
  lemma {:induction false} QuietWalkEnds(e: Env, w: World, key: nat) returns (n: nat)
    requires Proper(e) && Quiet(e, w)
    ensures var k := Reads(w, Ready(0, w.top), key, n);
      || (k.Found? && k.leaf > 0 && IsHomeOf(e.ls, k.leaf - 1, key))
      || (k.NotFound? && NoHome(e.ls, key))
    ensures forall m: nat :: !Reads(w, Ready(0, w.top), key, m).Again?
  {
    hide WellFormed, Quiet, Links, NoHome, IsHomeOf, Stands;
    QuietStart(e, w, key);
    n := StillEnds(e, w, 0, 0, w.top, key);
    ReadsGuided(e, w, Ready(0, w.top), key, n);
    forall m: nat ensures !Reads(w, Ready(0, w.top), key, m).Again? {
      NeverAgain(w, Ready(0, w.top), key, n, m);
    }
  }

  /** A traversal that has ended otherwise has never started over, and never will. */
  lemma NeverAgain(w: World, k: Walker, key: nat, n: nat, m: nat)
    requires Ended(Reads(w, k, key, n)) && !Reads(w, k, key, n).Again?
    ensures !Reads(w, k, key, m).Again?
  {
    if m <= n {
      ReadsConcat(w, k, key, m, n - m);
      if Reads(w, k, key, m).Again? {
        EndedStays(w, Reads(w, k, key, m), key, n - m);
      }
    } else {
      ReadsConcat(w, k, key, n, m - n);
      EndedStays(w, Reads(w, k, key, n), key, m - n);
    }
    hide Read;
  }

  // ---- the same as part of a trace

  /** A traversal all of whose n reads come at moment t. */
  function Same(t: nat, n: nat): (ts: seq<nat>)
    ensures |ts| == n && forall i :: 0 <= i < n ==> ts[i] == t
  {
    seq(n, _ => t)
  }

  lemma {:induction false} WalkStill(trace: seq<Moment>, t: nat, n: nat, key: nat)
    requires t < |trace|
    ensures Times(Same(t, n + 1), |trace|)
    ensures Walk(trace, Same(t, n + 1), key) == Reads(trace[t].w, Ready(0, trace[t].w.top), key, n)
    decreases n
  {
    hide Read;
    if n > 0 {
      assert Same(t, n + 1)[..n] == Same(t, n);
      WalkStill(trace, t, n - 1, key);
      TwoMore(trace[t].w, Ready(0, trace[t].w.top), key, n - 1);
    }
  }

  lemma StillStart(e: Env, s: Slot, cut: nat, m: Moment, key: nat) returns (n: nat)
    requires Proper(e) && Good(e, s, cut, m)
    ensures Ended(Reads(m.w, Ready(0, m.w.top), key, n))
    ensures Reads(m.w, Ready(0, m.w.top), key, n) == Again ==> m.prog % 4 == 3
  {
    GoodLinks(e, s, cut, m);
    InRows(e, m.w, 0, m.w.top);
    HeadStands(e, m.prog, m.w.top);
    n := StillEnds(e, m.w, m.prog, 0, m.w.top, key);
    hide WellFormed, Good, Links, Sizes, Stands;
  }

  lemma HeadStands(e: Env, prog: nat, level: nat)
    requires level < SKIP_MAXLEVEL
    ensures Stands(e, prog, 0, level)
  {
  }

  /**
   In the course of an insert a traversal starts over only if a store fell between two of its reads, or if it read
   while a node was half linked: after the third store of a level and before the fourth.
   */
  lemma {:induction false} AgainNeedsStore(e: Env, s: Slot, cut: nat, trace: seq<Moment>, ts: seq<nat>, key: nat)
    requires Proper(e) && Insertion(e, s, cut, trace) && Times(ts, |trace|) && Walk(trace, ts, key).Again?
    ensures ts[0] < ts[|ts| - 1] || trace[ts[0]].prog % 4 == 3
  {
    hide WellFormed, Good, Insertion, Walk;
    var t := ts[0];
    if t == ts[|ts| - 1] {
      assert ts == Same(t, |ts|);
      WalkStill(trace, t, |ts| - 1, key);
      MomentGood(e, s, cut, trace, t, t);
      var n := StillStart(e, s, cut, trace[t], key);
      var m := trace[t].w;
      if trace[t].prog % 4 != 3 {
        NeverAgain(m, Ready(0, m.top), key, n, |ts| - 1);
      }
    }
  }

  /**
   A traversal for a point stored before, left alone at any moment of an insert but those, ends at the leaf that held
   the point before or at the one split off it.
   */
  lemma {:induction false} StillFinds(e: Env, s: Slot, a: Aim, trace: seq<Moment>, t: nat) returns (n: nat)
    requires Proper(e) && Fits(e, s) && Aimed(e, a) && Insertion(e, s, a.cut, trace) && t < |trace|
    requires trace[t].prog % 4 != 3
    ensures Times(Same(t, n + 1), |trace|)
    ensures var k := Walk(trace, Same(t, n + 1), a.key); k.Found? && Target(e, a, trace[t].v.stage, k.leaf)
  {
    hide WellFormed, Good, Insertion, Walk, Fits, Aimed, Target;
    MomentGood(e, s, a.cut, trace, t, t);
    n := StillStart(e, s, a.cut, trace[t], a.key);
    WalkStill(trace, t, n, a.key);
    WalkIsSane(e, s, a, trace, Same(t, n + 1));
    EndedSane(e, a, trace[t], Walk(trace, Same(t, n + 1), a.key));
  }

  lemma EndedSane(e: Env, a: Aim, m: Moment, k: Walker)
    requires Sane(e, a, m, k) && Ended(k)
    ensures k.Again? || (k.Found? && Target(e, a, m.v.stage, k.leaf))
  {
    hide Target;
  }

  // ---- whole lookups

  /** A leaf at rest answers a scan at once, and truly. */
  lemma RestAnswers(m: Mem, q: seq<Slot>, key: nat)
    requires Ordered(q) && AtRest(m, q) && q != []
    ensures Readable(m)
    ensures match LeafScan(m, key, 1)
      case Hit(i) => i < |q| && Overlaps(q[i], key, 1) && m.ptrs[i] == Ref(q[i])
      case Miss => Free(q, key, 1)
      case Retry => false
  {
    RestIsGood(m, q);
    forall j | 0 <= j < |q| && Overlaps(q[j], key, 1) ensures LeafScan(m, key, 1) == Hit(j) {
      RestHits(m, q, j, key);
    }
    assert |m.ptrs| == KEYS_PER_NODE + 1;
    hide GoodFor;
  }

  /** What a lookup of a point answers is true of the list. */
  ghost predicate True(e: Env, key: nat, r: Outcome) {
    match r
    case Finds(x) => Alone.Stored(e.ls, x) && Covers(x, key)
    case Absent => forall x :: Alone.Stored(e.ls, x) ==> !Covers(x, key)
    case _ => false
  }

  lemma FoundIsTrue(e: Env, c: nat, i: nat, key: nat)
    requires Proper(e) && 1 <= c <= |e.ls| && i < |e.ls[c - 1].slots| && Overlaps(e.ls[c - 1].slots[i], key, 1)
    ensures True(e, key, Finds(e.ls[c - 1].slots[i]))
  {
    SlotsInFlatten(e.ls, c - 1, i);
    assert StoredAt(Flatten(e.ls), |Flatten(e.ls[..c - 1])| + i, e.ls[c - 1].slots[i]);
  }

  lemma CoveredNotFree(ls: seq<LeafVal>, x: Slot, key: nat) returns (k: nat)
    requires WellFormed(ls) && Alone.Stored(ls, x) && Covers(x, key)
    ensures IsHomeOf(ls, k, key) && !Free(ls[k].slots, key, 1)
  {
    var i;
    k, i := CoveringSlotAtHome(ls, x, key);
    assert Overlaps(ls[k].slots[i], key, 1);
    hide WellFormed, Alone.Stored;
  }

  lemma NoneIsTrue(e: Env, key: nat)
    requires Proper(e)
    requires forall k: nat :: IsHomeOf(e.ls, k, key) ==> Free(e.ls[k].slots, key, 1)
    ensures True(e, key, Absent)
  {
    hide WellFormed, Alone.Stored, Free;
    forall x | Alone.Stored(e.ls, x) ensures !Covers(x, key) {
      if Covers(x, key) {
        var k := CoveredNotFree(e.ls, x, key);
        assert false;
      }
    }
  }

  lemma OneHome(e: Env, c: nat, key: nat)
    requires Proper(e) && IsHomeOf(e.ls, c, key) && Free(e.ls[c].slots, key, 1)
    ensures forall k: nat :: IsHomeOf(e.ls, k, key) ==> Free(e.ls[k].slots, key, 1)
  {
    hide WellFormed, Free;
    forall k: nat | IsHomeOf(e.ls, k, key) ensures Free(e.ls[k].slots, key, 1) {
      HomeIsUnique(e.ls, k, c, key);
    }
  }

  lemma SettledAtRest(e: Env, w: World, c: nat, key: nat)
    requires Proper(e) && Quiet(e, w) && 1 <= c <= |e.ls| && IsHomeOf(e.ls, c - 1, key)
    ensures c < |w.mems| && True(e, key, Settle(w.mems[c], w.mems[c], w.mems[c], w.mems[c], key))
  {
    QuietLeaf(e, w, c);
    LeafInOrder(e.ls, c - 1);
    var m, q := w.mems[c], e.ls[c - 1].slots;
    RestAnswers(m, q, key);
    match LeafScan(m, key, 1) {
      case Hit(i) => FoundIsTrue(e, c, i, key);
      case Miss =>
        OneHome(e, c - 1, key);
        NoneIsTrue(e, key);
      case Retry =>
    }
    hide WellFormed, Quiet, LeafScan, AtRest, Ordered, Free, True, Flatten, Readable;
  }

  lemma HomelessIsTrue(e: Env, key: nat)
    requires Proper(e) && NoHome(e.ls, key)
    ensures True(e, key, Absent)
  {
    NoneIsTrue(e, key);
    hide WellFormed, Free, True;
  }

  /**
   In a list at rest the lookup of any point ends, without starting over, and answers truly: with the slot that contains
   the point, or "absent" when none does.
   */
  lemma {:induction false} QuietLookupEnds(e: Env, trace: seq<Moment>, t: nat, key: nat) returns (n: nat)
    requires Proper(e) && t < |trace| && Quiet(e, trace[t].w)
    ensures InTime(Finish(t, t, t, t), Same(t, n + 1), |trace|)
    ensures True(e, key, Lookup(trace, Same(t, n + 1), Finish(t, t, t, t), key))
  {
    hide WellFormed, Quiet, Walk, True, NoHome, Settle;
    var w := trace[t].w;
    n := QuietWalkEnds(e, w, key);
    WalkStill(trace, t, n, key);
    var k := Reads(w, Ready(0, w.top), key, n);
    if k.Found? {
      HomeInRange(e.ls, k.leaf - 1, key);
      SettledAtRest(e, w, k.leaf, key);
    } else {
      HomelessIsTrue(e, key);
    }
  }

  lemma HomeInRange(ls: seq<LeafVal>, k: nat, key: nat)
    requires IsHomeOf(ls, k, key)
    ensures k < |ls|
  {
  }

  /**
   For instance, in any list: a lookup of the first slot that a split gives away, made before the insert but for the
   last read, misses it.
   */
  lemma {:induction false} LookupMisses(e: Env, s: Slot, a: Aim, trace: seq<Moment>, t: nat) returns (n: nat)
    requires Proper(e) && Fits(e, s) && Aimed(e, a) && Insertion(e, s, a.cut, trace) && a.z == e.y && a.j == a.cut
    requires trace[0].prog == 0 && t < |trace| && Reopened(trace[t].v, a.cut)
    ensures InTime(Finish(0, t, t, t), Same(0, n + 1), |trace|)
    ensures Lookup(trace, Same(0, n + 1), Finish(0, t, t, t), a.key) == Absent
  {
    hide WellFormed, Good, Insertion, Walk, Fits, Aimed, Reopened, Lookup;
    MomentGood(e, s, a.cut, trace, 0, t);
    EarlyStage(e, s, a.cut, trace[0]);
    n := StillFinds(e, s, a, trace, 0);
    LookupAbsentIff(e, s, a, trace, Same(0, n + 1), Finish(0, t, t, t));
  }

  lemma EarlyStage(e: Env, s: Slot, cut: nat, m: Moment)
    requires Proper(e) && Good(e, s, cut, m) && m.prog == 0
    ensures m.v.stage == 0
  {
  }
}
