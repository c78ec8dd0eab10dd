/**
 The moments of an insert: every store in the leaves and in the links, in the order add_key_to_leaf makes them,
 seen by a traversal that may read between any two.
 */
module InsertTraces {
  import opened Extents
  import opened Leaves
  import opened Towers
  import opened IndexSpec
  import opened LeafStores
  import opened Traversals

  // ---- linking one level: the new node's next and prev, prev's next, next's prev

  lemma NewNextStored(e: Env, w: World, i: nat, nx: int)
    requires Proper(e) && Sizes(e, w) && i <= e.g && NextLinks(e, w, 4 * i) && nx == Succ(e, Pred(e, i), i)
    ensures var u := Do(w, SetNext(i, e.New(), nx)); Sizes(e, u) && NextLinks(e, u, 4 * i + 1)
  {
    hide WellFormed;
  }

  lemma PrevStored(e: Env, w: World, i: nat, c: nat, d: int, prog: nat)
    requires Proper(e) && Sizes(e, w) && i <= e.g && NextLinks(e, w, prog) && (prog == 4 * i + 1 || prog == 4 * i + 3)
    ensures var u := Do(w, SetPrev(i, c, d)); Sizes(e, u) && NextLinks(e, u, prog + 1)
  {
    SizesKept(e, w, i, c, d);
    hide WellFormed, From, UpTo, Put, PrevLinks;
  }

  lemma PredNextStored(e: Env, w: World, i: nat)
    requires Proper(e) && Sizes(e, w) && i <= e.g && NextLinks(e, w, 4 * i + 2)
    ensures var u := Do(w, SetNext(i, Pred(e, i), e.New())); Sizes(e, u) && NextLinks(e, u, 4 * i + 3)
  {
    PredInRange(e, i);
    PutIs(w.next, i, Pred(e, i), e.New());
    hide WellFormed, From, UpTo, Succ, Pred, Put;
  }

  lemma PredInRange(e: Env, i: nat)
    requires Proper(e) && i <= SKIP_MAXLEVEL
    ensures Pred(e, i) <= |e.ls|
  {
  }

  lemma NewPrevStored(e: Env, w: World, i: nat)
    requires Proper(e) && Sizes(e, w) && i <= e.g && PrevLinks(e, w, 4 * i + 1)
    ensures var u := Do(w, SetPrev(i, e.New(), Pred(e, i))); Sizes(e, u) && PrevLinks(e, u, 4 * i + 2)
  {
    SizesKept(e, w, i, e.New(), Pred(e, i));
    NewPrevOld(e, w, i);
    NewPrevNew(e, w, i);
    hide WellFormed, From, UpTo, Succ, Pred, LastOn, Do, LeafPrevs, HeadPrevs, NewPrevs, Sizes;
  }

  lemma NewPrevOld(e: Env, w: World, i: nat)
    requires Proper(e) && Sizes(e, w) && i <= e.g && LeafPrevs(e, w, 4 * i + 1) && HeadPrevs(e, w, 4 * i + 1)
    ensures var u := Do(w, SetPrev(i, e.New(), Pred(e, i)));
      Sizes(e, u) && LeafPrevs(e, u, 4 * i + 2) && HeadPrevs(e, u, 4 * i + 2)
  {
    PredInRange(e, i);
    PutIs(w.prev, i, e.New(), Pred(e, i));
    hide WellFormed, From, UpTo, Succ, Pred, LastOn, Put;
  }

  lemma NewPrevNew(e: Env, w: World, i: nat)
    requires Proper(e) && Sizes(e, w) && i <= e.g && NewPrevs(e, w, 4 * i + 1)
    ensures var u := Do(w, SetPrev(i, e.New(), Pred(e, i))); Sizes(e, u) && NewPrevs(e, u, 4 * i + 2)
  {
    PredInRange(e, i);
    PutIs(w.prev, i, e.New(), Pred(e, i));
    hide WellFormed, From, UpTo, Succ, Pred, LastOn, Put;
  }

  lemma NextPrevStored(e: Env, w: World, i: nat, nx: int)
    requires Proper(e) && Sizes(e, w) && i <= e.g && PrevLinks(e, w, 4 * i + 3) && nx == Succ(e, Pred(e, i), i)
    ensures var u := Do(w, SetPrev(i, if nx < 0 then 0 else nx, e.New())); Sizes(e, u) && PrevLinks(e, u, 4 * i + 4)
  {
    SizesKept(e, w, i, if nx < 0 then 0 else nx, e.New());
    NextPrevLeaves(e, w, i, nx);
    NextPrevHead(e, w, i, nx);
    NextPrevNew(e, w, i, nx);
    hide WellFormed, From, UpTo, Succ, Pred, LastOn, Do, LeafPrevs, HeadPrevs, NewPrevs, Sizes;
  }

  lemma SizesKept(e: Env, w: World, i: nat, c: nat, d: int)
    requires Sizes(e, w)
    ensures Sizes(e, Do(w, SetPrev(i, c, d)))
  {
  }

  lemma NextPrevLeaves(e: Env, w: World, i: nat, nx: int)
    requires Proper(e) && Sizes(e, w) && i <= e.g && LeafPrevs(e, w, 4 * i + 3) && nx == Succ(e, Pred(e, i), i)
    ensures var u := Do(w, SetPrev(i, if nx < 0 then 0 else nx, e.New())); Sizes(e, u) && LeafPrevs(e, u, 4 * i + 4)
  {
    NextInRange(e, i);
    PutIs(w.prev, i, if nx < 0 then 0 else nx, e.New());
    hide WellFormed, From, UpTo, Succ, Pred, LastOn, Put;
  }

  lemma NextPrevHead(e: Env, w: World, i: nat, nx: int)
    requires Proper(e) && Sizes(e, w) && i <= e.g && HeadPrevs(e, w, 4 * i + 3) && nx == Succ(e, Pred(e, i), i)
    ensures var u := Do(w, SetPrev(i, if nx < 0 then 0 else nx, e.New())); Sizes(e, u) && HeadPrevs(e, u, 4 * i + 4)
  {
    NextInRange(e, i);
    PutIs(w.prev, i, if nx < 0 then 0 else nx, e.New());
    hide WellFormed, From, UpTo, Succ, Pred, LastOn, Put;
  }

  lemma NextPrevNew(e: Env, w: World, i: nat, nx: int)
    requires Proper(e) && Sizes(e, w) && i <= e.g && NewPrevs(e, w, 4 * i + 3) && nx == Succ(e, Pred(e, i), i)
    ensures var u := Do(w, SetPrev(i, if nx < 0 then 0 else nx, e.New())); Sizes(e, u) && NewPrevs(e, u, 4 * i + 4)
  {
    NextInRange(e, i);
    PutIs(w.prev, i, if nx < 0 then 0 else nx, e.New());
    hide WellFormed, From, UpTo, Succ, Pred, LastOn, Put;
  }

  lemma PutIs(rows: seq<seq<int>>, i: nat, c: nat, d: int)
    requires i < |rows| && c < |rows[i]|
    ensures var r := Put(rows, i, c, d);
      && |r| == |rows| && |r[i]| == |rows[i]| && r[i][c] == d
      && (forall j {:trigger r[j]} :: 0 <= j < |rows| && j != i ==> r[j] == rows[j])
      && (forall x {:trigger r[i][x]} :: 0 <= x < |rows[i]| && x != c ==> r[i][x] == rows[i][x])
  {
  }

  lemma NextInRange(e: Env, i: nat)
    requires Proper(e) && i <= SKIP_MAXLEVEL
    ensures Succ(e, Pred(e, i), i) == NIL || 0 < Succ(e, Pred(e, i), i) <= |e.ls|
  {
  }

  lemma PrevsKept(e: Env, w: World, i: nat, c: nat, d: int, prog: nat)
    requires Proper(e) && Sizes(e, w) && PrevLinks(e, w, prog) && (prog == 4 * i || prog == 4 * i + 2)
    ensures var u := Do(w, SetNext(i, c, d)); Sizes(e, u) && PrevLinks(e, u, prog + 1)
  {
    hide WellFormed;
  }

  lemma FirstStore(e: Env, w: World, i: nat, nx: int)
    requires Proper(e) && Sizes(e, w) && i <= e.g && Links(e, w, 4 * i) && nx == Succ(e, Pred(e, i), i)
    ensures var u := Do(w, SetNext(i, e.New(), nx)); Sizes(e, u) && Links(e, u, 4 * i + 1)
  {
    NewNextStored(e, w, i, nx);
    PrevsKept(e, w, i, e.New(), nx, 4 * i);
    hide WellFormed, NextLinks, PrevLinks, Do;
  }

  lemma SecondStore(e: Env, w: World, i: nat)
    requires Proper(e) && Sizes(e, w) && i <= e.g && Links(e, w, 4 * i + 1)
    ensures var u := Do(w, SetPrev(i, e.New(), Pred(e, i))); Sizes(e, u) && Links(e, u, 4 * i + 2)
  {
    NewPrevStored(e, w, i);
    PrevStored(e, w, i, e.New(), Pred(e, i), 4 * i + 1);
    hide WellFormed, NextLinks, PrevLinks, Do;
  }

  lemma ThirdStore(e: Env, w: World, i: nat)
    requires Proper(e) && Sizes(e, w) && i <= e.g && Links(e, w, 4 * i + 2)
    ensures var u := Do(w, SetNext(i, Pred(e, i), e.New())); Sizes(e, u) && Links(e, u, 4 * i + 3)
  {
    PredNextStored(e, w, i);
    PrevsKept(e, w, i, Pred(e, i), e.New(), 4 * i + 2);
    hide WellFormed, NextLinks, PrevLinks, Do;
  }

  lemma FourthStore(e: Env, w: World, i: nat, nx: int)
    requires Proper(e) && Sizes(e, w) && i <= e.g && Links(e, w, 4 * i + 3) && nx == Succ(e, Pred(e, i), i)
    ensures var u := Do(w, SetPrev(i, if nx < 0 then 0 else nx, e.New())); Sizes(e, u) && Links(e, u, 4 * i + 4)
  {
    NextPrevStored(e, w, i, nx);
    PrevStored(e, w, i, if nx < 0 then 0 else nx, e.New(), 4 * i + 3);
    hide WellFormed, NextLinks, PrevLinks, Do;
  }

  lemma NextIsOld(e: Env, w: World, i: nat)
    requires Proper(e) && Sizes(e, w) && i <= e.g && Links(e, w, 4 * i)
    ensures Pred(e, i) < |w.next[i]| && w.next[i][Pred(e, i)] == Succ(e, Pred(e, i), i)
  {
  }

  lemma Accessed(w: World, a: Access)
    ensures OneAccess(w, Do(w, a))
  {
  }

  // ---- moments

  /** v before the new leaf is reachable, and as long as nothing else has changed since it became so. */
  function AtProg(v: View, prog: nat): View {
    v.(stage := if prog < 3 then 0 else 1)
  }

  /** The two leaves, all others being at rest, as they are throughout the linking. */
  ghost predicate Linkable(e: Env, s: Slot, cut: nat, w: World, v: View)
    requires Proper(e)
  {
    && Sizes(e, w) && Mems(e, w, v)
    && var q := e.ls[e.y - 1].slots;
      q != [] && cut <= |q| && (forall prog {:trigger AtProg(v, prog)} :: GoodView(AtProg(v, prog), q, cut))
      && (forall prog {:trigger AtProg(v, prog)} :: ViewBounds(AtProg(v, prog), q, s))
  }

  /** A moment of the linking. */
  function MomentAt(w: World, v: View, prog: nat): Moment {
    Moment(w, AtProg(v, prog), prog)
  }

  lemma LinkingGood(e: Env, s: Slot, cut: nat, w: World, v: View, prog: nat)
    requires Proper(e) && Linkable(e, s, cut, w, v) && Links(e, w, prog) && prog <= 4 * (e.g + 1)
    ensures Good(e, s, cut, MomentAt(w, v, prog))
  {
    hide Links, GoodView, ViewBounds, WellFormed;
    assert GoodView(AtProg(v, prog), e.ls[e.y - 1].slots, cut);
  }

  lemma OneMoment(e: Env, s: Slot, cut: nat, m: Moment)
    requires Proper(e) && Good(e, s, cut, m)
    ensures Insertion(e, s, cut, [m])
  {
  }

  lemma MomentAdded(e: Env, s: Slot, cut: nat, trace: seq<Moment>, m: Moment)
    requires Proper(e) && Insertion(e, s, cut, trace) && Good(e, s, cut, m)
    requires Later(trace[|trace| - 1], m) && OneAccess(trace[|trace| - 1].w, m.w)
    requires m.v.leaf == trace[|trace| - 1].v.leaf && m.v.split == trace[|trace| - 1].v.split
    ensures Insertion(e, s, cut, trace + [m])
  {
    SteadySame(e, cut, trace[|trace| - 1], m);
    AddedGood(e, s, cut, trace, m);
    AddedInOrder(trace, m);
    AddedStep(e, cut, trace, m);
    hide Good, Follows, Later, AllGood, InOrder, AllSteps;
    FollowsIs(e, cut, trace[|trace| - 1], m);
  }

  lemma FollowsIs(e: Env, cut: nat, m: Moment, n: Moment)
    requires Proper(e)
    ensures Follows(e, cut, m, n) <==> OneAccess(m.w, n.w) && Steady(e, cut, m, n)
  {
    hide OneAccess, Steady;
  }

  lemma AddedGood(e: Env, s: Slot, cut: nat, trace: seq<Moment>, m: Moment)
    requires Proper(e) && AllGood(e, s, cut, trace) && Good(e, s, cut, m)
    ensures AllGood(e, s, cut, trace + [m])
  {
    hide Good;
  }

  lemma AddedInOrder(trace: seq<Moment>, m: Moment)
    requires trace != [] && InOrder(trace) && Later(trace[|trace| - 1], m)
    ensures InOrder(trace + [m])
  {
    var r := trace + [m];
    forall t, u | 0 <= t <= u < |r| ensures Later(r[t], r[u]) {
      assert t < |trace| ==> Later(trace[t], trace[|trace| - 1]);
      assert u < |trace| ==> Later(trace[t], trace[u]);
    }
  }

  lemma AddedStep(e: Env, cut: nat, trace: seq<Moment>, m: Moment)
    requires Proper(e) && trace != [] && AllSteps(e, cut, trace)
    requires Follows(e, cut, trace[|trace| - 1], m)
    ensures AllSteps(e, cut, trace + [m])
  {
    hide Follows;
    var r := trace + [m];
    forall t | 0 <= t < |r| - 1 ensures Follows(e, cut, r[t], r[t + 1]) {
      assert t < |trace| - 1 ==> Follows(e, cut, trace[t], trace[t + 1]);
    }
  }

  lemma SteadySame(e: Env, cut: nat, m: Moment, n: Moment)
    requires Proper(e) && n.v.leaf == m.v.leaf && n.v.split == m.v.split
    ensures Steady(e, cut, m, n)
  {
  }

  lemma NotEmpty(e: Env, s: Slot, cut: nat, trace: seq<Moment>)
    requires Proper(e) && Insertion(e, s, cut, trace)
    ensures trace != []
  {
  }

  /** The four stores of sl_link_one_level, each followed by a moment. */
  method LinkLevel(e: Env, i: nat, pv: nat, w0: World, ghost s: Slot, ghost cut: nat, ghost v: View,
          ghost trace0: seq<Moment>)
    returns (w: World, ghost trace: seq<Moment>)
    requires Proper(e) && i <= e.g && pv == Pred(e, i) && Sizes(e, w0) && Linkable(e, s, cut, w0, v)
    requires Links(e, w0, 4 * i)
    requires Insertion(e, s, cut, trace0) && trace0[|trace0| - 1] == MomentAt(w0, v, 4 * i)
    ensures w.mems == w0.mems && w.top == w0.top && Sizes(e, w) && Linkable(e, s, cut, w, v)
    ensures Links(e, w, 4 * i + 4)
    ensures Insertion(e, s, cut, trace) && trace0 <= trace && trace[|trace| - 1] == MomentAt(w, v, 4 * i + 4)
    ensures |trace| == |trace0| + 4
  {
    hide WellFormed, Links, Good, Insertion, OneAccess, Pred, Linkable, Put;
    NotEmpty(e, s, cut, trace0);
    NextIsOld(e, w0, i);
    var nx := w0.next[i][pv];
    w, trace := w0, trace0;
    FirstStore(e, w, i, nx);
    Accessed(w, SetNext(i, e.New(), nx));
    w := Do(w, SetNext(i, e.New(), nx));
    trace := Extended(e, s, cut, w, v, 4 * i, trace);
    SecondStore(e, w, i);
    Accessed(w, SetPrev(i, e.New(), pv));
    w := Do(w, SetPrev(i, e.New(), pv));
    trace := Extended(e, s, cut, w, v, 4 * i + 1, trace);
    ThirdStore(e, w, i);
    Accessed(w, SetNext(i, pv, e.New()));
    w := Do(w, SetNext(i, pv, e.New()));
    trace := Extended(e, s, cut, w, v, 4 * i + 2, trace);
    FourthStore(e, w, i, nx);
    Accessed(w, SetPrev(i, if nx < 0 then 0 else nx, e.New()));
    w := Do(w, SetPrev(i, if nx < 0 then 0 else nx, e.New()));
    trace := Extended(e, s, cut, w, v, 4 * i + 3, trace);
  }

  lemma LinkableKept(e: Env, s: Slot, cut: nat, w: World, u: World, v: View)
    requires Proper(e) && Linkable(e, s, cut, w, v) && Sizes(e, u) && u.mems == w.mems
    ensures Linkable(e, s, cut, u, v)
  {
    hide WellFormed, GoodView, ViewBounds, AtRest;
  }

  /** The trace with the moment after one more store. */
  lemma Extended(e: Env, s: Slot, cut: nat, w: World, v: View, prog: nat, trace: seq<Moment>) returns (r: seq<Moment>)
    requires Proper(e) && Insertion(e, s, cut, trace) && trace[|trace| - 1].v == AtProg(v, prog)
    requires trace[|trace| - 1].prog == prog < 4 * (e.g + 1) && OneAccess(trace[|trace| - 1].w, w)
    requires Linkable(e, s, cut, trace[|trace| - 1].w, v) && w.mems == trace[|trace| - 1].w.mems
    requires Sizes(e, w) && Links(e, w, prog + 1)
    ensures Linkable(e, s, cut, w, v)
    ensures Insertion(e, s, cut, r) && r == trace + [MomentAt(w, v, prog + 1)]
  {
    hide WellFormed, Links, Good, Insertion, OneAccess, Linkable;
    NotEmpty(e, s, cut, trace);
    LinkableKept(e, s, cut, trace[|trace| - 1].w, w, v);
    LinkingGood(e, s, cut, w, v, prog + 1);
    MomentAdded(e, s, cut, trace, MomentAt(w, v, prog + 1));
    r := trace + [MomentAt(w, v, prog + 1)];
  }

  lemma PredOnTower(e: Env, i: nat)
    requires Proper(e) && i <= e.g
    ensures i <= e.Height(e.y) ==> Pred(e, i) == e.y
  {
  }

  /** sl_link_after_node: after the leaf split as far as its tower reaches, then after what the cursor recorded. */
  method LinkNode(e: Env, cursor: seq<nat>, w0: World, ghost s: Slot, ghost cut: nat, ghost v: View,
          ghost trace0: seq<Moment>)
    returns (w: World, ghost trace: seq<Moment>)
    requires Proper(e) && Sizes(e, w0) && Linkable(e, s, cut, w0, v) && Links(e, w0, 0)
    requires |cursor| > e.g && forall i :: e.Height(e.y) < i <= e.g ==> cursor[i] == Pred(e, i)
    requires Insertion(e, s, cut, trace0) && trace0[|trace0| - 1] == MomentAt(w0, v, 0)
    ensures w.mems == w0.mems && w.top == w0.top && Sizes(e, w) && Linkable(e, s, cut, w, v)
    ensures Links(e, w, 4 * (e.g + 1))
    ensures Insertion(e, s, cut, trace) && trace0 <= trace && trace[|trace| - 1] == MomentAt(w, v, 4 * (e.g + 1))
    ensures |trace| == |trace0| + 4 * (e.g + 1)
  {
    hide WellFormed, Links, Good, Insertion, Linkable;
    NotEmpty(e, s, cut, trace0);
    w, trace := w0, trace0;
    for i := 0 to e.g + 1
      invariant w.mems == w0.mems && w.top == w0.top && Sizes(e, w) && Linkable(e, s, cut, w, v)
      invariant Links(e, w, 4 * i)
      invariant Insertion(e, s, cut, trace) && trace0 <= trace && |trace| == |trace0| + 4 * i > 0
      invariant trace[|trace| - 1] == MomentAt(w, v, 4 * i)
    {
      PredOnTower(e, i);
      w, trace := LinkLevel(e, i, if i <= e.Height(e.y) then e.y else cursor[i], w, s, cut, v, trace);
    }
  }

  // ---- the stores in the leaves, as moments of the whole

  /** Memory as in w but for the leaf under change, which goes through the states of the views. */
  function Lifted(e: Env, w: World, views: seq<View>, prog: nat): (r: seq<Moment>)
    requires e.y < |w.mems|
    ensures |r| == |views|
  {
    seq(|views|, t requires 0 <= t < |views| => Moment(w.(mems := w.mems[e.y := views[t].leaf]), views[t], prog))
  }

  lemma {:induction false} SplitStays(views: seq<View>, q: seq<Slot>, s: Slot, cut: nat, t: nat)
    requires q != [] && cut <= |q| && GoodViews(views, q, s, cut) && t < |views|
    ensures views[t].split == views[0].split
  {
    if t > 0 {
      SplitStays(views, q, s, cut, t - 1);
      assert ViewStep(views[t - 1], views[t - 1 + 1]);
    }
  }

  lemma LiftedGood(e: Env, s: Slot, cut: nat, w: World, v: View, u: View, prog: nat)
    requires Proper(e) && Sizes(e, w) && Links(e, w, prog) && Mems(e, w, u) && v.split == u.split
    requires InStep(e, Moment(w, v, prog))
    requires var q := e.ls[e.y - 1].slots; q != [] && cut <= |q| && GoodView(v, q, cut) && ViewBounds(v, q, s)
    ensures Good(e, s, cut, Moment(w.(mems := w.mems[e.y := v.leaf]), v, prog))
  {
    hide WellFormed, GoodView, ViewBounds, AtRest;
  }

  lemma LiftedStep(e: Env, w: World, v: View, u: View)
    requires e.y < |w.mems| && ViewStep(v, u) && (v.stage == 0 ==> u.stage == 0)
    ensures OneAccess(w.(mems := w.mems[e.y := v.leaf]), w.(mems := w.mems[e.y := u.leaf]))
  {
    var st :| u.leaf == Apply(v.leaf, st);
    var a, b := w.(mems := w.mems[e.y := v.leaf]), w.(mems := w.mems[e.y := u.leaf]);
    assert a.mems[e.y := Apply(a.mems[e.y], st)] == b.mems;
    assert b == Do(a, LeafAccess(e.y, st));
  }

  /** A run of stores in the leaves, with the links standing still, is part of an insertion. */
  lemma LiftedIsInsertion(e: Env, s: Slot, cut: nat, w: World, views: seq<View>, prog: nat)
    requires Proper(e) && Sizes(e, w) && Links(e, w, prog)
    requires var q := e.ls[e.y - 1].slots; q != [] && cut <= |q| && GoodViews(views, q, s, cut)
    requires Mems(e, w, views[0])
    requires forall t {:trigger views[t]} :: 0 <= t < |views| ==> InStep(e, Moment(w, views[t], prog))
    ensures Insertion(e, s, cut, Lifted(e, w, views, prog))
  {
    hide WellFormed, Links, GoodView, ViewBounds, Mems, Good, OneAccess, ViewStep, NoSlotLost;
    var q, trace := e.ls[e.y - 1].slots, Lifted(e, w, views, prog);
    forall t | 0 <= t < |trace| ensures Good(e, s, cut, trace[t]) {
      SplitStays(views, q, s, cut, t);
      LiftedGood(e, s, cut, w, views[t], views[0], prog);
    }
    forall t | 0 <= t < |trace| - 1 ensures OneAccess(trace[t].w, trace[t + 1].w)
      && Steady(e, cut, trace[t], trace[t + 1]) {
      SplitStays(views, q, s, cut, t);
      SplitStays(views, q, s, cut, t + 1);
      assert NoSlotLost(views[t], views[t + 1], q, cut);
      assert InStep(e, Moment(w, views[t], prog)) && InStep(e, Moment(w, views[t + 1], prog));
      LiftedStep(e, w, views[t], views[t + 1]);
    }
  }

  lemma TailViews(views: seq<View>, q: seq<Slot>, s: Slot, cut: nat)
    requires q != [] && cut <= |q| && GoodViews(views, q, s, cut) && |views| >= 2
    ensures GoodViews(views[1..], q, s, cut)
  {
    hide GoodView, ViewBounds, ViewStep, NoSlotLost;
    forall t | 0 <= t < |views[1..]| - 1
      ensures ViewStep(views[1..][t], views[1..][t + 1]) && NoSlotLost(views[1..][t], views[1..][t + 1], q, cut)
    {
      assert ViewStep(views[t + 1], views[t + 1 + 1]) && NoSlotLost(views[t + 1], views[t + 1 + 1], q, cut);
    }
  }

  lemma MomentsJoin(e: Env, s: Slot, cut: nat, a: seq<Moment>, b: seq<Moment>)
    requires Proper(e) && Insertion(e, s, cut, a) && Insertion(e, s, cut, b) && a[|a| - 1] == b[0]
    ensures Insertion(e, s, cut, a + b[1..])
  {
    hide Good, OneAccess, Later, Steady;
    var r := a + b[1..];
    forall t | 0 <= t < |r| - 1 ensures OneAccess(r[t].w, r[t + 1].w) && Steady(e, cut, r[t], r[t + 1]) {
      if t < |a| - 1 {
        assert OneAccess(a[t].w, a[t + 1].w) && Steady(e, cut, a[t], a[t + 1]);
      } else {
        var u := t - |a| + 1;
        assert OneAccess(b[u].w, b[u + 1].w) && Steady(e, cut, b[u], b[u + 1]);
      }
    }
    forall t, u | 0 <= t <= u < |r| ensures Later(r[t], r[u]) {
      JoinLater(e, s, cut, a, b, t, u);
    }
  }

  lemma JoinLater(e: Env, s: Slot, cut: nat, a: seq<Moment>, b: seq<Moment>, t: nat, u: nat)
    requires Proper(e) && Insertion(e, s, cut, a) && Insertion(e, s, cut, b) && a[|a| - 1] == b[0]
    requires t <= u < |a| + |b| - 1
    ensures Later((a + b[1..])[t], (a + b[1..])[u])
  {
    hide Good, OneAccess, Steady;
    if u >= |a| {
      assert Later(b[0], b[u - |a| + 1]);
      assert t < |a| ==> Later(a[t], a[|a| - 1]);
      assert t >= |a| ==> Later(b[t - |a| + 1], b[u - |a| + 1]);
    } else {
      assert Later(a[t], a[u]);
    }
  }

  // ---- the whole insert

  /** A leaf chosen for a free range as skiplist_insert chooses it has room for the range among its neighbours. */
  lemma HomeFits(e: Env, s: Slot)
    requires Proper(e) && s.size > 0 && Free(Flatten(e.ls), s.key, s.size) && e.y == Home(e.ls, s.key) + 1
    ensures Fits(e, s) && Ordered(e.ls[e.y - 1].slots) && e.ls[e.y - 1].slots != []
    ensures Separates(e.ls[e.y - 1].slots, Rank(e.ls[e.y - 1].slots, s.key), s.key, s.size)
  {
    FreeAtHomeIsFree(e.ls, s.key, s.size);
    InHome(e.ls, e.y - 1);
    FreeIffSeparates(e.ls[e.y - 1].slots, s.key, s.size);
    BeforeHome(e.ls, s.key);
    hide Flatten, Ordered, Free, Separates, Rank, Home, Sized;
  }

  lemma InHome(ls: seq<LeafVal>, k: nat)
    requires WellFormed(ls) && k < |ls|
    ensures Ordered(ls[k].slots) && Sized(ls) && forall j :: 0 <= j < |ls| ==> ls[j].slots != []
  {
    LeafInOrder(ls, k);
  }

  lemma BeforeHome(ls: seq<LeafVal>, key: nat)
    requires Sized(ls) && ls != []
    ensures Home(ls, key) > 0 ==> ls[Home(ls, key) - 1].slots != [] && ls[Home(ls, key) - 1].Max() <= key
  {
  }

  /** Memory when no insert is under way: every leaf at rest, every level linked in both directions. */
  ghost predicate Quiet(e: Env, w: World)
    requires Proper(e)
  {
    && Sizes(e, w) && Links(e, w, 0)
    && forall c {:trigger w.mems[c]} :: 1 <= c <= |e.ls| ==>
      AtRest(w.mems[c], e.ls[c - 1].slots) && e.ls[c - 1].slots != [] && w.mems[c].max == e.ls[c - 1].Max()
  }

  /** The same memory but for the unlinked leaf. */
  ghost predicate SameButNew(e: Env, w: World, u: World) {
    && |w.mems| == |u.mems| == |e.ls| + 2 && w.next == u.next && w.prev == u.prev && w.top == u.top
    && u.mems == w.mems[e.New() := u.mems[e.New()]]
  }

  lemma QuietFilled(e: Env, w0: World, split: Mem)
    requires Proper(e) && Quiet(e, w0)
    ensures var w := w0.(mems := w0.mems[e.New() := split]);
      && Sizes(e, w) && Links(e, w, 0) && Mems(e, w, View(w0.mems[e.y], split, 0))
      && SameButNew(e, w0, w)
  {
    hide WellFormed, AtRest, Links;
    var w := w0.(mems := w0.mems[e.New() := split]);
    LinksStay(e, w0, w, 0);
    forall c | 1 <= c <= |e.ls| && c != e.y ensures w.mems[c] == w0.mems[c] {
    }
  }

  lemma LinksStay(e: Env, w: World, u: World, prog: nat)
    requires Proper(e) && Sizes(e, w) && Links(e, w, prog)
    requires |u.mems| == |w.mems| && u.next == w.next && u.prev == w.prev && u.top == w.top
    ensures Sizes(e, u) && Links(e, u, prog)
  {
    hide WellFormed;
  }

  /** The insert when the leaf has room: the links stand still. */
  lemma LeafOnly(e: Env, s: Slot, cut: nat, w: World, views: seq<View>)
    requires Proper(e) && Sizes(e, w) && Links(e, w, 0)
    requires var q := e.ls[e.y - 1].slots; q != [] && cut <= |q| && GoodViews(views, q, s, cut)
    requires Mems(e, w, views[0]) && forall t {:trigger views[t]} :: 0 <= t < |views| ==> views[t].stage == 0
    ensures Insertion(e, s, cut, Lifted(e, w, views, 0)) && Lifted(e, w, views, 0)[0] == Moment(w, views[0], 0)
  {
    hide WellFormed, Links, GoodView, ViewBounds, Good, Insertion, AtRest;
    LiftedIsInsertion(e, s, cut, w, views, 0);
    assert w.mems == w.mems[e.y := views[0].leaf];
  }

  lemma LinkableFrom(e: Env, s: Slot, cut: nat, w: World, views: seq<View>)
    requires Proper(e) && Sizes(e, w)
    requires var q := e.ls[e.y - 1].slots; q != [] && cut <= |q| && GoodViews(views, q, s, cut) && |views| >= 2
    requires Mems(e, w, views[0]) && views[0].stage == 0 && views[1] == views[0].(stage := 1)
    ensures Linkable(e, s, cut, w, views[0])
  {
    hide WellFormed, GoodView, ViewBounds, AtRest;
    forall prog ensures AtProg(views[0], prog) == views[0] || AtProg(views[0], prog) == views[1] {
    }
  }

  /** list->level goes up when the new node is the tallest yet. */
  method RaiseLevel(e: Env, w0: World, ghost s: Slot, ghost cut: nat, ghost v: View)
    returns (w: World, ghost trace: seq<Moment>)
    requires Proper(e) && Sizes(e, w0) && Linkable(e, s, cut, w0, v) && Links(e, w0, 0)
    ensures w == w0.(top := if e.g > w0.top then e.g else w0.top)
    ensures Sizes(e, w) && Linkable(e, s, cut, w, v) && Links(e, w, 0)
    ensures Insertion(e, s, cut, trace) && trace[0] == MomentAt(w0, v, 0) && trace[|trace| - 1] == MomentAt(w, v, 0)
  {
    hide WellFormed, Good, Insertion, OneAccess, GoodView, ViewBounds, AtRest;
    w := w0;
    LinkingGood(e, s, cut, w, v, 0);
    trace := [MomentAt(w, v, 0)];
    OneMoment(e, s, cut, trace[0]);
    if e.g > w.top {
      w := w.(top := e.g);
      Accessed(w0, SetTop(e.g));
      LinkableKept(e, s, cut, w0, w, v);
      LinkingGood(e, s, cut, w, v, 0);
      MomentAdded(e, s, cut, trace, MomentAt(w, v, 0));
      trace := trace + [MomentAt(w, v, 0)];
    }
  }

  /** The stores in the old leaf once the new one is linked. */
  lemma Shrinking(e: Env, s: Slot, cut: nat, w: World, views: seq<View>) returns (r: seq<Moment>)
    requires Proper(e) && Sizes(e, w) && Links(e, w, 4 * (e.g + 1))
    requires var q := e.ls[e.y - 1].slots; q != [] && cut <= |q| && GoodViews(views, q, s, cut) && |views| >= 2
    requires Mems(e, w, views[0]) && views[0].stage == 0 && views[1] == views[0].(stage := 1)
    ensures Insertion(e, s, cut, r) && r[0] == MomentAt(w, views[0], 4 * (e.g + 1))
    ensures |r| == |views| - 1 && forall u {:trigger views[u]} :: 1 <= u < |views| ==> r[u - 1].v == views[u]
    ensures var v := views[|views| - 1]; r[|r| - 1] == Moment(w.(mems := w.mems[e.y := v.leaf]), v, 4 * (e.g + 1))
  {
    hide WellFormed, Links, GoodView, ViewBounds, Good, Insertion, AtRest;
    var q, tail := e.ls[e.y - 1].slots, views[1..];
    TailViews(views, q, s, cut);
    MemsAlike(e, w, views[0], tail[0]);
    forall t | 0 <= t < |tail| ensures InStep(e, Moment(w, tail[t], 4 * (e.g + 1))) {
      StageAfter(views, q, s, cut, t + 1);
    }
    LiftedIsInsertion(e, s, cut, w, tail, 4 * (e.g + 1));
    r := Lifted(e, w, tail, 4 * (e.g + 1));
    assert w.mems == w.mems[e.y := views[1].leaf];
  }

  lemma MemsAlike(e: Env, w: World, v: View, u: View)
    requires Proper(e) && Sizes(e, w) && Mems(e, w, v) && u.leaf == v.leaf && u.split == v.split
    ensures Mems(e, w, u)
  {
    hide WellFormed, AtRest;
  }

  /** The leaves are in this state at some moment. */
  ghost predicate Shows(trace: seq<Moment>, v: View) {
    exists t :: 0 <= t < |trace| && trace[t].v == v
  }

  lemma JoinShows(a: seq<Moment>, b: seq<Moment>, views: seq<View>)
    requires |b| == |views| - 1 && forall u {:trigger views[u]} :: 1 <= u < |views| ==> b[u - 1].v == views[u]
    requires b != []
    ensures forall u {:trigger views[u]} :: 2 <= u < |views| ==> Shows(a + b[1..], views[u])
  {
    forall u | 2 <= u < |views| ensures Shows(a + b[1..], views[u]) {
      assert (a + b[1..])[|a| + u - 2] == b[u - 1];
    }
  }

  lemma StageAfter(views: seq<View>, q: seq<Slot>, s: Slot, cut: nat, t: nat)
    requires q != [] && cut <= |q| && GoodViews(views, q, s, cut) && |views| >= 2 && views[1].stage == 1
    requires 1 <= t < |views|
    ensures 1 <= views[t].stage
  {
  }

  lemma LinkableMems(e: Env, s: Slot, cut: nat, w: World, v: View)
    requires Proper(e) && Linkable(e, s, cut, w, v)
    ensures Sizes(e, w) && Mems(e, w, v)
  {
  }

  /** The insert when the leaf is full: the new leaf is linked level by level, then the old one gives up its share. */
  method LinkAndShrink(e: Env, cursor: seq<nat>, w0: World, v: View, ghost s: Slot, ghost cut: nat,
          ghost views: seq<View>)
    returns (w: World, ghost trace: seq<Moment>)
    requires Proper(e) && Sizes(e, w0) && Links(e, w0, 0)
    requires |cursor| > e.g && forall i :: e.Height(e.y) < i <= e.g ==> cursor[i] == Pred(e, i)
    requires var q := e.ls[e.y - 1].slots; q != [] && cut <= |q| && GoodViews(views, q, s, cut) && |views| >= 2
    requires Mems(e, w0, views[0]) && views[0].stage == 0 && views[1] == views[0].(stage := 1)
    requires views[|views| - 1] == v
    ensures Insertion(e, s, cut, trace) && trace[0] == Moment(w0, views[0], 0)
    ensures trace[|trace| - 1] == Moment(w, v, 4 * (e.g + 1)) && Sizes(e, w) && Links(e, w, 4 * (e.g + 1))
    ensures w.top == if e.g > w0.top then e.g else w0.top
    ensures forall u {:trigger views[u]} :: 2 <= u < |views| ==> Shows(trace, views[u])
  {
    hide WellFormed, Links, Good, Insertion, Linkable, GoodViews, Mems, OneAccess;
    LinkableFrom(e, s, cut, w0, views);
    w, trace := RaiseLevel(e, w0, s, cut, views[0]);
    NotEmpty(e, s, cut, trace);
    assert AtProg(views[0], 0) == views[0];
    w, trace := LinkNode(e, cursor, w, s, cut, views[0], trace);
    LinkableMems(e, s, cut, w, views[0]);
    ghost var rest := Shrinking(e, s, cut, w, views);
    NotEmpty(e, s, cut, rest);
    MomentsJoin(e, s, cut, trace, rest);
    JoinShows(trace, rest, views);
    trace := trace + rest[1..];
    LinksStay(e, w, w.(mems := w.mems[e.y := v.leaf]), 4 * (e.g + 1));
    w := w.(mems := w.mems[e.y := v.leaf]);
  }

  /**
   The successful insert of a free range into its home leaf, store by store: it leaves the two leaves as specified
   and, after a split, the new leaf linked in both directions on its whole tower; every moment on the way is one a
   traversal can cope with.
   */
  method InsertStores(e: Env, s: Slot, cursor: seq<nat>, w0: World)
    returns (w: World, ghost trace: seq<Moment>, ghost cut: nat)
    requires Proper(e) && s.size > 0 && Free(Flatten(e.ls), s.key, s.size) && e.y == Home(e.ls, s.key) + 1
    requires Quiet(e, w0)
    requires |cursor| > e.g && forall i :: e.Height(e.y) < i <= e.g ==> cursor[i] == Pred(e, i)
    ensures Fits(e, s) && Insertion(e, s, cut, trace)
    ensures SameButNew(e, w0, trace[0].w) && trace[0].prog == 0
    ensures Finished(e, s, w0, trace[|trace| - 1]) && trace[|trace| - 1].w == w
    ensures var q := e.ls[e.y - 1].slots;
      |q| == KEYS_PER_NODE && Rank(q, s.key) < HALF ==>
        cut == HALF && exists t :: 0 <= t < |trace| && Reopened(trace[t].v, HALF)
  {
    hide WellFormed, Links, Good, Insertion, Flatten, Free, Fits, Home, GoodViews, Quiet, Sizes, Mems,
      Rank, Ordered, Separates, Result, AtRest;
    HomeFits(e, s);
    HomeLeaf(e, w0);
    var q := e.ls[e.y - 1].slots;
    var v;
    ghost var views;
    v, views, cut := AddKeyStores(w0.mems[e.y], Rank(q, s.key), s, q, e.g);
    ResultInLeaf(v, e.ls[e.y - 1], Rank(q, s.key), s, e.g);
    // the new leaf is filled before anything leads to it
    w := w0.(mems := w0.mems[e.New() := v.split]);
    QuietFilled(e, w0, v.split);
    ghost var filled := w;
    if v.stage == 0 {
      trace := Lifted(e, w, views, 0);
      LeafOnly(e, s, cut, w, views);
      w := w.(mems := w.mems[e.y := v.leaf]);
    } else {
      w, trace := LinkAndShrink(e, cursor, w, v, s, cut, views);
      if |q| == KEYS_PER_NODE && Rank(q, s.key) < HALF {
        ReopenedShows(trace, views);
      }
    }
  }

  lemma ReopenedShows(trace: seq<Moment>, views: seq<View>)
    requires |views| >= 2 && views[0].stage < 3 && views[1].stage < 3
    requires exists t :: 0 <= t < |views| && Reopened(views[t], HALF)
    requires forall u {:trigger views[u]} :: 2 <= u < |views| ==> Shows(trace, views[u])
    ensures exists t :: 0 <= t < |trace| && Reopened(trace[t].v, HALF)
  {
    var u :| 0 <= u < |views| && Reopened(views[u], HALF);
    assert Shows(trace, views[u]);
  }

  lemma ResultInLeaf(v: View, l: LeafVal, at: nat, s: Slot, height: nat)
    requires 1 <= |l.slots| <= KEYS_PER_NODE && at <= |l.slots| && Result(v, LeafVal(l.slots, height), at, s, height)
    ensures Result(v, l, at, s, height)
  {
  }

  /** How an insert leaves things. */
  ghost predicate Finished(e: Env, s: Slot, w0: World, m: Moment)
    requires Proper(e)
  {
    var l := e.ls[e.y - 1];
    && 1 <= |l.slots| <= KEYS_PER_NODE && Result(m.v, l, Rank(l.slots, s.key), s, e.g)
    && (m.v.stage == 0 ==> m.prog == 0 && m.w.next == w0.next && m.w.prev == w0.prev && m.w.top == w0.top)
    && (m.v.stage > 0 ==>
          m.prog == 4 * (e.g + 1) && Sizes(e, m.w) && Links(e, m.w, 4 * (e.g + 1))
          && m.w.top == if e.g > w0.top then e.g else w0.top)
  }

  lemma HomeLeaf(e: Env, w: World)
    requires Proper(e) && Quiet(e, w)
    ensures var l := e.ls[e.y - 1];
      && e.New() < |w.mems| && l.slots != [] && AtRest(w.mems[e.y], l.slots) && w.mems[e.y].max == l.Max()
      && 1 <= |l.slots| <= KEYS_PER_NODE
  {
  }

  // ---- what the links look like afterwards

  lemma SuccBack(e: Env, c: nat, i: nat)
    requires i <= SKIP_MAXLEVEL && c <= |e.ls| && e.Height(c) >= i
    ensures Succ(e, c, i) != NIL ==> UpTo(e, Succ(e, c, i) - 1, i) == c
    ensures Succ(e, c, i) == NIL ==> UpTo(e, |e.ls|, i) == c
  {
  }

  /** Once the tower is linked, prev undoes next on every level, and the head's prev is the last node of the level. */
  lemma {:induction false} LinksInverse(e: Env, w: World, i: nat, c: nat)
    requires Proper(e) && Sizes(e, w) && Links(e, w, 4 * (e.g + 1))
    requires i < SKIP_MAXLEVEL && ((c <= |e.ls| && e.Height(c) >= i) || (c == e.New() && i <= e.g))
    ensures var d := w.next[i][c];
      if d == NIL then w.prev[i][0] == if c == 0 then NIL else c else 0 < d < |w.prev[i]| && w.prev[i][d] == c
  {
    hide WellFormed;
    var p := Pred(e, i);
    SuccBack(e, p, i);
    if c != e.New() {
      SuccBack(e, c, i);
      assert w.next[i][c] == if c == p && i <= e.g then e.New() else Succ(e, c, i);
    }
  }

  /** Any list of leaves can be laid out in memory at rest. */
  lemma QuietWorld(e: Env) returns (w: World)
    requires Proper(e)
    ensures Quiet(e, w)
  {
    var size := |e.ls| + 2;
    w := World(
      seq(size, c requires 0 <= c => RestOf(e, c)),
      seq(SKIP_MAXLEVEL, i requires 0 <= i => seq(size, c requires 0 <= c => Succ(e, c, i))),
      seq(SKIP_MAXLEVEL, i requires 0 <= i < SKIP_MAXLEVEL =>
        seq(size, c requires 0 <= c => if c == 0 || c > |e.ls| then LastOn(e, i) else UpTo(e, c - 1, i))), 0);
    forall c | 1 <= c <= |e.ls|
      ensures e.ls[c - 1].slots != [] && AtRest(w.mems[c], e.ls[c - 1].slots) && w.mems[c].max == e.ls[c - 1].Max()
    {
      RestsInLeaf(e, c);
    }
    hide WellFormed, AtRest, RestOf, From, UpTo, Succ, LastOn;
  }

  /** Node c of a list that nobody is changing. */
  function RestOf(e: Env, c: nat): Mem {
    if 1 <= c <= |e.ls| && 1 <= |e.ls[c - 1].slots| <= KEYS_PER_NODE then Filled(e.ls[c - 1].slots) else BlankMem()
  }

  lemma RestsInLeaf(e: Env, c: nat)
    requires Proper(e) && 1 <= c <= |e.ls|
    ensures var q := e.ls[c - 1].slots; q != [] && AtRest(RestOf(e, c), q) && RestOf(e, c).max == e.ls[c - 1].Max()
  {
    WellFormedIsSized(e.ls);
    FilledAtRest(e.ls[c - 1].slots);
  }
}
