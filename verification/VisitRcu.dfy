/** The classic RCU: a grace period is over once the updater has run on every CPU. One updater, any number of CPUs. */
module VisitRcu {

  const NR_LRCU_PROTECTED: nat := 10

  /**
    * A CPU that may not be preempted is inside a read-side section, which it entered at moment began; held are the
    * publications its readers loaded there.
    */
  datatype Cpu = Cpu(depth: nat, began: nat, held: set<nat>)

  /** What the updater is doing; since and known are the moment and the newest publication when it started. */
  datatype Updater = Idle | Visiting(next: nat, since: nat, known: nat)

  /**
    * pointers[v] is the v-th pointer published, the last one is in force; 0 is NULL. list is the array of old
    * pointers. Three fields only record history: clock counts steps, synced is the newest publication known when the
    * last grace period started, and cleared says that list has been all NULL at some moment.
    */
  datatype State = State(cpus: seq<Cpu>, pointers: seq<nat>, list: seq<nat>, updater: Updater, clock: nat, synced: nat,
                         cleared: bool)

  datatype Op =
    | ReadLock(cpu: nat)
    | ReadUnlock(cpu: nat)
    | Dereference(cpu: nat)
    | Assign(newp: nat)      // lrcu_assign_pointer
    | Synchronize            // synchronize_lrcu begins its walk over the CPUs
    | Visit                  // run_on the next CPU, once it lets another thread run
    | Clear                  // the walk is over: forget the old pointers and return

  /** The first free slot, or the length when the buffer is full. */
  function FirstNull(list: seq<nat>): (k: nat)
    ensures k <= |list| && (k < |list| ==> list[k] == 0)
    ensures forall j :: 0 <= j < k ==> list[j] != 0
  {
    if list == [] || list[0] == 0 then 0
    else
      var k := FirstNull(list[1..]);
      assert forall j :: 1 <= j < k + 1 ==> list[j] == list[1..][j - 1];
      k + 1
  }

  function Last(pointers: seq<nat>): nat
    requires pointers != []
  {
    pointers[|pointers| - 1]
  }

  function Step(s: State, op: Op): State
    requires s.pointers != []
  {
    var r := s.(clock := s.clock + 1);
    match op
    case ReadLock(c) =>
      if c < |s.cpus| then
        var cpu := s.cpus[c];
        r.(cpus := s.cpus[c := if cpu.depth == 0 then Cpu(1, s.clock, {}) else cpu.(depth := cpu.depth + 1)])
      else r
    case ReadUnlock(c) =>
      if c < |s.cpus| && s.cpus[c].depth > 0 then
        r.(cpus := s.cpus[c := s.cpus[c].(depth := s.cpus[c].depth - 1)])
      else r
    case Dereference(c) =>
      if c < |s.cpus| && s.cpus[c].depth > 0 then
        r.(cpus := s.cpus[c := s.cpus[c].(held := s.cpus[c].held + {|s.pointers| - 1})])
      else r
    case Assign(newp) =>
      var k, oldp := FirstNull(s.list), Last(s.pointers);
      if s.updater.Idle? && k < |s.list| && oldp != 0 then
        r.(list := s.list[k := oldp], pointers := s.pointers + [newp])
      else r
    case Synchronize =>
      if s.updater.Idle? then r.(updater := Visiting(0, s.clock, |s.pointers| - 1)) else r
    case Visit =>
      if s.updater.Visiting? && s.updater.next < |s.cpus| && s.cpus[s.updater.next].depth == 0 then
        r.(updater := s.updater.(next := s.updater.next + 1))
      else r
    case Clear =>
      if s.updater.Visiting? && s.updater.next >= |s.cpus| then
        r.(list := seq(|s.list|, _ => 0), updater := Idle, synced := s.updater.known, cleared := true)
      else r
  }

  predicate AllNull(list: seq<nat>) {
    forall j {:trigger list[j]} :: 0 <= j < |list| ==> list[j] == 0
  }

  /** lrcu_data_init leaves the array as it was allocated: `list` is whatever it happens to hold. */
  function Start(n: nat, pointer: nat, list: seq<nat>): State {
    State(seq(n, _ => Cpu(0, 0, {})), [pointer], list, Idle, 0, 0, AllNull(list))
  }

  function Run(s: State, ops: seq<Op>): (r: State)
    requires s.pointers != []
    ensures r.pointers != []
    decreases |ops|
  {
    if ops == [] then s else Run(Step(s, ops[0]), ops[1..])
  }

  // ---- sections as the operations of a run make them

  /** How deeply CPU c is nested in read-side sections after ops: read locks less the unlocks that match them. */
  function Nesting(ops: seq<Op>, c: nat): nat {
    if ops == [] then 0
    else
      var before, op := Nesting(ops[..|ops| - 1], c), ops[|ops| - 1];
      if op == ReadLock(c) then before + 1 else if op == ReadUnlock(c) && before > 0 then before - 1 else before
  }

  /** From a on, through all of b, CPU c never leaves its outermost section. */
  ghost predicate Inside(a: seq<Op>, b: seq<Op>, c: nat) {
    forall i {:trigger b[..i]} :: 0 <= i <= |b| ==> Nesting(a + b[..i], c) > 0
  }

  lemma {:induction false} RunLast(s: State, ops: seq<Op>, op: Op)
    requires s.pointers != []
    ensures Run(s, ops + [op]) == Step(Run(s, ops), op)
    decreases |ops|
  {
    if ops == [] {
      assert [op][1..] == [];
    } else {
      assert (ops + [op])[1..] == ops[1..] + [op];
      RunLast(Step(s, ops[0]), ops[1..], op);
    }
    hide Step;
  }

  /** What is kept about the sections is what the operations say: a CPU is as deep in sections as it was put. */
  lemma {:induction false} DepthIsNesting(n: nat, pointer: nat, list: seq<nat>, ops: seq<Op>, c: nat)
    requires c < n
    ensures var t := Run(Start(n, pointer, list), ops); |t.cpus| == n && t.cpus[c].depth == Nesting(ops, c)
    decreases |ops|
  {
    if ops != [] {
      var before, op := ops[..|ops| - 1], ops[|ops| - 1];
      assert ops == before + [op];
      DepthIsNesting(n, pointer, list, before, c);
      RunLast(Start(n, pointer, list), before, op);
    }
    hide FirstNull;
  }

  /** Sections hold publications from after the last grace period started; those that began after a walk, newer ones. */
  predicate CpuInv(cpu: Cpu, s: State) {
    cpu.depth > 0 ==>
      && cpu.began < s.clock
      && (forall v :: v in cpu.held ==> s.synced <= v < |s.pointers|)
      && (s.updater.Visiting? && cpu.began >= s.updater.since ==> forall v :: v in cpu.held ==> v >= s.updater.known)
  }

  /** A CPU already visited has left every section that was active when the walk started. */
  predicate Visited(cpu: Cpu, since: nat) {
    cpu.depth > 0 ==> cpu.began >= since
  }

  /** The buffer holds, in order, the n pointers last replaced, and NULL after them. */
  predicate Filled(list: seq<nat>, pointers: seq<nat>, n: int) {
    && 0 <= n <= |list| && n < |pointers|
    && (forall j {:trigger list[j]} :: 0 <= j < n ==> list[j] != 0 && list[j] == pointers[|pointers| - 1 - n + j])
    && (forall j {:trigger list[j]} :: n <= j < |list| ==> list[j] == 0)
  }

  /** How many pointers have been replaced since the last grace period started. */
  function Pending(s: State): int {
    |s.pointers| - 1 - s.synced
  }

  ghost predicate Inv(s: State) {
    && s.pointers != [] && |s.list| == NR_LRCU_PROTECTED && s.synced < |s.pointers|
    && (forall c {:trigger s.cpus[c]} :: 0 <= c < |s.cpus| ==> CpuInv(s.cpus[c], s))
    && (s.updater.Visiting? ==>
          && s.updater.next <= |s.cpus| && s.updater.since < s.clock && s.updater.known == |s.pointers| - 1
          && forall c {:trigger s.cpus[c]} :: 0 <= c < s.updater.next ==> Visited(s.cpus[c], s.updater.since))
    && (s.cleared ==> Filled(s.list, s.pointers, Pending(s)))
  }

  lemma FirstNullIs(list: seq<nat>, pointers: seq<nat>, n: int)
    requires Filled(list, pointers, n)
    ensures FirstNull(list) == n
  {
    FirstNullFound(list, n);
  }

  lemma StepKeepsBuffer(s: State, op: Op)
    requires Inv(s)
    ensures var t := Step(s, op);
      && |t.list| == NR_LRCU_PROTECTED && t.synced < |t.pointers|
      && (t.cleared ==> Filled(t.list, t.pointers, Pending(t)))
  {
    if s.cleared {
      FirstNullIs(s.list, s.pointers, Pending(s));
    }
    hide FirstNull, CpuInv, Visited;
  }

  lemma StepKeepsCpu(s: State, op: Op, c: nat)
    requires Inv(s) && c < |s.cpus|
    ensures var t := Step(s, op);
      && |t.cpus| == |s.cpus| && CpuInv(t.cpus[c], t)
      && (t.updater.Visiting? && c < t.updater.next ==> Visited(t.cpus[c], t.updater.since))
  {
    hide FirstNull, Filled;
    assert CpuInv(s.cpus[c], s);
    assert s.updater.Visiting? && c < s.updater.next ==> Visited(s.cpus[c], s.updater.since);
  }

  lemma {:induction false} StepKeepsInv(s: State, op: Op)
    requires Inv(s)
    ensures Inv(Step(s, op))
  {
    StepKeepsBuffer(s, op);
    var t := Step(s, op);
    forall c | 0 <= c < |s.cpus|
      ensures |t.cpus| == |s.cpus| && CpuInv(t.cpus[c], t)
      ensures t.updater.Visiting? && c < t.updater.next ==> Visited(t.cpus[c], t.updater.since)
    {
      StepKeepsCpu(s, op, c);
    }
    hide FirstNull, Filled, CpuInv, Visited;
  }

  lemma {:induction false} RunKeepsInv(s: State, ops: seq<Op>)
    requires Inv(s)
    ensures Inv(Run(s, ops))
    decreases |ops|
  {
    hide Step;
    if ops != [] {
      StepKeepsInv(s, ops[0]);
      RunKeepsInv(Step(s, ops[0]), ops[1..]);
    }
  }

  /**
    * synchronize_lrcu returns only after every section active when it started has ended: in every run, when the walk is
    * over, a section still active began after the walk did, and holds only what was in force by then or later.
    */
  lemma {:induction false} GracePeriodHolds(n: nat, pointer: nat, list: seq<nat>, ops: seq<Op>, c: nat)
    requires |list| == NR_LRCU_PROTECTED
    requires var t := Run(Start(n, pointer, list), ops);
      t.updater.Visiting? && Step(t, Clear).updater.Idle? && c < |t.cpus| && t.cpus[c].depth > 0
    ensures var t := Run(Start(n, pointer, list), ops);
      && t.cpus[c].began >= t.updater.since
      && forall v :: v in t.cpus[c].held ==> v >= Step(t, Clear).synced == |t.pointers| - 1
  {
    RunKeepsInv(Start(n, pointer, list), ops);
    var t := Run(Start(n, pointer, list), ops);
    assert CpuInv(t.cpus[c], t) && Visited(t.cpus[c], t.updater.since);
  }

  lemma LastApart(a: seq<Op>, b: seq<Op>)
    requires b != []
    ensures var m := |b| - 1; b == b[..m] + [b[m]] && a + b == a + b[..m] + [b[m]]
  {
  }

  lemma InsideLess(a: seq<Op>, b: seq<Op>, c: nat)
    requires b != [] && Inside(a, b, c)
    ensures Inside(a, b[..|b| - 1], c) && Nesting(a + b[..|b| - 1], c) > 0 && Nesting(a + b, c) > 0
  {
    hide Nesting;
    var m := |b| - 1;
    assert b[..|b|] == b;
    forall i | 0 <= i <= m ensures Nesting(a + b[..m][..i], c) > 0 {
      assert b[..m][..i] == b[..i];
    }
  }

  /**
    * A grace period waits: as long as a CPU that was in a section when synchronize_lrcu began has not left it, the walk
    * has not got past that CPU, and the old pointers are not forgotten.
    */
  lemma {:induction false} WaitsForReaders(n: nat, pointer: nat, list: seq<nat>, a: seq<Op>, b: seq<Op>, c: nat)
    requires c < n && Run(Start(n, pointer, list), a).updater.Idle? && Inside(a + [Synchronize], b, c)
    ensures var s, t := Run(Start(n, pointer, list), a), Run(Start(n, pointer, list), a + [Synchronize] + b);
      t.updater.Visiting? && t.updater.next <= c && t.updater.since == s.clock && t.synced == s.synced
        && t.list == s.list
    decreases |b|
  {
    var s0, sync := Start(n, pointer, list), a + [Synchronize];
    if b == [] {
      assert sync + b == sync;
      RunLast(s0, a, Synchronize);
    } else {
      var m := |b| - 1;
      LastApart(sync, b);
      InsideLess(sync, b, c);
      WaitsForReaders(n, pointer, list, a, b[..m], c);
      RunLast(s0, sync + b[..m], b[m]);
      DepthIsNesting(n, pointer, list, sync + b[..m], c);
      WaitsOn(Run(s0, sync + b[..m]), b[m], c);
    }
    SynchronizeStarts(Run(s0, a));
    hide FirstNull, Nesting, Inside, Step, Run;
  }

  lemma SynchronizeStarts(s: State)
    requires s.pointers != [] && s.updater.Idle?
    ensures var t := Step(s, Synchronize);
      t.updater == Visiting(0, s.clock, |s.pointers| - 1) && t.synced == s.synced && t.list == s.list
  {
  }

  lemma WaitsOn(s: State, op: Op, c: nat)
    requires s.pointers != [] && s.updater.Visiting? && s.updater.next <= c < |s.cpus| && s.cpus[c].depth > 0
    ensures var t := Step(s, op);
      && t.updater.Visiting? && t.updater.next <= c && t.updater.since == s.updater.since
      && t.synced == s.synced && t.list == s.list
  {
    hide FirstNull;
  }

  /** Visiting the CPUs one after the other. */
  function Visits(n: nat): (ops: seq<Op>)
    ensures |ops| == n
  {
    if n == 0 then [] else [Visit] + Visits(n - 1)
  }

  lemma {:induction false} VisitsAdvance(s: State, n: nat)
    requires s.pointers != [] && s.updater.Visiting? && s.updater.next + n <= |s.cpus|
    requires forall c {:trigger s.cpus[c]} :: 0 <= c < |s.cpus| ==> s.cpus[c].depth == 0
    ensures var t := Run(s, Visits(n));
      t == s.(clock := t.clock, updater := s.updater.(next := s.updater.next + n))
    decreases n
  {
    if n > 0 {
      assert Visits(n)[1..] == Visits(n - 1);
      VisitsAdvance(Step(s, Visit), n - 1);
    }
  }

  /** And it waits for nothing else: with no CPU in a section, synchronize_lrcu runs to its end. */
  lemma {:induction false} GracePeriodEnds(n: nat, pointer: nat, list: seq<nat>, ops: seq<Op>)
    requires Run(Start(n, pointer, list), ops).updater.Idle?
    requires forall c {:trigger Nesting(ops, c)} :: 0 <= c < n ==> Nesting(ops, c) == 0
    ensures var s, t := Run(Start(n, pointer, list), ops),
                        Run(Run(Start(n, pointer, list), ops), [Synchronize] + Visits(n) + [Clear]);
      && t.updater.Idle? && t.synced == |s.pointers| - 1 && t.pointers == s.pointers
      && |t.list| == |s.list| && AllNull(t.list)
  {
    var s := Run(Start(n, pointer, list), ops);
    forall c | 0 <= c < |s.cpus| ensures s.cpus[c].depth == 0 {
      CpusStay(Start(n, pointer, list), ops);
      DepthIsNesting(n, pointer, list, ops, c);
    }
    CpusStay(Start(n, pointer, list), ops);
    var s1 := Step(s, Synchronize);
    VisitsAdvance(s1, n);
    RunLast(s, [Synchronize] + Visits(n), Clear);
    assert ([Synchronize] + Visits(n))[1..] == Visits(n);
    hide Nesting, FirstNull;
  }

  lemma {:induction false} CpusStay(s: State, ops: seq<Op>)
    requires s.pointers != []
    ensures |Run(s, ops).cpus| == |s.cpus|
    decreases |ops|
  {
    if ops != [] {
      CpusStay(Step(s, ops[0]), ops[1..]);
    }
    hide FirstNull;
  }

  /** A pointer loaded in a section is the one in force, and is held until the section is left. */
  lemma {:induction false} LoadedIsHeld(n: nat, pointer: nat, list: seq<nat>, a: seq<Op>, b: seq<Op>, c: nat)
    requires c < n && Inside(a, [Dereference(c)] + b, c)
    ensures var s, t := Run(Start(n, pointer, list), a), Run(Start(n, pointer, list), a + ([Dereference(c)] + b));
      c < |t.cpus| && |s.pointers| - 1 in t.cpus[c].held
    decreases |b|
  {
    var s0, d := Start(n, pointer, list), [Dereference(c)] + b;
    var m := |b|;
    var u := Run(s0, a + d[..m]);
    InsideLess(a, d, c);
    LastApart(a, d);
    DepthIsNesting(n, pointer, list, a + d[..m], c);
    RunLast(s0, a + d[..m], d[m]);
    if b == [] {
      assert d[..0] == [] && a + [] == a;
    } else {
      assert d[..m] == [Dereference(c)] + b[..m - 1];
      LoadedIsHeld(n, pointer, list, a, b[..m - 1], c);
      DepthIsNesting(n, pointer, list, a + d, c);
      HeldStays(u, d[m], c, |Run(s0, a).pointers| - 1);
    }
    hide FirstNull, Nesting, Inside, Step, Run;
    DereferenceHolds(u, c);
  }

  lemma DereferenceHolds(s: State, c: nat)
    requires s.pointers != []
    ensures c < |s.cpus| && s.cpus[c].depth > 0 ==> |s.pointers| - 1 in Step(s, Dereference(c)).cpus[c].held
    ensures |Step(s, Dereference(c)).cpus| == |s.cpus|
  {
  }

  lemma HeldStays(s: State, op: Op, c: nat, v: nat)
    requires s.pointers != [] && c < |s.cpus| && s.cpus[c].depth > 0 && v in s.cpus[c].held
    ensures c < |Step(s, op).cpus| && (Step(s, op).cpus[c].depth > 0 ==> v in Step(s, op).cpus[c].held)
  {
    hide FirstNull;
  }

  /** So what a section has loaded is not reclaimed before it is left, whatever else happens. */
  lemma {:induction false} LoadedIsNotReclaimed(n: nat, pointer: nat, list: seq<nat>, a: seq<Op>, b: seq<Op>, c: nat)
    requires |list| == NR_LRCU_PROTECTED && c < n && Inside(a, [Dereference(c)] + b, c)
    ensures var s, t := Run(Start(n, pointer, list), a), Run(Start(n, pointer, list), a + ([Dereference(c)] + b));
      t.synced <= |s.pointers| - 1
  {
    var ops := a + ([Dereference(c)] + b);
    LoadedIsHeld(n, pointer, list, a, b, c);
    DepthIsNesting(n, pointer, list, ops, c);
    InsideLess(a, [Dereference(c)] + b, c);
    ReclaimedAreUnheld(n, pointer, list, ops, c, |Run(Start(n, pointer, list), a).pointers| - 1);
    hide FirstNull, Nesting, Inside, Step;
  }

  /** In every run no reader holds a pointer replaced before the last completed grace period started. */
  lemma {:induction false} ReclaimedAreUnheld(n: nat, pointer: nat, list: seq<nat>, ops: seq<Op>, c: nat, v: nat)
    requires |list| == NR_LRCU_PROTECTED
    requires var t := Run(Start(n, pointer, list), ops); c < |t.cpus| && t.cpus[c].depth > 0 && v in t.cpus[c].held
    ensures v >= Run(Start(n, pointer, list), ops).synced
  {
    RunKeepsInv(Start(n, pointer, list), ops);
    var t := Run(Start(n, pointer, list), ops);
    assert CpuInv(t.cpus[c], t);
  }

  /**
    * In every run from any contents of the buffer, once it has been NULL, which the first grace period sees to at the
    * latest, it is the pointers replaced since the last grace period started, padded with NULL.
    */
  lemma {:induction false} BufferHoldsReplaced(n: nat, pointer: nat, list: seq<nat>, ops: seq<Op>)
    requires |list| == NR_LRCU_PROTECTED
    requires AllNull(list) || Run(Start(n, pointer, list), ops).cleared
    ensures var t := Run(Start(n, pointer, list), ops);
      && 0 <= Pending(t) <= |t.list| == NR_LRCU_PROTECTED && t.synced < |t.pointers|
      && t.list[..Pending(t)] == t.pointers[t.synced..|t.pointers| - 1]
      && forall j :: Pending(t) <= j < |t.list| ==> t.list[j] == 0
  {
    RunKeepsInv(Start(n, pointer, list), ops);
    if AllNull(list) {
      ClearedStays(Start(n, pointer, list), ops);
    }
  }

  lemma {:induction false} ClearedStays(s: State, ops: seq<Op>)
    requires s.pointers != [] && s.cleared
    ensures Run(s, ops).cleared
    decreases |ops|
  {
    if ops != [] {
      ClearedStays(Step(s, ops[0]), ops[1..]);
    }
  }

  /** A grace period that ends clears the buffer. */
  lemma ClearClears(s: State)
    requires s.pointers != [] && s.updater.Visiting? && s.updater.next >= |s.cpus|
    ensures Step(s, Clear).cleared && AllNull(Step(s, Clear).list)
  {
  }

  /**
    * In runs whose updater assigns only between grace periods, once the buffer has been NULL, an assignment takes
    * effect iff fewer than ten pointers wait for a grace period and the pointer in force is not NULL; so a pointer that
    * is NULL is never replaced.
    */
  lemma {:induction false} AssignTakesEffectIff(n: nat, pointer: nat, list: seq<nat>, ops: seq<Op>, newp: nat)
    requires |list| == NR_LRCU_PROTECTED && Run(Start(n, pointer, list), ops).updater.Idle?
    requires AllNull(list) || Run(Start(n, pointer, list), ops).cleared
    ensures var t := Run(Start(n, pointer, list), ops); var u := Step(t, Assign(newp));
      u.pointers == if Pending(t) < NR_LRCU_PROTECTED && Last(t.pointers) != 0 then t.pointers + [newp] else t.pointers
  {
    RunKeepsInv(Start(n, pointer, list), ops);
    if AllNull(list) {
      ClearedStays(Start(n, pointer, list), ops);
    }
    var t := Run(Start(n, pointer, list), ops);
    FirstNullIs(t.list, t.pointers, Pending(t));
  }

  /** struct lrcu_data: the loops over the array, run under its lock. */
  class LrcuData {
    const list: array<nat>

    /** lrcu_data_init: the array keeps what its memory held. */
    constructor (held: seq<nat>)
      requires |held| == NR_LRCU_PROTECTED
      ensures fresh(list) && list[..] == held
    {
      list := new nat[NR_LRCU_PROTECTED](i requires 0 <= i < |held| => held[i]);
    }

    /** __lrcu_collect_old_pointer; NULL when the buffer is full. */
    method CollectOldPointer(oldp: nat) returns (kept: nat)
      modifies list
      ensures var k := FirstNull(old(list[..]));
        if k < list.Length then kept == oldp && list[..] == old(list[..])[k := oldp]
        else kept == 0 && list[..] == old(list[..])
    {
      var i := 0;
      while i < list.Length && list[i] != 0
        invariant 0 <= i <= list.Length && forall j :: 0 <= j < i ==> list[j] != 0
      {
        i := i + 1;
      }
      FirstNullFound(list[..], i);
      if i == list.Length {
        return 0;
      }
      list[i] := oldp;
      return oldp;
    }

    /** The clearing loop of synchronize_lrcu. */
    method ClearList()
      modifies list
      ensures AllNull(list[..])
    {
      for i := 0 to list.Length
        invariant forall j :: 0 <= j < i ==> list[j] == 0
      {
        list[i] := 0;
      }
    }
  }

  lemma FirstNullFound(list: seq<nat>, i: nat)
    requires i <= |list| && (forall j :: 0 <= j < i ==> list[j] != 0) && (i < |list| ==> list[i] == 0)
    ensures FirstNull(list) == i
  {
  }
}
