/** The reference-counted RCU of locked-rcu: readers count themselves in and out of nodes, writers hold a lock. */
module CountedRcu {
  import opened Sequences

  /** Loaded stands between the load of head->current and the increment that follows it. */
  datatype Reader = Idle | Loaded(node: nat) | Reading(node: nat)

  /** What the holder of head->sp is about to do. */
  datatype Lock =
    | Unlocked
    | Scanning(node: nat)    // look for the new object among the retired, then append the current node
    | Publishing(node: nat)  // the current node is appended; make the new one current and unlock
    | Waiting(at: nat)       // synchronize_rcu waits for list[at] to have no reader, or ends
    | Freeing(at: nat)       // it saw the count at zero and frees list[at]

  /**
    * Node n holds object objs[n] and has counts[n] readers. list is the chain of retired nodes from head->node,
    * freed the nodes freed so far, in order.
    */
  datatype State = State(objs: seq<int>, counts: seq<int>, current: nat, list: seq<nat>, freed: seq<nat>,
                         lock: Lock, readers: seq<Reader>)

  /** Enter takes the load and the increment of rcu_read_lock as one step; Load and Join take them apart. */
  datatype Op =
    | Enter(r: nat)
    | Leave(r: nat)
    | Load(r: nat)
    | Join(r: nat)
    | Assign(obj: int)       // rcu_assign_pointer allocates its node and takes the lock
    | Append
    | Publish
    | Synchronize            // synchronize_rcu takes the lock
    | Check
    | Free

  predicate ObjIn(objs: seq<int>, list: seq<nat>, obj: int) {
    exists k :: 0 <= k < |list| && list[k] < |objs| && objs[list[k]] == obj
  }

  /** One step; the identity when the thread that would take it must wait. */
  function Step(s: State, op: Op): State {
    match op
    case Enter(r) =>
      if r < |s.readers| && s.readers[r].Idle? && s.current < |s.counts| then
        s.(readers := s.readers[r := Reading(s.current)], counts := s.counts[s.current := s.counts[s.current] + 1])
      else s
    case Leave(r) =>
      if r < |s.readers| && s.readers[r].Reading? && s.readers[r].node < |s.counts| then
        var n := s.readers[r].node;
        s.(readers := s.readers[r := Idle], counts := s.counts[n := s.counts[n] - 1])
      else s
    case Load(r) =>
      if r < |s.readers| && s.readers[r].Idle? then s.(readers := s.readers[r := Loaded(s.current)]) else s
    case Join(r) =>
      if r < |s.readers| && s.readers[r].Loaded? && s.readers[r].node < |s.counts| then
        var n := s.readers[r].node;
        s.(readers := s.readers[r := Reading(n)], counts := s.counts[n := s.counts[n] + 1])
      else s
    case Assign(obj) =>
      if s.lock.Unlocked? then s.(objs := s.objs + [obj], counts := s.counts + [0], lock := Scanning(|s.objs|)) else s
    case Append =>
      if s.lock.Scanning? && s.lock.node < |s.objs| then
        if ObjIn(s.objs, s.list, s.objs[s.lock.node]) then s.(lock := Unlocked)
        else s.(list := s.list + [s.current], lock := Publishing(s.lock.node))
      else s
    case Publish =>
      if s.lock.Publishing? then s.(current := s.lock.node, lock := Unlocked) else s
    case Synchronize =>
      if s.lock.Unlocked? then s.(lock := Waiting(0)) else s
    case Check =>
      if s.lock.Waiting? && s.lock.at >= |s.list| then s.(list := [], lock := Unlocked)
      else if s.lock.Waiting? && s.list[s.lock.at] < |s.counts| && s.counts[s.list[s.lock.at]] == 0 then
        s.(lock := Freeing(s.lock.at))
      else s
    case Free =>
      if s.lock.Freeing? && s.lock.at < |s.list| then
        s.(freed := s.freed + [s.list[s.lock.at]], lock := Waiting(s.lock.at + 1))
      else s
  }

  /** __rcu_init with an object, and n threads that may read. */
  function Start(obj: int, n: nat): (s: State)
    ensures Shape(s)
  {
    State([obj], [0], 0, [], [], Unlocked, seq(n, _ => Idle))
  }

  /** How many readers are on node n. */
  function Count(readers: seq<Reader>, n: nat): nat {
    if readers == [] then 0
    else Count(readers[..|readers| - 1], n) + if readers[|readers| - 1] == Reading(n) then 1 else 0
  }

  lemma {:induction false} CountUpdate(readers: seq<Reader>, r: nat, x: Reader, n: nat)
    requires r < |readers|
    ensures Count(readers[r := x], n) == Count(readers, n)
      - (if readers[r] == Reading(n) then 1 else 0) + if x == Reading(n) then 1 else 0
  {
    var last := |readers| - 1;
    if r == last {
      assert readers[r := x][..last] == readers[..last];
    } else {
      CountUpdate(readers[..last], r, x, n);
      assert readers[r := x][..last] == readers[..last][r := x];
    }
  }

  lemma {:induction false} CountPositive(readers: seq<Reader>, r: nat, n: nat)
    requires r < |readers| && readers[r] == Reading(n)
    ensures Count(readers, n) > 0
  {
    if r < |readers| - 1 {
      CountPositive(readers[..|readers| - 1], r, n);
    }
  }

  lemma {:induction false} CountNone(readers: seq<Reader>, n: nat)
    requires forall r :: 0 <= r < |readers| ==> readers[r] != Reading(n)
    ensures Count(readers, n) == 0
  {
    if readers != [] {
      CountNone(readers[..|readers| - 1], n);
    }
  }

  /** How much of the list synchronize_rcu has already freed. */
  function Past(s: State): nat {
    match s.lock
    case Waiting(at) => at
    case Freeing(at) => at
    case _ => 0
  }

  /** The nodes in the order they were published: freed ones, retired ones, the current one. */
  function Published(s: State): seq<nat>
    requires Past(s) <= |s.list|
  {
    s.freed + s.list[Past(s)..] + if s.lock.Publishing? then [] else [s.current]
  }

  /** The list as the holder of the lock expects it. */
  predicate ListFits(s: State) {
    && Past(s) <= |s.list|
    && (s.lock.Freeing? ==> s.lock.at < |s.list|)
    && (s.lock.Publishing? ==> s.list != [] && s.list[|s.list| - 1] == s.current)
  }

  ghost predicate Shape(s: State) {
    && |s.counts| == |s.objs|
    && ListFits(s)
    && s.current < |s.objs|
    && (forall n :: n in Published(s) ==> n < |s.objs|)
    && Distinct(Published(s))
    && (s.lock.Scanning? || s.lock.Publishing? ==> s.lock.node < |s.objs| && s.lock.node !in Published(s))
  }

  /** A reader stands on the current node or a retired one; what it has only loaded was published at some time. */
  ghost predicate Standing(s: State, x: Reader)
    requires Past(s) <= |s.list|
  {
    match x
    case Idle => true
    case Loaded(n) => n in Published(s)
    case Reading(n) => InUse(s, n)
  }

  /** A count is the number of readers on the node, and is zero while the node is being freed. */
  ghost predicate Guarded(s: State)
    requires Past(s) <= |s.list| && |s.counts| == |s.objs|
  {
    && (forall n {:trigger s.counts[n]} :: 0 <= n < |s.counts| ==> s.counts[n] == Count(s.readers, n))
    && (forall r {:trigger s.readers[r]} :: 0 <= r < |s.readers| ==> Standing(s, s.readers[r]))
    && (s.lock.Freeing? && s.lock.at < |s.list| && s.list[s.lock.at] < |s.counts| ==> s.counts[s.list[s.lock.at]] == 0)
  }

  predicate InUse(s: State, n: nat)
    requires Past(s) <= |s.list|
  {
    n == s.current || n in s.list[Past(s)..]
  }

  ghost predicate Inv(s: State) {
    Shape(s) && Guarded(s)
  }

  /** A node may be joined while it is in use, up to the moment its count is seen at zero. */
  predicate MayJoin(s: State, n: nat) {
    Past(s) <= |s.list| && InUse(s, n) && !(s.lock.Freeing? && s.lock.at < |s.list| && s.list[s.lock.at] == n)
  }

  /** A reader that increments apart from its load does so while it may. */
  predicate SafeJoin(s: State, op: Op) {
    op.Join? && op.r < |s.readers| && s.readers[op.r].Loaded? ==> MayJoin(s, s.readers[op.r].node)
  }

  lemma CurrentPublished(s: State)
    requires ListFits(s)
    ensures s.current in Published(s)
    ensures forall n :: InUse(s, n) ==> n in Published(s)
  {
  }

  lemma FreeMoves(s: State)
    requires ListFits(s) && s.lock.Freeing?
    ensures Past(Step(s, Free)) <= |Step(s, Free).list| && Published(Step(s, Free)) == Published(s)
  {
  }

  lemma AppendMoves(s: State)
    requires ListFits(s)
    ensures Past(Step(s, Append)) <= |Step(s, Append).list| && Published(Step(s, Append)) == Published(s)
  {
  }

  /** Publishing appends to the order of publication; no other step changes it. */
  lemma {:induction false} PublishedGrows(s: State, op: Op)
    requires ListFits(s)
    ensures Past(Step(s, op)) <= |Step(s, op).list|
    ensures Published(Step(s, op)) ==
      if op.Publish? && s.lock.Publishing? then Published(s) + [s.lock.node] else Published(s)
  {
    hide ObjIn;
    if op.Free? && s.lock.Freeing? {
      FreeMoves(s);
    } else if op.Append? {
      AppendMoves(s);
    }
  }

  lemma {:induction false} StepKeepsShape(s: State, op: Op)
    requires Shape(s)
    ensures Shape(Step(s, op))
  {
    hide Published;
    PublishedGrows(s, op);
    CurrentPublished(s);
    var r := Step(s, op);
    if op.Publish? && s.lock.Publishing? {
      var p := Published(s);
      forall j, k | 0 <= j < k < |Published(r)| ensures Published(r)[j] != Published(r)[k] {
        assert j < |p| && p[j] in p;
      }
    }
  }

  lemma LoadedKnown(s: State, r: nat)
    requires Inv(s) && r < |s.readers| && s.readers[r].Loaded?
    ensures s.readers[r].node in Published(s) && s.readers[r].node < |s.counts|
  {
    assert Standing(s, s.readers[r]);
  }

  lemma CountsStep(s: State, op: Op, n: nat)
    requires Inv(s) && SafeJoin(s, op) && n < |s.objs|
    ensures n < |Step(s, op).counts| && Step(s, op).counts[n] == Count(Step(s, op).readers, n)
  {
    hide Count, Published, InUse, Distinct, ObjIn;
    assert s.counts[n] == Count(s.readers, n);
    if op.Enter? && op.r < |s.readers| {
      CountUpdate(s.readers, op.r, Reading(s.current), n);
    } else if op.Leave? && op.r < |s.readers| {
      CountUpdate(s.readers, op.r, Idle, n);
    } else if op.Load? && op.r < |s.readers| {
      CountUpdate(s.readers, op.r, Loaded(s.current), n);
    } else if op.Join? && op.r < |s.readers| && s.readers[op.r].Loaded? {
      LoadedKnown(s, op.r);
      CountUpdate(s.readers, op.r, Reading(s.readers[op.r].node), n);
    }
  }

  /** A new node has no reader. */
  lemma NewNodeUnread(s: State)
    requires Inv(s)
    ensures Count(s.readers, |s.objs|) == 0
  {
    CurrentPublished(s);
    hide Published;
    CountNone(s.readers, |s.objs|);
  }

  lemma RestMoves(s: State, op: Op)
    requires Shape(s)
    ensures Past(Step(s, op)) <= |Step(s, op).list|
    ensures var t := Step(s, op); var rest, left := s.list[Past(s)..], t.list[Past(t)..];
      if op.Free?
        && s.lock.Freeing? then rest == [s.list[s.lock.at]] + left else left == rest || left == rest + [s.current]
    ensures Step(s, op).current == s.current || (op.Publish? && s.lock.Publishing? && s.current in s.list[Past(s)..])
  {
    hide Published, Distinct, ObjIn;
    if s.lock.Publishing? {
      assert s.list[Past(s)..][|s.list| - 1] == s.current;
    }
  }

  /** A node with readers stays in use: the writers' steps keep it current or retired, and never free it. */
  lemma UseStays(s: State, op: Op, n: nat)
    requires Shape(s) && InUse(s, n)
    requires op.Free? && s.lock.Freeing? ==> n != s.list[s.lock.at]
    ensures Past(Step(s, op)) <= |Step(s, op).list| && InUse(Step(s, op), n)
  {
    RestMoves(s, op);
    hide Published, Distinct, Step;
  }

  lemma ReadersCounted(s: State, r: nat)
    requires Inv(s) && r < |s.readers| && s.readers[r].Reading?
    ensures var n := s.readers[r].node; InUse(s, n) && n < |s.counts| && s.counts[n] > 0
  {
    CurrentPublished(s);
    CountPositive(s.readers, r, s.readers[r].node);
  }

  /** Where a reader stands stays in use until it leaves. */
  lemma ReaderStays(s: State, op: Op, r: nat)
    requires Inv(s) && SafeJoin(s, op) && r < |s.readers|
    ensures var t := Step(s, op);
      |t.readers| == |s.readers| && Past(t) <= |t.list| && Standing(t, t.readers[r])
  {
    hide Published, Distinct, ObjIn, Count;
    var x := s.readers[r];
    PublishedGrows(s, op);
    CurrentPublished(s);
    assert Standing(s, x);
    if x.Reading? {
      ReadersCounted(s, r);
      UseStays(s, op, x.node);
    }
  }

  /** A count once seen at zero stays there until the node is freed. */
  lemma FreeingStays(s: State, op: Op)
    requires Inv(s) && SafeJoin(s, op)
    ensures var t := Step(s, op);
      t.lock.Freeing? && t.lock.at < |t.list| && t.list[t.lock.at] < |t.counts| ==> t.counts[t.list[t.lock.at]] == 0
  {
    if s.lock.Freeing? {
      var n := s.list[s.lock.at];
      assert s.list[s.lock.at..][0] == n;
      assert n != s.current by {
        assert Published(s)[|s.freed|] == n;
        assert Published(s)[|Published(s)| - 1] == s.current;
      }
      assert n in Published(s);
      CountsStep(s, op, n);
      assert s.counts[n] == Count(s.readers, n) == 0;
    }
  }

  lemma {:induction false} StepKeepsInv(s: State, op: Op)
    requires Inv(s) && SafeJoin(s, op)
    ensures Inv(Step(s, op))
  {
    hide Count, InUse, Published, ObjIn;
    StepKeepsShape(s, op);
    FreeingStays(s, op);
    var t := Step(s, op);
    forall n | 0 <= n < |t.counts| ensures t.counts[n] == Count(t.readers, n) {
      if n < |s.objs| {
        CountsStep(s, op, n);
      } else {
        NewNodeUnread(s);
      }
    }
    forall r | 0 <= r < |t.readers|
      ensures Standing(t, t.readers[r])
    {
      ReaderStays(s, op, r);
    }
  }

  function Run(s: State, ops: seq<Op>): State
    decreases |ops|
  {
    if ops == [] then s else Run(Step(s, ops[0]), ops[1..])
  }

  /** Every increment made apart from its load comes while it may. */
  predicate SafeJoins(s: State, ops: seq<Op>)
    decreases |ops|
  {
    ops == [] || (SafeJoin(s, ops[0]) && SafeJoins(Step(s, ops[0]), ops[1..]))
  }

  /** With load and increment always taken as one step there is nothing to ask. */
  predicate Atomic(ops: seq<Op>) {
    forall i :: 0 <= i < |ops| ==> !ops[i].Load? && !ops[i].Join?
  }

  lemma {:induction false} AtomicIsSafe(s: State, ops: seq<Op>)
    requires Atomic(ops)
    ensures SafeJoins(s, ops)
    decreases |ops|
  {
    if ops != [] {
      AtomicIsSafe(Step(s, ops[0]), ops[1..]);
    }
  }

  lemma {:induction false} RunKeepsInv(s: State, ops: seq<Op>)
    requires Inv(s) && SafeJoins(s, ops)
    ensures Inv(Run(s, ops))
    decreases |ops|
  {
    hide Inv;
    if ops != [] {
      StepKeepsInv(s, ops[0]);
      RunKeepsInv(Step(s, ops[0]), ops[1..]);
    }
  }

  lemma StartInv(obj: int, n: nat)
    ensures Inv(Start(obj, n))
  {
    CountNone(Start(obj, n).readers, 0);
  }

  /** Each count is the number of active readers of its node, and no active reader is on a freed node. */
  ghost predicate Sound(s: State) {
    && (forall k {:trigger s.counts[k]} :: 0 <= k < |s.counts| ==> s.counts[k] == Count(s.readers, k))
    && (forall r {:trigger s.readers[r]} :: 0 <= r < |s.readers| && s.readers[r].Reading? ==>
          s.readers[r].node !in s.freed)
  }

  lemma InvIsSound(s: State)
    requires Inv(s)
    ensures Sound(s)
  {
    hide Published, Count;
    forall r | 0 <= r < |s.readers| && s.readers[r].Reading? ensures s.readers[r].node !in s.freed {
      assert Standing(s, s.readers[r]);
      UsedNotFreed(s, s.readers[r].node);
    }
  }

  /** In every run, loads and increments apart or not, whose joins all come in time: freed nodes have no readers. */
  lemma {:induction false} FreedHaveNoReaders(obj: int, n: nat, ops: seq<Op>)
    requires SafeJoins(Start(obj, n), ops)
    ensures Sound(Run(Start(obj, n), ops))
  {
    StartInv(obj, n);
    RunKeepsInv(Start(obj, n), ops);
    InvIsSound(Run(Start(obj, n), ops));
  }

  /** In particular when every read lock is one step. */
  lemma {:induction false} AtomicRunsAreSound(obj: int, n: nat, ops: seq<Op>)
    requires Atomic(ops)
    ensures Sound(Run(Start(obj, n), ops))
  {
    AtomicIsSafe(Start(obj, n), ops);
    FreedHaveNoReaders(obj, n, ops);
  }

  /** The invariant survives a join iff the join comes while it may. */
  lemma {:induction false} JoinKeepsInvIff(s: State, r: nat)
    requires Inv(s) && r < |s.readers| && s.readers[r].Loaded?
    ensures Inv(Step(s, Join(r))) <==> MayJoin(s, s.readers[r].node)
  {
    var n := s.readers[r].node;
    var t := Step(s, Join(r));
    LoadedKnown(s, r);
    if MayJoin(s, n) {
      StepKeepsInv(s, Join(r));
    } else if Inv(t) {
      assert Standing(t, t.readers[r]);
      assert t.counts[n] == s.counts[n] + 1;
      ReadersCounted(t, r);
    }
  }

  /** No later run, however careful its own joins, puts an active reader on a freed node. */
  ghost predicate StaysSound(s: State) {
    forall ops: seq<Op> :: SafeJoins(s, ops) ==> Sound(Run(s, ops))
  }

  lemma OutOfUseIsFreed(s: State, n: nat)
    requires Past(s) <= |s.list| && n in Published(s) && !InUse(s, n)
    ensures n in s.freed
  {
  }

  lemma UnsafeJoinFrees(s: State, r: nat) returns (ops: seq<Op>)
    requires Inv(s) && r < |s.readers| && s.readers[r].Loaded? && !MayJoin(s, s.readers[r].node)
    ensures SafeJoins(Step(s, Join(r)), ops) && !Sound(Run(Step(s, Join(r)), ops))
  {
    var n := s.readers[r].node;
    var t := Step(s, Join(r));
    LoadedKnown(s, r);
    assert t.readers[r] == Reading(n);
    if InUse(s, n) {
      ops := [Free];
      var u := Step(t, Free);
      assert ops[1..] == [] && Run(t, ops) == u;
      assert u.freed[|s.freed|] == n && u.readers[r] == Reading(n);
    } else {
      ops := [];
      OutOfUseIsFreed(s, n);
    }
  }

  /**
    * Exactly which increments made apart from their load are safe: a join leads to a state from which no reader ever
    * stands on a freed node iff the node is in use and synchronize_rcu has not just seen its count at zero.
    */
  lemma {:induction false} JoinIsSafeIff(s: State, r: nat)
    requires Inv(s) && r < |s.readers| && s.readers[r].Loaded?
    ensures StaysSound(Step(s, Join(r))) <==> MayJoin(s, s.readers[r].node)
  {
    hide Inv, Sound, Run, MayJoin, SafeJoins, Step;
    if MayJoin(s, s.readers[r].node) {
      JoinKeepsInvIff(s, r);
      forall ops: seq<Op> | SafeJoins(Step(s, Join(r)), ops) ensures Sound(Run(Step(s, Join(r)), ops)) {
        RunKeepsInv(Step(s, Join(r)), ops);
        InvIsSound(Run(Step(s, Join(r)), ops));
      }
    } else {
      var ops := UnsafeJoinFrees(s, r);
    }
  }

  lemma UsedNotFreed(s: State, n: nat)
    requires Shape(s) && InUse(s, n)
    ensures n !in s.freed
  {
    var rest := s.list[Past(s)..] + if s.lock.Publishing? then [] else [s.current];
    assert Published(s) == s.freed + rest;
    assert n in rest by {
      if s.lock.Publishing? {
        assert s.list[Past(s)..][|s.list| - 1] == s.current;
      }
    }
    var k :| 0 <= k < |rest| && rest[k] == n;
    assert Published(s)[|s.freed| + k] == n;
    forall j | 0 <= j < |s.freed| ensures s.freed[j] != n {
      assert Published(s)[j] == s.freed[j];
    }
  }

  /**
    * No reader joins a retired node unless it had loaded it before, and a retired node never becomes current again:
    * apart from such joins the count of a node that is not current only falls.
    */
  lemma RetiredOnlyDrains(s: State, op: Op, n: nat)
    requires Inv(s) && n < |s.objs| && n != s.current
    ensures |Step(s, op).counts| >= |s.counts|
    ensures Step(s, op).counts[n] > s.counts[n] <==> op.Join? && op.r < |s.readers| && s.readers[op.r] == Loaded(n)
    ensures n in Published(s) ==> Step(s, op).current != n
  {
  }

  lemma RunTail(s: State, ops: seq<Op>, first: Op, rest: seq<Op>)
    requires ops == [first] + rest
    ensures Run(s, ops) == Run(Step(s, first), rest)
  {
  }

  lemma RunThree(s: State, a: Op, b: Op, c: Op, rest: seq<Op>)
    ensures Run(s, [a, b, c] + rest) == Run(Step(Step(Step(s, a), b), c), rest)
  {
    hide Step;
    RunTail(s, [a, b, c] + rest, a, [b, c] + rest);
    RunTail(Step(s, a), [b, c] + rest, b, [c] + rest);
    RunTail(Step(Step(s, a), b), [c] + rest, c, rest);
  }

  /** rcu_read_lock torn apart: a reader loads the current node, and joins it after others have run. */
  function Torn(newObj: int): seq<Op> {
    [Load(0), Assign(newObj), Append] + ([Publish, Synchronize, Check] + ([Free, Check, Join(0)] + []))
  }

  lemma TornStarts(obj: int, newObj: int)
    requires obj != newObj
    ensures Step(Step(Step(Start(obj, 1), Load(0)), Assign(newObj)), Append)
      == State([obj, newObj], [0, 0], 0, [0], [], Publishing(1), [Loaded(0)])
  {
  }

  lemma TornGrace(obj: int, newObj: int)
    ensures var s := State([obj, newObj], [0, 0], 0, [0], [], Publishing(1), [Loaded(0)]);
      Step(Step(Step(s, Publish), Synchronize), Check)
      == State([obj, newObj], [0, 0], 1, [0], [], Freeing(0), [Loaded(0)])
  {
  }

  lemma TornJoins(obj: int, newObj: int)
    ensures var s := State([obj, newObj], [0, 0], 1, [0], [], Freeing(0), [Loaded(0)]);
      Step(Step(Step(s, Free), Check), Join(0))
      == State([obj, newObj], [1, 0], 1, [], [0], Unlocked, [Reading(0)])
  {
  }

  /** Taking the load and the increment apart breaks it: the node can be freed in between and then counted as read. */
  lemma SplitReadLockFails(obj: int, newObj: int)
    requires obj != newObj
    ensures var t := Run(Start(obj, 1), Torn(newObj)); t.readers == [Reading(0)] && t.freed == [0] && t.current == 1
  {
    hide Step;
    var s3 := State([obj, newObj], [0, 0], 0, [0], [], Publishing(1), [Loaded(0)]);
    var s6 := State([obj, newObj], [0, 0], 1, [0], [], Freeing(0), [Loaded(0)]);
    TornStarts(obj, newObj);
    TornGrace(obj, newObj);
    TornJoins(obj, newObj);
    RunThree(Start(obj, 1), Load(0), Assign(newObj), Append,
             [Publish, Synchronize, Check] + ([Free, Check, Join(0)] + []));
    RunThree(s3, Publish, Synchronize, Check, [Free, Check, Join(0)] + []);
    RunThree(s6, Free, Check, Join(0), []);
  }

  /** The object assigned is neither current nor already freed. */
  predicate NewObject(s: State, op: Op) {
    op.Assign? && s.lock.Unlocked? ==> Unlike(s.objs, s.freed + [s.current], op.obj)
  }

  predicate DistinctObjects(objs: seq<int>, a: seq<nat>) {
    forall j, k {:trigger a[j], a[k]} :: 0 <= j < k < |a| && a[j] < |objs| && a[k] < |objs| ==> objs[a[j]] != objs[a[k]]
  }

  predicate Unlike(objs: seq<int>, a: seq<nat>, obj: int) {
    forall k {:trigger a[k]} :: 0 <= k < |a| && a[k] < |objs| ==> objs[a[k]] != obj
  }

  /** Every published node has its own object, and so will the one about to be published. */
  ghost predicate OwnObjects(s: State)
    requires Shape(s)
  {
    && DistinctObjects(s.objs, Published(s))
    && (s.lock.Scanning? ==> Unlike(s.objs, s.freed + [s.current], s.objs[s.lock.node]))
    && (s.lock.Publishing? ==> Unlike(s.objs, Published(s), s.objs[s.lock.node]))
  }

  /** What the scan of rcu_assign_pointer adds to its caller's promise: the object is on no node published before. */
  lemma ScanFindsOthers(s: State)
    requires Shape(s) && OwnObjects(s) && s.lock.Scanning? && !ObjIn(s.objs, s.list, s.objs[s.lock.node])
    ensures Unlike(s.objs, Published(s), s.objs[s.lock.node])
  {
    var p, kept := Published(s), s.freed + [s.current];
    forall k | 0 <= k < |p| && p[k] < |s.objs| ensures s.objs[p[k]] != s.objs[s.lock.node] {
      if k < |s.freed| {
        assert kept[k] == p[k];
      } else if k < |s.freed| + |s.list| {
        assert s.list[k - |s.freed|] == p[k];
      } else {
        assert kept[|s.freed|] == p[k];
      }
    }
  }

  lemma DistinctAppend(objs: seq<int>, a: seq<nat>, n: nat)
    requires DistinctObjects(objs, a) && n < |objs| && Unlike(objs, a, objs[n])
    ensures DistinctObjects(objs, a + [n])
  {
  }

  lemma OneMoreObject(objs: seq<int>, a: seq<nat>, obj: int)
    requires forall n :: n in a ==> n < |objs|
    ensures DistinctObjects(objs, a) ==> DistinctObjects(objs + [obj], a)
    ensures forall x :: Unlike(objs, a, x) ==> Unlike(objs + [obj], a, x)
  {
    forall x | Unlike(objs, a, x) ensures Unlike(objs + [obj], a, x) {
      assert forall k {:trigger a[k]} :: 0 <= k < |a| ==> a[k] in a;
    }
    assert forall k {:trigger a[k]} :: 0 <= k < |a| ==> a[k] in a;
  }

  lemma AssignKeepsObjects(s: State, obj: int)
    requires Shape(s) && OwnObjects(s) && NewObject(s, Assign(obj)) && s.lock.Unlocked?
    ensures Shape(Step(s, Assign(obj))) && OwnObjects(Step(s, Assign(obj)))
  {
    StepKeepsShape(s, Assign(obj));
    PublishedGrows(s, Assign(obj));
    OneMoreObject(s.objs, Published(s), obj);
    FreedPublished(s);
    OneMoreObject(s.objs, s.freed + [s.current], obj);
    hide Published, Unlike, DistinctObjects;
  }

  lemma FreedPublished(s: State)
    requires Shape(s)
    ensures forall n :: n in s.freed + [s.current] ==> n < |s.objs|
  {
    forall n | n in s.freed ensures n < |s.objs| {
      assert n in Published(s);
    }
  }

  lemma AppendKeepsObjects(s: State)
    requires Shape(s) && OwnObjects(s)
    ensures Shape(Step(s, Append)) && OwnObjects(Step(s, Append))
  {
    StepKeepsShape(s, Append);
    PublishedGrows(s, Append);
    if s.lock.Scanning? && !ObjIn(s.objs, s.list, s.objs[s.lock.node]) {
      ScanFindsOthers(s);
    }
    hide Published, DistinctObjects, Unlike, ObjIn, Distinct;
  }

  lemma PublishKeepsObjects(s: State)
    requires Shape(s) && OwnObjects(s)
    ensures Shape(Step(s, Publish)) && OwnObjects(Step(s, Publish))
  {
    StepKeepsShape(s, Publish);
    PublishedGrows(s, Publish);
    if s.lock.Publishing? {
      DistinctAppend(s.objs, Published(s), s.lock.node);
    }
    hide Published, DistinctObjects, Unlike, Distinct;
  }

  lemma OthersKeepObjects(s: State, op: Op)
    requires Shape(s) && OwnObjects(s) && !op.Append? && !op.Publish? && (op.Assign? ==> !s.lock.Unlocked?)
    ensures Shape(Step(s, op)) && OwnObjects(Step(s, op))
  {
    StepKeepsShape(s, op);
    PublishedGrows(s, op);
    hide Published, DistinctObjects, Unlike, Distinct;
  }

  lemma {:induction false} StepKeepsObjects(s: State, op: Op)
    requires Shape(s) && OwnObjects(s) && NewObject(s, op)
    ensures Shape(Step(s, op)) && OwnObjects(Step(s, op))
  {
    hide *;
    if op.Assign? && s.lock.Unlocked? {
      AssignKeepsObjects(s, op.obj);
    } else if op.Append? {
      AppendKeepsObjects(s);
    } else if op.Publish? {
      PublishKeepsObjects(s);
    } else {
      OthersKeepObjects(s, op);
    }
  }

  function Reassign(s: State, obj: int): State {
    Step(Step(Step(s, Assign(obj)), Append), Publish)
  }

  lemma NotAmongRetired(s: State, obj: int, k: nat)
    requires Shape(s) && OwnObjects(s) && s.lock.Unlocked?
    requires k < |Published(s)| && (k < |s.freed| || k == |s.freed| + |s.list|)
    requires Published(s)[k] < |s.objs| && s.objs[Published(s)[k]] == obj
    ensures forall j :: 0 <= j < |s.list| ==> s.list[j] < |s.objs| && s.objs[s.list[j]] != obj
  {
    var p := Published(s);
    forall j | 0 <= j < |s.list| ensures s.list[j] < |s.objs| && s.objs[s.list[j]] != obj {
      var x := |s.freed| + j;
      assert p[x] == s.list[j] && p[x] in p;
      assert if x < k then s.objs[p[x]] != s.objs[p[k]] else s.objs[p[k]] != s.objs[p[x]];
    }
  }

  lemma UnnoticedPublishes(s: State, obj: int)
    requires Shape(s) && s.lock.Unlocked? && !ObjIn(s.objs + [obj], s.list, obj)
    ensures Published(Reassign(s, obj)) == Published(s) + [|s.objs|] && Reassign(s, obj).objs == s.objs + [obj]
  {
    var t := Step(s, Assign(obj));
    StepKeepsShape(s, Assign(obj));
    PublishedGrows(s, Assign(obj));
    StepKeepsShape(t, Append);
    PublishedGrows(t, Append);
    PublishedGrows(Step(t, Append), Publish);
    hide Distinct, Published, ObjIn;
  }

  /** An object that is current or freed goes unnoticed: its new node is published all the same. */
  lemma OldObjectPublished(s: State, obj: int, k: nat)
    requires Shape(s) && OwnObjects(s) && s.lock.Unlocked?
    requires k < |Published(s)| && (k < |s.freed| || k == |s.freed| + |s.list|)
    requires Published(s)[k] < |s.objs| && s.objs[Published(s)[k]] == obj
    ensures Published(Reassign(s, obj)) == Published(s) + [|s.objs|] && Reassign(s, obj).objs == s.objs + [obj]
  {
    hide Shape, OwnObjects, Published, Reassign;
    NotAmongRetired(s, obj, k);
    UnnoticedPublishes(s, obj);
  }

  /** One assignment keeps the objects apart iff its object is neither current nor already freed. */
  lemma {:induction false} AssignKeepsApartIff(s: State, obj: int)
    requires Shape(s) && OwnObjects(s) && s.lock.Unlocked?
    ensures Shape(Reassign(s, obj))
    ensures DistinctObjects(Reassign(s, obj).objs, Published(Reassign(s, obj))) <==> NewObject(s, Assign(obj))
  {
    var t := Step(s, Assign(obj));
    StepKeepsShape(s, Assign(obj));
    StepKeepsShape(t, Append);
    StepKeepsShape(Step(t, Append), Publish);
    if NewObject(s, Assign(obj)) {
      StepKeepsObjects(s, Assign(obj));
      StepKeepsObjects(t, Append);
      StepKeepsObjects(Step(t, Append), Publish);
    } else {
      var kept, p := s.freed + [s.current], Published(s);
      var k :| 0 <= k < |kept| && kept[k] < |s.objs| && s.objs[kept[k]] == obj;
      var at := if k < |s.freed| then k else |p| - 1;
      assert p[at] == kept[k] && p[at] in p;
      OldObjectPublished(s, obj, at);
      var q := Published(Reassign(s, obj));
      assert q[at] == p[at] && q[|p|] == |s.objs|;
    }
  }

  /** The caller keeps its promise along the run. */
  predicate NewObjects(s: State, ops: seq<Op>)
    decreases |ops|
  {
    ops == [] || (NewObject(s, ops[0]) && NewObjects(Step(s, ops[0]), ops[1..]))
  }

  /** What has been published stays published: nothing drops out of freed, retired and current together. */
  lemma {:induction false} RunKeepsObjects(s: State, ops: seq<Op>)
    requires Shape(s) && OwnObjects(s) && NewObjects(s, ops)
    ensures Shape(Run(s, ops)) && OwnObjects(Run(s, ops)) && Published(s) <= Published(Run(s, ops))
    decreases |ops|
  {
    hide Published, OwnObjects, NewObject;
    if ops != [] {
      StepKeepsObjects(s, ops[0]);
      PublishedGrows(s, ops[0]);
      RunKeepsObjects(Step(s, ops[0]), ops[1..]);
    }
  }

  /**
    * Given new objects only, in every run each object ever published is current, retired once or freed once: the
    * freed, retired and current nodes, in this order, are all nodes published, and no two hold the same object.
    */
  lemma {:induction false} EachObjectOnce(obj: int, n: nat, ops: seq<Op>, j: nat, k: nat)
    requires NewObjects(Start(obj, n), ops)
    ensures var t := Run(Start(obj, n), ops);
      Past(t) <= |t.list| && var all := t.freed + t.list[Past(t)..] + if t.lock.Publishing? then [] else [t.current];
      j < k < |all| ==> all[j] < |t.objs| && all[k] < |t.objs| && t.objs[all[j]] != t.objs[all[k]]
  {
    RunKeepsObjects(Start(obj, n), ops);
    var t := Run(Start(obj, n), ops);
    var all := Published(t);
    assert j < k < |all| ==> all[j] in all && all[k] in all;
  }

  lemma Reassigned(obj: int)
    ensures Step(Step(Step(Start(obj, 0), Assign(obj)), Append), Publish)
      == State([obj, obj], [0, 0], 1, [0], [], Unlocked, [])
  {
  }

  lemma FreedCurrent(obj: int)
    ensures var s := State([obj, obj], [0, 0], 1, [0], [], Unlocked, []);
      Step(Step(Step(s, Synchronize), Check), Free).freed == [0]
    ensures var s := State([obj, obj], [0, 0], 1, [0], [], Unlocked, []);
      var t := Step(Step(Step(s, Synchronize), Check), Free); t.current == 1 && t.objs == [obj, obj]
  {
  }

  /** Without that promise the current object can be retired and freed: the scan does not look at the current node. */
  lemma CurrentObjectFreed(obj: int)
    ensures var t := Run(Start(obj, 0), [Assign(obj), Append, Publish] + ([Synchronize, Check, Free] + []));
      t.freed == [0] && t.current == 1 && t.objs == [obj, obj]
  {
    hide Step;
    var s0 := Start(obj, 0);
    var s3 := Step(Step(Step(s0, Assign(obj)), Append), Publish);
    Reassigned(obj);
    RunThree(s0, Assign(obj), Append, Publish, [Synchronize, Check, Free] + []);
    RunThree(s3, Synchronize, Check, Free, []);
    FreedCurrent(obj);
  }

  // ---- readers as the operations of a run make them

  /** Where the operations put thread r: outside, between the load and the increment of rcu_read_lock, or inside. */
  datatype Phase = Outside | Between | Inside

  function PhaseAfter(phase: Phase, op: Op, r: nat): Phase {
    match op
    case Enter(x) => if x == r && phase == Outside then Inside else phase
    case Load(x) => if x == r && phase == Outside then Between else phase
    case Join(x) => if x == r && phase == Between then Inside else phase
    case Leave(x) => if x == r && phase == Inside then Outside else phase
    case _ => phase
  }

  function PhaseOf(x: Reader): Phase {
    match x
    case Idle => Outside
    case Loaded(_) => Between
    case Reading(_) => Inside
  }

  function PhaseIn(phase: Phase, ops: seq<Op>, r: nat): Phase
    decreases |ops|
  {
    if ops == [] then phase else PhaseIn(PhaseAfter(phase, ops[0], r), ops[1..], r)
  }

  /** Every node that is spoken of has a count. */
  predicate AllCounted(s: State) {
    && s.current < |s.counts| && |s.objs| == |s.counts|
    && (s.lock.Scanning? || s.lock.Publishing? ==> s.lock.node < |s.counts|)
    && forall r {:trigger s.readers[r]} :: 0 <= r < |s.readers| && !s.readers[r].Idle? ==>
      s.readers[r].node < |s.counts|
  }

  lemma StepMovesReader(s: State, op: Op, r: nat)
    requires AllCounted(s) && r < |s.readers|
    ensures var t := Step(s, op);
      && AllCounted(t) && |t.readers| == |s.readers|
      && PhaseOf(t.readers[r]) == PhaseAfter(PhaseOf(s.readers[r]), op, r)
      && (!s.readers[r].Idle? && !t.readers[r].Idle? ==> t.readers[r].node == s.readers[r].node)
      && (s.readers[r].Idle? && !t.readers[r].Idle? ==> t.readers[r].node == s.current)
  {
    hide ObjIn;
  }

  lemma {:induction false} RunMovesReader(s: State, ops: seq<Op>, r: nat)
    requires AllCounted(s) && r < |s.readers|
    ensures var t := Run(s, ops);
      AllCounted(t) && r < |t.readers| && PhaseOf(t.readers[r]) == PhaseIn(PhaseOf(s.readers[r]), ops, r)
    decreases |ops|
  {
    if ops != [] {
      StepMovesReader(s, ops[0], r);
      RunMovesReader(Step(s, ops[0]), ops[1..], r);
    }
    hide Step, AllCounted, PhaseAfter, PhaseOf;
  }

  /** In every run a thread is reading exactly when its own operations say so. */
  lemma {:induction false} ReadersFollowOps(obj: int, n: nat, ops: seq<Op>, r: nat)
    requires r < n
    ensures var t := Run(Start(obj, n), ops);
      r < |t.readers| && PhaseOf(t.readers[r]) == PhaseIn(Outside, ops, r)
  {
    RunMovesReader(Start(obj, n), ops, r);
    hide Run;
  }

  /** Thread r is not outside at any moment of ops. */
  ghost predicate NeverOutside(phase: Phase, ops: seq<Op>, r: nat)
    decreases |ops|
  {
    phase != Outside && (ops != [] ==> NeverOutside(PhaseAfter(phase, ops[0], r), ops[1..], r))
  }

  lemma {:induction false} StaysOnNode(s: State, ops: seq<Op>, r: nat)
    requires AllCounted(s) && r < |s.readers| && NeverOutside(PhaseOf(s.readers[r]), ops, r)
    ensures var t := Run(s, ops);
      r < |t.readers| && !t.readers[r].Idle? && !s.readers[r].Idle? && t.readers[r].node == s.readers[r].node
    decreases |ops|
  {
    if ops != [] {
      StepMovesReader(s, ops[0], r);
      StaysOnNode(Step(s, ops[0]), ops[1..], r);
    }
    hide Step, AllCounted, PhaseAfter;
  }

  lemma {:induction false} RunConcat(s: State, a: seq<Op>, b: seq<Op>)
    ensures Run(s, a + b) == Run(Run(s, a), b)
    decreases |a|
  {
    if a == [] {
      assert a + b == b;
    } else {
      assert (a + b)[1..] == a[1..] + b;
      RunConcat(Step(s, a[0]), a[1..], b);
    }
    hide Step;
  }

  /**
    * A read-side section stands on the node that was current when its lock loaded it, from its increment to its unlock,
    * and that node is not freed meanwhile.
    */
  lemma {:induction false} SectionKeepsNode(obj: int, n: nat, a: seq<Op>, enter: Op, b: seq<Op>, r: nat)
    requires r < n && (enter == Enter(r) || enter == Load(r)) && PhaseIn(Outside, a, r) == Outside
    requires NeverOutside(PhaseAfter(Outside, enter, r), b, r) && SafeJoins(Start(obj, n), a + ([enter] + b))
    ensures var s, t := Run(Start(obj, n), a), Run(Start(obj, n), a + ([enter] + b));
      && r < |t.readers| && !t.readers[r].Idle? && t.readers[r].node == s.current
      && (t.readers[r].Reading? ==> s.current !in t.freed)
  {
    var s0 := Start(obj, n);
    var s := Run(s0, a);
    RunMovesReader(s0, a, r);
    StepMovesReader(s, enter, r);
    StaysOnNode(Step(s, enter), b, r);
    RunConcat(s0, a, [enter] + b);
    assert ([enter] + b)[1..] == b;
    FreedHaveNoReaders(obj, n, a + ([enter] + b));
    hide Step, AllCounted, SafeJoins, NeverOutside, Count;
  }

  // ---- what an update does

  /** rcu_assign_pointer: unless the object is there already, its new node becomes current and the old one retires. */
  lemma AssignPublishes(s: State, obj: int)
    requires s.lock.Unlocked? && |s.counts| == |s.objs|
    ensures var t := Run(s, [Assign(obj), Append, Publish]);
      && t.objs == s.objs + [obj] && t.counts == s.counts + [0] && t.readers == s.readers && t.freed == s.freed
      && t.lock.Unlocked?
      && (if ObjIn(s.objs + [obj], s.list, obj) then t.list == s.list && t.current == s.current
          else t.list == s.list + [s.current] && t.current == |s.objs|)
  {
    var s1 := Step(s, Assign(obj));
    var s2 := Step(s1, Append);
    assert [Assign(obj), Append, Publish][1..] == [Append, Publish] && [Append, Publish][1..] == [Publish];
    assert Run(s2, [Publish]) == Run(Step(s2, Publish), [Publish][1..]);
    assert Run(s1, [Append, Publish]) == Run(s2, [Publish]);
    hide ObjIn;
  }

  // ---- synchronize_rcu gets through

  /** What synchronize_rcu does for k nodes nobody reads: see each count at zero and free the node, then end. */
  function Drain(k: nat): seq<Op> {
    if k == 0 then [Check] else [Check, Free] + Drain(k - 1)
  }

  /** It waits for a node exactly while some reader is on it. */
  lemma {:induction false} WaitsIff(s: State)
    requires Inv(s) && s.lock.Waiting? && s.lock.at < |s.list|
    ensures Step(s, Check) == s <==> exists r :: 0 <= r < |s.readers| && s.readers[r] == Reading(s.list[s.lock.at])
    ensures Step(s, Check) != s ==> Step(s, Check) == s.(lock := Freeing(s.lock.at))
  {
    var n := s.list[s.lock.at];
    assert s.list[Past(s)..][0] == n;
    assert n in Published(s);
    assert s.counts[n] == Count(s.readers, n);
    if r :| 0 <= r < |s.readers| && s.readers[r] == Reading(n) {
      CountPositive(s.readers, r, n);
    } else {
      CountNone(s.readers, n);
    }
  }

  lemma {:induction false} DrainFrees(s: State)
    requires s.lock.Waiting? && s.lock.at <= |s.list|
    requires forall j :: s.lock.at <= j < |s.list| ==> s.list[j] < |s.counts| && s.counts[s.list[j]] == 0
    ensures Run(s, Drain(|s.list| - s.lock.at)) ==
      s.(freed := s.freed + s.list[s.lock.at..], list := [], lock := Unlocked)
    decreases |s.list| - s.lock.at
  {
    var k := |s.list| - s.lock.at;
    if k == 0 {
      assert Run(s, [Check]) == Run(Step(s, Check), [Check][1..]);
    } else {
      var s1 := Step(s, Check);
      var s2 := Step(s1, Free);
      assert Drain(k)[1..] == [Free] + Drain(k - 1) && Drain(k)[1..][1..] == Drain(k - 1);
      DrainFrees(s2);
      assert s.list[s.lock.at..] == [s.list[s.lock.at]] + s.list[s.lock.at + 1..];
    }
  }

  /** With no reader left on a retired node, synchronize_rcu frees them all, in the order they were retired. */
  lemma {:induction false} SynchronizeFrees(s: State)
    requires Inv(s) && s.lock.Unlocked?
    requires forall r :: 0 <= r < |s.readers| && s.readers[r].Reading? ==> s.readers[r].node == s.current
    ensures Run(s, [Synchronize] + Drain(|s.list|)) == s.(freed := s.freed + s.list, list := [])
  {
    forall j | 0 <= j < |s.list| ensures s.list[j] < |s.counts| && s.counts[s.list[j]] == 0 {
      RetiredUnread(s, j);
    }
    var s1 := Step(s, Synchronize);
    assert ([Synchronize] + Drain(|s.list|))[1..] == Drain(|s.list|);
    DrainFrees(s1);
    assert s1.list[0..] == s.list;
    hide Inv;
  }

  lemma RetiredUnread(s: State, j: nat)
    requires Inv(s) && s.lock.Unlocked? && j < |s.list|
    requires forall r :: 0 <= r < |s.readers| && s.readers[r].Reading? ==> s.readers[r].node == s.current
    ensures s.list[j] < |s.counts| && s.counts[s.list[j]] == 0
  {
    var n := s.list[j];
    assert s.list[Past(s)..] == s.list;
    assert Published(s)[|s.freed| + j] == n && Published(s)[|s.freed| + |s.list|] == s.current;
    assert n in Published(s) && n != s.current;
    CountNone(s.readers, n);
    assert s.counts[n] == Count(s.readers, n);
  }
}
