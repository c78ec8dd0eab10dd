/** The tick-based transactions of tsm.h, driven by any number of threads running the retry loop of test_tsm.c. */
module Transactions {

  /** Where a thread stands in work(); k is its local key, began and committed are moments of the run. */
  datatype Thread =
    | Begin                                         // k = begin_tsm(&tsm)
    | Write(k: nat, began: nat)                     // data = pthread_self()
    | Commit(k: nat, began: nat)                    // commit_tsm(&tsm, k), retry when it fails
    | Done(k: nat, began: nat, committed: nat)

  /** data holds a thread number, -1 before the first write; clock counts the steps of the run. */
  datatype State = State(threads: seq<Thread>, tick: nat, data: int, clock: nat)

  /** begin_tsm fetches and adds in one step; commit_tsm is one load. */
  function Step(s: State, t: nat): (r: State)
    requires t < |s.threads|
    ensures |r.threads| == |s.threads|
  {
    var r := s.(clock := s.clock + 1);
    match s.threads[t]
    case Begin => r.(threads := s.threads[t := Write(s.tick, s.clock)], tick := s.tick + 1)
    case Write(k, began) => r.(threads := s.threads[t := Commit(k, began)], data := t)
    case Commit(k, began) =>
      if s.tick == k + 1 then r.(threads := s.threads[t := Done(k, began, s.clock)])
      else r.(threads := s.threads[t := Begin])
    case Done(_, _, _) => r
  }

  predicate Names(schedule: seq<nat>, n: nat) {
    forall i :: 0 <= i < |schedule| ==> schedule[i] < n
  }

  function Run(s: State, schedule: seq<nat>): (r: State)
    requires Names(schedule, |s.threads|)
    ensures |r.threads| == |s.threads|
    decreases |schedule|
  {
    if schedule == [] then s else Run(Step(s, schedule[0]), schedule[1..])
  }

  function Start(n: nat): State {
    State(seq(n, _ => Begin), 0, -1, 0)
  }

  predicate Timely(th: Thread, tick: nat, clock: nat) {
    th.Begin? || (th.k < tick && th.began < clock && (th.Done? ==> th.began < th.committed < clock))
  }

  /** Keys are handed out in order of time, and none is handed out between a key and its commit. */
  predicate Apart(a: Thread, b: Thread) {
    !a.Begin? && !b.Begin? ==>
      && a.k != b.k
      && (a.k < b.k ==> a.began < b.began && (a.Done? ==> a.committed < b.began))
  }

  /** The thread that began last holds the newest key; its write stands unless another thread must still retry. */
  ghost predicate Newest(s: State, t: nat)
    requires t < |s.threads|
  {
    var th := s.threads[t];
    && !th.Begin? && th.k + 1 == s.tick
    && (th.Write? || s.data == t || exists u: nat :: u < |s.threads| && u != t && !s.threads[u].Done?)
  }

  ghost predicate Inv(s: State) {
    && (forall t: nat {:trigger s.threads[t]} :: t < |s.threads| ==> Timely(s.threads[t], s.tick, s.clock))
    && (forall t: nat, u: nat {:trigger s.threads[t], s.threads[u]} :: t < |s.threads| && u < |s.threads| && t != u ==>
          Apart(s.threads[t], s.threads[u]))
    && (s.tick > 0 ==> exists t: nat :: t < |s.threads| && Newest(s, t))
    && (s.tick == 0 ==> forall t: nat {:trigger s.threads[t]} :: t < |s.threads| ==> s.threads[t].Begin?)
  }

  lemma NewestStays(s: State, t: nat, m: nat)
    requires Inv(s) && t < |s.threads| && !s.threads[t].Begin? && m < |s.threads| && Newest(s, m)
    ensures Newest(Step(s, t), m)
  {
    var r := Step(s, t);
    assert t != m ==> Apart(s.threads[t], s.threads[m]);
    if t != m && !s.threads[t].Done? {
      assert !r.threads[t].Done?;
    } else if !s.threads[m].Write? && s.data != m {
      var u: nat :| u < |s.threads| && u != m && !s.threads[u].Done?;
      assert !r.threads[u].Done?;
    }
  }

  lemma {:induction false} StepKeepsNewest(s: State, t: nat)
    requires Inv(s) && t < |s.threads|
    ensures var r := Step(s, t); r.tick > 0 ==> exists u: nat :: u < |r.threads| && Newest(r, u)
  {
    var r := Step(s, t);
    if s.threads[t].Begin? {
      assert Newest(r, t);
    } else {
      var m: nat :| m < |s.threads| && Newest(s, m);
      NewestStays(s, t, m);
    }
  }

  lemma {:induction false} StepKeepsInv(s: State, t: nat)
    requires Inv(s) && t < |s.threads|
    ensures Inv(Step(s, t))
  {
    StepKeepsNewest(s, t);
    hide Newest;
  }

  lemma {:induction false} RunKeepsInv(s: State, schedule: seq<nat>)
    requires Inv(s) && Names(schedule, |s.threads|)
    ensures Inv(Run(s, schedule))
    decreases |schedule|
  {
    hide Inv;
    if schedule != [] {
      StepKeepsInv(s, schedule[0]);
      RunKeepsInv(Step(s, schedule[0]), schedule[1..]);
    }
  }

  /** In every run the transactions that commit have disjoint intervals from begin to commit, in key order. */
  lemma {:induction false} CommittedAreDisjoint(n: nat, schedule: seq<nat>, t: nat, u: nat)
    requires Names(schedule, n) && t < n && u < n && t != u
    requires var r := Run(Start(n), schedule);
      r.threads[t].Done? && r.threads[u].Done? && r.threads[t].k <= r.threads[u].k
    ensures var r := Run(Start(n), schedule);
      r.threads[t].began < r.threads[t].committed < r.threads[u].began < r.threads[u].committed
  {
    hide Step;
    RunKeepsInv(Start(n), schedule);
    var r := Run(Start(n), schedule);
    assert Apart(r.threads[t], r.threads[u]) && Apart(r.threads[u], r.threads[t]);
    assert Timely(r.threads[t], r.tick, r.clock) && Timely(r.threads[u], r.tick, r.clock);
  }

  /** In every run in which all threads return, data ends as the thread whose committed key is greatest. */
  lemma {:induction false} DataIsGreatestKeys(n: nat, schedule: seq<nat>, t: nat)
    requires Names(schedule, n) && t < n
    requires var r := Run(Start(n), schedule);
      && (forall u: nat :: u < n ==> r.threads[u].Done?)
      && (forall u: nat :: u < n ==> r.threads[u].k <= r.threads[t].k)
    ensures Run(Start(n), schedule).data == t
  {
    hide Step;
    RunKeepsInv(Start(n), schedule);
    var r := Run(Start(n), schedule);
    assert Timely(r.threads[t], r.tick, r.clock);
    var m: nat :| m < n && Newest(r, m);
    assert m != t ==> Apart(r.threads[t], r.threads[m]);
    assert r.threads[m].k <= r.threads[t].k;
  }

  // ---- which commits succeed

  /** How many transactions begin in the course of a schedule. */
  function Begins(s: State, schedule: seq<nat>): nat
    requires Names(schedule, |s.threads|)
    decreases |schedule|
  {
    if schedule == [] then 0
    else (if s.threads[schedule[0]].Begin? then 1 else 0) + Begins(Step(s, schedule[0]), schedule[1..])
  }

  lemma {:induction false} TickCountsBegins(s: State, schedule: seq<nat>)
    requires Names(schedule, |s.threads|)
    ensures Run(s, schedule).tick == s.tick + Begins(s, schedule)
    decreases |schedule|
  {
    if schedule != [] {
      TickCountsBegins(Step(s, schedule[0]), schedule[1..]);
    }
  }

  /**
    * A thread that has just begun, and after any schedule is about to commit what it began, succeeds iff no transaction
    * began meanwhile; otherwise it starts again.
    */
  lemma {:induction false} CommitsIff(s: State, t: nat, schedule: seq<nat>)
    requires t < |s.threads| && s.threads[t].Begin? && Names(schedule, |s.threads|)
    requires var r := Run(Step(s, t), schedule); r.threads[t].Commit? && r.threads[t].k == s.tick
    ensures var r := Run(Step(s, t), schedule);
      && (Step(r, t).threads[t].Done? <==> Begins(Step(s, t), schedule) == 0)
      && (Step(r, t).threads[t].Begin? <==> Begins(Step(s, t), schedule) > 0)
  {
    TickCountsBegins(Step(s, t), schedule);
  }

  /** A thread left alone returns: it retries at most once, and then its key is the newest. */
  lemma {:induction false} AloneReturns(s: State, t: nat)
    requires t < |s.threads|
    ensures Names([t, t, t, t, t], |s.threads|) && Run(s, [t, t, t, t, t]).threads[t].Done?
    ensures s.threads[t].Begin? ==> var r := Run(s, [t, t, t, t, t]);
      r.threads[t].k == s.tick && r.tick == s.tick + 1 && r.data == t
  {
    FiveSteps(s, t);
  }

  lemma FiveSteps(s: State, t: nat)
    requires t < |s.threads|
    ensures Names([t, t, t, t, t], |s.threads|)
    ensures Run(s, [t, t, t, t, t]) == Step(Step(Step(Step(Step(s, t), t), t), t), t)
  {
    hide Step;
    var s1 := Step(s, t);
    var s2 := Step(s1, t);
    var s3 := Step(s2, t);
    var s4 := Step(s3, t);
    assert [t, t, t, t, t][1..] == [t, t, t, t] && [t, t, t, t][1..] == [t, t, t] && [t, t, t][1..] == [t, t];
    assert [t, t][1..] == [t] && [t][1..] == [];
    assert Run(s4, [t]) == Run(Step(s4, t), []);
    assert Run(s2, [t, t, t]) == Run(s3, [t, t]) == Run(s4, [t]);
  }

  /** What is not promised: the write of a thread that will retry can land between another's write and its commit. */
  lemma AbortedWriteLandsBetween()
    ensures var r := Run(Start(2), [0, 1, 1, 0, 1]);
      r.threads[1].Done? && r.threads[0].Commit? && r.tick != r.threads[0].k + 1 && r.data == 0
  {
  }

  /** If t is about to make a commit of key k that will succeed, data is its own. */
  predicate CommitsOwn(s: State, t: nat, k: nat)
    requires t < |s.threads|
  {
    s.threads[t].Commit? && s.threads[t].k == k && s.tick == k + 1 ==> s.data == t
  }

  ghost predicate AlwaysCommitsOwn(s: State, t: nat, k: nat)
    requires t < |s.threads|
  {
    forall schedule: seq<nat> :: Names(schedule, |s.threads|) ==> CommitsOwn(Run(s, schedule), t, k)
  }

  ghost predicate OnlyWriter(s: State, t: nat) {
    forall u: nat {:trigger s.threads[u]} :: u < |s.threads| && u != t ==> !s.threads[u].Write?
  }

  /** While k is the newest key and t holds it, nobody else is about to write, and a write of t stands. */
  ghost predicate Undisturbed(s: State, t: nat, k: nat)
    requires t < |s.threads|
  {
    var th := s.threads[t];
    && s.tick >= k + 1
    && (s.tick == k + 1 && (th.Write? || th.Commit?) && th.k == k ==> OnlyWriter(s, t) && (th.Commit? ==> s.data == t))
  }

  lemma {:induction false} UndisturbedCommits(s: State, t: nat, k: nat, schedule: seq<nat>)
    requires t < |s.threads| && Undisturbed(s, t, k) && Names(schedule, |s.threads|)
    ensures CommitsOwn(Run(s, schedule), t, k)
    decreases |schedule|
  {
    if schedule != [] {
      UndisturbedCommits(Step(s, schedule[0]), t, k, schedule[1..]);
    }
  }

  /** Letting t write and then u leaves the data of u under a commit of t that will succeed. */
  lemma WriteLandsBetween(s: State, t: nat, u: nat, k: nat)
    requires t < |s.threads| && u < |s.threads| && t != u && s.tick == k + 1
    requires s.threads[t].Write? && s.threads[t].k == k && s.threads[u].Write?
    ensures Names([t, u], |s.threads|) && !CommitsOwn(Run(s, [t, u]), t, k)
  {
    var s1 := Step(s, t);
    assert [t, u][1..] == [u] && [u][1..] == [];
    assert Run(s1, [u]) == Run(Step(s1, u), []);
    assert Run(s, [t, u]) == Step(s1, u);
  }

  /**
    * Exactly when a transaction is isolated: from the moment t has begun with the newest key, every commit of that key
    * that succeeds finds the data of t, however the run goes on, iff no other thread is about to write.
    */
  lemma {:induction false} IsolatedIff(s: State, t: nat, k: nat)
    requires t < |s.threads| && s.threads[t].Write? && s.threads[t].k == k && s.tick == k + 1
    ensures AlwaysCommitsOwn(s, t, k) <==> OnlyWriter(s, t)
  {
    if OnlyWriter(s, t) {
      forall schedule: seq<nat> | Names(schedule, |s.threads|) ensures CommitsOwn(Run(s, schedule), t, k) {
        UndisturbedCommits(s, t, k, schedule);
      }
    } else {
      var u: nat :| u < |s.threads| && u != t && s.threads[u].Write?;
      WriteLandsBetween(s, t, u, k);
    }
  }
}
