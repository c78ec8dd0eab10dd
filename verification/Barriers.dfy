/** The sense-reversing centralized barrier: any number of threads, any number of episodes. */
module Barriers {

  /** Where a thread stands in barrier(): each value names what it does next. */
  datatype Pc =
    | Outside   // reverse local_sense
    | Lock      // take the lock
    | Count     // b->count++
    | Test      // compare count with n; the last one clears it, the others unlock
    | Unlock    // the last one unlocks
    | Store     // the last one stores its sense in flag
    | Spin      // wait for flag to show the sense

  /** begun and returned count the thread's calls so far. */
  datatype Thread = Thread(pc: Pc, sense: bool, begun: nat, returned: nat)

  datatype Option = None | Some(thread: nat)

  /**
    * quotas[t] is how many times thread t calls barrier. Two fields only record history: flips counts the stores to
    * flag, and last names the thread that found the episode complete, until it has stored flag.
    */
  datatype State = State(threads: seq<Thread>, quotas: seq<nat>, flag: bool, count: nat, holder: Option,
                         flips: nat, last: Option)
  {
    function N(): nat { |threads| }

    function With(t: nat, th: Thread): State
      requires t < |threads|
    {
      this.(threads := threads[t := th])
    }
  }

  /** One step of thread t, the identity when it has to wait. */
  function Step(s: State, t: nat): State
    requires |s.quotas| == s.N() && t < s.N()
  {
    var th := s.threads[t];
    match th.pc
    case Outside =>
      if th.begun < s.quotas[t] then s.With(t, Thread(Lock, !th.sense, th.begun + 1, th.returned)) else s
    case Lock =>
      if s.holder.None? then s.With(t, th.(pc := Count)).(holder := Some(t)) else s
    case Count =>
      s.With(t, th.(pc := Test)).(count := s.count + 1)
    case Test =>
      if s.count == s.N() then s.With(t, th.(pc := Unlock)).(count := 0, last := Some(t))
      else s.With(t, th.(pc := Spin)).(holder := None)
    case Unlock =>
      s.With(t, th.(pc := Store)).(holder := None)
    case Store =>
      s.With(t, th.(pc := Outside, returned := th.returned + 1)).(flag := th.sense, flips := s.flips + 1, last := None)
    case Spin =>
      if s.flag == th.sense then s.With(t, th.(pc := Outside, returned := th.returned + 1)) else s
  }

  predicate Odd(k: nat) { k % 2 == 1 }

  function Start(quotas: seq<nat>): State {
    State(seq(|quotas|, _ => Thread(Outside, false, 0, 0)), quotas, false, 0, None, 0, None)
  }

  predicate Holding(th: Thread) { th.pc.Count? || th.pc.Test? || th.pc.Unlock? }

  /** The last arrival of an episode, on its way to the store that ends it. */
  predicate Ending(th: Thread) { th.pc.Unlock? || th.pc.Store? }

  /** A thread has been counted in the episode now open. */
  predicate Arrived(th: Thread, flips: nat) {
    th.begun == flips + 1 && (th.pc.Test? || th.pc.Spin? || Ending(th))
  }

  ghost function Arrivals(s: State): set<nat> {
    set t: nat | t < s.N() && Arrived(s.threads[t], s.flips)
  }

  /** A thread is in the open episode, outside, or still to be released from the one before. */
  predicate Placed(th: Thread, flips: nat) {
    && th.sense == Odd(th.begun)
    && th.begun == (if th.pc.Outside? then th.returned else th.returned + 1)
    && (th.returned == flips || (th.pc.Spin? && th.returned + 1 == flips))
  }

  predicate ThreadInv(th: Thread, t: nat, flips: nat, holder: Option, last: Option) {
    && Placed(th, flips)
    && (Holding(th) <==> holder == Some(t))
    && (Ending(th) <==> last == Some(t))
    && (last.Some? && !Ending(th) ==> th.pc.Spin? && th.returned == flips)
  }

  ghost predicate ThreadsInv(s: State) {
    forall t: nat {:trigger s.threads[t]} :: t < s.N() ==> ThreadInv(s.threads[t], t, s.flips, s.holder, s.last)
  }

  ghost predicate WithinQuotas(s: State)
    requires |s.quotas| == s.N()
  {
    forall t: nat {:trigger s.threads[t]} :: t < s.N() ==> s.threads[t].begun <= s.quotas[t]
  }

  /** When everyone has been counted, the thread that made the count complete is about to test it. */
  ghost predicate Inv(s: State) {
    && |s.quotas| == s.N() && s.flag == Odd(s.flips)
    && ThreadsInv(s)
    && (s.holder.Some? ==> s.holder.thread < s.N())
    && (s.last.Some? ==> s.last.thread < s.N())
    && (s.count == if s.last.None? then |Arrivals(s)| else 0)
    && (s.N() > 0 && s.count == s.N() ==> s.holder.Some? && s.threads[s.holder.thread].pc.Test?)
    && WithinQuotas(s)
  }

  ghost function Ids(n: nat): (ids: set<nat>)
    ensures |ids| == n
    ensures forall t: nat :: t in ids <==> t < n
  {
    if n == 0 then {} else Ids(n - 1) + {n - 1}
  }

  lemma Within(a: set<nat>, b: set<nat>)
    requires a <= b
    ensures |a| <= |b|
  {
    if a != {} {
      var x :| x in a;
      Within(a - {x}, b - {x});
    }
  }

  lemma StartInv(quotas: seq<nat>)
    ensures Inv(Start(quotas))
  {
  }

  lemma AllArrived(s: State)
    requires |Arrivals(s)| >= s.N()
    ensures forall t: nat :: t < s.N() ==> Arrived(s.threads[t], s.flips)
  {
    forall t: nat | t < s.N() ensures Arrived(s.threads[t], s.flips) {
      if t !in Arrivals(s) {
        Within(Arrivals(s), Ids(s.N()) - {t});
      }
    }
  }

  /** A step of thread t within an episode moves no other thread in or out of the arrivals. */
  lemma ArrivalsMove(s: State, t: nat)
    requires |s.quotas| == s.N() && t < s.N() && Step(s, t).flips == s.flips
    ensures var r := Step(s, t);
      Arrivals(r) == Arrivals(s) - {t} + if Arrived(r.threads[t], r.flips) then {t} else {}
  {
  }

  lemma StoreEmpties(s: State, t: nat)
    requires Inv(s) && t < s.N() && s.threads[t].pc.Store?
    ensures Arrivals(Step(s, t)) == {}
  {
  }

  lemma OfThread(s: State, t: nat)
    requires ThreadsInv(s) && t < s.N()
    ensures ThreadInv(s.threads[t], t, s.flips, s.holder, s.last)
  {
  }

  /** Counting is what makes an arrival; up to the store nothing unmakes it. */
  lemma CountArrives(s: State, t: nat)
    requires Inv(s) && t < s.N() && !s.threads[t].pc.Store?
    ensures var r := Step(s, t); r.flips == s.flips && r.N() == s.N()
    ensures Arrived(Step(s, t).threads[t], s.flips) <==> Arrived(s.threads[t], s.flips) || s.threads[t].pc.Count?
    ensures s.threads[t].pc.Count? ==> !Arrived(s.threads[t], s.flips)
  {
    hide ThreadsInv;
    OfThread(s, t);
  }

  lemma CountAdds(s: State, t: nat)
    requires Inv(s) && t < s.N() && !s.threads[t].pc.Store?
    ensures |Arrivals(Step(s, t))| == |Arrivals(s)| + if s.threads[t].pc.Count? then 1 else 0
  {
    hide ThreadsInv, Step, Arrived;
    CountArrives(s, t);
    ArrivalsMove(s, t);
    assert t in Arrivals(s) <==> Arrived(s.threads[t], s.flips);
    assert Arrivals(Step(s, t)) == if s.threads[t].pc.Count? then Arrivals(s) + {t} else Arrivals(s);
  }

  /** Before the test finds the episode complete, every arrival is counted; then all threads have arrived. */
  lemma StepCounts(s: State, t: nat)
    requires Inv(s) && t < s.N()
    ensures var r := Step(s, t); r.count == if r.last.None? then |Arrivals(r)| else 0
    ensures Step(s, t).last != s.last && Step(s, t).last.Some? ==>
      forall u: nat :: u < s.N() ==> Arrived(s.threads[u], s.flips)
  {
    hide ThreadsInv, Arrivals, Arrived;
    OfThread(s, t);
    if s.threads[t].pc.Store? {
      StoreEmpties(s, t);
    } else {
      CountAdds(s, t);
      if s.threads[t].pc.Test? && s.count == s.N() {
        AllArrived(s);
      }
    }
  }

  lemma StepKeepsThread(s: State, t: nat, u: nat)
    requires Inv(s) && t < s.N() && u < s.N()
    requires Step(s, t).last != s.last && Step(s, t).last.Some? ==> Arrived(s.threads[u], s.flips)
    ensures var r := Step(s, t); ThreadInv(r.threads[u], u, r.flips, r.holder, r.last)
  {
    hide Arrivals, ThreadsInv, WithinQuotas;
    OfThread(s, t);
    OfThread(s, u);
  }

  lemma StepKeepsQuota(s: State, t: nat, u: nat)
    requires Inv(s) && t < s.N() && u < s.N()
    ensures Step(s, t).threads[u].begun <= s.quotas[u]
  {
    hide Arrivals, ThreadsInv;
    assert s.threads[u].begun <= s.quotas[u];
  }

  lemma StepKeepsTest(s: State, t: nat)
    requires Inv(s) && t < s.N()
    ensures var r := Step(s, t);
      && r.flag == Odd(r.flips)
      && (r.holder.Some? ==> r.holder.thread < r.N()) && (r.last.Some? ==> r.last.thread < r.N())
      && (r.N() > 0 && r.count == r.N() ==> r.holder.Some? && r.threads[r.holder.thread].pc.Test?)
  {
    hide Arrivals, ThreadsInv, WithinQuotas;
    StepCounts(s, t);
    OfThread(s, t);
    if s.threads[t].pc.Store? { StoreEmpties(s, t); }
  }

  lemma {:induction false} StepKeepsInv(s: State, t: nat)
    requires Inv(s) && t < s.N()
    ensures Inv(Step(s, t))
  {
    hide Arrivals, ThreadInv;
    StepCounts(s, t);
    StepShortens(s, t);
    var r := Step(s, t);
    forall u: nat | u < s.N()
      ensures r.threads[u].begun <= s.quotas[u] && ThreadInv(r.threads[u], u, r.flips, r.holder, r.last)
    {
      StepKeepsQuota(s, t, u);
      StepKeepsThread(s, t, u);
    }
    StepKeepsTest(s, t);
  }

  predicate Names(schedule: seq<nat>, n: nat) {
    forall i :: 0 <= i < |schedule| ==> schedule[i] < n
  }

  function Run(s: State, schedule: seq<nat>): (r: State)
    requires |s.quotas| == s.N() && Names(schedule, s.N())
    ensures r.quotas == s.quotas && r.N() == s.N()
    decreases |schedule|
  {
    if schedule == [] then s else Run(Step(s, schedule[0]), schedule[1..])
  }

  lemma {:induction false} RunKeepsInv(s: State, schedule: seq<nat>)
    requires Inv(s) && Names(schedule, s.N())
    ensures Inv(Run(s, schedule))
    decreases |schedule|
  {
    hide ThreadsInv, Arrivals, WithinQuotas;
    if schedule != [] {
      StepKeepsInv(s, schedule[0]);
      RunKeepsInv(Step(s, schedule[0]), schedule[1..]);
    }
  }

  /**
    * In every run no thread returns from its k-th call before all have begun theirs, and the threads' episodes
    * differ by at most one.
    */
  lemma {:induction false} NoneLeavesEarly(quotas: seq<nat>, schedule: seq<nat>, t: nat, u: nat, k: nat)
    requires t < |quotas| && u < |quotas| && Names(schedule, |quotas|)
    ensures var r := Run(Start(quotas), schedule);
      && (r.threads[t].returned >= k ==> r.threads[u].begun >= k)
      && r.threads[t].returned <= r.threads[u].returned + 1
      && r.threads[t].begun <= r.threads[u].begun + 1
  {
    hide Step, Arrivals;
    StartInv(quotas);
    RunKeepsInv(Start(quotas), schedule);
    var r := Run(Start(quotas), schedule);
    OfThread(r, t);
    OfThread(r, u);
  }

  /**
    * A store to flag always reverses it, and when it comes every other thread spins in the episode it ends: none is
    * still to be released from the one before.
    */
  lemma {:induction false} FlipWaitsForAll(s: State, t: nat, u: nat)
    requires Inv(s) && t < s.N() && u < s.N() && s.threads[t].pc.Store?
    ensures Step(s, t).flag != s.flag
    ensures s.threads[u].returned == s.flips && s.threads[u].begun == s.flips + 1
    ensures u != t ==> s.threads[u].pc.Spin? && s.threads[u].sense != s.flag && s.threads[u].sense == Step(s, t).flag
  {
  }

  lemma OnlyTheLastFlips(s: State, t: nat)
    requires |s.quotas| == s.N() && t < s.N() && Step(s, t).flag != s.flag
    ensures s.threads[t].pc.Store?
  {
  }

  /** Steps thread th has left: at most seven in a call, and one more to count for each call still to begin. */
  function Left(th: Thread, quota: nat): nat {
    8 * (if th.begun < quota then quota - th.begun else 0) +
    match th.pc
    case Outside => 0
    case Lock => 6
    case Count => 5
    case Test => 4
    case Unlock => 3
    case Store => 2
    case Spin => 1
  }

  function Measure(threads: seq<Thread>, quotas: seq<nat>): nat
    requires |threads| == |quotas|
  {
    if threads == [] then 0
    else
      var n := |threads| - 1;
      Left(threads[n], quotas[n]) + Measure(threads[..n], quotas[..n])
  }

  lemma {:induction false} MeasureUpdate(threads: seq<Thread>, quotas: seq<nat>, t: nat, th: Thread)
    requires |threads| == |quotas| && t < |threads|
    ensures Measure(threads[t := th], quotas)
      == Measure(threads, quotas) - Left(threads[t], quotas[t]) + Left(th, quotas[t])
  {
    var n := |threads| - 1;
    if t == n {
      assert threads[t := th][..n] == threads[..n];
    } else {
      MeasureUpdate(threads[..n], quotas[..n], t, th);
      assert threads[t := th][..n] == threads[..n][t := th];
    }
  }

  lemma StepShortens(s: State, t: nat)
    requires |s.quotas| == s.N() && t < s.N()
    ensures Step(s, t).threads == s.threads[t := Step(s, t).threads[t]] && Step(s, t).quotas == s.quotas
    ensures Step(s, t) != s ==> Left(Step(s, t).threads[t], s.quotas[t]) < Left(s.threads[t], s.quotas[t])
  {
  }

  /** Every step that is not waiting brings the end of the run nearer. */
  lemma {:induction false} StepsDecrease(s: State, t: nat)
    requires |s.quotas| == s.N() && t < s.N()
    ensures Step(s, t) != s ==> Measure(Step(s, t).threads, s.quotas) < Measure(s.threads, s.quotas)
  {
    StepShortens(s, t);
    MeasureUpdate(s.threads, s.quotas, t, Step(s, t).threads[t]);
  }

  ghost predicate Done(s: State)
    requires |s.quotas| == s.N()
  {
    forall t: nat {:trigger s.threads[t]} :: t < s.N() ==> s.threads[t].returned == s.quotas[t]
  }

  /** All threads are through with their first m calls. */
  ghost predicate Through(s: State, m: nat) {
    forall t: nat {:trigger s.threads[t]} :: t < s.N() ==> s.threads[t].returned >= m
  }

  /** All threads make at least m calls: the first m episodes are the ones all of them enter. */
  ghost predicate AllEnter(s: State, m: nat)
    requires |s.quotas| == s.N()
  {
    forall t: nat {:trigger s.quotas[t]} :: t < s.N() ==> s.quotas[t] >= m
  }

  ghost predicate Waiting(s: State, t: nat)
    requires |s.quotas| == s.N() && t < s.N()
  {
    Step(s, t) == s
  }

  lemma MustMove(s: State, t: nat)
    requires Inv(s) && t < s.N() && (s.holder == Some(t) || s.last == Some(t))
    ensures !Waiting(s, t)
  {
  }

  /** If all threads wait, none holds the lock, wants it or has a flag to store: they spin or are outside. */
  lemma AllWaiting(s: State)
    requires Inv(s) && forall t: nat :: t < s.N() ==> Waiting(s, t)
    ensures s.holder.None? && s.last.None?
    ensures forall t: nat {:trigger s.threads[t]} :: t < s.N() ==>
      if s.threads[t].pc.Spin? then s.threads[t].returned == s.flips
      else s.threads[t].pc.Outside? && s.threads[t].begun == s.quotas[t]
  {
    hide Arrivals;
    if s.holder.Some? { MustMove(s, s.holder.thread); }
    if s.last.Some? { MustMove(s, s.last.thread); }
    forall t: nat | t < s.N()
      ensures if s.threads[t].pc.Spin? then s.threads[t].returned == s.flips
        else s.threads[t].pc.Outside? && s.threads[t].begun == s.quotas[t]
    {
      assert Waiting(s, t);
      OfThread(s, t);
      assert s.threads[t].begun <= s.quotas[t];
    }
  }

  /** No deadlock: while an episode that all threads enter is unfinished, some thread need not wait. */
  lemma {:induction false} SomeThreadMoves(s: State, m: nat) returns (t: nat)
    requires Inv(s) && AllEnter(s, m) && !Through(s, m)
    ensures t < s.N() && !Waiting(s, t)
  {
    if forall u: nat :: u < s.N() ==> Waiting(s, u) {
      AllWaiting(s);
      StuckIsThrough(s, m);
      assert false;
    }
    t :| t < s.N() && !Waiting(s, t);
  }

  lemma AllCounted(s: State)
    requires forall u: nat {:trigger s.threads[u]} :: u < s.N() ==> Arrived(s.threads[u], s.flips)
    ensures |Arrivals(s)| == s.N()
  {
    assert Arrivals(s) == Ids(s.N());
  }

  /** Threads that only spin or stay outside are through: a spinner's episode would have been completed. */
  lemma StuckIsThrough(s: State, m: nat)
    requires Inv(s) && AllEnter(s, m) && s.last.None? && s.holder.None?
    requires forall t: nat {:trigger s.threads[t]} :: t < s.N() ==>
      if s.threads[t].pc.Spin? then s.threads[t].returned == s.flips
      else s.threads[t].pc.Outside? && s.threads[t].begun == s.quotas[t]
    ensures Through(s, m)
  {
    hide Arrivals;
    forall t: nat | t < s.N() ensures s.threads[t].returned >= m {
      OfThread(s, t);
      if s.threads[t].pc.Spin? && s.threads[t].returned < m {
        forall u: nat | u < s.N() ensures Arrived(s.threads[u], s.flips) {
          OfThread(s, u);
          assert s.quotas[u] >= m;
        }
        AllCounted(s);
        assert false;
      }
    }
  }

  /** A round lets every thread move at least once, in any order. */
  predicate EachIn(schedule: seq<nat>, n: nat) {
    forall t: nat :: t < n ==> t in schedule
  }

  lemma {:induction false} RunNeverGrows(s: State, schedule: seq<nat>)
    requires |s.quotas| == s.N() && Names(schedule, s.N())
    ensures Measure(Run(s, schedule).threads, s.quotas) <= Measure(s.threads, s.quotas)
    decreases |schedule|
  {
    hide Left, Measure;
    if schedule != [] {
      StepsDecrease(s, schedule[0]);
      RunNeverGrows(Step(s, schedule[0]), schedule[1..]);
    }
  }

  lemma {:induction false} RunShortens(s: State, schedule: seq<nat>, t: nat)
    requires |s.quotas| == s.N() && Names(schedule, s.N()) && t < s.N()
    requires t in schedule && !Waiting(s, t)
    ensures Measure(Run(s, schedule).threads, s.quotas) < Measure(s.threads, s.quotas)
    decreases |schedule|
  {
    hide Left, Measure;
    if Waiting(s, schedule[0]) {
      assert t in schedule[1..];
      RunShortens(s, schedule[1..], t);
    } else {
      StepsDecrease(s, schedule[0]);
      RunNeverGrows(Step(s, schedule[0]), schedule[1..]);
    }
  }

  function Rounds(s: State, rounds: seq<seq<nat>>): (r: State)
    requires |s.quotas| == s.N() && forall i {:trigger rounds[i]} :: 0 <= i < |rounds| ==> Names(rounds[i], s.N())
    ensures r.quotas == s.quotas && r.N() == s.N()
    decreases |rounds|
  {
    if rounds == [] then s else Rounds(Run(s, rounds[0]), rounds[1..])
  }

  lemma {:induction false} RunReturns(s: State, schedule: seq<nat>, t: nat)
    requires |s.quotas| == s.N() && Names(schedule, s.N()) && t < s.N()
    ensures Run(s, schedule).threads[t].returned >= s.threads[t].returned
    decreases |schedule|
  {
    if schedule != [] {
      RunReturns(Step(s, schedule[0]), schedule[1..], t);
    }
  }

  lemma {:induction false} ThroughStays(s: State, m: nat, rounds: seq<seq<nat>>)
    requires |s.quotas| == s.N() && Through(s, m)
    requires forall i {:trigger rounds[i]} :: 0 <= i < |rounds| ==> Names(rounds[i], s.N())
    ensures Through(Rounds(s, rounds), m)
    decreases |rounds|
  {
    if rounds != [] {
      forall t: nat | t < s.N() ensures Run(s, rounds[0]).threads[t].returned >= m {
        RunReturns(s, rounds[0], t);
      }
      ThroughStays(Run(s, rounds[0]), m, rounds[1..]);
    }
  }

  lemma {:induction false} RoundsKeepInv(s: State, rounds: seq<seq<nat>>)
    requires Inv(s) && forall i {:trigger rounds[i]} :: 0 <= i < |rounds| ==> Names(rounds[i], s.N())
    ensures Inv(Rounds(s, rounds))
    decreases |rounds|
  {
    if rounds != [] {
      RunKeepsInv(s, rounds[0]);
      RoundsKeepInv(Run(s, rounds[0]), rounds[1..]);
    }
  }

  /**
    * Every fair run completes every episode that all threads enter: once each thread has had enough turns, all have
    * returned from their first m calls, whatever further calls some of them make.
    */
  lemma {:induction false} FairRunsComplete(s: State, m: nat, rounds: seq<seq<nat>>)
    requires Inv(s) && AllEnter(s, m)
    requires forall i {:trigger rounds[i]} :: 0 <= i < |rounds| ==> Names(rounds[i], s.N())
    requires forall i {:trigger rounds[i]} :: 0 <= i < |rounds| ==> EachIn(rounds[i], s.N())
    requires |rounds| >= Measure(s.threads, s.quotas)
    ensures Through(Rounds(s, rounds), m)
    decreases |rounds|
  {
    if Through(s, m) {
      ThroughStays(s, m, rounds);
    } else {
      var t := SomeThreadMoves(s, m);
      StepsDecrease(s, t);
      RunKeepsInv(s, rounds[0]);
      RunShortens(s, rounds[0], t);
      FairRunsComplete(Run(s, rounds[0]), m, rounds[1..]);
    }
  }

  /** When all threads make equally many calls, every fair run ends with all of them returned from all their calls. */
  lemma {:induction false} EqualRunsFinish(s: State, m: nat, rounds: seq<seq<nat>>)
    requires Inv(s) && forall t: nat {:trigger s.quotas[t]} :: t < s.N() ==> s.quotas[t] == m
    requires forall i {:trigger rounds[i]} :: 0 <= i < |rounds| ==> Names(rounds[i], s.N())
    requires forall i {:trigger rounds[i]} :: 0 <= i < |rounds| ==> EachIn(rounds[i], s.N())
    requires |rounds| >= Measure(s.threads, s.quotas)
    ensures Done(Rounds(s, rounds))
  {
    hide Measure, EachIn, Names, Arrivals, Rounds;
    FairRunsComplete(s, m, rounds);
    RoundsKeepInv(s, rounds);
    RoundsShape(s, rounds);
    var r := Rounds(s, rounds);
    forall t: nat | t < s.N() ensures r.threads[t].returned == m {
      OfThread(r, t);
      assert r.threads[t].begun <= r.quotas[t];
    }
  }

  lemma RoundsShape(s: State, rounds: seq<seq<nat>>)
    requires |s.quotas| == s.N() && forall i {:trigger rounds[i]} :: 0 <= i < |rounds| ==> Names(rounds[i], s.N())
    ensures Rounds(s, rounds).quotas == s.quotas && Rounds(s, rounds).N() == s.N()
  {
  }
}
