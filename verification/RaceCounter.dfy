/**
 * Threads that increment a shared counter without a lock: the exact set of values the counter can end with.
 * One move is one load, one local increment or one store; loads and stores are sequentially consistent.
 */
module RaceCounter {

  datatype Pc = Load | Add | Store

  /** i: finished iterations; local: the thread's copy of the counter. */
  datatype Thread = Thread(i: nat, pc: Pc, local: int)

  datatype State = State(counter: int, threads: seq<Thread>)

  function Init(n: nat): State {
    State(0, seq(n, _ => Thread(0, Load, 0)))
  }

  predicate Enabled(s: State, m: nat, t: nat) {
    t < |s.threads| && (s.threads[t].pc.Load? ==> s.threads[t].i < m)
  }

  function Step(s: State, t: nat): State
    requires t < |s.threads|
  {
    var th := s.threads[t];
    match th.pc
    case Load => s.(threads := s.threads[t := Thread(th.i, Add, s.counter)])
    case Add => s.(threads := s.threads[t := Thread(th.i, Store, th.local + 1)])
    case Store => State(th.local, s.threads[t := Thread(th.i + 1, Load, th.local)])
  }

  /** schedule names the thread that moves, move by move. */
  ghost predicate Run(s: State, m: nat, schedule: seq<nat>, r: State)
    decreases |schedule|
  {
    if schedule == [] then r == s
    else Enabled(s, m, schedule[0]) && Run(Step(s, schedule[0]), m, schedule[1..], r)
  }

  /** All threads have left their loops. */
  predicate Complete(s: State, m: nat) {
    forall t :: 0 <= t < |s.threads| ==> s.threads[t].pc.Load? && s.threads[t].i == m
  }

  /** Iterations finished by the first k threads. */
  function Finished(threads: seq<Thread>, k: nat): nat
    requires k <= |threads|
  {
    if k == 0 then 0 else Finished(threads, k - 1) + threads[k - 1].i
  }

  lemma {:induction false} FinishedUpdate(threads: seq<Thread>, t: nat, th: Thread, k: nat)
    requires t < |threads| && k <= |threads|
    ensures Finished(threads[t := th], k) == Finished(threads, k) + if t < k then th.i - threads[t].i else 0
  {
    if k > 0 {
      FinishedUpdate(threads, t, th, k - 1);
    }
  }

  // ---- bounds ----

  /** No value is ahead of the stores made, and what a thread works on after its first store is at least 1. */
  ghost predicate ThreadOk(th: Thread, m: nat, finished: nat) {
    && th.i <= m && (!th.pc.Load? ==> th.i < m)
    && (th.pc.Add? ==> (if th.i > 0 then 1 else 0) <= th.local <= finished)
    && (th.pc.Store? ==> (if th.i > 0 then 2 else 1) <= th.local <= finished + 1)
  }

  ghost predicate Inv(s: State, m: nat) {
    && 0 <= s.counter <= Finished(s.threads, |s.threads|)
    && (forall t :: 0 <= t < |s.threads| ==> ThreadOk(s.threads[t], m, Finished(s.threads, |s.threads|)))
    && (forall t :: 0 <= t < |s.threads| && s.threads[t].i > 0 ==> s.counter >= 1)
    && (Complete(s, m) && |s.threads| > 0 ==> s.counter >= 2)
  }

  lemma StepInv(s: State, m: nat, t: nat)
    requires m >= 2 && Inv(s, m) && Enabled(s, m, t)
    ensures Inv(Step(s, t), m)
  {
    var r := Step(s, t);
    FinishedUpdate(s.threads, t, r.threads[t], |s.threads|);
    var before, after := Finished(s.threads, |s.threads|), Finished(r.threads, |r.threads|);
    assert ThreadOk(s.threads[t], m, before);
    forall u | 0 <= u < |r.threads| ensures ThreadOk(r.threads[u], m, after) {
      assert ThreadOk(s.threads[u], m, before);
    }
    if Complete(r, m) {
      assert r.threads[t].i == m && s.threads[t].pc.Store?;
    }
  }

  lemma {:induction false} RunInv(s: State, m: nat, schedule: seq<nat>, r: State)
    requires m >= 2 && Inv(s, m) && Run(s, m, schedule, r)
    ensures Inv(r, m) && |r.threads| == |s.threads|
    decreases |schedule|
  {
    if schedule == [] {
    } else {
      StepInv(s, m, schedule[0]);
      RunInv(Step(s, schedule[0]), m, schedule[1..], r);
    }
  }

  lemma {:induction false} InitFinished(n: nat, k: nat)
    requires k <= n
    ensures Finished(Init(n).threads, k) == 0
  {
    if k > 0 {
      InitFinished(n, k - 1);
    }
  }

  lemma {:induction false} CompleteFinished(s: State, m: nat, k: nat)
    requires Complete(s, m) && k <= |s.threads|
    ensures Finished(s.threads, k) == k * m
  {
    if k > 0 {
      CompleteFinished(s, m, k - 1);
      assert k * m == (k - 1) * m + m;
    }
  }

  lemma OutcomeWithinBounds(n: nat, m: nat, schedule: seq<nat>, s: State)
    requires n >= 2 && m >= 2 && Run(Init(n), m, schedule, s) && Complete(s, m)
    ensures 2 <= s.counter <= n * m
  {
    InitFinished(n, n);
    assert Init(n).threads[0].i == 0;
    RunInv(Init(n), m, schedule, s);
    CompleteFinished(s, m, |s.threads|);
  }

  // ---- every value in between is reached ----

  lemma {:induction false} RunConcat(s: State, m: nat, first: seq<nat>, mid: State, second: seq<nat>, r: State)
    requires Run(s, m, first, mid) && Run(mid, m, second, r)
    ensures Run(s, m, first + second, r)
    decreases |first|
  {
    if first == [] {
      assert first + second == second;
    } else {
      RunConcat(Step(s, first[0]), m, first[1..], mid, second, r);
      assert (first + second)[1..] == first[1..] + second;
    }
  }

  lemma RunStep(s: State, m: nat, first: seq<nat>, mid: State, t: nat)
    requires Run(s, m, first, mid) && Enabled(mid, m, t)
    ensures Run(s, m, first + [t], Step(mid, t))
  {
    assert Run(Step(mid, t), m, [], Step(mid, t));
    assert [t][1..] == [];
    RunConcat(s, m, first, mid, [t], Step(mid, t));
  }

  /** Iterations that threads lo..hi still have to do. */
  function Remaining(threads: seq<Thread>, m: nat, lo: nat, hi: nat): int
    requires lo <= hi <= |threads|
    decreases hi
  {
    if lo == hi then 0 else Remaining(threads, m, lo, hi - 1) + (m - threads[hi - 1].i)
  }

  lemma {:induction false} RemainingUpdate(threads: seq<Thread>, m: nat, lo: nat, hi: nat, t: nat, th: Thread)
    requires lo <= hi <= |threads| && t < |threads|
    ensures Remaining(threads[t := th], m, lo, hi)
            == Remaining(threads, m, lo, hi) + if lo <= t < hi then threads[t].i - th.i else 0
    decreases hi
  {
    if lo < hi {
      RemainingUpdate(threads, m, lo, hi - 1, t, th);
    }
  }

  lemma {:induction false} SomeoneRemains(threads: seq<Thread>, m: nat, lo: nat, hi: nat) returns (t: nat)
    requires lo <= hi <= |threads| && Remaining(threads, m, lo, hi) > 0
    ensures lo <= t < hi && threads[t].i < m
    decreases hi
  {
    if threads[hi - 1].i < m {
      t := hi - 1;
    } else {
      t := SomeoneRemains(threads, m, lo, hi - 1);
    }
  }

  ghost predicate Resting(s: State, m: nat, lo: nat, hi: nat)
    requires lo <= hi <= |s.threads|
  {
    forall t :: lo <= t < hi ==> s.threads[t].pc.Load? && s.threads[t].i <= m
  }

  /** r is s after k undisturbed iterations by threads lo..hi. */
  ghost predicate Advanced(s: State, m: nat, lo: nat, hi: nat, k: nat, r: State)
    requires lo <= hi <= |s.threads|
  {
    && |r.threads| == |s.threads| && r.counter == s.counter + k
    && Resting(r, m, lo, hi)
    && Remaining(r.threads, m, lo, hi) == Remaining(s.threads, m, lo, hi) - k
    && forall t :: 0 <= t < |s.threads| && !(lo <= t < hi) ==> r.threads[t] == s.threads[t]
  }

  /** Threads lo..hi, all resting, can do any number k of their remaining iterations one after the other. */
  lemma {:induction false} Iterate(s: State, m: nat, lo: nat, hi: nat, k: nat) returns (schedule: seq<nat>, r: State)
    requires lo <= hi <= |s.threads| && Resting(s, m, lo, hi) && k <= Remaining(s.threads, m, lo, hi)
    ensures Run(s, m, schedule, r) && Advanced(s, m, lo, hi, k, r)
    decreases k
  {
    if k == 0 {
      schedule, r := [], s;
    } else {
      var t := SomeoneRemains(s.threads, m, lo, hi);
      var s1 := Step(s, t);
      var s2 := Step(s1, t);
      var s3 := Step(s2, t);
      assert Run(s3, m, [], s3);
      assert [t][1..] == [] && [t, t][1..] == [t] && [t, t, t][1..] == [t, t];
      assert Run(s2, m, [t], s3);
      assert Run(s1, m, [t, t], s3);
      assert Run(s, m, [t, t, t], s3);
      assert s3.threads == s.threads[t := s3.threads[t]];
      RemainingUpdate(s.threads, m, lo, hi, t, s3.threads[t]);
      var rest;
      rest, r := Iterate(s3, m, lo, hi, k - 1);
      RunConcat(s, m, [t, t, t], s3, rest, r);
      schedule := [t, t, t] + rest;
    }
  }

  lemma {:induction false} InitRemaining(n: nat, m: nat, lo: nat, hi: nat)
    requires lo <= hi <= n
    ensures Remaining(Init(n).threads, m, lo, hi) == (hi - lo) * m
    decreases hi
  {
    if lo < hi {
      InitRemaining(n, m, lo, hi - 1);
      assert (hi - lo) * m == (hi - 1 - lo) * m + m;
    }
  }

  lemma {:induction false} RemainingSplit(threads: seq<Thread>, m: nat, mid: nat, hi: nat)
    requires mid <= hi <= |threads|
    ensures Remaining(threads, m, 0, hi) == Remaining(threads, m, 0, mid) + Remaining(threads, m, mid, hi)
    decreases hi
  {
    if mid < hi {
      RemainingSplit(threads, m, mid, hi - 1);
    }
  }

  lemma {:induction false} NothingRemains(s: State, m: nat, hi: nat)
    requires hi <= |s.threads| && Resting(s, m, 0, hi) && Remaining(s.threads, m, 0, hi) <= 0
    ensures Remaining(s.threads, m, 0, hi) == 0
    ensures forall t :: 0 <= t < hi ==> s.threads[t].i == m
    decreases hi
  {
    if hi > 0 {
      RemainingNonNegative(s, m, hi - 1);
      NothingRemains(s, m, hi - 1);
    }
  }

  lemma {:induction false} RemainingNonNegative(s: State, m: nat, hi: nat)
    requires hi <= |s.threads| && Resting(s, m, 0, hi)
    ensures Remaining(s.threads, m, 0, hi) >= 0
    decreases hi
  {
    if hi > 0 {
      RemainingNonNegative(s, m, hi - 1);
    }
  }

  lemma OthersTotal(n: nat, m: nat)
    requires n >= 2 && m >= 2
    ensures (n - 1) * m >= m && n * m == (n - 1) * m + m
  {
  }

  /** Thread 0 loads the initial 0, then the others do k iterations. */
  lemma StaleLoad(n: nat, m: nat, k: nat) returns (schedule: seq<nat>, s: State)
    requires n >= 2 && m >= 2 && k <= (n - 1) * m
    ensures Run(Init(n), m, schedule, s) && |s.threads| == n
    ensures s.threads[0] == Thread(0, Add, 0)
    ensures Resting(s, m, 1, n) && Remaining(s.threads, m, 1, n) == (n - 1) * m - k
  {
    var s0 := Init(n);
    var s1 := Step(s0, 0);
    InitRemaining(n, m, 1, n);
    RemainingUpdate(s0.threads, m, 1, n, 0, s1.threads[0]);
    var others;
    others, s := Iterate(s1, m, 1, n, k);
    assert Run(s0, m, [], s0);
    RunStep(s0, m, [], s0, 0);
    schedule := [] + [0] + others;
    RunConcat(s0, m, [] + [0], s1, others, s);
  }

  /** Thread 0 loads, the others do k iterations, and thread 0's stale store wipes those out. */
  lemma StaleStore(n: nat, m: nat, k: nat) returns (schedule: seq<nat>, s: State)
    requires n >= 2 && m >= 2 && k <= (n - 1) * m
    ensures Run(Init(n), m, schedule, s) && |s.threads| == n && s.counter == 1
    ensures Resting(s, m, 0, n) && s.threads[0].i == 1
    ensures Remaining(s.threads, m, 0, n) == n * m - 1 - k && Remaining(s.threads, m, 1, n) == (n - 1) * m - k
  {
    var before, s2 := StaleLoad(n, m, k);
    schedule, s := StaleFinish(Init(n), m, before, s2, 0);
    RemainingUpdate(s2.threads, m, 1, n, 0, s.threads[0]);
    RemainingSplit(s.threads, m, 1, n);
    assert Remaining(s.threads, m, 0, 1) == m - 1;
    OthersTotal(n, m);
  }

  ghost predicate Outcome(n: nat, m: nat, v: int) {
    exists schedule, s :: Run(Init(n), m, schedule, s) && Complete(s, m) && s.counter == v
  }

  /** Large values: lose n*m - v iterations of the others to one stale store, then finish one by one. */
  lemma ReachLarge(n: nat, m: nat, v: nat)
    requires n >= 2 && m >= 2 && m <= v <= n * m
    ensures Outcome(n, m, v)
  {
    assert n * m == (n - 1) * m + m;
    var k := n * m - v;
    var first, s := StaleStore(n, m, k);
    var second, r := Iterate(s, m, 0, n, n * m - 1 - k);
    RunConcat(Init(n), m, first, s, second, r);
    NothingRemains(r, m, n);
    assert Complete(r, m) && r.counter == v;
  }

  /** From a state where only one iteration of the others is left, its thread u loads, thread 0 does `lost`
      iterations, and u's stale store wipes those out. */
  lemma SecondStaleStore(s: State, m: nat, lost: nat) returns (schedule: seq<nat>, r: State)
    requires m >= 2 && |s.threads| >= 2 && s.counter == 1 && Resting(s, m, 0, |s.threads|)
    requires s.threads[0].i == 1 && Remaining(s.threads, m, 1, |s.threads|) == 1 && lost < m
    ensures Run(s, m, schedule, r) && |r.threads| == |s.threads| && r.counter == 2
    ensures Resting(r, m, 0, |s.threads|) && Remaining(r.threads, m, 0, |s.threads|) == m - 1 - lost
  {
    var n := |s.threads|;
    var u := SomeoneRemains(s.threads, m, 1, n);
    var s1 := Step(s, u);
    assert Run(s, m, [], s);
    RunStep(s, m, [], s, u);
    RemainingUpdate(s.threads, m, 0, 1, u, s1.threads[u]);
    RemainingUpdate(s.threads, m, 1, n, u, s1.threads[u]);
    assert Remaining(s.threads, m, 0, 0) == 0;
    var solo, s2 := Iterate(s1, m, 0, 1, lost);
    RunConcat(s, m, [] + [u], s1, solo, s2);
    SameRemaining(s1, s2, m, 1, n);
    var mid := [] + [u] + solo;
    schedule, r := StaleFinish(s, m, mid, s2, u);
    RemainingUpdate(s2.threads, m, 0, 1, u, r.threads[u]);
    RemainingUpdate(s2.threads, m, 1, n, u, r.threads[u]);
    RemainingSplit(r.threads, m, 1, n);
    forall t | 0 <= t < n ensures r.threads[t].pc.Load? && r.threads[t].i <= m {
      if t != u && t != 0 {
        assert s2.threads[t] == s1.threads[t] == s.threads[t];
      }
    }
  }

  /** A thread that has loaded adds and stores. */
  lemma StaleFinish(s: State, m: nat, before: seq<nat>, mid: State, u: nat) returns (schedule: seq<nat>, r: State)
    requires Run(s, m, before, mid) && u < |mid.threads| && mid.threads[u].pc.Add?
    ensures Run(s, m, schedule, r) && r.counter == mid.threads[u].local + 1
    ensures r.threads == mid.threads[u := Thread(mid.threads[u].i + 1, Load, r.counter)]
  {
    var next := Step(mid, u);
    RunStep(s, m, before, mid, u);
    RunStep(s, m, before + [u], next, u);
    schedule, r := before + [u] + [u], Step(next, u);
  }

  /** Small values: after losing all but one iteration of the others, that last one in turn wipes out
      iterations of thread 0. */
  lemma ReachSmall(n: nat, m: nat, v: nat)
    requires n >= 2 && m >= 2 && 2 <= v < m
    ensures Outcome(n, m, v)
  {
    var others := (n - 1) * m;
    OthersTotal(n, m);
    var first, s := StaleStore(n, m, others - 1);
    var second, s1 := SecondStaleStore(s, m, m + 1 - v);
    RunConcat(Init(n), m, first, s, second, s1);
    var last, r := Iterate(s1, m, 0, n, v - 2);
    RunConcat(Init(n), m, first + second, s1, last, r);
    NothingRemains(r, m, n);
    assert Complete(r, m) && r.counter == v;
  }

  lemma {:induction false} SameRemaining(s: State, r: State, m: nat, lo: nat, hi: nat)
    requires lo <= hi <= |s.threads| && |r.threads| == |s.threads|
    requires forall t :: lo <= t < hi ==> r.threads[t] == s.threads[t]
    ensures Remaining(r.threads, m, lo, hi) == Remaining(s.threads, m, lo, hi)
    decreases hi
  {
    if lo < hi {
      SameRemaining(s, r, m, lo, hi - 1);
    }
  }

  /** The counter can end with v if and only if 2 <= v <= n*m. */
  lemma OutcomesAreExactly(n: nat, m: nat, v: int)
    requires n >= 2 && m >= 2
    ensures Outcome(n, m, v) <==> 2 <= v <= n * m
  {
    if Outcome(n, m, v) {
      var schedule, s :| Run(Init(n), m, schedule, s) && Complete(s, m) && s.counter == v;
      OutcomeWithinBounds(n, m, schedule, s);
    }
    if 2 <= v <= n * m {
      if v >= m {
        ReachLarge(n, m, v);
      } else {
        ReachSmall(n, m, v);
      }
    }
  }

  // ---- the program itself, under an arbitrary scheduler ----

  /** Moves that the first k threads have made. */
  function Moves(threads: seq<Thread>, k: nat): nat
    requires k <= |threads|
  {
    if k == 0 then 0
    else
      var th := threads[k - 1];
      Moves(threads, k - 1) + 3 * th.i + match th.pc case Load => 0 case Add => 1 case Store => 2
  }

  lemma {:induction false} MovesStep(s: State, t: nat, k: nat)
    requires t < |s.threads| && k <= |s.threads|
    ensures Moves(Step(s, t).threads, k) == Moves(s.threads, k) + if t < k then 1 else 0
  {
    if k > 0 {
      MovesStep(s, t, k - 1);
    }
  }

  lemma {:induction false} MovesBound(s: State, m: nat, k: nat)
    requires Inv(s, m) && k <= |s.threads|
    ensures Moves(s.threads, k) <= 3 * (k * m)
  {
    if k > 0 {
      MovesBound(s, m, k - 1);
      assert ThreadOk(s.threads[k - 1], m, Finished(s.threads, |s.threads|));
      assert k * m == (k - 1) * m + m;
    }
  }

  /** One statement of thread t, on the shared counter and the threads' own variables. */
  method MoveThread(counter: int, threads: array<Thread>, t: nat) returns (counter': int)
    requires t < threads.Length
    modifies threads
    ensures State(counter', threads[..]) == Step(State(counter, old(threads[..])), t)
  {
    counter' := counter;
    var th := threads[t];
    match th.pc {
      case Load =>
        threads[t] := Thread(th.i, Add, counter);
      case Add =>
        threads[t] := Thread(th.i, Store, th.local + 1);
      case Store =>
        counter' := th.local;
        threads[t] := Thread(th.i + 1, Load, th.local);
    }
  }

  /** main: n threads run to the end, whoever the scheduler picks; the counter's final value is returned. */
  method RunThreads(n: nat, m: nat) returns (sharedCounter: int)
    requires n >= 2 && m >= 2
    ensures 2 <= sharedCounter <= n * m
  {
    sharedCounter := 0;
    var threads := new Thread[n](_ => Thread(0, Load, 0));
    InitFinished(n, n);
    assert threads[..] == Init(n).threads && threads[..][0].i == 0;
    while exists t :: 0 <= t < n && (threads[t].pc.Load? ==> threads[t].i < m)
      invariant Inv(State(sharedCounter, threads[..]), m)
      decreases 3 * (n * m) - Moves(threads[..], n)
    {
      var t :| 0 <= t < n && (threads[t].pc.Load? ==> threads[t].i < m);
      ghost var s := State(sharedCounter, threads[..]);
      StepInv(s, m, t);
      MovesStep(s, t, n);
      MovesBound(Step(s, t), m, n);
      sharedCounter := MoveThread(sharedCounter, threads, t);
    }
    ghost var s := State(sharedCounter, threads[..]);
    forall t | 0 <= t < n ensures s.threads[t].pc.Load? && s.threads[t].i == m {
      assert threads[t] == s.threads[t] && ThreadOk(s.threads[t], m, Finished(s.threads, n));
    }
    CompleteFinished(s, m, n);
  }
}
