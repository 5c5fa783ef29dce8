/** Threads that increment a shared counter under a mutex: no schedule loses an increment or gets stuck. */
module LockedCounter {
  import opened Options

  datatype Pc = Lock | Load | Add | Store | Unlock

  /** i: finished iterations; local: the thread's copy of the counter. */
  datatype Thread = Thread(i: nat, pc: Pc, local: int)

  datatype State = State(counter: int, mutex: Option<nat>, threads: seq<Thread>)

  function Init(n: nat): State {
    State(0, None, seq(n, _ => Thread(0, Lock, 0)))
  }

  /** A lock blocks while the mutex is taken; every other operation can always proceed. */
  predicate Enabled(s: State, m: nat, t: nat) {
    t < |s.threads| && (s.threads[t].pc.Lock? ==> s.threads[t].i < m && s.mutex.None?)
  }

  function Step(s: State, t: nat): State
    requires t < |s.threads|
  {
    var th := s.threads[t];
    match th.pc
    case Lock => s.(mutex := Some(t), threads := s.threads[t := th.(pc := Load)])
    case Load => s.(threads := s.threads[t := th.(pc := Add, local := s.counter)])
    case Add => s.(threads := s.threads[t := th.(pc := Store, local := th.local + 1)])
    case Store => s.(counter := th.local, threads := s.threads[t := th.(pc := Unlock)])
    case Unlock => s.(mutex := None, threads := s.threads[t := th.(pc := Lock, i := th.i + 1)])
  }

  predicate Complete(s: State, m: nat) {
    forall t :: 0 <= t < |s.threads| ==> s.threads[t].pc.Lock? && s.threads[t].i == m
  }

  ghost predicate Run(s: State, m: nat, schedule: seq<nat>, r: State)
    decreases |schedule|
  {
    if schedule == [] then r == s
    else Enabled(s, m, schedule[0]) && Run(Step(s, schedule[0]), m, schedule[1..], r)
  }

  /** Increments that the first k threads have stored. */
  function Stored(threads: seq<Thread>, k: nat): nat
    requires k <= |threads|
  {
    if k == 0 then 0
    else Stored(threads, k - 1) + threads[k - 1].i + if threads[k - 1].pc.Unlock? then 1 else 0
  }

  /** Operations that the first k threads have carried out. */
  function Done(threads: seq<Thread>, k: nat): nat
    requires k <= |threads|
  {
    if k == 0 then 0
    else
      var th := threads[k - 1];
      Done(threads, k - 1) + 5 * th.i
      + match th.pc case Lock => 0 case Load => 1 case Add => 2 case Store => 3 case Unlock => 4
  }

  ghost predicate InCriticalSection(s: State, t: nat) {
    t < |s.threads| && !s.threads[t].pc.Lock?
  }

  ghost predicate ThreadOk(th: Thread, m: nat, counter: int) {
    && th.i <= m && (!th.pc.Lock? ==> th.i < m)
    && (th.pc.Add? ==> th.local == counter) && (th.pc.Store? ==> th.local == counter + 1)
  }

  ghost predicate Inv(s: State, m: nat) {
    && s.counter == Stored(s.threads, |s.threads|)
    && (forall t :: 0 <= t < |s.threads| ==> (InCriticalSection(s, t) <==> s.mutex == Some(t)))
    && (s.mutex.Some? ==> s.mutex.value < |s.threads|)
    && (forall t :: 0 <= t < |s.threads| ==> ThreadOk(s.threads[t], m, s.counter))
  }

  lemma {:induction false} StoredFrame(a: seq<Thread>, b: seq<Thread>, t: nat, k: nat)
    requires |a| == |b| && t < |a| && k <= |a|
    requires forall u :: 0 <= u < |a| && u != t ==> a[u] == b[u]
    ensures t >= k ==> Stored(a, k) == Stored(b, k) && Done(a, k) == Done(b, k)
    ensures t < k ==> Stored(b, k) - Stored(a, k) == Stored([b[t]], 1) - Stored([a[t]], 1)
    ensures t < k ==> Done(b, k) - Done(a, k) == Done([b[t]], 1) - Done([a[t]], 1)
  {
    if k > 0 {
      StoredFrame(a, b, t, k - 1);
      assert Stored([a[t]], 0) == 0 && Stored([b[t]], 0) == 0 && Done([a[t]], 0) == 0 && Done([b[t]], 0) == 0;
    }
  }

  lemma StepInv(s: State, m: nat, t: nat)
    requires Inv(s, m) && Enabled(s, m, t)
    ensures Inv(Step(s, t), m)
    ensures var r := Step(s, t);
            |r.threads| == |s.threads| && Done(r.threads, |r.threads|) == Done(s.threads, |s.threads|) + 1
  {
    var r := Step(s, t);
    StoredFrame(s.threads, r.threads, t, |s.threads|);
    assert Stored([s.threads[t]], 0) == 0 && Stored([r.threads[t]], 0) == 0;
    assert Done([s.threads[t]], 0) == 0 && Done([r.threads[t]], 0) == 0;
    assert InCriticalSection(s, t) <==> s.mutex == Some(t);
    forall u | 0 <= u < |r.threads| ensures InCriticalSection(r, u) <==> r.mutex == Some(u) {
      assert InCriticalSection(s, u) <==> s.mutex == Some(u);
    }
    forall u | 0 <= u < |r.threads| ensures ThreadOk(r.threads[u], m, r.counter) {
      assert ThreadOk(s.threads[u], m, s.counter);
      assert InCriticalSection(s, u) <==> s.mutex == Some(u);
    }
  }

  lemma {:induction false} RunInv(s: State, m: nat, schedule: seq<nat>, r: State)
    requires Inv(s, m) && Run(s, m, schedule, r)
    ensures Inv(r, m) && |r.threads| == |s.threads|
    ensures Done(r.threads, |r.threads|) == Done(s.threads, |s.threads|) + |schedule|
    decreases |schedule|
  {
    if schedule == [] {
    } else {
      StepInv(s, m, schedule[0]);
      RunInv(Step(s, schedule[0]), m, schedule[1..], r);
    }
  }

  lemma {:induction false} InitSums(n: nat, k: nat)
    requires k <= n
    ensures Stored(Init(n).threads, k) == 0 && Done(Init(n).threads, k) == 0
  {
    if k > 0 {
      InitSums(n, k - 1);
    }
  }

  lemma {:induction false} DoneBound(s: State, m: nat, k: nat)
    requires Inv(s, m) && k <= |s.threads|
    ensures Done(s.threads, k) <= 5 * (k * m)
    ensures Complete(s, m) ==> Stored(s.threads, k) == k * m
  {
    if k > 0 {
      DoneBound(s, m, k - 1);
      assert k * m == (k - 1) * m + m;
      assert s.threads[k - 1].i <= m;
    }
  }

  /** The holder of the mutex can always move on; with the mutex free, so can any unfinished thread. */
  lemma NeverStuck(s: State, m: nat) returns (t: nat)
    requires Inv(s, m) && !Complete(s, m)
    ensures Enabled(s, m, t)
  {
    if s.mutex.Some? {
      t := s.mutex.value;
      assert InCriticalSection(s, t);
    } else {
      t :| 0 <= t < |s.threads| && !(s.threads[t].pc.Lock? && s.threads[t].i == m);
      assert !InCriticalSection(s, t);
    }
  }

  /** On every schedule at most one thread is between lock and unlock; the schedule has at most 5*n*m moves,
      can be extended until all threads are done, and then the counter is n*m. */
  lemma LockedCounterIsExact(n: nat, m: nat, schedule: seq<nat>, s: State)
    requires Run(Init(n), m, schedule, s)
    ensures forall t: nat, u: nat :: InCriticalSection(s, t) && InCriticalSection(s, u) ==> t == u
    ensures |schedule| <= 5 * (n * m)
    ensures Complete(s, m) || exists t :: Enabled(s, m, t)
    ensures Complete(s, m) ==> s.counter == n * m
  {
    InitSums(n, n);
    RunInv(Init(n), m, schedule, s);
    DoneBound(s, m, n);
    forall t: nat, u: nat | InCriticalSection(s, t) && InCriticalSection(s, u) ensures t == u {
      assert s.mutex == Some(t) && s.mutex == Some(u);
    }
    if !Complete(s, m) {
      var t := NeverStuck(s, m);
    }
  }

  /** A thread has to wait only at a lock, and there only if it has no iteration left or another thread is between
      lock and unlock. */
  lemma BlockedIff(n: nat, m: nat, schedule: seq<nat>, s: State, t: nat)
    requires Run(Init(n), m, schedule, s) && t < n
    ensures |s.threads| == n
    ensures !Enabled(s, m, t) <==>
              && s.threads[t].pc.Lock?
              && (s.threads[t].i == m || exists u :: 0 <= u < n && u != t && !s.threads[u].pc.Lock?)
  {
    InitSums(n, n);
    RunInv(Init(n), m, schedule, s);
    assert ThreadOk(s.threads[t], m, s.counter);
    assert forall u :: 0 <= u < n ==> (InCriticalSection(s, u) <==> !s.threads[u].pc.Lock?);
    if s.mutex.Some? {
      assert InCriticalSection(s, s.mutex.value);
    }
  }

  // ---- the program itself, under an arbitrary scheduler ----

  /** One statement of thread t, on the shared counter, the mutex and the threads' own variables. */
  method MoveThread(counter: int, mutex: Option<nat>, threads: array<Thread>, t: nat)
      returns (counter': int, mutex': Option<nat>)
    requires t < threads.Length
    modifies threads
    ensures State(counter', mutex', threads[..]) == Step(State(counter, mutex, old(threads[..])), t)
  {
    counter', mutex' := counter, mutex;
    var th := threads[t];
    match th.pc {
      case Lock =>
        mutex' := Some(t);
        threads[t] := th.(pc := Load);
      case Load =>
        threads[t] := th.(pc := Add, local := counter);
      case Add =>
        threads[t] := th.(pc := Store, local := th.local + 1);
      case Store =>
        counter' := th.local;
        threads[t] := th.(pc := Unlock);
      case Unlock =>
        mutex' := None;
        threads[t] := th.(pc := Lock, i := th.i + 1);
    }
  }

  /** main: n threads run to the end, whoever the scheduler picks among those not blocked on the mutex. */
  method RunThreads(n: nat, m: nat) returns (sharedCounter: int)
    ensures sharedCounter == n * m
  {
    sharedCounter := 0;
    var mutex: Option<nat> := None;
    var threads := new Thread[n](_ => Thread(0, Lock, 0));
    InitSums(n, n);
    assert threads[..] == Init(n).threads;
    while exists t :: 0 <= t < n && (threads[t].pc.Lock? ==> threads[t].i < m && mutex.None?)
      invariant Inv(State(sharedCounter, mutex, threads[..]), m)
      decreases 5 * (n * m) - Done(threads[..], n)
    {
      var t :| 0 <= t < n && (threads[t].pc.Lock? ==> threads[t].i < m && mutex.None?);
      ghost var s := State(sharedCounter, mutex, threads[..]);
      StepInv(s, m, t);
      DoneBound(Step(s, t), m, n);
      sharedCounter, mutex := MoveThread(sharedCounter, mutex, threads, t);
    }
    AllBlockedIsComplete(State(sharedCounter, mutex, threads[..]), m);
    DoneBound(State(sharedCounter, mutex, threads[..]), m, n);
  }

  lemma AllBlockedIsComplete(s: State, m: nat)
    requires Inv(s, m) && forall t :: 0 <= t < |s.threads| ==> !Enabled(s, m, t)
    ensures Complete(s, m)
  {
    if !Complete(s, m) {
      var t := NeverStuck(s, m);
    }
  }
}
