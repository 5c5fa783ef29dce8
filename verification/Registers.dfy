/**
 * The supermarket: customers pass a counting semaphore, pop a register from a stack guarded by a mutex,
 * and later push it back. One move is one semaphore or mutex operation, load or store.
 */
module Registers {
  import opened Options

  datatype Pc =
    | Arrive                                   // sem_wait
    | PopLock | PopRead | PopDrop | PopUnlock  // get_register: lock; reg = registers[top]; top--; unlock
    | PushLock | PushRaise | PushWrite | PushUnlock  // release_register: lock; ++top; registers[top] = reg; unlock
    | Post                                     // sem_post
    | Gone

  datatype Customer = Customer(pc: Pc, reg: int)

  datatype State = State(sem: int, mutex: Option<nat>, registers: seq<int>, top: int, customers: seq<Customer>)

  /** registers = {1, ..., k}, top = k - 1, the semaphore at k. */
  function Init(n: nat, k: nat): State {
    State(k, None, seq(k, i => i + 1), k - 1, seq(n, _ => Customer(Arrive, 0)))
  }

  predicate InPop(pc: Pc) { pc.PopRead? || pc.PopDrop? || pc.PopUnlock? }
  predicate InPush(pc: Pc) { pc.PushRaise? || pc.PushWrite? || pc.PushUnlock? }
  predicate Locked(pc: Pc) { InPop(pc) || InPush(pc) }

  /** Between sem_wait and sem_post. */
  predicate Inside(pc: Pc) { !pc.Arrive? && !pc.Gone? }

  /** From the pop to the push the register belongs to the customer. */
  predicate Holding(pc: Pc) { pc.PopUnlock? || pc.PushLock? || pc.PushRaise? || pc.PushWrite? }

  predicate Enabled(s: State, c: nat) {
    c < |s.customers| &&
    match s.customers[c].pc
    case Arrive => s.sem > 0
    case PopLock => s.mutex.None?
    case PushLock => s.mutex.None?
    case Gone => false
    case _ => true
  }

  /** The stack accesses that a move makes are inside the array. */
  predicate AccessOk(s: State, c: nat)
    requires c < |s.customers|
  {
    match s.customers[c].pc
    case PopRead => 0 <= s.top < |s.registers|
    case PushRaise => 0 <= s.top + 1 < |s.registers|
    case PushWrite => 0 <= s.top < |s.registers|
    case _ => true
  }

  /** An access outside the array has no defined effect; the model leaves the array alone there. */
  function Step(s: State, c: nat): State
    requires c < |s.customers|
  {
    var cust := s.customers[c];
    match cust.pc
    case Arrive => s.(sem := s.sem - 1, customers := s.customers[c := cust.(pc := PopLock)])
    case PopLock => s.(mutex := Some(c), customers := s.customers[c := cust.(pc := PopRead)])
    case PopRead =>
      var reg := if AccessOk(s, c) then s.registers[s.top] else 0;
      s.(customers := s.customers[c := Customer(PopDrop, reg)])
    case PopDrop => s.(top := s.top - 1, customers := s.customers[c := cust.(pc := PopUnlock)])
    case PopUnlock => s.(mutex := None, customers := s.customers[c := cust.(pc := PushLock)])
    case PushLock => s.(mutex := Some(c), customers := s.customers[c := cust.(pc := PushRaise)])
    case PushRaise => s.(top := s.top + 1, customers := s.customers[c := cust.(pc := PushWrite)])
    case PushWrite =>
      s.(registers := if AccessOk(s, c) then s.registers[s.top := cust.reg] else s.registers,
         customers := s.customers[c := cust.(pc := PushUnlock)])
    case PushUnlock => s.(mutex := None, customers := s.customers[c := cust.(pc := Post)])
    case Post => s.(sem := s.sem + 1, customers := s.customers[c := cust.(pc := Gone)])
    case Gone => s
  }

  ghost predicate Run(s: State, schedule: seq<nat>, r: State)
    decreases |schedule|
  {
    if schedule == [] then r == s
    else Enabled(s, schedule[0]) && Run(Step(s, schedule[0]), schedule[1..], r)
  }

  // ---- bookkeeping over the customers ----

  /** The registers held by the first k customers. */
  function Held(customers: seq<Customer>, k: nat): multiset<int>
    requires k <= |customers|
  {
    if k == 0 then multiset{}
    else Held(customers, k - 1) + HeldBy(customers[k - 1])
  }

  function HeldBy(c: Customer): multiset<int> {
    if Holding(c.pc) then multiset{c.reg} else multiset{}
  }

  /** How many of the first k customers are between sem_wait and sem_post. */
  function InsideCount(customers: seq<Customer>, k: nat): nat
    requires k <= |customers|
  {
    if k == 0 then 0 else InsideCount(customers, k - 1) + if Inside(customers[k - 1].pc) then 1 else 0
  }

  /** Moves left to the first k customers. */
  function Work(customers: seq<Customer>, k: nat): nat
    requires k <= |customers|
  {
    if k == 0 then 0 else Work(customers, k - 1) + MovesLeft(customers[k - 1].pc)
  }

  function MovesLeft(pc: Pc): nat {
    match pc
    case Arrive => 10 case PopLock => 9 case PopRead => 8 case PopDrop => 7 case PopUnlock => 6 case PushLock => 5
    case PushRaise => 4 case PushWrite => 3 case PushUnlock => 2 case Post => 1 case Gone => 0
  }

  lemma {:induction false} HeldFrame(a: seq<Customer>, b: seq<Customer>, k: nat)
    requires k <= |a| && k <= |b| && forall j :: 0 <= j < k ==> a[j] == b[j]
    ensures Held(a, k) == Held(b, k)
  {
    if k > 0 {
      HeldFrame(a, b, k - 1);
    }
  }

  lemma HeldStep(a: seq<Customer>, k: nat, v: int)
    requires 0 < k <= |a|
    ensures Held(a, k)[v] == Held(a, k - 1)[v] + HeldBy(a[k - 1])[v]
  {
  }

  lemma {:induction false} HeldUpdateAt(a: seq<Customer>, b: seq<Customer>, c: nat, k: nat, v: int)
    requires c < k <= |a| == |b| && forall j :: 0 <= j < k && j != c ==> a[j] == b[j]
    ensures Held(b, k)[v] + HeldBy(a[c])[v] == Held(a, k)[v] + HeldBy(b[c])[v]
  {
    HeldStep(a, k, v);
    HeldStep(b, k, v);
    if c < k - 1 {
      HeldUpdateAt(a, b, c, k - 1, v);
      assert a[k - 1] == b[k - 1];
    } else {
      HeldFrame(a, b, c);
    }
  }

  lemma HeldUpdate(a: seq<Customer>, c: nat, x: Customer, k: nat)
    requires c < k <= |a|
    ensures Held(a[c := x], k) + HeldBy(a[c]) == Held(a, k) + HeldBy(x)
  {
    forall v ensures (Held(a[c := x], k) + HeldBy(a[c]))[v] == (Held(a, k) + HeldBy(x))[v] {
      HeldUpdateAt(a, a[c := x], c, k, v);
    }
  }

  lemma {:induction false} CountUpdate(a: seq<Customer>, c: nat, x: Customer, k: nat)
    requires c < |a| && k <= |a|
    ensures InsideCount(a[c := x], k)
         == InsideCount(a, k) + if c < k then (if Inside(x.pc) then 1 else 0) - (if Inside(a[c].pc) then 1 else 0) else 0
    ensures Work(a[c := x], k) == Work(a, k) + if c < k then MovesLeft(x.pc) - MovesLeft(a[c].pc) else 0
  {
    if k > 0 {
      CountUpdate(a, c, x, k - 1);
    }
  }

  /** Holders are inside; a customer inside but not holding makes the inequality strict. */
  lemma {:induction false} HeldAtMostInside(a: seq<Customer>, k: nat, c: nat)
    requires k <= |a|
    ensures |Held(a, k)| <= InsideCount(a, k)
    ensures c < k && Inside(a[c].pc) && !Holding(a[c].pc) ==> |Held(a, k)| < InsideCount(a, k)
  {
    if k > 0 {
      HeldAtMostInside(a, k - 1, c);
    }
  }

  /** How many of the first k customers hold register v. */
  function Holders(a: seq<Customer>, k: nat, v: int): nat
    requires k <= |a|
  {
    if k == 0 then 0 else Holders(a, k - 1, v) + if Holding(a[k - 1].pc) && a[k - 1].reg == v then 1 else 0
  }

  lemma {:induction false} HeldCounts(a: seq<Customer>, k: nat, v: int)
    requires k <= |a|
    ensures Held(a, k)[v] == Holders(a, k, v)
  {
    if k > 0 {
      HeldStep(a, k, v);
      HeldCounts(a, k - 1, v);
    }
  }

  lemma {:induction false} HeldMember(a: seq<Customer>, k: nat, c: nat)
    requires c < k <= |a| && Holding(a[c].pc)
    ensures Holders(a, k, a[c].reg) >= 1
  {
    if c < k - 1 {
      HeldMember(a, k - 1, c);
    }
  }

  lemma {:induction false} HeldTwice(a: seq<Customer>, k: nat, c: nat, d: nat)
    requires c < d < k <= |a| && Holding(a[c].pc) && Holding(a[d].pc) && a[c].reg == a[d].reg
    ensures Holders(a, k, a[c].reg) >= 2
  {
    if d < k - 1 {
      HeldTwice(a, k - 1, c, d);
    } else {
      HeldMember(a, k - 1, c);
    }
  }

  // ---- the invariant ----

  /** The number of free registers on the stack; after ++top the slot is claimed but not yet filled. */
  function FreeCount(s: State): int {
    s.top + 1 - if s.mutex.Some? && s.mutex.value < |s.customers| && s.customers[s.mutex.value].pc.PushWrite? then 1 else 0
  }

  /** The free registers: registers[0..top]. */
  function Free(s: State): seq<int> {
    if 0 <= FreeCount(s) <= |s.registers| then s.registers[..FreeCount(s)] else []
  }

  ghost predicate MutexOk(s: State) {
    && (s.mutex.Some? ==> s.mutex.value < |s.customers|)
    && forall c :: 0 <= c < |s.customers| ==> (Locked(s.customers[c].pc) <==> s.mutex == Some(c))
  }

  /** A customer that has read the top of the stack but not dropped it has read the top. */
  ghost predicate ReadOk(s: State) {
    forall c :: 0 <= c < |s.customers| && s.customers[c].pc.PopDrop? ==>
      0 <= s.top < |s.registers| && s.customers[c].reg == s.registers[s.top]
  }

  ghost predicate Inv(s: State, all: multiset<int>) {
    && MutexOk(s) && ReadOk(s)
    && s.sem >= 0 && s.sem + InsideCount(s.customers, |s.customers|) == |s.registers|
    && 0 <= FreeCount(s) <= |s.registers|
    && |all| == |s.registers|
    && multiset(Free(s)) + Held(s.customers, |s.customers|) == all
  }

  /** Under the invariant every pop happens above the bottom of the stack and every push below the end of the array. */
  lemma AccessesInBounds(s: State, all: multiset<int>, c: nat)
    requires Inv(s, all) && c < |s.customers|
    ensures AccessOk(s, c)
    ensures InPop(s.customers[c].pc) && !s.customers[c].pc.PopUnlock? ==> s.top >= 0
    ensures s.customers[c].pc.PushRaise? ==> s.top < |s.registers| - 1
  {
    var n := |s.customers|;
    HeldAtMostInside(s.customers, n, c);
    assert Locked(s.customers[c].pc) <==> s.mutex == Some(c);
    assert |Free(s)| == FreeCount(s);
    assert |multiset(Free(s))| + |Held(s.customers, n)| == |all|;
    if Holding(s.customers[c].pc) {
      HeldMember(s.customers, n, c);
      HeldCounts(s.customers, n, s.customers[c].reg);
      assert |Held(s.customers, n)| >= 1;
    }
  }

  lemma StepMutex(s: State, all: multiset<int>, c: nat)
    requires Inv(s, all) && Enabled(s, c)
    ensures MutexOk(Step(s, c)) && ReadOk(Step(s, c))
    ensures |Step(s, c).registers| == |s.registers|
  {
    var r := Step(s, c);
    AccessesInBounds(s, all, c);
    assert Locked(s.customers[c].pc) <==> s.mutex == Some(c);
    forall d | 0 <= d < |r.customers|
      ensures Locked(r.customers[d].pc) <==> r.mutex == Some(d)
      ensures r.customers[d].pc.PopDrop? ==> 0 <= r.top < |r.registers| && r.customers[d].reg == r.registers[r.top]
    {
      assert Locked(s.customers[d].pc) <==> s.mutex == Some(d);
    }
  }

  lemma PopFree(s: State, all: multiset<int>, c: nat)
    requires Inv(s, all) && Enabled(s, c) && s.customers[c].pc.PopDrop?
    ensures 0 <= FreeCount(Step(s, c)) <= |s.registers|
    ensures multiset(Free(Step(s, c))) + multiset{s.customers[c].reg} == multiset(Free(s))
  {
    AccessesInBounds(s, all, c);
    assert s.registers[..s.top + 1] == s.registers[..s.top] + [s.registers[s.top]];
  }

  lemma PushFree(s: State, all: multiset<int>, c: nat)
    requires Inv(s, all) && Enabled(s, c) && s.customers[c].pc.PushWrite?
    ensures 0 <= FreeCount(Step(s, c)) <= |s.registers|
    ensures multiset(Free(Step(s, c))) == multiset(Free(s)) + multiset{s.customers[c].reg}
  {
    var r := Step(s, c);
    AccessesInBounds(s, all, c);
    assert Locked(s.customers[c].pc) <==> s.mutex == Some(c);
    assert r.registers[..s.top + 1] == s.registers[..s.top] + [s.customers[c].reg];
  }

  /** All other moves leave the free registers alone. */
  lemma QuietFree(s: State, c: nat)
    requires MutexOk(s) && 0 <= FreeCount(s) <= |s.registers|
    requires Enabled(s, c) && !s.customers[c].pc.PopDrop? && !s.customers[c].pc.PushWrite?
    ensures FreeCount(Step(s, c)) == FreeCount(s)
    ensures Step(s, c).registers == s.registers && HeldBy(Step(s, c).customers[c]) == HeldBy(s.customers[c])
  {
    assert Locked(s.customers[c].pc) <==> s.mutex == Some(c);
    if s.mutex.Some? {
      assert Locked(s.customers[s.mutex.value].pc);
    }
  }

  /** A pop moves the top register from the stack to the customer, a push moves it back. */
  lemma StepFree(s: State, all: multiset<int>, c: nat)
    requires Inv(s, all) && Enabled(s, c)
    ensures 0 <= FreeCount(Step(s, c)) <= |s.registers|
    ensures multiset(Free(Step(s, c))) + HeldBy(Step(s, c).customers[c]) == multiset(Free(s)) + HeldBy(s.customers[c])
  {
    if s.customers[c].pc.PopDrop? {
      PopFree(s, all, c);
    } else if s.customers[c].pc.PushWrite? {
      PushFree(s, all, c);
    } else {
      QuietFree(s, c);
    }
  }

  /** The semaphore moves with the number of customers inside. */
  lemma StepCounts(s: State, c: nat)
    requires Enabled(s, c) && s.sem >= 0
    ensures var r := Step(s, c); var n := |s.customers|;
            && |r.customers| == n && r.customers == s.customers[c := r.customers[c]] && r.sem >= 0
            && r.sem + InsideCount(r.customers, n) == s.sem + InsideCount(s.customers, n)
            && Work(r.customers, n) + 1 == Work(s.customers, n)
  {
    CountUpdate(s.customers, c, Step(s, c).customers[c], |s.customers|);
  }

  lemma Exchange(free: multiset<int>, held: multiset<int>, free': multiset<int>, held': multiset<int>,
                 own: multiset<int>, own': multiset<int>)
    requires free' + own' == free + own && held' + own == held + own'
    ensures free' + held' == free + held
  {
    forall x ensures (free' + held')[x] == (free + held)[x] {
      assert (free' + own')[x] == (free + own)[x] && (held' + own)[x] == (held + own')[x];
    }
  }

  lemma StepInv(s: State, all: multiset<int>, c: nat)
    requires Inv(s, all) && Enabled(s, c)
    ensures Inv(Step(s, c), all)
  {
    var r := Step(s, c);
    var n := |s.customers|;
    StepMutex(s, all, c);
    StepCounts(s, c);
    StepFree(s, all, c);
    HeldUpdate(s.customers, c, r.customers[c], n);
    Exchange(multiset(Free(s)), Held(s.customers, n), multiset(Free(r)), Held(r.customers, n),
             HeldBy(s.customers[c]), HeldBy(r.customers[c]));
  }

  lemma {:induction false} RunInv(s: State, all: multiset<int>, schedule: seq<nat>, r: State)
    requires Inv(s, all) && Run(s, schedule, r)
    ensures Inv(r, all) && |r.customers| == |s.customers|
    ensures |r.registers| == |s.registers|
    ensures Work(r.customers, |r.customers|) + |schedule| == Work(s.customers, |s.customers|)
    decreases |schedule|
  {
    if schedule == [] {
    } else {
      StepInv(s, all, schedule[0]);
      StepCounts(s, schedule[0]);
      StepMutex(s, all, schedule[0]);
      RunInv(Step(s, schedule[0]), all, schedule[1..], r);
    }
  }

  lemma {:induction false} InitCounts(n: nat, k: nat, j: nat)
    requires j <= n
    ensures Held(Init(n, k).customers, j) == multiset{}
    ensures InsideCount(Init(n, k).customers, j) == 0 && Work(Init(n, k).customers, j) == 10 * j
  {
    if j > 0 {
      InitCounts(n, k, j - 1);
    }
  }

  /** The multiset {1, ..., k}. */
  function AllRegisters(k: nat): multiset<int> {
    multiset(Init(0, k).registers)
  }

  /** Each of 1, ..., k exactly once, nothing else. */
  lemma {:induction false} AllRegistersOnce(k: nat, x: int)
    ensures AllRegisters(k)[x] == if 1 <= x <= k then 1 else 0
  {
    if k > 0 {
      AllRegistersOnce(k - 1, x);
      assert Init(0, k).registers == Init(0, k - 1).registers + [k];
    }
  }

  lemma InitialInv(n: nat, k: nat)
    ensures Inv(Init(n, k), AllRegisters(k))
  {
    var s := Init(n, k);
    InitCounts(n, k, n);
    assert s.registers[..k] == Init(0, k).registers;
    assert FreeCount(s) == k && Free(s) == Init(0, k).registers;
    assert multiset(Free(s)) + multiset{} == AllRegisters(k);
  }

  lemma ReachableInv(n: nat, k: nat, schedule: seq<nat>, s: State)
    requires Run(Init(n, k), schedule, s)
    ensures Inv(s, AllRegisters(k)) && |s.customers| == n && |s.registers| == k
    ensures Work(s.customers, n) + |schedule| == 10 * n
  {
    InitCounts(n, k, n);
    InitialInv(n, k);
    RunInv(Init(n, k), AllRegisters(k), schedule, s);
  }

  // ---- main results ----

  predicate AllGone(s: State) {
    forall c :: 0 <= c < |s.customers| ==> s.customers[c].pc.Gone?
  }

  /** On every schedule, free and held registers partition {1, ..., k}; no two customers hold the same one. */
  lemma RegistersPartition(n: nat, k: nat, schedule: seq<nat>, s: State)
    requires Run(Init(n, k), schedule, s)
    ensures multiset(Free(s)) + Held(s.customers, |s.customers|) == AllRegisters(k)
    ensures forall c: nat, d: nat :: c < d < |s.customers| && Holding(s.customers[c].pc) && Holding(s.customers[d].pc)
              ==> s.customers[c].reg != s.customers[d].reg
    ensures forall c: nat :: c < |s.customers| && Holding(s.customers[c].pc)
              ==> 1 <= s.customers[c].reg <= k && s.customers[c].reg !in Free(s)
  {
    ReachableInv(n, k, schedule, s);
    var held := Held(s.customers, |s.customers|);
    forall c: nat, d: nat | c < d < |s.customers| && Holding(s.customers[c].pc) && Holding(s.customers[d].pc)
      ensures s.customers[c].reg != s.customers[d].reg
    {
      AllRegistersOnce(k, s.customers[c].reg);
      if s.customers[c].reg == s.customers[d].reg {
        HeldTwice(s.customers, |s.customers|, c, d);
        HeldCounts(s.customers, |s.customers|, s.customers[c].reg);
      }
    }
    forall c: nat | c < |s.customers| && Holding(s.customers[c].pc)
      ensures 1 <= s.customers[c].reg <= k && s.customers[c].reg !in Free(s)
    {
      var reg := s.customers[c].reg;
      AllRegistersOnce(k, reg);
      HeldMember(s.customers, |s.customers|, c);
      HeldCounts(s.customers, |s.customers|, reg);
      assert multiset(Free(s))[reg] + held[reg] == AllRegisters(k)[reg];
      assert reg in Free(s) ==> multiset(Free(s))[reg] >= 1;
    }
  }

  /** On every schedule the semaphore counts the places left, and no pop or push leaves the array. */
  lemma StackNeverOverruns(n: nat, k: nat, schedule: seq<nat>, s: State, c: nat)
    requires Run(Init(n, k), schedule, s) && c < |s.customers|
    ensures s.sem >= 0 && s.sem + InsideCount(s.customers, |s.customers|) == k
    ensures s.customers[c].pc.PopRead? || s.customers[c].pc.PopDrop? ==> 0 <= s.top < k
    ensures s.customers[c].pc.PushRaise? ==> -1 <= s.top < k - 1
    ensures s.customers[c].pc.PushWrite? ==> 0 <= s.top < k
  {
    ReachableInv(n, k, schedule, s);
    AccessesInBounds(s, AllRegisters(k), c);
    assert Locked(s.customers[c].pc) <==> s.mutex == Some(c);
  }

  lemma {:induction false} NobodyInside(a: seq<Customer>, k: nat)
    requires k <= |a| && forall c :: 0 <= c < k ==> !Inside(a[c].pc)
    ensures InsideCount(a, k) == 0 && Held(a, k) == multiset{}
  {
    if k > 0 {
      NobodyInside(a, k - 1);
    }
  }

  lemma AllGoneUnlocked(s: State)
    requires MutexOk(s) && AllGone(s)
    ensures s.mutex.None?
  {
    assert forall c :: 0 <= c < |s.customers| ==> !Locked(s.customers[c].pc) && s.mutex != Some(c);
  }

  lemma NeverStuck(s: State, all: multiset<int>) returns (c: nat)
    requires Inv(s, all) && |s.registers| >= 1 && !AllGone(s)
    ensures Enabled(s, c)
  {
    if s.mutex.Some? {
      c := s.mutex.value;
      assert Locked(s.customers[c].pc);
    } else if exists d :: 0 <= d < |s.customers| && Inside(s.customers[d].pc) {
      c :| 0 <= c < |s.customers| && Inside(s.customers[c].pc);
      assert !Locked(s.customers[c].pc);
    } else {
      NobodyInside(s.customers, |s.customers|);
      c :| 0 <= c < |s.customers| && !s.customers[c].pc.Gone?;
    }
  }

  /** Once everybody has left, nothing is missing. */
  lemma AtClosing(s: State, k: nat)
    requires Inv(s, AllRegisters(k)) && |s.registers| == k && AllGone(s)
    ensures s.sem == k && s.mutex.None? && s.top == k - 1
    ensures multiset(s.registers) == AllRegisters(k)
  {
    NobodyInside(s.customers, |s.customers|);
    assert |multiset(Free(s))| == k;
    AllGoneUnlocked(s);
    assert s.registers[..k] == s.registers;
  }

  /** With k >= 1 every schedule has at most 10 moves a customer and can be extended until all are gone;
      then the semaphore and the stack pointer are back where they started and the stack is a permutation
      of its initial contents. */
  lemma EveryoneIsServed(n: nat, k: nat, schedule: seq<nat>, s: State)
    requires k >= 1 && Run(Init(n, k), schedule, s)
    ensures |schedule| <= 10 * n
    ensures AllGone(s) || exists c :: Enabled(s, c)
    ensures AllGone(s) ==> s.sem == k && s.mutex.None? && s.top == k - 1
    ensures AllGone(s) ==> multiset(s.registers) == multiset(Init(n, k).registers)
  {
    ReachableInv(n, k, schedule, s);
    if AllGone(s) {
      AtClosing(s, k);
      assert Init(n, k).registers == Init(0, k).registers;
    } else {
      var c := NeverStuck(s, AllRegisters(k));
    }
  }

  // ---- get_register and release_register as the stack operations they are under the lock ----

  /** before is after with reg on top. */
  predicate OnTop(before: seq<int>, reg: int, after: seq<int>) {
    before == after + [reg]
  }

  class Checkout {
    const registers: array<int>
    var top: int

    ghost predicate Valid()
      reads this
    {
      -1 <= top < registers.Length
    }

    ghost function Stack(): seq<int>
      requires Valid()
      reads this, registers
    {
      registers[..top + 1]
    }

    constructor (k: nat)
      ensures Valid() && fresh(registers) && registers.Length == k
      ensures Stack() == Init(0, k).registers
    {
      registers := new int[k](i => i + 1);
      top := k - 1;
    }

    method GetRegister() returns (regId: int)
      requires Valid() && top >= 0
      modifies this`top
      ensures Valid() && OnTop(old(Stack()), regId, Stack()) && top == old(top) - 1
    {
      regId := registers[top];
      top := top - 1;
    }

    method ReleaseRegister(regId: int)
      requires Valid() && top < registers.Length - 1
      modifies this`top, registers
      ensures Valid() && OnTop(Stack(), regId, old(Stack())) && top == old(top) + 1
      ensures registers[..] == old(registers[..])[top := regId]
    {
      top := top + 1;
      registers[top] := regId;
    }
  }

  /** The four moves of get_register take the top of the free stack. */
  lemma PopSection(s: State, all: multiset<int>, c: nat) returns (r: State)
    requires Inv(s, all) && Enabled(s, c) && s.customers[c].pc.PopLock?
    ensures 0 <= s.top < |s.registers|
    ensures Run(s, [c, c, c, c], r)
    ensures r == s.(top := s.top - 1, customers := s.customers[c := Customer(PushLock, s.registers[s.top])])
    ensures OnTop(Free(s), s.registers[s.top], Free(r))
  {
    var s1 := Step(s, c);
    StepInv(s, all, c);
    AccessesInBounds(s1, all, c);
    var s2 := Step(s1, c);
    var s3 := Step(s2, c);
    r := Step(s3, c);
    RunFour(s, c);
    assert r.customers == s.customers[c := Customer(PushLock, s.registers[s.top])];
    assert Free(s) == s.registers[..s.top + 1] && Free(r) == s.registers[..s.top];
  }

  /** The four moves of release_register put the register on top of the free stack. */
  lemma PushSection(s: State, all: multiset<int>, c: nat) returns (r: State)
    requires Inv(s, all) && Enabled(s, c) && s.customers[c].pc.PushLock?
    ensures 0 <= s.top + 1 < |s.registers|
    ensures Run(s, [c, c, c, c], r)
    ensures r == s.(top := s.top + 1, registers := s.registers[s.top + 1 := s.customers[c].reg],
                    customers := s.customers[c := Customer(Post, s.customers[c].reg)])
    ensures OnTop(Free(r), s.customers[c].reg, Free(s))
  {
    var s1 := Step(s, c);
    StepInv(s, all, c);
    AccessesInBounds(s1, all, c);
    var s2 := Step(s1, c);
    var s3 := Step(s2, c);
    r := Step(s3, c);
    RunFour(s, c);
    assert r.customers == s.customers[c := Customer(Post, s.customers[c].reg)];
    assert Free(s) == s.registers[..s.top + 1];
    assert Free(r) == r.registers[..s.top + 2] == Free(s) + [s.customers[c].reg];
  }

  /** A customer who runs get_register in one go, by calling GetRegister, makes exactly the four moves. */
  method PopInOneGo(checkout: Checkout, sem: int, mutex: Option<nat>, customers: array<Customer>, c: nat,
                    ghost all: multiset<int>)
    requires c < customers.Length && customers[c].pc.PopLock?
    requires var s := State(sem, mutex, checkout.registers[..], checkout.top, customers[..]); Inv(s, all) && Enabled(s, c)
    modifies checkout`top, customers
    ensures Run(old(State(sem, mutex, checkout.registers[..], checkout.top, customers[..])), [c, c, c, c],
                State(sem, mutex, checkout.registers[..], checkout.top, customers[..]))
  {
    ghost var s := State(sem, mutex, checkout.registers[..], checkout.top, customers[..]);
    ghost var r := PopSection(s, all, c);
    var reg := checkout.GetRegister();
    assert reg == s.registers[s.top] by {
      assert s.registers[..s.top + 1][s.top] == s.registers[s.top];
    }
    customers[c] := Customer(PushLock, reg);
    assert customers[..] == s.customers[c := Customer(PushLock, reg)];
  }

  /** The same for release_register. */
  method PushInOneGo(checkout: Checkout, sem: int, mutex: Option<nat>, customers: array<Customer>, c: nat,
                     ghost all: multiset<int>)
    requires c < customers.Length && customers[c].pc.PushLock?
    requires var s := State(sem, mutex, checkout.registers[..], checkout.top, customers[..]); Inv(s, all) && Enabled(s, c)
    modifies checkout`top, checkout.registers, customers
    ensures Run(old(State(sem, mutex, checkout.registers[..], checkout.top, customers[..])), [c, c, c, c],
                State(sem, mutex, checkout.registers[..], checkout.top, customers[..]))
  {
    ghost var s := State(sem, mutex, checkout.registers[..], checkout.top, customers[..]);
    ghost var r := PushSection(s, all, c);
    var reg := customers[c].reg;
    checkout.ReleaseRegister(reg);
    customers[c] := Customer(Post, reg);
    assert customers[..] == s.customers[c := Customer(Post, reg)];
  }

  lemma RunFour(s: State, c: nat)
    requires Enabled(s, c)
    requires var s1 := Step(s, c); Enabled(s1, c) && var s2 := Step(s1, c); Enabled(s2, c) && Enabled(Step(s2, c), c)
    ensures Run(s, [c, c, c, c], Step(Step(Step(Step(s, c), c), c), c))
  {
    var s1 := Step(s, c);
    var s2 := Step(s1, c);
    var s3 := Step(s2, c);
    var r := Step(s3, c);
    assert [c, c, c, c][1..] == [c, c, c] && [c, c, c][1..] == [c, c] && [c, c][1..] == [c] && [c][1..] == [];
    assert Run(r, [], r);
    assert Run(s3, [c], r);
    assert Run(s2, [c, c], r);
    assert Run(s1, [c, c, c], r);
  }

  // ---- what is possible ----

  /** A customer has to wait only in front of the semaphore, while as many customers as there are registers are behind
      it, and at a lock, while another customer is inside one of the two functions. */
  lemma BlockedIff(n: nat, k: nat, schedule: seq<nat>, s: State, c: nat)
    requires Run(Init(n, k), schedule, s) && c < n
    ensures |s.customers| == n && InsideCount(s.customers, n) <= k
    ensures !Enabled(s, c) <==>
              || s.customers[c].pc.Gone?
              || (s.customers[c].pc.Arrive? && InsideCount(s.customers, n) == k)
              || ((s.customers[c].pc.PopLock? || s.customers[c].pc.PushLock?)
                  && exists d :: 0 <= d < n && d != c && Locked(s.customers[d].pc))
  {
    ReachableInv(n, k, schedule, s);
    assert Locked(s.customers[c].pc) <==> s.mutex == Some(c);
    if s.mutex.Some? {
      assert Locked(s.customers[s.mutex.value].pc);
    }
  }

  lemma {:induction false} RunConcat(s: State, a: seq<nat>, t: State, b: seq<nat>, r: State)
    requires Run(s, a, t) && Run(t, b, r)
    ensures Run(s, a + b, r)
    decreases |a|
  {
    if a == [] {
      assert a + b == b;
    } else {
      RunConcat(Step(s, a[0]), a[1..], t, b, r);
      assert (a + b)[1..] == a[1..] + b;
    }
  }

  /** These customers, in this order, have got a register each, and nobody else has arrived. */
  ghost predicate Served(n: nat, k: nat, who: seq<nat>, s: State) {
    && |who| <= k && |s.customers| == n && s.registers == Init(n, k).registers
    && s.sem == k - |who| && s.top == k - 1 - |who| && s.mutex.None?
    && (forall j :: 0 <= j < |who| ==> who[j] < n && s.customers[who[j]] == Customer(PushLock, k - j))
    && forall c: nat :: c < n && c !in who ==> s.customers[c] == Customer(Arrive, 0)
  }

  lemma ServedNext(n: nat, k: nat, who: seq<nat>, s: State, c: nat, r: State)
    requires Served(n, k, who, s) && |who| < k && c < n && c !in who
    requires r == s.(sem := s.sem - 1, top := s.top - 1, customers := s.customers[c := Customer(PushLock, s.registers[s.top])])
    ensures Served(n, k, who + [c], r)
  {
    assert s.registers[s.top] == k - |who|;
  }

  lemma ServeNext(n: nat, k: nat, schedule: seq<nat>, who: seq<nat>, s: State, c: nat) returns (r: State)
    requires Run(Init(n, k), schedule, s) && Served(n, k, who, s) && |who| < k && c < n && c !in who
    ensures Run(s, [c, c, c, c, c], r) && Served(n, k, who + [c], r)
  {
    var s1 := Step(s, c);
    ReachableInv(n, k, schedule, s);
    StepInv(s, AllRegisters(k), c);
    r := PopSection(s1, AllRegisters(k), c);
    assert [c, c, c, c, c][1..] == [c, c, c, c];
    assert r.customers == s.customers[c := Customer(PushLock, s.registers[s.top])];
    ServedNext(n, k, who, s, c, r);
  }

  /** As many customers as there are registers, any of them and in any order, can hold all registers at once. */
  lemma {:induction false} AllCanBeHeld(n: nat, k: nat, who: seq<nat>) returns (schedule: seq<nat>, s: State)
    requires |who| <= k && forall j :: 0 <= j < |who| ==> who[j] < n
    requires forall i, j :: 0 <= i < j < |who| ==> who[i] != who[j]
    ensures Run(Init(n, k), schedule, s) && |s.customers| == n
    ensures forall j :: 0 <= j < |who| ==> s.customers[who[j]] == Customer(PushLock, k - j)
    ensures Served(n, k, who, s)
    decreases |who|
  {
    if who == [] {
      schedule, s := [], Init(n, k);
    } else {
      var m := |who| - 1;
      var before, t := AllCanBeHeld(n, k, who[..m]);
      s := ServeNext(n, k, before, who[..m], t, who[m]);
      schedule := before + [who[m], who[m], who[m], who[m], who[m]];
      RunConcat(Init(n, k), before, t, [who[m], who[m], who[m], who[m], who[m]], s);
      assert who[..m] + [who[m]] == who;
    }
  }

  // ---- the program itself, under an arbitrary scheduler ----

  /** One operation of customer c, on the semaphore, the mutex, the stack and the customer's own variables. */
  method MoveCustomer(sem: int, mutex: Option<nat>, checkout: Checkout, customers: array<Customer>, c: nat)
      returns (sem': int, mutex': Option<nat>)
    requires c < customers.Length
    requires AccessOk(State(sem, mutex, checkout.registers[..], checkout.top, customers[..]), c)
    modifies checkout`top, checkout.registers, customers
    ensures State(sem', mutex', checkout.registers[..], checkout.top, customers[..])
         == Step(old(State(sem, mutex, checkout.registers[..], checkout.top, customers[..])), c)
  {
    sem', mutex' := sem, mutex;
    var cust := customers[c];
    match cust.pc {
      case Arrive =>
        sem' := sem - 1;
        customers[c] := cust.(pc := PopLock);
      case PopLock =>
        mutex' := Some(c);
        customers[c] := cust.(pc := PopRead);
      case PopRead =>
        customers[c] := Customer(PopDrop, checkout.registers[checkout.top]);
      case PopDrop =>
        checkout.top := checkout.top - 1;
        customers[c] := cust.(pc := PopUnlock);
      case PopUnlock =>
        mutex' := None;
        customers[c] := cust.(pc := PushLock);
      case PushLock =>
        mutex' := Some(c);
        customers[c] := cust.(pc := PushRaise);
      case PushRaise =>
        checkout.top := checkout.top + 1;
        customers[c] := cust.(pc := PushWrite);
      case PushWrite =>
        checkout.registers[checkout.top] := cust.reg;
        customers[c] := cust.(pc := PushUnlock);
      case PushUnlock =>
        mutex' := None;
        customers[c] := cust.(pc := Post);
      case Post =>
        sem' := sem + 1;
        customers[c] := cust.(pc := Gone);
      case Gone =>
    }
  }

  /** Until nobody can move, whoever the scheduler picks makes a move. */
  method ServeCustomers(checkout: Checkout, customers: array<Customer>, semBefore: int, mutexBefore: Option<nat>,
                        ghost all: multiset<int>)
      returns (sem: int, mutex: Option<nat>)
    requires Inv(State(semBefore, mutexBefore, checkout.registers[..], checkout.top, customers[..]), all)
    modifies checkout`top, checkout.registers, customers
    ensures var s := State(sem, mutex, checkout.registers[..], checkout.top, customers[..]);
            Inv(s, all) && forall c :: 0 <= c < |s.customers| ==> !Enabled(s, c)
  {
    sem, mutex := semBefore, mutexBefore;
    while exists c :: 0 <= c < customers.Length
                      && Enabled(State(sem, mutex, checkout.registers[..], checkout.top, customers[..]), c)
      invariant Inv(State(sem, mutex, checkout.registers[..], checkout.top, customers[..]), all)
      decreases Work(customers[..], customers.Length)
    {
      var c: nat :| c < customers.Length
                    && Enabled(State(sem, mutex, checkout.registers[..], checkout.top, customers[..]), c);
      ghost var s := State(sem, mutex, checkout.registers[..], checkout.top, customers[..]);
      AccessesInBounds(s, all, c);
      StepInv(s, all, c);
      StepCounts(s, c);
      sem, mutex := MoveCustomer(sem, mutex, checkout, customers, c);
    }
  }

  /** main: n customers share k registers until all have left, whoever the scheduler picks among those not
      blocked; the semaphore, the stack pointer and the set of registers end as they began. */
  method RunCustomers(n: nat, k: nat) returns (checkout: Checkout, sem: int)
    requires k >= 1
    ensures fresh(checkout) && sem == k && checkout.top == k - 1
    ensures multiset(checkout.registers[..]) == AllRegisters(k)
  {
    checkout := new Checkout(k);
    sem := k;
    var mutex: Option<nat> := None;
    var customers := new Customer[n](_ => Customer(Arrive, 0));
    var all := AllRegisters(k);
    InitialInv(n, k);
    assert checkout.registers[..] == Init(n, k).registers by {
      assert |checkout.Stack()| == k;
      assert checkout.registers[..k] == checkout.registers[..];
    }
    assert customers[..] == Init(n, k).customers;
    sem, mutex := ServeCustomers(checkout, customers, sem, mutex, all);
    ghost var s := State(sem, mutex, checkout.registers[..], checkout.top, customers[..]);
    AllBlockedIsGone(s, k);
    AtClosing(s, k);
  }

  lemma AllBlockedIsGone(s: State, k: nat)
    requires k >= 1 && |s.registers| == k && Inv(s, AllRegisters(k))
    requires forall c :: 0 <= c < |s.customers| ==> !Enabled(s, c)
    ensures AllGone(s)
  {
    if !AllGone(s) {
      var c := NeverStuck(s, AllRegisters(k));
    }
  }
}
