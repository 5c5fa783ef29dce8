/**
 * Every schedule is finite, also with programs that would never end by themselves, such as `yes | head | wc`: a program
 * that stops breaks the pipes before it, and the end of file that it leaves behind ends the programs after it.
 */
module PipelineTermination {
  import opened Options
  import opened Fds
  import opened Stages
  import opened Bytes
  import opened Pipeline
  import opened PipelineTables
  import opened PipelineBytes
  import opened PipelineProgress

  /** The program ends after boundedly many actions, whatever it reads. */
  ghost predicate Stops(p: Stage) {
    forall m {:trigger p.act(m)} ::
      match p.act(m)
      case Exit => true
      case Put(_, next) => p.rank(next) < p.rank(m)
      case Get(onByte, onEof) => p.rank(onEof) < p.rank(m) && forall b: Byte :: p.rank(onByte(b)) < p.rank(m)
  }

  /** The program may go on for ever, but after at most `pace` reads in a row it writes or exits. */
  ghost predicate Produces(p: Stage, pace: nat) {
    && (forall m :: p.rank(m) <= pace)
    && forall m {:trigger p.act(m)} ::
         match p.act(m)
         case Exit => true
         case Put(_, _) => true
         case Get(onByte, onEof) => p.rank(onEof) < p.rank(m) && forall b: Byte :: p.rank(onByte(b)) < p.rank(m)
  }

  datatype Kind = Stopper | Filter | Producer

  /** What each program is, and how many reads in a row a producer may make. */
  datatype Plan = Plan(kinds: seq<Kind>, pace: nat)

  ghost predicate Is(p: Stage, kind: Kind, pace: nat) {
    match kind
    case Stopper => Stops(p)
    case Filter => Finite(p)
    case Producer => Produces(p, pace)
  }

  /** A producer needs somebody behind it who does not wait for it to end: a stopper, or a producer likewise placed. */
  predicate PlanFits(job: Job, plan: Plan) {
    && |plan.kinds| == |job.stages|
    && forall i :: 0 <= i < |plan.kinds| && plan.kinds[i].Producer? ==> i + 1 < |plan.kinds| && !plan.kinds[i + 1].Filter?
  }

  ghost predicate Bounded(job: Job, plan: Plan) {
    && WellFormed(job) && PlanFits(job, plan)
    && forall i :: 0 <= i < |job.stages| ==> Is(job.stages[i], plan.kinds[i], plan.pace)
  }

  // ---- the longest that a filter can go on ----

  function Max(a: nat, b: nat): nat {
    if a < b then b else a
  }

  /** The most actions the program can take, the exit included, when at most `left` more bytes arrive. */
  ghost function Longest(p: Stage, m: Memory, left: nat): nat
    requires Finite(p)
    decreases left, 0, p.rank(m)
  {
    1 + match p.act(m)
        case Exit => 0
        case Put(_, next) => Longest(p, next, left)
        case Get(onByte, onEof) =>
          Max(Longest(p, onEof, left), if left == 0 then 0 else LongestAfter(p, onByte, left - 1, 0x100))
  }

  /** The same after reading one of the first `count` byte values. */
  ghost function LongestAfter(p: Stage, onByte: Byte -> Memory, left: nat, count: nat): nat
    requires Finite(p) && count <= 0x100
    decreases left, 1, count
  {
    if count == 0 then 0
    else Max(Longest(p, onByte(count - 1), left), LongestAfter(p, onByte, left, count - 1))
  }

  lemma {:induction false} LongestCovers(p: Stage, onByte: Byte -> Memory, left: nat, count: nat, b: Byte)
    requires Finite(p) && b < count <= 0x100
    ensures Longest(p, onByte(b), left) <= LongestAfter(p, onByte, left, count)
    decreases count
  {
    if b < count - 1 {
      LongestCovers(p, onByte, left, count - 1, b);
    }
  }

  lemma {:induction false} LongestMonotone(p: Stage, m: Memory, fewer: nat, left: nat)
    requires Finite(p) && fewer <= left
    ensures Longest(p, m, fewer) <= Longest(p, m, left)
    decreases left, 0, p.rank(m)
  {
    match p.act(m) {
      case Exit =>
      case Put(_, next) => LongestMonotone(p, next, fewer, left);
      case Get(onByte, onEof) =>
        LongestMonotone(p, onEof, fewer, left);
        if fewer > 0 {
          LongestAfterMonotone(p, onByte, fewer - 1, left - 1, 0x100);
        }
    }
  }

  lemma {:induction false} LongestAfterMonotone(p: Stage, onByte: Byte -> Memory, fewer: nat, left: nat, count: nat)
    requires Finite(p) && fewer <= left && count <= 0x100
    ensures LongestAfter(p, onByte, fewer, count) <= LongestAfter(p, onByte, left, count)
    decreases left, 1, count
  {
    if count > 0 {
      LongestMonotone(p, onByte(count - 1), fewer, left);
      LongestAfterMonotone(p, onByte, fewer, left, count - 1);
    }
  }

  // ---- the measure ----

  /** What program i still has to run from; nothing once it has exited. */
  function Resume(job: Job, s: State, i: nat): Option<Memory>
    requires i < |job.stages|
  {
    if i >= |s.children| then Some(job.stages[i].start)
    else match s.children[i].pc
      case Exited => None
      case Running(m) => Some(m)
      case _ => Some(job.stages[i].start)
  }

  /** Bytes that lie ready for stage i. */
  function Supply(s: State, i: nat): nat {
    if i == 0 then |s.source| else if i - 1 < |s.queues| then |s.queues[i - 1]| else 0
  }

  /** Bytes that the pipe behind stage i can still take without being read. */
  function Room(job: Job, s: State, i: nat): nat {
    if Supply(s, i + 1) < job.capacity then job.capacity - Supply(s, i + 1) else 0
  }

  /** The actions left to a producer that may still write `slack` bytes. */
  function Allowance(rank: nat, pace: nat, slack: nat): (r: nat)
    ensures r > rank
  {
    rank + 1 + (slack + 1) * (pace + 2)
  }

  /** A filter depends on the stage before it, a producer on the stage behind it. */
  function Depth(plan: Plan, i: nat): nat
    requires i < |plan.kinds|
  {
    match plan.kinds[i]
    case Stopper => 0
    case Filter => i + 1
    case Producer => |plan.kinds| - i
  }

  /** The actions left to program i. */
  ghost function Budget(job: Job, plan: Plan, s: State, i: nat): nat
    requires Bounded(job, plan) && i < |job.stages|
    decreases Depth(plan, i)
  {
    match Resume(job, s, i)
    case None => 0
    case Some(m) =>
      match plan.kinds[i]
      case Stopper => job.stages[i].rank(m) + 1
      case Filter => Longest(job.stages[i], m, Supply(s, i) + if i == 0 then 0 else Budget(job, plan, s, i - 1))
      case Producer => Allowance(job.stages[i].rank(m), plan.pace, Room(job, s, i) + Budget(job, plan, s, i + 1))
  }

  function Left(total: nat, done: nat): nat {
    if done < total then total - done else 0
  }

  /** dup2 and close calls and loop exits that child i still makes before it runs its program. */
  function Plumbing(job: Job, s: State, i: nat): nat {
    var n := |job.stages|;
    if i >= |s.children| then 4 + (2 * n + 1)
    else match s.children[i].pc
      case Redirect(k) => Left(3, k) + 1 + (2 * n + 1)
      case CloseEnd(c) => Left(2 * n, c) + 1
      case _ => 0
  }

  ghost function Total(job: Job, plan: Plan, s: State, i: nat): nat
    requires Bounded(job, plan) && i <= |job.stages|
    decreases |job.stages| - i
  {
    if i == |job.stages| then 0 else Plumbing(job, s, i) + Budget(job, plan, s, i) + Total(job, plan, s, i + 1)
  }

  function ParentWork(job: Job, s: State): nat {
    var n := |job.stages|;
    match s.pc
    case MakePipes => Left(n, |s.pipes|) + (n + 1) + (2 * n + 1) + (n + 2)
    case ForkChildren => Left(n, |s.children|) + 1 + (2 * n + 1) + (n + 2)
    case CloseEnds(c) => Left(2 * n, c) + 1 + (n + 2)
    case WaitFor(k) => Left(n, k) + 1
    case Returned => 0
  }

  /** A bound on the moves that can still follow. */
  ghost function Bound(job: Job, plan: Plan, s: State): nat
    requires Bounded(job, plan)
  {
    ParentWork(job, s) + Total(job, plan, s, 0)
  }

  // ---- what one move does to programs and pipes ----

  /** Of all stages, only stage c got on, by one action: it ended, wrote a byte, read a byte or saw the end of file. */
  ghost predicate RanOnce(job: Job, s: State, c: nat, m: Memory, t: State)
    requires c < |job.stages|
  {
    var a := job.stages[c].act(m);
    && Resume(job, s, c) == Some(m)
    && (forall j :: 0 <= j < |job.stages| && j != c ==> Resume(job, t, j) == Resume(job, s, j))
    && (forall j :: 0 <= j < |job.stages| && j != c && j != c + 1 ==> Supply(t, j) == Supply(s, j))
    && match Resume(job, t, c)
       case None => Supply(t, c) == Supply(s, c) && Supply(t, c + 1) == Supply(s, c + 1)
       case Some(next) =>
         if a.Put? then
           && next == a.next && Supply(t, c) == Supply(s, c)
           && (c < |job.stages| - 1 ==> Supply(t, c + 1) == Supply(s, c + 1) + 1 <= job.capacity)
         else
           && a.Get? && Supply(t, c + 1) == Supply(s, c + 1)
           && ((next == a.onEof && Supply(t, c) == Supply(s, c)) || (ReadByte(a, next) && Supply(t, c) + 1 == Supply(s, c)))
  }

  ghost predicate ReadByte(a: Action, next: Memory)
    requires a.Get?
  {
    exists b: Byte :: next == a.onByte(b)
  }

  lemma PutEffect(job: Job, s: State, c: nat, m: Memory)
    requires WellFormed(job) && TablesOk(job, s) && ChildEnabled(job, s, c) && s.children[c].pc == Running(m)
    requires job.stages[c].act(m).Put?
    ensures RanOnce(job, s, c, m, ChildStep(job, s, c))
  {
    RunningEnds(job, s, c);
    if c < |job.stages| - 1 && !Open(s, ReadEnd(c)) {
      KilledIsQuiet(job, s, c, m);
    } else {
      PutGivesByte(job, s, c, m, job.stages[c].act(m).b, job.stages[c].act(m).next);
    }
  }

  lemma ReadEffect(job: Job, s: State, c: nat, m: Memory)
    requires WellFormed(job) && TablesOk(job, s) && ChildEnabled(job, s, c) && s.children[c].pc == Running(m)
    requires job.stages[c].act(m).Get? && 0 < c && c - 1 < |s.queues| && s.queues[c - 1] != []
    ensures RanOnce(job, s, c, m, ChildStep(job, s, c))
  {
    RunningEnds(job, s, c);
    PipeReadTakesByte(job, s, c, m);
    assert ChildStep(job, s, c).children[c].pc.m == job.stages[c].act(m).onByte(s.queues[c - 1][0]);
  }

  lemma GetEffect(job: Job, s: State, c: nat, m: Memory)
    requires WellFormed(job) && TablesOk(job, s) && ChildEnabled(job, s, c) && s.children[c].pc == Running(m)
    requires job.stages[c].act(m).Get?
    ensures RanOnce(job, s, c, m, ChildStep(job, s, c))
  {
    RunningEnds(job, s, c);
    if NoInput(s, c) {
      EofIsQuiet(job, s, c, m);
    } else if c == 0 {
      SourceReadTakesByte(job, s, m);
      assert ChildStep(job, s, 0).children[0].pc.m == job.stages[0].act(m).onByte(s.source[0]);
    } else {
      ReadEffect(job, s, c, m);
    }
  }

  lemma RunningEffect(job: Job, s: State, c: nat, m: Memory)
    requires WellFormed(job) && TablesOk(job, s) && ChildEnabled(job, s, c) && s.children[c].pc == Running(m)
    ensures RanOnce(job, s, c, m, ChildStep(job, s, c))
  {
    match job.stages[c].act(m) {
      case Exit => RunningEnds(job, s, c);
      case Put(_, _) => PutEffect(job, s, c, m);
      case Get(_, _) => GetEffect(job, s, c, m);
    }
  }

  // ---- the budgets of the stages that did not move ----

  lemma {:induction false} SameBudget(job: Job, plan: Plan, s: State, t: State, i: nat)
    requires Bounded(job, plan) && i < |job.stages|
    requires forall j :: 0 <= j < |job.stages| ==> Resume(job, t, j) == Resume(job, s, j) && Supply(t, j) == Supply(s, j)
    ensures Budget(job, plan, t, i) == Budget(job, plan, s, i)
    decreases Depth(plan, i)
  {
    if plan.kinds[i].Filter? && i > 0 {
      SameBudget(job, plan, s, t, i - 1);
    } else if plan.kinds[i].Producer? {
      SameBudget(job, plan, s, t, i + 1);
    }
  }

  /** Before the stage that moved, only producers notice. */
  lemma {:induction false} SameBefore(job: Job, plan: Plan, s: State, c: nat, m: Memory, t: State, i: nat)
    requires Bounded(job, plan) && i < c < |job.stages| && RanOnce(job, s, c, m, t) && !plan.kinds[i].Producer?
    ensures Budget(job, plan, t, i) == Budget(job, plan, s, i)
    decreases i
  {
    if plan.kinds[i].Filter? && i > 0 {
      SameBefore(job, plan, s, c, m, t, i - 1);
    }
  }

  /** Behind it, only filters do. */
  lemma {:induction false} SameBehind(job: Job, plan: Plan, s: State, c: nat, m: Memory, t: State, i: nat)
    requires Bounded(job, plan) && c < i < |job.stages| && RanOnce(job, s, c, m, t) && !plan.kinds[i].Filter?
    ensures Budget(job, plan, t, i) == Budget(job, plan, s, i)
    decreases |job.stages| - i
  {
    if plan.kinds[i].Producer? {
      SameBehind(job, plan, s, c, m, t, i + 1);
    }
  }

  lemma Smaller(a: nat, b: nat, c: nat)
    requires a <= b
    ensures a * c <= b * c
  {
  }

  lemma AllowanceMonotone(rank: nat, pace: nat, less: nat, slack: nat)
    requires less <= slack
    ensures Allowance(rank, pace, less) <= Allowance(rank, pace, slack)
  {
    Smaller(less + 1, slack + 1, pace + 2);
  }

  /** What the stage that moved gave up in actions makes up for the room it made. */
  lemma {:induction false} NotMoreBefore(job: Job, plan: Plan, s: State, c: nat, m: Memory, t: State, i: nat)
    requires Bounded(job, plan) && i < c < |job.stages| && RanOnce(job, s, c, m, t)
    requires Budget(job, plan, t, c) < Budget(job, plan, s, c)
    ensures Budget(job, plan, t, i) <= Budget(job, plan, s, i)
    decreases c - i
  {
    if !plan.kinds[i].Producer? {
      SameBefore(job, plan, s, c, m, t, i);
    } else {
      if i + 1 < c {
        NotMoreBefore(job, plan, s, c, m, t, i + 1);
      }
      if Resume(job, s, i).Some? {
        AllowanceMonotone(job.stages[i].rank(Resume(job, s, i).value), plan.pace,
                          Room(job, t, i) + Budget(job, plan, t, i + 1), Room(job, s, i) + Budget(job, plan, s, i + 1));
      }
    }
  }

  /** Likewise for the bytes it wrote. */
  lemma {:induction false} NotMoreBehind(job: Job, plan: Plan, s: State, c: nat, m: Memory, t: State, i: nat)
    requires Bounded(job, plan) && c < i < |job.stages| && RanOnce(job, s, c, m, t)
    requires Budget(job, plan, t, c) < Budget(job, plan, s, c)
    ensures Budget(job, plan, t, i) <= Budget(job, plan, s, i)
    decreases i
  {
    if !plan.kinds[i].Filter? {
      SameBehind(job, plan, s, c, m, t, i);
    } else {
      if c < i - 1 {
        NotMoreBehind(job, plan, s, c, m, t, i - 1);
      }
      if Resume(job, s, i).Some? {
        LongestMonotone(job.stages[i], Resume(job, s, i).value, Supply(t, i) + Budget(job, plan, t, i - 1),
                        Supply(s, i) + Budget(job, plan, s, i - 1));
      }
    }
  }

  // ---- the budget of the stage that moved ----

  lemma StopperCosts(job: Job, plan: Plan, s: State, c: nat, m: Memory, t: State)
    requires Bounded(job, plan) && c < |job.stages| && plan.kinds[c].Stopper? && RanOnce(job, s, c, m, t)
    ensures Budget(job, plan, t, c) < Budget(job, plan, s, c)
  {
    assert Is(job.stages[c], Stopper, plan.pace);
  }

  /** A write resets the program's pace, but it fills the pipe. */
  lemma ProducerActs(p: Stage, pace: nat, m: Memory, next: Memory, slack: nat, slack': nat)
    requires Produces(p, pace)
    requires match p.act(m)
             case Exit => false
             case Put(_, after) => next == after && slack' + 1 == slack
             case Get(_, onEof) => (next == onEof || ReadByte(p.act(m), next)) && slack' == slack
    ensures Allowance(p.rank(next), pace, slack') < Allowance(p.rank(m), pace, slack)
  {
    if p.act(m).Put? {
      assert p.rank(next) <= pace;
      assert (slack + 1) * (pace + 2) == (slack' + 1) * (pace + 2) + (pace + 2);
    } else {
      assert p.rank(next) < p.rank(m);
    }
  }

  lemma ProducerCosts(job: Job, plan: Plan, s: State, c: nat, m: Memory, t: State)
    requires Bounded(job, plan) && c < |job.stages| && plan.kinds[c].Producer? && RanOnce(job, s, c, m, t)
    ensures Budget(job, plan, t, c) < Budget(job, plan, s, c)
  {
    assert Is(job.stages[c], Producer, plan.pace);
    SameBehind(job, plan, s, c, m, t, c + 1);
    if Resume(job, t, c).Some? {
      var reader := Budget(job, plan, s, c + 1);
      ProducerActs(job.stages[c], plan.pace, m, Resume(job, t, c).value, Room(job, s, c) + reader, Room(job, t, c) + reader);
    }
  }

  /** An action brings a filter nearer to its end, however many of the bytes before it arrive. */
  lemma FilterActs(p: Stage, m: Memory, next: Memory, left: nat, left': nat)
    requires Finite(p)
    requires match p.act(m)
             case Exit => false
             case Put(_, after) => next == after && left' == left
             case Get(_, onEof) => (next == onEof && left' == left) || (ReadByte(p.act(m), next) && left' + 1 == left)
    ensures Longest(p, next, left') < Longest(p, m, left)
  {
    if p.act(m).Get? && left' + 1 == left {
      var b: Byte :| next == p.act(m).onByte(b);
      LongestCovers(p, p.act(m).onByte, left', 0x100, b);
    }
  }

  lemma FilterCosts(job: Job, plan: Plan, s: State, c: nat, m: Memory, t: State)
    requires Bounded(job, plan) && c < |job.stages| && plan.kinds[c].Filter? && RanOnce(job, s, c, m, t)
    ensures Budget(job, plan, t, c) < Budget(job, plan, s, c)
  {
    assert Is(job.stages[c], Filter, plan.pace);
    if c > 0 {
      SameBefore(job, plan, s, c, m, t, c - 1);
    }
    if Resume(job, t, c).Some? {
      var before := if c == 0 then 0 else Budget(job, plan, s, c - 1);
      FilterActs(job.stages[c], m, Resume(job, t, c).value, Supply(s, c) + before, Supply(t, c) + before);
    }
  }

  // ---- every move lowers the bound ----

  lemma {:induction false} NotMoreTotal(job: Job, plan: Plan, s: State, t: State, i: nat)
    requires Bounded(job, plan) && i <= |job.stages|
    requires forall j :: i <= j < |job.stages| ==> Budget(job, plan, t, j) <= Budget(job, plan, s, j)
    requires forall j :: i <= j < |job.stages| ==> Plumbing(job, t, j) <= Plumbing(job, s, j)
    ensures Total(job, plan, t, i) <= Total(job, plan, s, i)
    decreases |job.stages| - i
  {
    if i < |job.stages| {
      NotMoreTotal(job, plan, s, t, i + 1);
    }
  }

  lemma {:induction false} LessTotal(job: Job, plan: Plan, s: State, t: State, i: nat, c: nat)
    requires Bounded(job, plan) && i <= c < |job.stages|
    requires forall j :: i <= j < |job.stages| ==> Budget(job, plan, t, j) <= Budget(job, plan, s, j)
    requires forall j :: i <= j < |job.stages| ==> Plumbing(job, t, j) <= Plumbing(job, s, j)
    requires Budget(job, plan, t, c) + Plumbing(job, t, c) < Budget(job, plan, s, c) + Plumbing(job, s, c)
    ensures Total(job, plan, t, i) < Total(job, plan, s, i)
    decreases |job.stages| - i
  {
    if i < c {
      LessTotal(job, plan, s, t, i + 1, c);
    } else {
      NotMoreTotal(job, plan, s, t, i + 1);
    }
  }

  lemma PlumbingCosts(job: Job, s: State, c: nat)
    requires WellFormed(job) && TablesOk(job, s)
    requires ChildEnabled(job, s, c) && !s.children[c].pc.Running?
    ensures var t := ChildStep(job, s, c);
            && Plumbing(job, t, c) < Plumbing(job, s, c) && t.queues == s.queues && t.source == s.source
            && Resume(job, t, c) == Resume(job, s, c)
  {
    assert ChildTableOk(job, s, c);
  }

  lemma PlumbingMove(job: Job, plan: Plan, s: State, c: nat)
    requires Bounded(job, plan) && TablesOk(job, s)
    requires ChildEnabled(job, s, c) && !s.children[c].pc.Running?
    ensures Total(job, plan, ChildStep(job, s, c), 0) < Total(job, plan, s, 0)
  {
    var t := ChildStep(job, s, c);
    OthersUntouched(job, s, c);
    PlumbingCosts(job, s, c);
    forall i | 0 <= i < |job.stages| ensures Budget(job, plan, t, i) == Budget(job, plan, s, i) {
      SameBudget(job, plan, s, t, i);
    }
    LessTotal(job, plan, s, t, 0, c);
  }

  lemma ProgramMove(job: Job, plan: Plan, s: State, c: nat, m: Memory, t: State)
    requires Bounded(job, plan) && c < |job.stages| && RanOnce(job, s, c, m, t)
    requires forall j :: 0 <= j < |job.stages| ==> Plumbing(job, t, j) == Plumbing(job, s, j)
    ensures Total(job, plan, t, 0) < Total(job, plan, s, 0)
  {
    match plan.kinds[c] {
      case Stopper => StopperCosts(job, plan, s, c, m, t);
      case Filter => FilterCosts(job, plan, s, c, m, t);
      case Producer => ProducerCosts(job, plan, s, c, m, t);
    }
    forall i | 0 <= i < |job.stages| ensures Budget(job, plan, t, i) <= Budget(job, plan, s, i) {
      if i < c {
        NotMoreBefore(job, plan, s, c, m, t, i);
      } else if i > c {
        NotMoreBehind(job, plan, s, c, m, t, i);
      }
    }
    LessTotal(job, plan, s, t, 0, c);
  }

  lemma ChildCosts(job: Job, plan: Plan, s: State, c: nat)
    requires Bounded(job, plan) && TablesOk(job, s) && ChildEnabled(job, s, c)
    ensures Bound(job, plan, ChildStep(job, s, c)) < Bound(job, plan, s)
  {
    OthersUntouched(job, s, c);
    if s.children[c].pc.Running? {
      RunningEffect(job, s, c, s.children[c].pc.m);
      RunningPlumbing(job, s, c);
      ProgramMove(job, plan, s, c, s.children[c].pc.m, ChildStep(job, s, c));
    } else {
      PlumbingMove(job, plan, s, c);
    }
  }

  lemma RunningPlumbing(job: Job, s: State, c: nat)
    requires WellFormed(job) && TablesOk(job, s) && ChildEnabled(job, s, c) && s.children[c].pc.Running?
    ensures forall j :: 0 <= j < |job.stages| ==> Plumbing(job, ChildStep(job, s, c), j) == Plumbing(job, s, j)
  {
    RunningEnds(job, s, c);
    OthersUntouched(job, s, c);
  }

  /** A new pipe is empty, and a new child has everything before it. */
  lemma ParentLeaves(job: Job, s: State, a: Move)
    requires WellFormed(job) && TablesOk(job, s) && Enabled(job, s, a) && !a.ChildMove?
    ensures var t := Step(job, s, a);
            forall j :: 0 <= j < |job.stages| ==>
              Resume(job, t, j) == Resume(job, s, j) && Supply(t, j) == Supply(s, j) && Plumbing(job, t, j) == Plumbing(job, s, j)
  {
  }

  lemma ParentWorkDrops(job: Job, s: State, a: Move)
    requires WellFormed(job) && TablesOk(job, s) && Enabled(job, s, a) && !a.ChildMove?
    ensures ParentWork(job, Step(job, s, a)) < ParentWork(job, s)
  {
  }

  lemma ParentCosts(job: Job, plan: Plan, s: State, a: Move)
    requires Bounded(job, plan) && TablesOk(job, s) && Enabled(job, s, a) && !a.ChildMove?
    ensures Bound(job, plan, Step(job, s, a)) < Bound(job, plan, s)
  {
    var t := Step(job, s, a);
    ParentWorkDrops(job, s, a);
    ParentLeaves(job, s, a);
    forall i | 0 <= i < |job.stages| ensures Budget(job, plan, t, i) == Budget(job, plan, s, i) {
      SameBudget(job, plan, s, t, i);
    }
    NotMoreTotal(job, plan, s, t, 0);
  }

  lemma StepCosts(job: Job, plan: Plan, s: State, a: Move)
    requires Bounded(job, plan) && TablesOk(job, s) && Enabled(job, s, a)
    ensures Bound(job, plan, Step(job, s, a)) < Bound(job, plan, s)
  {
    if a.ChildMove? {
      ChildCosts(job, plan, s, a.i);
    } else {
      ParentCosts(job, plan, s, a);
    }
  }

  lemma {:induction false} RunCosts(job: Job, plan: Plan, s: State, moves: seq<Move>, t: State)
    requires Bounded(job, plan) && TablesOk(job, s) && Run(job, s, moves, t)
    ensures |moves| + Bound(job, plan, t) <= Bound(job, plan, s)
    decreases |moves|
  {
    if moves == [] {
    } else {
      StepTables(job, s, moves[0]);
      StepCosts(job, plan, s, moves[0]);
      RunCosts(job, plan, Step(job, s, moves[0]), moves[1..], t);
    }
  }

  // ---- main results ----

  /** No schedule is longer than Bound(job, plan, Init(job)), and one that cannot be extended has returned, with every
      child waited for and the caller's table as on entry. */
  lemma PipelineTerminates(job: Job, plan: Plan, moves: seq<Move>, s: State)
    requires Bounded(job, plan) && Run(job, Init(job), moves, s)
    ensures |moves| <= Bound(job, plan, Init(job))
    ensures s.pc.Returned? || exists a :: Enabled(job, s, a)
    ensures s.pc.Returned? ==> s.table == job.entry && |s.children| == |job.stages|
    ensures s.pc.Returned? ==> forall i :: 0 <= i < |s.children| ==> s.children[i].pc.Exited?
  {
    InitTables(job);
    RunTables(job, Init(job), moves, s);
    RunCosts(job, plan, Init(job), moves, s);
    if !s.pc.Returned? {
      PipelineNeverDeadlocks(job, moves, s);
    }
  }

  /** The plan of a job whose programs all end once their input has ended. */
  function AllFilters(n: nat): Plan {
    Plan(seq(n, _ => Filter), 0)
  }

  lemma FiltersAreBounded(job: Job)
    requires ValidJob(job)
    ensures Bounded(job, AllFilters(|job.stages|))
  {
    forall i | 0 <= i < |job.stages| ensures Is(job.stages[i], Filter, 0) {
      assert job.stages[i] in job.stages;
    }
  }

  // ---- examples: yes | head | wc, and yes | wc ----

  /** Writes the same byte for ever. */
  const YES: Stage := Stage(0, m => Put(121, 0), m => 0)

  /** Reads up to k bytes and exits. */
  function Head(k: nat): Stage {
    Stage(k, m => if m <= 0 then Exit else Get(_ => m - 1, 0), m => if m < 0 then 0 else m)
  }

  /** Reads everything and exits. */
  const DRAIN: Stage := Stage(0, m => if m == 0 then Get(_ => 0, 1) else Exit, m => if m == 0 then 1 else 0)

  /** The first program never ends by itself, yet the pipeline does. */
  lemma YesHeadIsBounded(job: Job, k: nat, counter: Stage)
    requires WellFormed(job) && job.stages == [YES, Head(k), counter] && Finite(counter)
    ensures Bounded(job, Plan([Producer, Stopper, Filter], 0)) && !ValidJob(job)
  {
    var plan := Plan([Producer, Stopper, Filter], 0);
    assert Stops(Head(k)) && Produces(YES, 0);
    assert YES.act(0) == Put(121, 0);
    assert !Finite(YES) && YES in job.stages;
    forall i | 0 <= i < |job.stages| ensures Is(job.stages[i], plan.kinds[i], plan.pace) {
      assert i == 0 || i == 1 || i == 2;
    }
  }

  /** No program of `yes | drain` has exited or decided to. */
  predicate AllGoOn(s: State) {
    forall i :: 0 <= i < |s.children| ==> !s.children[i].pc.Exited? && (s.children[i].pc.Running? ==> s.children[i].pc.m == 0)
  }

  /** The one is never killed while the other reads, and the other sees no end of file while the one writes. */
  lemma ChildGoesOn(job: Job, s: State, i: nat)
    requires WellFormed(job) && job.stages == [YES, DRAIN] && TablesOk(job, s) && AllGoOn(s) && ChildEnabled(job, s, i)
    ensures AllGoOn(ChildStep(job, s, i))
  {
    OthersUntouched(job, s, i);
    if s.children[i].pc.Running? {
      RunningEnds(job, s, i);
      if i == 0 {
        ReaderOpen(job, s, 0);
        PutGivesByte(job, s, 0, 0, 121, 0);
      } else {
        WriterOpen(job, s, 1);
        PipeReadTakesByte(job, s, 1, 0);
      }
    }
  }

  /** A producer in front of a filter runs for ever: `PlanFits` excludes no more than it must. */
  lemma {:induction false} YesDrainNeverEnds(job: Job, s: State, k: nat) returns (moves: seq<Move>, t: State)
    requires WellFormed(job) && job.stages == [YES, DRAIN] && TablesOk(job, s) && AllGoOn(s)
    ensures Run(job, s, moves, t) && |moves| == k && !t.pc.Returned?
    decreases k
  {
    assert |s.children| > 0 ==> !s.children[0].pc.Exited?;
    if k == 0 {
      moves, t := [], s;
    } else {
      var a := NeverStuck(job, s);
      StepTables(job, s, a);
      if a.ChildMove? {
        ChildGoesOn(job, s, a.i);
      }
      var rest;
      rest, t := YesDrainNeverEnds(job, Step(job, s, a), k - 1);
      moves := [a] + rest;
    }
  }

  /** A producer in front of a filter, although the one produces and the other ends with its input: schedules of any
      length exist. */
  lemma ProducerNeedsStopper(job: Job, k: nat)
    requires WellFormed(job) && job.stages == [YES, DRAIN]
    ensures Produces(job.stages[0], 0) && Finite(job.stages[1])
    ensures exists moves, s :: Run(job, Init(job), moves, s) && |moves| == k && !s.pc.Returned?
  {
    InitTables(job);
    var moves, s := YesDrainNeverEnds(job, Init(job), k);
  }
}
