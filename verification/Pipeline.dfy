/**
 * The n-stage pipe/fork/dup2/close/wait protocol as a transition system. The parent and the children
 * move in any order; each move is one system call or one loop exit.
 */
module Pipeline {
  import opened Options
  import opened Fds
  import opened Stages
  import opened Bytes

  /**
   * stages: the programs; capacity: how many bytes a pipe holds; input: what the file behind the first
   * stage's standard input delivers before end of file; entry: the caller's descriptor table;
   * sock: the socket that the remote shell puts at both ends, if any.
   */
  datatype Job = Job(stages: seq<Stage>, capacity: nat, input: seq<Byte>, entry: Table, sock: Option<nat>)

  /** What the caller must provide; the programs may be anything. */
  ghost predicate WellFormed(job: Job) {
    && |job.stages| >= 1 && job.capacity >= 1
    && 0 in job.entry && 1 in job.entry && 2 in job.entry
    && (forall fd :: fd in job.entry ==> job.entry[fd].Outer?)
    && (job.sock.Some? ==> job.sock.value in job.entry && job.sock.value > 2)
  }

  /** Moreover every program ends by itself once its input ends. */
  ghost predicate ValidJob(job: Job) {
    WellFormed(job) && forall p :: p in job.stages ==> Finite(p)
  }

  datatype ChildPc = Redirect(k: nat) | CloseEnd(c: nat) | Running(m: Memory) | Exited

  /** got and put record every byte the child has read from descriptor 0 and written to descriptor 1. */
  datatype Child = Child(table: Table, pc: ChildPc, got: seq<Byte>, put: seq<Byte>)

  datatype ParentPc = MakePipes | ForkChildren | CloseEnds(c: nat) | WaitFor(k: nat) | Returned

  datatype State = State(
    table: Table, pc: ParentPc, pipes: seq<PipeFds>, children: seq<Child>,
    queues: seq<seq<Byte>>, source: seq<Byte>, sink: seq<Byte>)

  function Init(job: Job): State {
    State(job.entry, MakePipes, [], [], [], job.input, [])
  }

  /** PipeCall carries the two descriptors the kernel picks; the other moves are deterministic. */
  datatype Move = PipeCall(r: nat, w: nat) | ParentMove | ChildMove(i: nat)

  /** The dup2 calls of child i, in order. */
  function Redirects(job: Job, pipes: seq<PipeFds>, i: nat): seq<(nat, nat)>
    requires i < |job.stages| && |pipes| == |job.stages| - 1
  {
    (if i > 0 then [(pipes[i - 1].0, 0)] else if job.sock.Some? then [(job.sock.value, 0)] else [])
    + (if i < |job.stages| - 1 then [(pipes[i].1, 1)]
       else if job.sock.Some? then [(job.sock.value, 1), (job.sock.value, 2)]
       else [])
  }

  /** Some live process, parent or child, has this end open. */
  predicate Open(s: State, e: End) {
    Holds(s.table, e) || exists i :: 0 <= i < |s.children| && Holds(s.children[i].table, e)
  }

  function EndAt(t: Table, fd: nat): Option<End> {
    if fd in t then Some(t[fd]) else None
  }

  /** write(2) blocks exactly when the pipe is full and still has a reader. */
  predicate WriteReady(job: Job, s: State, i: nat)
    requires i < |s.children|
  {
    match EndAt(s.children[i].table, 1)
    case Some(Outer(_)) => true
    case Some(WriteEnd(j)) => j < |s.queues| && (!Open(s, ReadEnd(j)) || |s.queues[j]| < job.capacity)
    case _ => false
  }

  /** read(2) blocks exactly when the pipe is empty and still has a writer. */
  predicate ReadReady(s: State, i: nat)
    requires i < |s.children|
  {
    match EndAt(s.children[i].table, 0)
    case Some(Outer(_)) => true
    case Some(ReadEnd(j)) => j < |s.queues| && (s.queues[j] != [] || !Open(s, WriteEnd(j)))
    case _ => false
  }

  predicate ChildEnabled(job: Job, s: State, i: nat) {
    && i < |s.children| && i < |job.stages| && |s.pipes| == |job.stages| - 1
    && match s.children[i].pc
       case Redirect(k) => k <= |Redirects(job, s.pipes, i)|
       case CloseEnd(c) => c <= 2 * |s.pipes|
       case Exited => false
       case Running(m) =>
         match job.stages[i].act(m)
         case Exit => true
         case Put(_, _) => WriteReady(job, s, i)
         case Get(_, _) => ReadReady(s, i)
  }

  predicate Enabled(job: Job, s: State, a: Move) {
    match a
    case PipeCall(r, w) =>
      s.pc.MakePipes? && |s.pipes| < |job.stages| - 1 && r != w && r !in s.table && w !in s.table
    case ParentMove =>
      (match s.pc
       case MakePipes => |s.pipes| == |job.stages| - 1
       case ForkChildren => true
       case CloseEnds(c) => c <= 2 * |s.pipes|
       case WaitFor(k) => k == |s.children| || (k < |s.children| && s.children[k].pc.Exited?)
       case Returned => false)
    case ChildMove(i) => ChildEnabled(job, s, i)
  }

  function ParentStep(job: Job, s: State): State
    requires s.pc.CloseEnds? ==> s.pc.c <= 2 * |s.pipes|
  {
    match s.pc
    case MakePipes => s.(pc := ForkChildren)
    case ForkChildren =>
      if |s.children| < |job.stages| then
        s.(children := s.children + [Child(s.table, Redirect(0), [], [])])
      else s.(pc := CloseEnds(0))
    case CloseEnds(c) =>
      if c < 2 * |s.pipes| then s.(table := Close(s.table, FdAt(s.pipes, c)), pc := CloseEnds(c + 1))
      else s.(pc := WaitFor(0))
    case WaitFor(k) => s.(pc := if k < |s.children| then WaitFor(k + 1) else Returned)
    case Returned => s
  }

  function SetChild(s: State, i: nat, c: Child): State
    requires i < |s.children|
  {
    s.(children := s.children[i := c])
  }

  /** The kernel closes every descriptor of a process that exits or is killed. */
  function Dead(c: Child): Child {
    c.(table := map[], pc := Exited)
  }

  /** write(2): to a pipe without readers it kills the writer. */
  function WriteStep(s: State, i: nat, b: Byte, next: Memory): State
    requires i < |s.children|
  {
    var c := s.children[i];
    var done := c.(pc := Running(next), put := c.put + [b]);
    match EndAt(c.table, 1)
    case Some(WriteEnd(j)) =>
      if !Open(s, ReadEnd(j)) then SetChild(s, i, Dead(c))
      else if j < |s.queues| then SetChild(s, i, done).(queues := s.queues[j := s.queues[j] + [b]])
      else s
    case Some(Outer(_)) => SetChild(s, i, done).(sink := s.sink + [b])
    case _ => s
  }

  /** read(2): takes a byte, or reports end of file when there is none. */
  function ReadStep(s: State, i: nat, onByte: Byte -> Memory, onEof: Memory): State
    requires i < |s.children|
  {
    var c := s.children[i];
    var eof := SetChild(s, i, c.(pc := Running(onEof)));
    match EndAt(c.table, 0)
    case Some(ReadEnd(j)) =>
      if j < |s.queues| && s.queues[j] != [] then
        var b := s.queues[j][0];
        SetChild(s, i, c.(pc := Running(onByte(b)), got := c.got + [b])).(queues := s.queues[j := s.queues[j][1..]])
      else eof
    case Some(Outer(_)) =>
      if s.source != [] then
        var b := s.source[0];
        SetChild(s, i, c.(pc := Running(onByte(b)), got := c.got + [b])).(source := s.source[1..])
      else eof
    case _ => s
  }

  function ChildStep(job: Job, s: State, i: nat): State
    requires ChildEnabled(job, s, i)
  {
    var c := s.children[i];
    match c.pc
    case Redirect(k) =>
      var dups := Redirects(job, s.pipes, i);
      SetChild(s, i, if k < |dups| then c.(table := Dup2(c.table, dups[k].0, dups[k].1), pc := Redirect(k + 1))
                     else c.(pc := CloseEnd(0)))
    case CloseEnd(k) =>
      SetChild(s, i, if k < 2 * |s.pipes| then c.(table := Close(c.table, FdAt(s.pipes, k)), pc := CloseEnd(k + 1))
                     else c.(pc := Running(job.stages[i].start)))
    case Exited => s
    case Running(m) =>
      match job.stages[i].act(m)
      case Exit => SetChild(s, i, Dead(c))
      case Put(b, next) => WriteStep(s, i, b, next)
      case Get(onByte, onEof) => ReadStep(s, i, onByte, onEof)
  }

  function Step(job: Job, s: State, a: Move): State
    requires Enabled(job, s, a)
  {
    match a
    case PipeCall(r, w) =>
      s.(table := MakePipe(s.table, r, w, |s.pipes|), pipes := s.pipes + [(r, w)], queues := s.queues + [[]])
    case ParentMove => ParentStep(job, s)
    case ChildMove(i) => ChildStep(job, s, i)
  }

  /** The schedule `moves` takes s to t. */
  ghost predicate Run(job: Job, s: State, moves: seq<Move>, t: State)
    decreases |moves|
  {
    if moves == [] then t == s
    else Enabled(job, s, moves[0]) && Run(job, Step(job, s, moves[0]), moves[1..], t)
  }

  /** The bytes that enter stage i when all stages before it are applied to the input: a specification. */
  ghost function Feed(job: Job, i: nat): seq<Byte>
    requires ValidJob(job) && i <= |job.stages|
  {
    if i == 0 then job.input else Apply(job.stages[i - 1], Feed(job, i - 1))
  }
}
