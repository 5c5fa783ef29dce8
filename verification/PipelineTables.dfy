/** Which descriptors every process of the pipeline holds at every point of every run. */
module PipelineTables {
  import opened Options
  import opened Fds
  import opened Pipeline

  ghost predicate Shape(job: Job, s: State)
    requires WellFormed(job)
  {
    && |s.pipes| <= |job.stages| - 1 && |s.queues| == |s.pipes| && |s.children| <= |job.stages|
    && FreshPipes(job.entry, s.pipes)
    && (s.pc.MakePipes? ==> s.children == [])
    && (!s.pc.MakePipes? ==> |s.pipes| == |job.stages| - 1)
    && (!s.pc.MakePipes? && !s.pc.ForkChildren? ==> |s.children| == |job.stages|)
    && (s.pc.CloseEnds? ==> s.pc.c <= 2 * |s.pipes|)
    && (s.pc.WaitFor? ==> s.pc.k <= |s.children| && forall i :: 0 <= i < s.pc.k ==> s.children[i].pc.Exited?)
    && (s.pc.Returned? ==> forall i :: 0 <= i < |s.children| ==> s.children[i].pc.Exited?)
  }

  function ParentTable(job: Job, s: State): Table
    requires s.pc.CloseEnds? ==> s.pc.c <= 2 * |s.pipes|
  {
    match s.pc
    case MakePipes => WithPipes(job.entry, s.pipes)
    case ForkChildren => WithPipes(job.entry, s.pipes)
    case CloseEnds(c) => WithPipes(job.entry, s.pipes) - Closed(s.pipes, c)
    case WaitFor(_) => job.entry
    case Returned => job.entry
  }

  function ApplyDups(t: Table, dups: seq<(nat, nat)>): Table {
    if dups == [] then t
    else var k := |dups| - 1; Dup2(ApplyDups(t, dups[..k]), dups[k].0, dups[k].1)
  }

  function StdinEnd(job: Job, i: nat): End
    requires WellFormed(job)
  {
    if i > 0 then ReadEnd(i - 1) else job.entry[if job.sock.Some? then job.sock.value else 0]
  }

  function StdoutEnd(job: Job, i: nat): End
    requires WellFormed(job)
  {
    if i < |job.stages| - 1 then WriteEnd(i) else job.entry[if job.sock.Some? then job.sock.value else 1]
  }

  function StderrEnd(job: Job, i: nat): End
    requires WellFormed(job)
  {
    job.entry[if i == |job.stages| - 1 && job.sock.Some? then job.sock.value else 2]
  }

  /** A table with the three standard descriptors of child i in place. */
  function Wire(job: Job, t: Table, i: nat): Table
    requires WellFormed(job)
  {
    t[0 := StdinEnd(job, i)][1 := StdoutEnd(job, i)][2 := StderrEnd(job, i)]
  }

  function ChildTable(job: Job, pipes: seq<PipeFds>, i: nat, pc: ChildPc): Table
    requires WellFormed(job) && |pipes| == |job.stages| - 1 && i < |job.stages|
    requires pc.Redirect? ==> pc.k <= |Redirects(job, pipes, i)|
    requires pc.CloseEnd? ==> pc.c <= 2 * |pipes|
  {
    match pc
    case Redirect(k) => ApplyDups(WithPipes(job.entry, pipes), Redirects(job, pipes, i)[..k])
    case CloseEnd(c) => Wire(job, WithPipes(job.entry, pipes), i) - Closed(pipes, c)
    case Running(_) => Wire(job, job.entry, i)
    case Exited => map[]
  }

  ghost predicate ChildTableOk(job: Job, s: State, i: nat)
    requires WellFormed(job) && i < |s.children|
  {
    var c := s.children[i];
    && |s.pipes| == |job.stages| - 1 && i < |job.stages|
    && (c.pc.Redirect? ==> c.pc.k <= |Redirects(job, s.pipes, i)|)
    && (c.pc.CloseEnd? ==> c.pc.c <= 2 * |s.pipes|)
    && c.table == ChildTable(job, s.pipes, i, c.pc)
  }

  ghost predicate TablesOk(job: Job, s: State)
    requires WellFormed(job)
  {
    && Shape(job, s)
    && s.table == ParentTable(job, s)
    && forall i :: 0 <= i < |s.children| ==> ChildTableOk(job, s, i)
  }

  // ---- the child's plumbing ----

  /** dup2 touches the three standard descriptors only; no pipe descriptor is one of them. */
  lemma {:induction false} ApplyDupsFrame(t: Table, dups: seq<(nat, nat)>, fd: nat)
    requires forall d :: d in dups ==> d.1 <= 2
    requires fd > 2
    ensures fd in ApplyDups(t, dups) <==> fd in t
    ensures fd in t ==> ApplyDups(t, dups)[fd] == t[fd]
  {
    if dups != [] {
      ApplyDupsFrame(t, dups[..|dups| - 1], fd);
    }
  }

  lemma PipeFdAbove2(job: Job, pipes: seq<PipeFds>, k: nat)
    requires WellFormed(job) && FreshPipes(job.entry, pipes) && k < |pipes|
    ensures pipes[k].0 > 2 && pipes[k].1 > 2
  {
    WithPipesKeys(job.entry, pipes);
    ClosedEnds(pipes, k);
  }

  /** The dup2 call for standard input, if there is one. */
  lemma RedirectIn(job: Job, pipes: seq<PipeFds>, i: nat, dups: seq<(nat, nat)>)
    requires WellFormed(job) && FreshPipes(job.entry, pipes) && |pipes| == |job.stages| - 1 && i < |job.stages|
    requires dups == if i > 0 then [(pipes[i - 1].0, 0)] else if job.sock.Some? then [(job.sock.value, 0)] else []
    ensures ApplyDups(WithPipes(job.entry, pipes), dups) == WithPipes(job.entry, pipes)[0 := StdinEnd(job, i)]
  {
    WithPipesKeys(job.entry, pipes);
    if i > 0 {
      WithPipesEnds(job.entry, pipes, i - 1);
    }
    if dups != [] {
      assert dups[..0] == [];
    }
  }

  lemma ApplyDupsLast(t: Table, dups: seq<(nat, nat)>, d: (nat, nat))
    ensures ApplyDups(t, dups + [d]) == Dup2(ApplyDups(t, dups), d.0, d.1)
  {
    assert (dups + [d])[..|dups|] == dups;
  }

  /** The dup2 call for standard output, for all but the last child. */
  lemma RedirectOutToPipe(job: Job, pipes: seq<PipeFds>, i: nat, dups: seq<(nat, nat)>, t: Table)
    requires WellFormed(job) && FreshPipes(job.entry, pipes) && |pipes| == |job.stages| - 1 && i < |job.stages| - 1
    requires t == ApplyDups(WithPipes(job.entry, pipes), dups)
    requires t == WithPipes(job.entry, pipes)[0 := StdinEnd(job, i)]
    ensures ApplyDups(WithPipes(job.entry, pipes), dups + [(pipes[i].1, 1)]) == t[1 := StdoutEnd(job, i)]
  {
    WithPipesEnds(job.entry, pipes, i);
    PipeFdAbove2(job, pipes, i);
    ApplyDupsLast(WithPipes(job.entry, pipes), dups, (pipes[i].1, 1));
  }

  /** The dup2 calls that send the last child's standard output and standard error to the socket. */
  lemma RedirectOutToSocket(job: Job, pipes: seq<PipeFds>, i: nat, dups: seq<(nat, nat)>, t: Table)
    requires WellFormed(job) && FreshPipes(job.entry, pipes) && i == |job.stages| - 1 && job.sock.Some?
    requires t == ApplyDups(WithPipes(job.entry, pipes), dups)
    requires t == WithPipes(job.entry, pipes)[0 := StdinEnd(job, i)]
    ensures ApplyDups(WithPipes(job.entry, pipes), dups + [(job.sock.value, 1), (job.sock.value, 2)])
         == t[1 := StdoutEnd(job, i)][2 := StderrEnd(job, i)]
  {
    var full, sock := WithPipes(job.entry, pipes), job.sock.value;
    WithPipesKeys(job.entry, pipes);
    assert sock in t && t[sock] == job.entry[sock];
    ApplyDupsLast(full, dups, (sock, 1));
    ApplyDupsLast(full, dups + [(sock, 1)], (sock, 2));
    assert dups + [(sock, 1), (sock, 2)] == dups + [(sock, 1)] + [(sock, 2)];
  }

  /** Without a redirection a standard descriptor stays what it was on entry. */
  lemma WireNoop(job: Job, pipes: seq<PipeFds>, i: nat)
    requires WellFormed(job) && FreshPipes(job.entry, pipes) && i < |job.stages|
    ensures var t := WithPipes(job.entry, pipes)[0 := StdinEnd(job, i)];
            && (i < |job.stages| - 1 || job.sock.None? ==> t[1 := StdoutEnd(job, i)][2 := StderrEnd(job, i)] == t[1 := StdoutEnd(job, i)])
            && (i == |job.stages| - 1 && job.sock.None? ==> t[1 := StdoutEnd(job, i)] == t)
  {
    WithPipesKeys(job.entry, pipes);
  }

  /** The dup2 calls of child i put its pipe ends at descriptors 0 and 1 (and the socket at 2). */
  lemma RedirectsWire(job: Job, pipes: seq<PipeFds>, i: nat)
    requires WellFormed(job) && FreshPipes(job.entry, pipes) && |pipes| == |job.stages| - 1 && i < |job.stages|
    ensures ApplyDups(WithPipes(job.entry, pipes), Redirects(job, pipes, i)) == Wire(job, WithPipes(job.entry, pipes), i)
  {
    var full := WithPipes(job.entry, pipes);
    var inDup := if i > 0 then [(pipes[i - 1].0, 0)] else if job.sock.Some? then [(job.sock.value, 0)] else [];
    RedirectIn(job, pipes, i, inDup);
    if i < |job.stages| - 1 {
      RedirectOutToPipe(job, pipes, i, inDup, full[0 := StdinEnd(job, i)]);
    } else if job.sock.Some? {
      RedirectOutToSocket(job, pipes, i, inDup, full[0 := StdinEnd(job, i)]);
    }
    WireNoop(job, pipes, i);
    if i == |job.stages| - 1 && job.sock.None? {
      assert Redirects(job, pipes, i) == inDup;
    }
  }

  /** After its close loop the child has its two pipe ends at 0 and 1 and no other pipe descriptor. */
  lemma CloseLoopWires(job: Job, pipes: seq<PipeFds>, i: nat)
    requires WellFormed(job) && FreshPipes(job.entry, pipes) && |pipes| == |job.stages| - 1 && i < |job.stages|
    ensures Wire(job, WithPipes(job.entry, pipes), i) - Closed(pipes, 2 * |pipes|) == Wire(job, job.entry, i)
  {
    WithPipesKeys(job.entry, pipes);
    var closed := Closed(pipes, 2 * |pipes|);
    assert 0 !in closed && 1 !in closed && 2 !in closed;
    var left := Wire(job, WithPipes(job.entry, pipes), i) - closed;
    var right := Wire(job, job.entry, i);
    assert left.Keys == right.Keys;
    assert forall fd :: fd in right ==> left[fd] == right[fd];
  }

  lemma ClosedSubset(pipes: seq<PipeFds>, c: nat)
    requires c <= 2 * |pipes|
    ensures Closed(pipes, c) <= Closed(pipes, 2 * |pipes|)
  {
  }

  /** While it redirects, child i has all pipe descriptors open. */
  lemma RedirectHolds(job: Job, pipes: seq<PipeFds>, i: nat, k: nat, p: nat)
    requires WellFormed(job) && FreshPipes(job.entry, pipes) && |pipes| == |job.stages| - 1 && i < |job.stages|
    requires k <= |Redirects(job, pipes, i)| && p < |pipes|
    ensures var t := ChildTable(job, pipes, i, Redirect(k)); Holds(t, WriteEnd(p)) && Holds(t, ReadEnd(p))
  {
    var dups := Redirects(job, pipes, i)[..k];
    var t := ApplyDups(WithPipes(job.entry, pipes), dups);
    WithPipesEnds(job.entry, pipes, p);
    PipeFdAbove2(job, pipes, p);
    ApplyDupsFrame(WithPipes(job.entry, pipes), dups, pipes[p].0);
    ApplyDupsFrame(WithPipes(job.entry, pipes), dups, pipes[p].1);
    assert t[pipes[p].0] == ReadEnd(p) && t[pipes[p].1] == WriteEnd(p);
  }

  /** Until it exits, child i has a write end of pipe i and a read end of pipe i-1. */
  lemma ChildHolds(job: Job, pipes: seq<PipeFds>, i: nat, pc: ChildPc)
    requires WellFormed(job) && FreshPipes(job.entry, pipes) && |pipes| == |job.stages| - 1 && i < |job.stages|
    requires pc.Redirect? ==> pc.k <= |Redirects(job, pipes, i)|
    requires pc.CloseEnd? ==> pc.c <= 2 * |pipes|
    requires !pc.Exited?
    ensures i < |job.stages| - 1 ==> Holds(ChildTable(job, pipes, i, pc), WriteEnd(i))
    ensures i > 0 ==> Holds(ChildTable(job, pipes, i, pc), ReadEnd(i - 1))
  {
    if pc.Redirect? {
      if i < |job.stages| - 1 { RedirectHolds(job, pipes, i, pc.k, i); }
      if i > 0 { RedirectHolds(job, pipes, i, pc.k, i - 1); }
    } else {
      var t := ChildTable(job, pipes, i, pc);
      WithPipesKeys(job.entry, pipes);
      if pc.CloseEnd? { ClosedSubset(pipes, pc.c); }
      assert t[0] == StdinEnd(job, i) && t[1] == StdoutEnd(job, i);
    }
  }

  // ---- preservation ----

  lemma PipeCallTables(job: Job, s: State, r: nat, w: nat)
    requires WellFormed(job) && TablesOk(job, s) && Enabled(job, s, PipeCall(r, w))
    ensures TablesOk(job, Step(job, s, PipeCall(r, w)))
  {
    var t := Step(job, s, PipeCall(r, w));
    assert t.pipes[..|t.pipes| - 1] == s.pipes;
  }

  lemma ForkTables(job: Job, s: State)
    requires WellFormed(job) && TablesOk(job, s) && s.pc.ForkChildren?
    ensures TablesOk(job, ParentStep(job, s))
  {
    var t := ParentStep(job, s);
    NothingClosed(WithPipes(job.entry, s.pipes), s.pipes);
    forall i | 0 <= i < |t.children| ensures ChildTableOk(job, t, i) {
      if i < |s.children| {
        assert ChildTableOk(job, s, i);
      } else {
        assert Redirects(job, s.pipes, i)[..0] == [];
      }
    }
  }

  lemma ParentCloseTables(job: Job, s: State)
    requires WellFormed(job) && TablesOk(job, s) && s.pc.CloseEnds?
    ensures ParentStep(job, s).table == ParentTable(job, ParentStep(job, s))
  {
    var c, full := s.pc.c, WithPipes(job.entry, s.pipes);
    if c < 2 * |s.pipes| {
      ClosedNext(s.pipes, c);
      assert full - Closed(s.pipes, c) - {FdAt(s.pipes, c)} == full - Closed(s.pipes, c + 1);
    } else {
      CloseLoopRestores(job.entry, s.pipes);
    }
  }

  lemma SameChildrenTables(job: Job, s: State, t: State)
    requires WellFormed(job) && TablesOk(job, s) && Shape(job, t) && t.table == ParentTable(job, t)
    requires t.children == s.children && t.pipes == s.pipes
    ensures TablesOk(job, t)
  {
    forall i | 0 <= i < |t.children| ensures ChildTableOk(job, t, i) {
      assert ChildTableOk(job, s, i);
    }
  }

  lemma ParentTables(job: Job, s: State)
    requires WellFormed(job) && TablesOk(job, s) && Enabled(job, s, ParentMove)
    ensures TablesOk(job, Step(job, s, ParentMove))
  {
    if s.pc.ForkChildren? {
      ForkTables(job, s);
    } else {
      if s.pc.CloseEnds? {
        ParentCloseTables(job, s);
      }
      SameChildrenTables(job, s, ParentStep(job, s));
    }
  }

  /** Changing child i in a way that keeps its own table right keeps all tables right. */
  lemma SetChildTables(job: Job, s: State, i: nat, t: State)
    requires WellFormed(job) && TablesOk(job, s)
    requires i < |s.children| && !s.children[i].pc.Exited?
    requires t.table == s.table && t.pc == s.pc && t.pipes == s.pipes && |t.queues| == |s.queues|
    requires |t.children| == |s.children|
    requires forall j :: 0 <= j < |s.children| && j != i ==> t.children[j] == s.children[j]
    requires ChildTableOk(job, t, i)
    ensures TablesOk(job, t)
  {
    forall j | 0 <= j < |t.children| ensures ChildTableOk(job, t, j) {
      if j != i { assert ChildTableOk(job, s, j); }
    }
  }

  lemma RedirectNext(job: Job, pipes: seq<PipeFds>, i: nat, k: nat)
    requires WellFormed(job) && |pipes| == |job.stages| - 1 && i < |job.stages|
    requires k < |Redirects(job, pipes, i)|
    ensures var d := Redirects(job, pipes, i)[k];
            ChildTable(job, pipes, i, Redirect(k + 1)) == Dup2(ChildTable(job, pipes, i, Redirect(k)), d.0, d.1)
  {
    var dups := Redirects(job, pipes, i);
    assert dups[..k + 1][..k] == dups[..k];
  }

  lemma NothingClosed(t: Table, pipes: seq<PipeFds>)
    ensures t - Closed(pipes, 0) == t
  {
    assert Closed(pipes, 0) == {};
  }

  lemma RedirectDone(job: Job, pipes: seq<PipeFds>, i: nat)
    requires WellFormed(job) && FreshPipes(job.entry, pipes) && |pipes| == |job.stages| - 1 && i < |job.stages|
    ensures ChildTable(job, pipes, i, Redirect(|Redirects(job, pipes, i)|)) == ChildTable(job, pipes, i, CloseEnd(0))
  {
    var dups := Redirects(job, pipes, i);
    assert dups[..|dups|] == dups;
    RedirectsWire(job, pipes, i);
    NothingClosed(Wire(job, WithPipes(job.entry, pipes), i), pipes);
  }

  lemma RedirectTables(job: Job, s: State, i: nat)
    requires WellFormed(job) && TablesOk(job, s) && ChildEnabled(job, s, i) && s.children[i].pc.Redirect?
    ensures ChildTableOk(job, ChildStep(job, s, i), i)
  {
    var k := s.children[i].pc.k;
    assert ChildTableOk(job, s, i);
    if k < |Redirects(job, s.pipes, i)| {
      RedirectNext(job, s.pipes, i, k);
    } else {
      RedirectDone(job, s.pipes, i);
    }
  }

  lemma CloseTables(job: Job, s: State, i: nat)
    requires WellFormed(job) && TablesOk(job, s) && ChildEnabled(job, s, i) && s.children[i].pc.CloseEnd?
    ensures ChildTableOk(job, ChildStep(job, s, i), i)
  {
    var k := s.children[i].pc.c;
    var wired := Wire(job, WithPipes(job.entry, s.pipes), i);
    assert ChildTableOk(job, s, i);
    if k < 2 * |s.pipes| {
      ClosedNext(s.pipes, k);
      assert wired - Closed(s.pipes, k) - {FdAt(s.pipes, k)} == wired - Closed(s.pipes, k + 1);
    } else {
      CloseLoopWires(job, s.pipes, i);
    }
  }

  /** Running, a child never touches its descriptors until it dies. */
  lemma RunningTables(job: Job, s: State, i: nat)
    requires WellFormed(job) && TablesOk(job, s) && ChildEnabled(job, s, i) && s.children[i].pc.Running?
    ensures ChildTableOk(job, ChildStep(job, s, i), i)
  {
    assert ChildTableOk(job, s, i);
  }

  /** A step of child i leaves the parent and the other children as they are. */
  lemma OthersUntouched(job: Job, s: State, i: nat)
    requires ChildEnabled(job, s, i)
    ensures var t := ChildStep(job, s, i);
            && t.table == s.table && t.pc == s.pc && t.pipes == s.pipes && |t.queues| == |s.queues|
            && |t.children| == |s.children|
            && forall j :: 0 <= j < |s.children| && j != i ==> t.children[j] == s.children[j]
  {
  }

  lemma ChildTables(job: Job, s: State, i: nat)
    requires WellFormed(job) && TablesOk(job, s) && ChildEnabled(job, s, i)
    ensures TablesOk(job, ChildStep(job, s, i))
  {
    if s.children[i].pc.Redirect? {
      RedirectTables(job, s, i);
    } else if s.children[i].pc.CloseEnd? {
      CloseTables(job, s, i);
    } else {
      RunningTables(job, s, i);
    }
    OthersUntouched(job, s, i);
    SetChildTables(job, s, i, ChildStep(job, s, i));
  }

  lemma StepTables(job: Job, s: State, a: Move)
    requires WellFormed(job) && TablesOk(job, s) && Enabled(job, s, a)
    ensures TablesOk(job, Step(job, s, a))
  {
    match a
    case PipeCall(r, w) => PipeCallTables(job, s, r, w);
    case ParentMove => ParentTables(job, s);
    case ChildMove(i) => ChildTables(job, s, i);
  }

  lemma InitTables(job: Job)
    requires WellFormed(job)
    ensures TablesOk(job, Init(job))
  {
  }

  lemma {:induction false} RunTables(job: Job, s: State, moves: seq<Move>, t: State)
    requires WellFormed(job) && TablesOk(job, s) && Run(job, s, moves, t)
    ensures TablesOk(job, t)
    decreases |moves|
  {
    if moves == [] {
    } else {
      StepTables(job, s, moves[0]);
      RunTables(job, Step(job, s, moves[0]), moves[1..], t);
    }
  }

  lemma RunningEnds(job: Job, s: State, i: nat)
    requires WellFormed(job) && TablesOk(job, s) && i < |s.children| && s.children[i].pc.Running?
    ensures EndAt(s.children[i].table, 0) == Some(StdinEnd(job, i))
    ensures EndAt(s.children[i].table, 1) == Some(StdoutEnd(job, i))
    ensures |s.queues| == |job.stages| - 1
  {
    assert ChildTableOk(job, s, i);
  }

  // ---- exact wiring ----

  /** Of all pipe ends, t holds at most the two that belong to child i, where child i uses them. */
  ghost predicate OnlyOwnEnds(t: Table, i: nat) {
    forall fd, j: nat | fd in t ::
      (t[fd] == WriteEnd(j) ==> i == j && fd == 1) && (t[fd] == ReadEnd(j) ==> i == j + 1 && fd == 0)
  }

  ghost predicate HasOwnEnds(job: Job, t: Table, i: nat) {
    && (i > 0 ==> EndAt(t, 0) == Some(ReadEnd(i - 1)))
    && (i < |job.stages| - 1 ==> EndAt(t, 1) == Some(WriteEnd(i)))
  }

  /** Every pipe end is held by the one child that uses it, at descriptor 0 or 1, and by nobody else. */
  ghost predicate ExactlyWired(job: Job, s: State) {
    && (forall fd :: fd in s.table ==> s.table[fd].Outer?)
    && (forall i :: 0 <= i < |s.children| ==> OnlyOwnEnds(s.children[i].table, i))
    && (forall i :: 0 <= i < |s.children| && !s.children[i].pc.Exited? ==> HasOwnEnds(job, s.children[i].table, i))
  }

  ghost predicate Settled(s: State) {
    && (s.pc.WaitFor? || s.pc.Returned?)
    && forall i :: 0 <= i < |s.children| ==> s.children[i].pc.Running? || s.children[i].pc.Exited?
  }

  lemma SettledIsWired(job: Job, s: State)
    requires WellFormed(job) && TablesOk(job, s) && Settled(s)
    ensures ExactlyWired(job, s)
  {
    forall i | 0 <= i < |s.children|
      ensures OnlyOwnEnds(s.children[i].table, i)
      ensures !s.children[i].pc.Exited? ==> HasOwnEnds(job, s.children[i].table, i)
    {
      assert ChildTableOk(job, s, i);
    }
  }
}
