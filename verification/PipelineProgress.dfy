/** No schedule deadlocks the pipeline, and every complete one computes the composition. */
module PipelineProgress {
  import opened Fds
  import opened Fresh
  import opened Stages
  import opened Pipeline
  import opened PipelineTables
  import opened PipelineBytes
  import opened PipelineFlow

  // ---- deadlock freedom ----

  /** Once everybody is wired up, only live neighbours of a pipe hold its ends. */
  lemma HolderIsLiveNeighbour(job: Job, s: State, j: nat, k: nat)
    requires WellFormed(job) && TablesOk(job, s) && Settled(s) && j < |s.children|
    ensures Holds(s.children[j].table, WriteEnd(k)) ==> j == k && !s.children[j].pc.Exited?
    ensures Holds(s.children[j].table, ReadEnd(k)) ==> j == k + 1 && !s.children[j].pc.Exited?
  {
    SettledIsWired(job, s);
    assert ChildTableOk(job, s, j) && OnlyOwnEnds(s.children[j].table, j);
  }

  /** So an exited writer means end of file, and an exited reader a pipe nobody reads. */
  lemma ExitedNeighbours(job: Job, s: State, i: nat)
    requires WellFormed(job) && TablesOk(job, s) && Settled(s) && i < |s.children|
    ensures i > 0 && s.children[i - 1].pc.Exited? ==> !Open(s, WriteEnd(i - 1))
    ensures i + 1 < |s.children| && s.children[i + 1].pc.Exited? ==> !Open(s, ReadEnd(i))
  {
    forall j | 0 <= j < |s.children|
      ensures i > 0 && Holds(s.children[j].table, WriteEnd(i - 1)) ==> !s.children[i - 1].pc.Exited?
      ensures Holds(s.children[j].table, ReadEnd(i)) ==> j == i + 1 && !s.children[j].pc.Exited?
    {
      if i > 0 { HolderIsLiveNeighbour(job, s, j, i - 1); }
      HolderIsLiveNeighbour(job, s, j, i);
    }
  }

  /** A stage with something to read can move, or its full pipe feeds a later stage that can. */
  lemma {:induction false} FedStageMoves(job: Job, s: State, i: nat) returns (j: nat)
    requires WellFormed(job) && TablesOk(job, s) && Settled(s) && i < |s.children| && s.children[i].pc.Running?
    requires i > 0 && i - 1 < |s.queues| && s.queues[i - 1] == [] ==> s.children[i - 1].pc.Exited?
    ensures ChildEnabled(job, s, j)
    decreases |job.stages| - i
  {
    j := i;
    RunningEnds(job, s, i);
    ExitedNeighbours(job, s, i);
    match job.stages[i].act(s.children[i].pc.m) {
      case Exit =>
      case Get(_, _) =>
      case Put(_, _) =>
        if i < |job.stages| - 1 && |s.queues[i]| >= job.capacity && !s.children[i + 1].pc.Exited? {
          j := FedStageMoves(job, s, i + 1);
        }
    }
  }

  /** If a child is still alive and all before it have exited, some child can move. */
  lemma {:induction false} FirstLiveMoves(job: Job, s: State, i: nat) returns (j: nat)
    requires WellFormed(job) && TablesOk(job, s) && Settled(s) && i < |s.children|
    requires forall k :: 0 <= k < i ==> s.children[k].pc.Exited?
    requires exists k :: i <= k < |s.children| && !s.children[k].pc.Exited?
    ensures ChildEnabled(job, s, j)
    decreases |s.children| - i
  {
    if s.children[i].pc.Exited? {
      j := FirstLiveMoves(job, s, i + 1);
    } else {
      j := FedStageMoves(job, s, i);
    }
  }

  lemma LiveChildMoves(job: Job, s: State, k: nat) returns (j: nat)
    requires WellFormed(job) && TablesOk(job, s) && s.pc.WaitFor? && k < |s.children| && !s.children[k].pc.Exited?
    ensures ChildEnabled(job, s, j)
  {
    if Settled(s) {
      j := FirstLiveMoves(job, s, 0);
    } else {
      j :| 0 <= j < |s.children| && !(s.children[j].pc.Running? || s.children[j].pc.Exited?);
      assert ChildTableOk(job, s, j);
    }
  }

  /** Until the wait loop has ended, some process can move. */
  lemma NeverStuck(job: Job, s: State) returns (a: Move)
    requires WellFormed(job) && TablesOk(job, s) && !s.pc.Returned?
    ensures Enabled(job, s, a)
  {
    a := ParentMove;
    if s.pc.MakePipes? && |s.pipes| < |job.stages| - 1 {
      var r := Unused(s.table.Keys);
      a := PipeCall(r, r + 1);
    } else if s.pc.WaitFor? && s.pc.k < |s.children| && !s.children[s.pc.k].pc.Exited? {
      var j := LiveChildMoves(job, s, s.pc.k);
      a := ChildMove(j);
    }
  }

  // ---- main results ----

  lemma FlowAtEnd(job: Job, s: State)
    requires ValidJob(job) && FlowOk(job, s)
    ensures s.sink <= Feed(job, |job.stages|)
    ensures s.pc.Returned? ==> s.sink == Feed(job, |job.stages|) && s.table == job.entry
    ensures s.pc.Returned? ==> |s.children| == |job.stages| && forall i :: 0 <= i < |s.children| ==> s.children[i].pc.Exited?
  {
    var last := |job.stages| - 1;
    if last < |s.children| {
      assert StageOk(job, s, last);
    }
  }

  /** Whatever the schedule: at the end all children have exited, the caller's table is as on entry, and the
      output is the stages' composition applied to the input; before the end it is a prefix of that. */
  lemma {:induction false} PipelineComputesComposition(job: Job, moves: seq<Move>, s: State)
    requires ValidJob(job) && Run(job, Init(job), moves, s)
    ensures s.sink <= Feed(job, |job.stages|)
    ensures s.pc.Returned? ==> s.sink == Feed(job, |job.stages|) && s.table == job.entry
    ensures s.pc.Returned? ==> |s.children| == |job.stages| && forall i :: 0 <= i < |s.children| ==> s.children[i].pc.Exited?
  {
    InitFlow(job);
    RunFlow(job, Init(job), moves, s);
    FlowAtEnd(job, s);
  }

  /** At every point of every schedule no stage has read or written anything but a prefix of what the composition
      gives it. */
  lemma {:induction false} PipesCarryComposition(job: Job, moves: seq<Move>, s: State, j: nat)
    requires ValidJob(job) && Run(job, Init(job), moves, s) && j < |s.queues|
    ensures j + 1 <= |job.stages| && PutBy(s, j) <= Feed(job, j + 1) && GotBy(s, j + 1) <= Feed(job, j + 1)
  {
    InitFlow(job);
    RunFlow(job, Init(job), moves, s);
    assert PipeOk(job, s, j);
    if j < |s.children| {
      assert StageOk(job, s, j);
    }
  }

  /** Once the parent has closed its ends and all children have exec'd, the wiring is exact, whatever the programs. */
  lemma PipelineIsWired(job: Job, moves: seq<Move>, s: State)
    requires WellFormed(job) && Run(job, Init(job), moves, s) && Settled(s)
    ensures ExactlyWired(job, s)
  {
    InitTables(job);
    RunTables(job, Init(job), moves, s);
    SettledIsWired(job, s);
  }

  /** No schedule deadlocks, whatever the programs: some process can move until the call has returned. */
  lemma PipelineNeverDeadlocks(job: Job, moves: seq<Move>, s: State)
    requires WellFormed(job) && Run(job, Init(job), moves, s) && !s.pc.Returned?
    ensures exists a :: Enabled(job, s, a)
  {
    InitTables(job);
    RunTables(job, Init(job), moves, s);
    var a := NeverStuck(job, s);
  }

  // ---- who has to wait, and what a program finds ----

  /** A child that is still redirecting or closing never waits, whatever the parent and the others do. */
  lemma PlumbingNeverWaits(job: Job, moves: seq<Move>, s: State, i: nat)
    requires WellFormed(job) && Run(job, Init(job), moves, s) && i < |s.children|
    requires s.children[i].pc.Redirect? || s.children[i].pc.CloseEnd?
    ensures Enabled(job, s, ChildMove(i))
  {
    InitTables(job);
    RunTables(job, Init(job), moves, s);
    assert ChildTableOk(job, s, i);
  }

  /** A program has to wait only to write while its pipe is full and somebody can still read it, and to read while its
      pipe is empty and somebody can still write it. Once everybody is wired up that somebody is its live neighbour. */
  lemma ProgramWaitsIff(job: Job, moves: seq<Move>, s: State, i: nat, m: Memory)
    requires WellFormed(job) && Run(job, Init(job), moves, s) && i < |s.children| && s.children[i].pc == Running(m)
    ensures |s.queues| == |job.stages| - 1 && i < |job.stages|
    ensures !Enabled(job, s, ChildMove(i)) <==>
              || (job.stages[i].act(m).Put? && i < |s.queues| && |s.queues[i]| == job.capacity && Open(s, ReadEnd(i)))
              || (job.stages[i].act(m).Get? && 0 < i && s.queues[i - 1] == [] && Open(s, WriteEnd(i - 1)))
    ensures Settled(s) && i < |s.queues| ==>
              i + 1 < |s.children| && (Open(s, ReadEnd(i)) <==> !s.children[i + 1].pc.Exited?)
    ensures Settled(s) && 0 < i ==> (Open(s, WriteEnd(i - 1)) <==> !s.children[i - 1].pc.Exited?)
  {
    InitBytes(job);
    RunBytes(job, Init(job), moves, s);
    RunningEnds(job, s, i);
    if i < |s.queues| {
      assert PipeOk(job, s, i);
    }
    if Settled(s) {
      ExitedNeighbours(job, s, i);
      if 0 < i { WriterOpen(job, s, i); }
      if i < |s.queues| { ReaderOpen(job, s, i); }
    }
  }

  /** From its exec on a program has its input at descriptor 0, its output at descriptor 1, and otherwise the caller's
      descriptors: the pipes between neighbours, and at the two ends the caller's own or the socket, which the last
      program also has as its standard error. */
  lemma ProgramDescriptors(job: Job, moves: seq<Move>, s: State, i: nat)
    requires WellFormed(job) && Run(job, Init(job), moves, s) && i < |s.children| && s.children[i].pc.Running?
    ensures var t, last := s.children[i].table, |job.stages| - 1;
            && i <= last && t.Keys == job.entry.Keys && 0 in t && 1 in t && 2 in t
            && t[0] == (if i > 0 then ReadEnd(i - 1) else job.entry[if job.sock.Some? then job.sock.value else 0])
            && t[1] == (if i < last then WriteEnd(i) else job.entry[if job.sock.Some? then job.sock.value else 1])
            && t[2] == job.entry[if i == last && job.sock.Some? then job.sock.value else 2]
            && forall fd :: fd in t && fd > 2 ==> t[fd] == job.entry[fd]
  {
    InitTables(job);
    RunTables(job, Init(job), moves, s);
    assert ChildTableOk(job, s, i);
  }
}
