/**
 * execute_pipeline in the parent's own control flow. Between any two of its system calls the children run for
 * as long as the scheduler likes; every execution is a run of the transition system.
 */
module ForkPipeline {
  import opened Fds
  import opened Fresh
  import opened Pipeline
  import opened PipelineTables
  import opened PipelineBytes
  import opened PipelineProgress
  import opened PipelineTermination

  /** Moves of the children leave the parent alone, and exited children exited. */
  ghost predicate ChildrenRan(s: State, t: State) {
    && t.table == s.table && t.pc == s.pc && t.pipes == s.pipes && |t.children| == |s.children|
    && forall i :: 0 <= i < |s.children| && s.children[i].pc.Exited? ==> t.children[i].pc.Exited?
  }

  lemma ChildRuns(job: Job, plan: Plan, s: State, i: nat)
    requires Bounded(job, plan) && TablesOk(job, s) && ChildEnabled(job, s, i)
    ensures ChildrenRan(s, ChildStep(job, s, i)) && Bound(job, plan, ChildStep(job, s, i)) < Bound(job, plan, s)
  {
    OthersUntouched(job, s, i);
    ChildCosts(job, plan, s, i);
  }

  lemma {:induction false} RunAppend(job: Job, s: State, moves: seq<Move>, t: State, a: Move)
    requires Run(job, s, moves, t) && Enabled(job, t, a)
    ensures Run(job, s, moves + [a], Step(job, t, a))
    decreases |moves|
  {
    if moves == [] {
      assert [a][1..] == [] && moves + [a] == [a];
      assert Run(job, Step(job, t, a), [], Step(job, t, a));
    } else {
      RunAppend(job, Step(job, s, moves[0]), moves[1..], t, a);
      assert (moves + [a])[1..] == moves[1..] + [a];
    }
  }

  class System {
    const job: Job
    ghost const plan: Plan  // why the programs come to an end
    var state: State
    ghost var moves: seq<Move>  // all moves so far

    /** The state is one that the transition system reaches. */
    ghost predicate Reached()
      reads this
    {
      Bounded(job, plan) && Run(job, Init(job), moves, state) && TablesOk(job, state)
    }

    constructor (job: Job, ghost plan: Plan)
      requires Bounded(job, plan)
      ensures this.job == job && this.plan == plan && state == Init(job) && Reached()
    {
      this.job, this.plan, state, moves := job, plan, Init(job), [];
      new;
      InitTables(job);
    }

    /** The step that move a makes; `next` is what the program does to the state. */
    method Commit(ghost a: Move, next: State)
      requires Reached() && Enabled(job, state, a) && next == Step(job, state, a)
      modifies this
      ensures Reached() && state == next
    {
      RunAppend(job, Init(job), moves, state, a);
      StepTables(job, state, a);
      state, moves := next, moves + [a];
    }

    /** The scheduler lets children run. */
    method Preempt()
      requires Reached()
      modifies this
      ensures Reached() && ChildrenRan(old(state), state)
    {
      var preempted := true;
      while preempted
        invariant Reached() && ChildrenRan(old(state), state)
        decreases Bound(job, plan, state), preempted
      {
        if i: nat :| i < |state.children| && ChildEnabled(job, state, i) {
          ChildRuns(job, plan, state, i);
          Commit(ChildMove(i), ChildStep(job, state, i));
          preempted := *;
        } else {
          preempted := false;
        }
      }
    }

    method Pipe()
      requires Reached() && state.pc.MakePipes? && |state.pipes| < |job.stages| - 1
      modifies this
      ensures Reached() && state.pc.MakePipes? && |state.pipes| == |old(state).pipes| + 1
    {
      ghost var bound := Unused(state.table.Keys);
      assert bound !in state.table && bound + 1 !in state.table;
      var r: nat :| r !in state.table;
      assert (if r == bound then bound + 1 else bound) !in state.table + map[r := ReadEnd(0)];
      var w: nat :| w !in state.table + map[r := ReadEnd(0)];
      Commit(PipeCall(r, w), state.(table := MakePipe(state.table, r, w, |state.pipes|),
                                    pipes := state.pipes + [(r, w)], queues := state.queues + [[]]));
    }

    /** fork(2): the child starts with a copy of the parent's descriptor table. */
    method Fork()
      requires Reached() && state.pc.ForkChildren? && |state.children| < |job.stages|
      modifies this
      ensures Reached() && state.pc.ForkChildren? && |state.children| == |old(state).children| + 1
    {
      Preempt();
      Commit(ParentMove, state.(children := state.children + [Child(state.table, Redirect(0), [], [])]));
    }

    method CloseFd(fd: nat)
      requires Reached() && state.pc.CloseEnds? && state.pc.c < 2 * |state.pipes| && fd == FdAt(state.pipes, state.pc.c)
      modifies this
      ensures Reached() && state.pipes == old(state).pipes && state.pc == CloseEnds(old(state).pc.c + 1)
    {
      Preempt();
      Commit(ParentMove, state.(table := Close(state.table, fd), pc := CloseEnds(state.pc.c + 1)));
    }

    /** waitpid(2): blocks, while the others run on, until child k has exited. */
    method WaitPid(k: nat)
      requires Reached() && state.pc == WaitFor(k) && k < |state.children|
      modifies this
      ensures Reached() && state.pc == WaitFor(k + 1) && |state.children| == |old(state).children|
    {
      Preempt();
      while !state.children[k].pc.Exited?
        invariant Reached() && state.pc == WaitFor(k) && k < |state.children| == |old(state).children|
        decreases Bound(job, plan, state)
      {
        ghost var j := LiveChildMoves(job, state, k);
        var i: nat :| i < |state.children| && ChildEnabled(job, state, i);
        ChildRuns(job, plan, state, i);
        Commit(ChildMove(i), ChildStep(job, state, i));
      }
      Commit(ParentMove, state.(pc := WaitFor(k + 1)));
    }

    /** A loop of the parent ends and the next one begins. */
    method EndLoop(next: ParentPc)
      requires Reached() && Enabled(job, state, ParentMove)
      requires ParentStep(job, state) == state.(pc := next)
      modifies this
      ensures Reached() && state.pc == next && state.children == old(state).children && state.pipes == old(state).pipes
    {
      Commit(ParentMove, state.(pc := next));
    }

    method CreatePipes()
      requires Reached() && state == Init(job)
      modifies this
      ensures Reached() && state.pc.ForkChildren? && state.children == []
      ensures |state.pipes| == |job.stages| - 1 && state.table == WithPipes(job.entry, state.pipes)
    {
      var i := 0;
      while i < |job.stages| - 1
        invariant Reached() && state.pc.MakePipes? && 0 <= i == |state.pipes| <= |job.stages| - 1
      {
        Pipe();
        i := i + 1;
      }
      EndLoop(ForkChildren);
    }

    method ForkAll()
      requires Reached() && state.pc.ForkChildren? && state.children == []
      modifies this
      ensures Reached() && state.pc == CloseEnds(0) && |state.children| == |job.stages|
    {
      var i := 0;
      while i < |job.stages|
        invariant Reached() && state.pc.ForkChildren? && 0 <= i == |state.children| <= |job.stages|
      {
        Fork();
        i := i + 1;
      }
      EndLoop(CloseEnds(0));
    }

    method ClosePipe(i: nat)
      requires Reached() && i < |state.pipes| && state.pc == CloseEnds(2 * i)
      modifies this
      ensures Reached() && state.pc == CloseEnds(2 * (i + 1)) && state.pipes == old(state).pipes
    {
      CloseFd(state.pipes[i].0);
      CloseFd(state.pipes[i].1);
    }

    method CloseAll()
      requires Reached() && state.pc == CloseEnds(0)
      modifies this
      ensures Reached() && state.pc == WaitFor(0) && state.table == job.entry
    {
      var i := 0;
      while i < |job.stages| - 1
        invariant Reached() && 0 <= i <= |job.stages| - 1 == |state.pipes| && state.pc == CloseEnds(2 * i)
      {
        ClosePipe(i);
        i := i + 1;
      }
      EndLoop(WaitFor(0));
    }

    method WaitAll()
      requires Reached() && state.pc == WaitFor(0)
      modifies this
      ensures Reached() && state.pc.Returned?
      ensures forall i :: 0 <= i < |state.children| ==> state.children[i].pc.Exited?
    {
      var i := 0;
      while i < |job.stages|
        invariant Reached() && 0 <= i <= |job.stages| == |state.children| && state.pc == WaitFor(i)
      {
        WaitPid(i);
        i := i + 1;
      }
      EndLoop(Returned);
    }

    /** Whatever the scheduler does, the call returns, with every child waited for and the caller's descriptors as they
        were. If all programs end once their input has ended, their composition has been written to the output. */
    method ExecutePipeline()
      requires Reached() && state == Init(job)
      modifies this
      ensures Reached() && state.pc.Returned? && state.table == job.entry
      ensures |state.children| == |job.stages| && forall i :: 0 <= i < |job.stages| ==> state.children[i].pc.Exited?
      ensures ValidJob(job) ==> state.sink == Feed(job, |job.stages|)
    {
      CreatePipes();
      ForkAll();
      CloseAll();
      WaitAll();
      PipelineTerminates(job, plan, moves, state);
      if ValidJob(job) {
        PipelineComputesComposition(job, moves, state);
      }
    }
  }
}
