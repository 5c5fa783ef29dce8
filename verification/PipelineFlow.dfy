/** The bytes: whatever the schedule and the capacity, each stage computes its stream function. */
module PipelineFlow {
  import opened Options
  import opened Fds
  import opened Stages
  import opened Bytes
  import opened Pipeline
  import opened PipelineTables
  import opened PipelineBytes

  /** What child i has written and will still write is what the stage makes of its complete input. */
  ghost predicate StageOk(job: Job, s: State, i: nat)
    requires ValidJob(job) && i < |s.children| <= |job.stages|
  {
    var c := s.children[i];
    && c.put <= Feed(job, i + 1)
    && match c.pc
       case Running(m) =>
         c.got <= Feed(job, i) && c.put + Output(job.stages[i], m, Feed(job, i)[|c.got|..]) == Feed(job, i + 1)
       case Exited => c.put == Feed(job, i + 1) || (i + 1 < |s.children| && s.children[i + 1].pc.Exited?)
       case _ => c.got == [] && c.put == []
  }

  ghost predicate FlowOk(job: Job, s: State)
    requires ValidJob(job)
  {
    BytesOk(job, s) && forall i :: 0 <= i < |s.children| ==> StageOk(job, s, i)
  }

  lemma InitFlow(job: Job)
    requires ValidJob(job)
    ensures FlowOk(job, Init(job))
  {
  }

  // ---- preservation ----

  lemma ParentFlow(job: Job, s: State, a: Move)
    requires ValidJob(job) && FlowOk(job, s) && Enabled(job, s, a) && !a.ChildMove?
    ensures FlowOk(job, Step(job, s, a))
  {
    var t := Step(job, s, a);
    StepBytes(job, s, a);
    forall i | 0 <= i < |t.children| ensures StageOk(job, t, i) {
      if i < |s.children| { assert StageOk(job, s, i); }
    }
  }

  /** Updating child i leaves the other stages' claims true; an exit only weakens what a writer must show. */
  lemma OtherStages(job: Job, s: State, i: nat, t: State)
    requires ValidJob(job) && FlowOk(job, s) && i < |s.children| && !s.children[i].pc.Exited?
    requires |t.children| == |s.children|
    requires forall j :: 0 <= j < |s.children| && j != i ==> t.children[j] == s.children[j]
    ensures forall j :: 0 <= j < |t.children| && j != i ==> StageOk(job, t, j)
  {
    forall j | 0 <= j < |t.children| && j != i ensures StageOk(job, t, j) {
      assert StageOk(job, s, j);
    }
  }

  lemma ChildFlow(job: Job, s: State, i: nat)
    requires ValidJob(job) && FlowOk(job, s) && ChildEnabled(job, s, i) && StageOk(job, ChildStep(job, s, i), i)
    ensures FlowOk(job, ChildStep(job, s, i))
  {
    ChildBytes(job, s, i);
    OthersUntouched(job, s, i);
    OtherStages(job, s, i, ChildStep(job, s, i));
  }

  // ---- each stage's claim, after its own step ----

  lemma PlumbingStage(job: Job, s: State, i: nat)
    requires ValidJob(job) && FlowOk(job, s) && ChildEnabled(job, s, i) && !s.children[i].pc.Running?
    ensures StageOk(job, ChildStep(job, s, i), i)
  {
    assert StageOk(job, s, i) && ChildTableOk(job, s, i);
    assert Feed(job, i)[0..] == Feed(job, i);
    assert Feed(job, i + 1) == Apply(job.stages[i], Feed(job, i));
  }

  lemma ExitStage(job: Job, s: State, i: nat, m: Memory)
    requires ValidJob(job) && FlowOk(job, s) && ChildEnabled(job, s, i) && s.children[i].pc == Running(m)
    requires job.stages[i].act(m).Exit?
    ensures StageOk(job, ChildStep(job, s, i), i)
  {
    RunningEnds(job, s, i);
    assert StageOk(job, s, i);
    assert s.children[i].put + [] == s.children[i].put;
  }

  /** After writing b the rest of the output is what it was, less b. */
  lemma PutStage(job: Job, s: State, i: nat, m: Memory, b: Byte, next: Memory, t: State)
    requires ValidJob(job) && i < |s.children| <= |job.stages| && |t.children| == |s.children|
    requires StageOk(job, s, i) && s.children[i].pc == Running(m) && job.stages[i].act(m) == Put(b, next)
    requires t.children[i] == s.children[i].(pc := Running(next), put := s.children[i].put + [b])
    ensures StageOk(job, t, i)
  {
    var c := s.children[i];
    var rest := Output(job.stages[i], next, Feed(job, i)[|c.got|..]);
    assert c.put + ([b] + rest) == (c.put + [b]) + rest;
  }

  /** A write to a pipe nobody reads kills the writer; by then the stage behind it has exited. */
  lemma KilledStage(job: Job, s: State, i: nat, m: Memory)
    requires ValidJob(job) && FlowOk(job, s) && ChildEnabled(job, s, i) && s.children[i].pc == Running(m)
    requires job.stages[i].act(m).Put? && i < |job.stages| - 1 && !Open(s, ReadEnd(i))
    ensures StageOk(job, ChildStep(job, s, i), i)
  {
    RunningEnds(job, s, i);
    assert StageOk(job, s, i);
    ReaderOpen(job, s, i);
    KilledIsQuiet(job, s, i, m);
  }

  lemma WriteStage(job: Job, s: State, i: nat, m: Memory, b: Byte, next: Memory)
    requires ValidJob(job) && FlowOk(job, s) && ChildEnabled(job, s, i) && s.children[i].pc == Running(m)
    requires job.stages[i].act(m) == Put(b, next)
    ensures StageOk(job, ChildStep(job, s, i), i)
  {
    RunningEnds(job, s, i);
    if i < |job.stages| - 1 && !Open(s, ReadEnd(i)) {
      KilledStage(job, s, i, m);
    } else {
      assert StageOk(job, s, i);
      PutGivesByte(job, s, i, m, b, next);
      PutStage(job, s, i, m, b, next, ChildStep(job, s, i));
    }
  }

  /** After reading the next byte of the stage's input, the rest of the output is unchanged. */
  lemma GetStage(job: Job, s: State, i: nat, m: Memory, b: Byte, t: State)
    requires ValidJob(job) && i < |s.children| <= |job.stages| && |t.children| == |s.children|
    requires StageOk(job, s, i) && s.children[i].pc == Running(m) && job.stages[i].act(m).Get?
    requires s.children[i].got + [b] <= Feed(job, i)
    requires t.children[i] == s.children[i].(pc := Running(job.stages[i].act(m).onByte(b)), got := s.children[i].got + [b])
    ensures StageOk(job, t, i)
  {
    var c := s.children[i];
    var left := Feed(job, i)[|c.got|..];
    assert left[0] == b;
    assert left[1..] == Feed(job, i)[|c.got| + 1..];
  }

  /** Everything readable so far is a prefix of the stage's complete input. */
  lemma InputPrefix(job: Job, s: State, i: nat)
    requires ValidJob(job) && FlowOk(job, s) && i < |s.children| && s.children[i].pc.Running?
    ensures i > 0 ==> GotBy(s, i) + s.queues[i - 1] <= Feed(job, i)
    ensures i == 0 ==> GotBy(s, 0) + s.source == Feed(job, 0)
  {
    RunningEnds(job, s, i);
    if i > 0 {
      assert PipeOk(job, s, i - 1) && StageOk(job, s, i - 1);
    }
  }

  /** End of file is only ever seen after the whole input: the writer was not killed, it finished. */
  lemma EofMeansAll(job: Job, s: State, i: nat)
    requires ValidJob(job) && FlowOk(job, s) && i < |s.children| && s.children[i].pc.Running? && ReadReady(s, i)
    requires NoInput(s, i)
    ensures s.children[i].got == Feed(job, i)
  {
    RunningEnds(job, s, i);
    if i > 0 {
      WriterOpen(job, s, i);
      assert PipeOk(job, s, i - 1) && StageOk(job, s, i - 1);
    }
  }

  lemma EofStage(job: Job, s: State, i: nat, m: Memory)
    requires ValidJob(job) && FlowOk(job, s) && ChildEnabled(job, s, i) && s.children[i].pc == Running(m)
    requires job.stages[i].act(m).Get? && NoInput(s, i)
    ensures StageOk(job, ChildStep(job, s, i), i)
  {
    RunningEnds(job, s, i);
    EofMeansAll(job, s, i);
    EofIsQuiet(job, s, i, m);
    assert StageOk(job, s, i);
    assert Feed(job, i)[|s.children[i].got|..] == [];
  }

  lemma SourceReadStage(job: Job, s: State, m: Memory)
    requires ValidJob(job) && FlowOk(job, s) && ChildEnabled(job, s, 0) && s.children[0].pc == Running(m)
    requires job.stages[0].act(m).Get? && s.source != []
    ensures StageOk(job, ChildStep(job, s, 0), 0)
  {
    InputPrefix(job, s, 0);
    assert StageOk(job, s, 0);
    SourceReadTakesByte(job, s, m);
    assert GotBy(s, 0) + s.source == (GotBy(s, 0) + [s.source[0]]) + s.source[1..];
    GetStage(job, s, 0, m, s.source[0], ChildStep(job, s, 0));
  }

  lemma PipeReadStage(job: Job, s: State, i: nat, m: Memory)
    requires ValidJob(job) && FlowOk(job, s) && ChildEnabled(job, s, i) && s.children[i].pc == Running(m)
    requires job.stages[i].act(m).Get? && 0 < i && i - 1 < |s.queues| && s.queues[i - 1] != []
    ensures StageOk(job, ChildStep(job, s, i), i)
  {
    var queue := s.queues[i - 1];
    InputPrefix(job, s, i);
    assert StageOk(job, s, i);
    PipeReadTakesByte(job, s, i, m);
    assert GotBy(s, i) + queue == (GotBy(s, i) + [queue[0]]) + queue[1..];
    GetStage(job, s, i, m, queue[0], ChildStep(job, s, i));
  }

  lemma ReadStage(job: Job, s: State, i: nat, m: Memory)
    requires ValidJob(job) && FlowOk(job, s) && ChildEnabled(job, s, i) && s.children[i].pc == Running(m)
    requires job.stages[i].act(m).Get?
    ensures StageOk(job, ChildStep(job, s, i), i)
  {
    RunningEnds(job, s, i);
    if NoInput(s, i) {
      EofStage(job, s, i, m);
    } else if i == 0 {
      SourceReadStage(job, s, m);
    } else {
      PipeReadStage(job, s, i, m);
    }
  }

  lemma StepFlow(job: Job, s: State, a: Move)
    requires ValidJob(job) && FlowOk(job, s) && Enabled(job, s, a)
    ensures FlowOk(job, Step(job, s, a))
  {
    if !a.ChildMove? {
      ParentFlow(job, s, a);
    } else {
      var i := a.i;
      if s.children[i].pc.Running? {
        var m := s.children[i].pc.m;
        match job.stages[i].act(m) {
          case Exit => ExitStage(job, s, i, m);
          case Put(b, next) => WriteStage(job, s, i, m, b, next);
          case Get(_, _) => ReadStage(job, s, i, m);
        }
      } else {
        PlumbingStage(job, s, i);
      }
      ChildFlow(job, s, i);
    }
  }

  lemma {:induction false} RunFlow(job: Job, s: State, moves: seq<Move>, t: State)
    requires ValidJob(job) && FlowOk(job, s) && Run(job, s, moves, t)
    ensures FlowOk(job, t)
    decreases |moves|
  {
    if moves == [] {
    } else {
      StepFlow(job, s, moves[0]);
      RunFlow(job, Step(job, s, moves[0]), moves[1..], t);
    }
  }
}
