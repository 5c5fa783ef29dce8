/** Conservation of bytes: whatever the programs and the schedule, no byte is lost, doubled or reordered on its way. */
module PipelineBytes {
  import opened Options
  import opened Fds
  import opened Stages
  import opened Bytes
  import opened Pipeline
  import opened PipelineTables

  function GotBy(s: State, i: nat): seq<Byte> {
    if i < |s.children| then s.children[i].got else []
  }

  function PutBy(s: State, i: nat): seq<Byte> {
    if i < |s.children| then s.children[i].put else []
  }

  /** Bytes written to a pipe = bytes read from it, then the bytes in flight. */
  ghost predicate PipeOk(job: Job, s: State, j: nat)
    requires j < |s.queues|
  {
    PutBy(s, j) == GotBy(s, j + 1) + s.queues[j] && |s.queues[j]| <= job.capacity
  }

  ghost predicate BytesOk(job: Job, s: State)
    requires WellFormed(job)
  {
    && TablesOk(job, s)
    && (forall j :: 0 <= j < |s.queues| ==> PipeOk(job, s, j))
    && GotBy(s, 0) + s.source == job.input
    && s.sink == PutBy(s, |job.stages| - 1)
  }

  lemma InitBytes(job: Job)
    requires WellFormed(job)
    ensures BytesOk(job, Init(job))
  {
  }

  // ---- when an end is closed everywhere ----

  /** While child i exists, only the exit of child i-1 can leave pipe i-1 without a write end. */
  lemma WriterOpen(job: Job, s: State, i: nat)
    requires WellFormed(job) && TablesOk(job, s) && 0 < i < |s.children|
    ensures Open(s, WriteEnd(i - 1)) || s.children[i - 1].pc.Exited?
  {
    assert ChildTableOk(job, s, i - 1);
    if !s.children[i - 1].pc.Exited? {
      ChildHolds(job, s.pipes, i - 1, s.children[i - 1].pc);
      assert Holds(s.children[i - 1].table, WriteEnd(i - 1));
    }
  }

  /** While child i exists, only the exit of child i+1 can leave pipe i without a read end. */
  lemma ReaderOpen(job: Job, s: State, i: nat)
    requires WellFormed(job) && TablesOk(job, s) && i < |s.children| && i < |s.pipes|
    ensures Open(s, ReadEnd(i)) || (i + 1 < |s.children| && s.children[i + 1].pc.Exited?)
  {
    if i + 1 < |s.children| {
      assert ChildTableOk(job, s, i + 1);
      if !s.children[i + 1].pc.Exited? {
        ChildHolds(job, s.pipes, i + 1, s.children[i + 1].pc);
        assert Holds(s.children[i + 1].table, ReadEnd(i));
      }
    } else {
      WithPipesEnds(job.entry, s.pipes, i);
      assert s.table[s.pipes[i].0] == ReadEnd(i);
    }
  }

  // ---- what a step of a child does to the bytes ----

  /** No byte moves. */
  ghost predicate Quiet(s: State, i: nat, t: State)
    requires i < |s.children|
  {
    i < |t.children| && t == SetChild(s, i, t.children[i])
    && t.children[i].got == s.children[i].got && t.children[i].put == s.children[i].put
  }

  /** Child i puts b into its pipe, or, being the last, into the output. */
  ghost predicate GaveByte(s: State, i: nat, b: Byte, next: Memory, t: State)
    requires i < |s.children|
  {
    var c := s.children[i];
    && t.children == s.children[i := c.(pc := Running(next), put := c.put + [b])]
    && t.queues == (if i < |s.queues| then s.queues[i := s.queues[i] + [b]] else s.queues)
    && t.source == s.source && t.sink == (if i < |s.queues| then s.sink else s.sink + [b])
  }

  lemma PutGivesByte(job: Job, s: State, i: nat, m: Memory, b: Byte, next: Memory)
    requires WellFormed(job) && TablesOk(job, s) && ChildEnabled(job, s, i) && s.children[i].pc == Running(m)
    requires job.stages[i].act(m) == Put(b, next) && (i < |job.stages| - 1 ==> Open(s, ReadEnd(i)))
    ensures GaveByte(s, i, b, next, ChildStep(job, s, i))
    ensures i < |s.queues| ==> |s.queues[i]| < job.capacity
  {
    RunningEnds(job, s, i);
  }

  /** Child i takes the first byte in flight in its pipe. */
  ghost predicate TookByte(job: Job, s: State, i: nat, m: Memory, t: State)
    requires i < |s.children| && i < |job.stages| && job.stages[i].act(m).Get?
    requires 0 < i && i - 1 < |s.queues| && s.queues[i - 1] != []
  {
    var c, b := s.children[i], s.queues[i - 1][0];
    && t.children == s.children[i := c.(pc := Running(job.stages[i].act(m).onByte(b)), got := c.got + [b])]
    && t.queues == s.queues[i - 1 := s.queues[i - 1][1..]]
    && t.source == s.source && t.sink == s.sink
  }

  lemma PipeReadTakesByte(job: Job, s: State, i: nat, m: Memory)
    requires WellFormed(job) && TablesOk(job, s) && ChildEnabled(job, s, i) && s.children[i].pc == Running(m)
    requires job.stages[i].act(m).Get? && 0 < i && i - 1 < |s.queues| && s.queues[i - 1] != []
    ensures TookByte(job, s, i, m, ChildStep(job, s, i))
  {
    RunningEnds(job, s, i);
  }

  /** The first child takes the first byte of the source. */
  ghost predicate TookSource(job: Job, s: State, m: Memory, t: State)
    requires 0 < |s.children| && 0 < |job.stages| && job.stages[0].act(m).Get? && s.source != []
  {
    var c, b := s.children[0], s.source[0];
    && t.children == s.children[0 := c.(pc := Running(job.stages[0].act(m).onByte(b)), got := c.got + [b])]
    && t.queues == s.queues && t.source == s.source[1..] && t.sink == s.sink
  }

  lemma SourceReadTakesByte(job: Job, s: State, m: Memory)
    requires WellFormed(job) && TablesOk(job, s) && ChildEnabled(job, s, 0) && s.children[0].pc == Running(m)
    requires job.stages[0].act(m).Get? && s.source != []
    ensures TookSource(job, s, m, ChildStep(job, s, 0))
  {
    RunningEnds(job, s, 0);
  }

  /** Nothing is there to be read. */
  predicate NoInput(s: State, i: nat) {
    if i > 0 then i - 1 < |s.queues| && s.queues[i - 1] == [] else s.source == []
  }

  lemma EofIsQuiet(job: Job, s: State, i: nat, m: Memory)
    requires WellFormed(job) && TablesOk(job, s) && ChildEnabled(job, s, i) && s.children[i].pc == Running(m)
    requires job.stages[i].act(m).Get? && NoInput(s, i)
    ensures ChildStep(job, s, i) == SetChild(s, i, s.children[i].(pc := Running(job.stages[i].act(m).onEof)))
  {
    RunningEnds(job, s, i);
  }

  lemma KilledIsQuiet(job: Job, s: State, i: nat, m: Memory)
    requires WellFormed(job) && TablesOk(job, s) && ChildEnabled(job, s, i) && s.children[i].pc == Running(m)
    requires job.stages[i].act(m).Put? && i < |job.stages| - 1 && !Open(s, ReadEnd(i))
    ensures ChildStep(job, s, i) == SetChild(s, i, Dead(s.children[i]))
  {
    RunningEnds(job, s, i);
  }

  // ---- preservation ----

  lemma QuietBytes(job: Job, s: State, i: nat, t: State)
    requires WellFormed(job) && BytesOk(job, s) && i < |s.children| && Quiet(s, i, t) && TablesOk(job, t)
    ensures BytesOk(job, t)
  {
    forall j | 0 <= j < |t.queues| ensures PipeOk(job, t, j) {
      assert PipeOk(job, s, j);
    }
  }

  lemma GaveByteBytes(job: Job, s: State, i: nat, b: Byte, next: Memory, t: State)
    requires WellFormed(job) && BytesOk(job, s) && i < |s.children| && |s.queues| == |job.stages| - 1 && i < |job.stages|
    requires GaveByte(s, i, b, next, t) && (i < |s.queues| ==> |s.queues[i]| < job.capacity) && TablesOk(job, t)
    ensures BytesOk(job, t)
  {
    forall j | 0 <= j < |t.queues| ensures PipeOk(job, t, j) {
      assert PipeOk(job, s, j);
      if j == i {
        assert GotBy(s, i + 1) + (s.queues[i] + [b]) == (GotBy(s, i + 1) + s.queues[i]) + [b];
      }
    }
  }

  lemma TookByteBytes(job: Job, s: State, i: nat, m: Memory, t: State)
    requires WellFormed(job) && BytesOk(job, s) && i < |s.children| && i < |job.stages| && job.stages[i].act(m).Get?
    requires 0 < i && i - 1 < |s.queues| && s.queues[i - 1] != [] && TookByte(job, s, i, m, t) && TablesOk(job, t)
    ensures BytesOk(job, t)
  {
    var queue := s.queues[i - 1];
    forall j | 0 <= j < |t.queues| ensures PipeOk(job, t, j) {
      assert PipeOk(job, s, j);
      if j == i - 1 {
        assert GotBy(s, i) + queue == (GotBy(s, i) + [queue[0]]) + queue[1..];
      }
    }
  }

  lemma TookSourceBytes(job: Job, s: State, m: Memory, t: State)
    requires WellFormed(job) && BytesOk(job, s) && 0 < |s.children| && job.stages[0].act(m).Get? && s.source != []
    requires TookSource(job, s, m, t) && TablesOk(job, t)
    ensures BytesOk(job, t)
  {
    forall j | 0 <= j < |t.queues| ensures PipeOk(job, t, j) {
      assert PipeOk(job, s, j);
    }
    assert GotBy(s, 0) + s.source == (GotBy(s, 0) + [s.source[0]]) + s.source[1..];
  }

  lemma GetBytes(job: Job, s: State, i: nat, m: Memory)
    requires WellFormed(job) && BytesOk(job, s) && ChildEnabled(job, s, i) && s.children[i].pc == Running(m)
    requires job.stages[i].act(m).Get? && TablesOk(job, ChildStep(job, s, i))
    ensures BytesOk(job, ChildStep(job, s, i))
  {
    var t := ChildStep(job, s, i);
    RunningEnds(job, s, i);
    if NoInput(s, i) {
      EofIsQuiet(job, s, i, m);
      QuietBytes(job, s, i, t);
    } else if i == 0 {
      SourceReadTakesByte(job, s, m);
      TookSourceBytes(job, s, m, t);
    } else {
      PipeReadTakesByte(job, s, i, m);
      TookByteBytes(job, s, i, m, t);
    }
  }

  lemma PutBytes(job: Job, s: State, i: nat, m: Memory)
    requires WellFormed(job) && BytesOk(job, s) && ChildEnabled(job, s, i) && s.children[i].pc == Running(m)
    requires job.stages[i].act(m).Put? && TablesOk(job, ChildStep(job, s, i))
    ensures BytesOk(job, ChildStep(job, s, i))
  {
    var t := ChildStep(job, s, i);
    RunningEnds(job, s, i);
    if i < |job.stages| - 1 && !Open(s, ReadEnd(i)) {
      KilledIsQuiet(job, s, i, m);
      QuietBytes(job, s, i, t);
    } else {
      var b, next := job.stages[i].act(m).b, job.stages[i].act(m).next;
      PutGivesByte(job, s, i, m, b, next);
      GaveByteBytes(job, s, i, b, next, t);
    }
  }

  lemma ChildBytes(job: Job, s: State, i: nat)
    requires WellFormed(job) && BytesOk(job, s) && ChildEnabled(job, s, i)
    ensures BytesOk(job, ChildStep(job, s, i))
  {
    ChildTables(job, s, i);
    if s.children[i].pc.Running? && job.stages[i].act(s.children[i].pc.m).Get? {
      GetBytes(job, s, i, s.children[i].pc.m);
    } else if s.children[i].pc.Running? && job.stages[i].act(s.children[i].pc.m).Put? {
      PutBytes(job, s, i, s.children[i].pc.m);
    } else {
      QuietBytes(job, s, i, ChildStep(job, s, i));
    }
  }

  lemma ParentBytes(job: Job, s: State, a: Move)
    requires WellFormed(job) && BytesOk(job, s) && Enabled(job, s, a) && !a.ChildMove?
    ensures BytesOk(job, Step(job, s, a))
  {
    var t := Step(job, s, a);
    StepTables(job, s, a);
    forall j | 0 <= j < |t.queues| ensures PipeOk(job, t, j) {
      if j < |s.queues| { assert PipeOk(job, s, j); }
    }
  }

  lemma StepBytes(job: Job, s: State, a: Move)
    requires WellFormed(job) && BytesOk(job, s) && Enabled(job, s, a)
    ensures BytesOk(job, Step(job, s, a))
  {
    if a.ChildMove? {
      ChildBytes(job, s, a.i);
    } else {
      ParentBytes(job, s, a);
    }
  }

  lemma {:induction false} RunBytes(job: Job, s: State, moves: seq<Move>, t: State)
    requires WellFormed(job) && BytesOk(job, s) && Run(job, s, moves, t)
    ensures BytesOk(job, t)
    decreases |moves|
  {
    if moves == [] {
    } else {
      StepBytes(job, s, moves[0]);
      RunBytes(job, Step(job, s, moves[0]), moves[1..], t);
    }
  }

  /** At every point of every schedule, whatever the programs: bytes written to a pipe = bytes read from it, then those
      in flight, never more in flight than the capacity; likewise at the outer ends. */
  lemma {:induction false} PipelineConservesBytes(job: Job, moves: seq<Move>, s: State)
    requires WellFormed(job) && Run(job, Init(job), moves, s)
    ensures forall j :: 0 <= j < |s.queues| ==> PutBy(s, j) == GotBy(s, j + 1) + s.queues[j] && |s.queues[j]| <= job.capacity
    ensures GotBy(s, 0) + s.source == job.input && s.sink == PutBy(s, |job.stages| - 1)
  {
    InitBytes(job);
    RunBytes(job, Init(job), moves, s);
    forall j | 0 <= j < |s.queues| ensures PutBy(s, j) == GotBy(s, j + 1) + s.queues[j] && |s.queues[j]| <= job.capacity {
      assert PipeOk(job, s, j);
    }
  }
}
