/**
 * The output of a pipeline does not depend on the schedule, whatever the programs: they may run for ever, exit early or
 * be killed. Each program's history is a function of the stream it reads, and streams only ever grow.
 */
module PipelineDeterminism {
  import opened Options
  import opened Fds
  import opened Stages
  import opened Bytes
  import opened Pipeline
  import opened PipelineTables
  import opened PipelineBytes

  /** What a program can have read so far, and whether end of file follows. */
  datatype Stream = Stream(bytes: seq<Byte>, ended: bool)

  /** x may yet become y. */
  predicate Extends(x: Stream, y: Stream) {
    x.bytes <= y.bytes && (x.ended ==> y == x)
  }

  /** Where a program is: its memory, how many bytes it has read and which it has written. */
  datatype Point = Point(m: Memory, read: nat, put: seq<Byte>)

  /** One action; None if the program exits or has to wait for input. */
  function Act(p: Stage, x: Stream, q: Point): Option<Point> {
    match p.act(q.m)
    case Exit => None
    case Put(b, next) => Some(Point(next, q.read, q.put + [b]))
    case Get(onByte, onEof) =>
      if q.read < |x.bytes| then Some(Point(onByte(x.bytes[q.read]), q.read + 1, q.put))
      else if x.ended then Some(Point(onEof, q.read, q.put))
      else None
  }

  /** Where the program is after k actions on the stream. */
  function After(p: Stage, x: Stream, k: nat): Option<Point> {
    if k == 0 then Some(Point(p.start, 0, []))
    else
      var before := After(p, x, k - 1);
      if before.None? then None else Act(p, x, before.value)
  }

  // ---- a program is a function of its stream ----

  lemma {:induction false} AfterExtends(p: Stage, x: Stream, y: Stream, k: nat)
    requires Extends(x, y) && After(p, x, k).Some?
    ensures After(p, y, k) == After(p, x, k)
  {
    if k > 0 {
      AfterExtends(p, x, y, k - 1);
    }
  }

  lemma {:induction false} AfterGrows(p: Stage, x: Stream, k: nat, later: nat)
    requires k <= later && After(p, x, later).Some?
    ensures After(p, x, k).Some? && After(p, x, k).value.put <= After(p, x, later).value.put
    decreases later
  {
    if k < later {
      AfterGrows(p, x, k, later - 1);
    }
  }

  /** After its exit a program does nothing more. */
  lemma ExitIsLast(p: Stage, x: Stream, k: nat, later: nat)
    requires After(p, x, k).Some? && p.act(After(p, x, k).value.m).Exit? && After(p, x, later).Some?
    ensures later <= k
  {
    if k < later {
      AfterGrows(p, x, k + 1, later);
    }
  }

  predicate Comparable(x: Stream, y: Stream) {
    Extends(x, y) || Extends(y, x)
  }

  /** What a program at q has put out, and whether that is all. */
  function OutOf(q: Point, finished: bool): Stream {
    Stream(q.put, finished)
  }

  /** Two points on comparable streams have put out comparable streams. */
  lemma OutComparable(p: Stage, x: Stream, k: nat, q: Point, fin: bool, y: Stream, k': nat, q': Point, fin': bool)
    requires Comparable(x, y) && After(p, x, k) == Some(q) && After(p, y, k') == Some(q')
    requires (fin ==> p.act(q.m).Exit?) && (fin' ==> p.act(q'.m).Exit?)
    ensures Comparable(OutOf(q, fin), OutOf(q', fin'))
  {
    if Extends(x, y) {
      OutOrdered(p, x, k, q, fin, y, k', q', fin');
    } else {
      OutOrdered(p, y, k', q', fin', x, k, q, fin);
    }
  }

  lemma OutOrdered(p: Stage, x: Stream, k: nat, q: Point, fin: bool, y: Stream, k': nat, q': Point, fin': bool)
    requires Extends(x, y) && After(p, x, k) == Some(q) && After(p, y, k') == Some(q')
    requires (fin ==> p.act(q.m).Exit?) && (fin' ==> p.act(q'.m).Exit?)
    ensures Comparable(OutOf(q, fin), OutOf(q', fin'))
  {
    AfterExtends(p, x, y, k);
    if k <= k' {
      AfterGrows(p, y, k, k');
      if fin { ExitIsLast(p, y, k, k'); }
    } else {
      AfterGrows(p, y, k', k);
      if fin' { ExitIsLast(p, y, k', k); }
    }
  }

  /** A program on the stream x can have put out the stream `out`. */
  ghost predicate Link(p: Stage, x: Stream, out: Stream) {
    exists k: nat, q, fin :: LinkBy(p, x, out, k, q, fin)
  }

  predicate LinkBy(p: Stage, x: Stream, out: Stream, k: nat, q: Point, fin: bool) {
    After(p, x, k) == Some(q) && out == OutOf(q, fin) && (fin ==> p.act(q.m).Exit?)
  }

  lemma LinksComparable(p: Stage, x: Stream, out: Stream, y: Stream, out': Stream)
    requires Comparable(x, y) && Link(p, x, out) && Link(p, y, out')
    ensures Comparable(out, out')
  {
    var k: nat, q, fin :| LinkBy(p, x, out, k, q, fin);
    var k': nat, q', fin' :| LinkBy(p, y, out', k', q', fin');
    OutComparable(p, x, k, q, fin, y, k', q', fin');
  }

  // ---- the streams of a state ----

  /** Child i is where k actions of its program on the stream x lead. */
  predicate IsAt(p: Stage, x: Stream, s: State, i: nat, k: nat, m: Memory) {
    After(p, x, k) == Some(Point(m, |GotBy(s, i)|, PutBy(s, i)))
  }

  /** Child i has exited by itself, with all it had to write on the stream x written. */
  ghost predicate Finished(p: Stage, x: Stream, s: State, i: nat) {
    i < |s.children| && s.children[i].pc.Exited? && exists k: nat, m :: IsAt(p, x, s, i, k, m) && p.act(m).Exit?
  }

  lemma FinishedAt(p: Stage, x: Stream, s: State, i: nat) returns (k: nat, m: Memory)
    requires Finished(p, x, s, i)
    ensures IsAt(p, x, s, i, k, m) && p.act(m).Exit?
  {
    k, m :| IsAt(p, x, s, i, k, m) && p.act(m).Exit?;
  }

  /** The stream of stage i. */
  ghost function In(job: Job, s: State, i: nat): Stream
    requires i <= |job.stages|
  {
    if i == 0 then Stream(job.input, true)
    else Stream(PutBy(s, i - 1), Finished(job.stages[i - 1], In(job, s, i - 1), s, i - 1))
  }

  ghost predicate At(job: Job, s: State, i: nat, k: nat, m: Memory)
    requires i < |job.stages|
  {
    IsAt(job.stages[i], In(job, s, i), s, i, k, m)
  }

  ghost predicate Done(job: Job, s: State, i: nat)
    requires i < |job.stages|
  {
    Finished(job.stages[i], In(job, s, i), s, i)
  }

  /** Child i has acted as its stream says, and it is dead only if it exited by itself or nobody reads it any more. */
  ghost predicate HistoryOk(job: Job, s: State, i: nat)
    requires i < |s.children| && i < |job.stages|
  {
    match s.children[i].pc
    case Running(m) => exists k: nat :: At(job, s, i, k, m)
    case Exited =>
      exists k: nat, m ::
        At(job, s, i, k, m) && (job.stages[i].act(m).Exit? || (i + 1 < |s.children| && s.children[i + 1].pc.Exited?))
    case _ => s.children[i].got == [] && s.children[i].put == []
  }

  ghost predicate HistoriesOk(job: Job, s: State)
    requires WellFormed(job)
  {
    BytesOk(job, s) && forall i :: 0 <= i < |s.children| ==> HistoryOk(job, s, i)
  }

  // ---- steps only extend streams ----

  /** Nothing written is taken back, and the dead stay as they are. */
  ghost predicate Grows(s: State, t: State) {
    && |s.children| <= |t.children| && (forall i: nat :: PutBy(s, i) <= PutBy(t, i))
    && forall i :: 0 <= i < |s.children| && s.children[i].pc.Exited? ==> t.children[i] == s.children[i]
  }

  lemma {:induction false} StreamsExtend(job: Job, s: State, t: State, i: nat)
    requires i <= |job.stages| && Grows(s, t)
    ensures Extends(In(job, s, i), In(job, t, i))
    decreases i
  {
    if i > 0 && Done(job, s, i - 1) {
      StreamsExtend(job, s, t, i - 1);
      var k, m := FinishedAt(job.stages[i - 1], In(job, s, i - 1), s, i - 1);
      AfterExtends(job.stages[i - 1], In(job, s, i - 1), In(job, t, i - 1), k);
      assert IsAt(job.stages[i - 1], In(job, t, i - 1), t, i - 1, k, m);
    }
  }

  /** A child that stays as it is keeps its history. */
  lemma SameHistory(job: Job, s: State, t: State, i: nat)
    requires Grows(s, t) && i < |s.children| && i < |job.stages| && t.children[i] == s.children[i] && HistoryOk(job, s, i)
    ensures HistoryOk(job, t, i)
  {
    StreamsExtend(job, s, t, i);
    if s.children[i].pc.Running? || s.children[i].pc.Exited? {
      var k: nat, m :| At(job, s, i, k, m)
        && (s.children[i].pc.Running? ==> m == s.children[i].pc.m)
        && (s.children[i].pc.Exited? ==> job.stages[i].act(m).Exit? || (i + 1 < |s.children| && s.children[i + 1].pc.Exited?));
      AfterExtends(job.stages[i], In(job, s, i), In(job, t, i), k);
      assert At(job, t, i, k, m);
    }
  }

  /** One more action of child i on its stream. */
  lemma NextPoint(job: Job, s: State, i: nat, m: Memory, t: State, k: nat, m': Memory)
    requires Grows(s, t) && i < |s.children| && i < |job.stages| && At(job, s, i, k, m)
    requires Act(job.stages[i], In(job, s, i), Point(m, |GotBy(s, i)|, PutBy(s, i)))
          == Some(Point(m', |GotBy(t, i)|, PutBy(t, i)))
    ensures At(job, t, i, k + 1, m')
  {
    StreamsExtend(job, s, t, i);
    AfterExtends(job.stages[i], In(job, s, i), In(job, t, i), k + 1);
  }

  // ---- preservation ----

  /** What child i can read is the part of its stream it has not read. */
  lemma Readable(job: Job, s: State, i: nat)
    requires WellFormed(job) && BytesOk(job, s) && i < |s.children| && i < |job.stages| && |s.queues| == |job.stages| - 1
    ensures In(job, s, i).bytes == GotBy(s, i) + if i > 0 then s.queues[i - 1] else s.source
  {
    if i > 0 {
      assert PipeOk(job, s, i - 1);
    }
  }

  /** End of file is only seen when the writer has finished. */
  lemma EofMeansFinished(job: Job, s: State, i: nat)
    requires WellFormed(job) && HistoriesOk(job, s) && i < |s.children| && s.children[i].pc.Running?
    requires i < |job.stages| && ReadReady(s, i) && NoInput(s, i)
    ensures In(job, s, i).ended
  {
    RunningEnds(job, s, i);
    if i > 0 {
      WriterOpen(job, s, i);
      assert HistoryOk(job, s, i - 1);
    }
  }

  lemma EofHistory(job: Job, s: State, i: nat, m: Memory)
    requires WellFormed(job) && HistoriesOk(job, s) && ChildEnabled(job, s, i) && s.children[i].pc == Running(m)
    requires job.stages[i].act(m).Get? && Grows(s, ChildStep(job, s, i)) && NoInput(s, i)
    ensures HistoryOk(job, ChildStep(job, s, i), i)
  {
    assert HistoryOk(job, s, i);
    var k: nat :| At(job, s, i, k, m);
    RunningEnds(job, s, i);
    Readable(job, s, i);
    EofMeansFinished(job, s, i);
    EofIsQuiet(job, s, i, m);
    NextPoint(job, s, i, m, ChildStep(job, s, i), k, job.stages[i].act(m).onEof);
  }

  lemma ByteHistory(job: Job, s: State, i: nat, m: Memory, b: Byte, t: State)
    requires WellFormed(job) && HistoriesOk(job, s) && i < |s.children| && s.children[i].pc == Running(m)
    requires i < |job.stages| && job.stages[i].act(m).Get? && Grows(s, t) && |t.children| == |s.children|
    requires t.children[i] == s.children[i].(pc := Running(job.stages[i].act(m).onByte(b)), got := s.children[i].got + [b])
    requires s.children[i].got + [b] <= In(job, s, i).bytes
    ensures HistoryOk(job, t, i)
  {
    assert HistoryOk(job, s, i);
    var k: nat :| At(job, s, i, k, m);
    assert (s.children[i].got + [b])[|s.children[i].got|] == b;
    NextPoint(job, s, i, m, t, k, job.stages[i].act(m).onByte(b));
  }

  lemma ReadHistory(job: Job, s: State, i: nat, m: Memory)
    requires WellFormed(job) && HistoriesOk(job, s) && ChildEnabled(job, s, i) && s.children[i].pc == Running(m)
    requires job.stages[i].act(m).Get? && Grows(s, ChildStep(job, s, i))
    ensures HistoryOk(job, ChildStep(job, s, i), i)
  {
    RunningEnds(job, s, i);
    Readable(job, s, i);
    if NoInput(s, i) {
      EofHistory(job, s, i, m);
    } else if i > 0 {
      PipeReadTakesByte(job, s, i, m);
      ByteHistory(job, s, i, m, s.queues[i - 1][0], ChildStep(job, s, i));
    } else {
      SourceReadTakesByte(job, s, m);
      ByteHistory(job, s, 0, m, s.source[0], ChildStep(job, s, 0));
    }
  }

  lemma WriteHistory(job: Job, s: State, i: nat, m: Memory)
    requires WellFormed(job) && HistoriesOk(job, s) && ChildEnabled(job, s, i) && s.children[i].pc == Running(m)
    requires job.stages[i].act(m).Put? && Grows(s, ChildStep(job, s, i))
    ensures HistoryOk(job, ChildStep(job, s, i), i)
  {
    var t, b, next := ChildStep(job, s, i), job.stages[i].act(m).b, job.stages[i].act(m).next;
    assert HistoryOk(job, s, i);
    var k: nat :| At(job, s, i, k, m);
    RunningEnds(job, s, i);
    if i < |job.stages| - 1 && !Open(s, ReadEnd(i)) {
      KilledIsQuiet(job, s, i, m);
      ReaderOpen(job, s, i);
      StreamsExtend(job, s, t, i);
      AfterExtends(job.stages[i], In(job, s, i), In(job, t, i), k);
      assert At(job, t, i, k, m);
    } else {
      PutGivesByte(job, s, i, m, b, next);
      NextPoint(job, s, i, m, t, k, next);
    }
  }

  lemma ExitHistory(job: Job, s: State, i: nat, m: Memory)
    requires WellFormed(job) && HistoriesOk(job, s) && ChildEnabled(job, s, i) && s.children[i].pc == Running(m)
    requires job.stages[i].act(m).Exit? && Grows(s, ChildStep(job, s, i))
    ensures HistoryOk(job, ChildStep(job, s, i), i)
  {
    var t := ChildStep(job, s, i);
    assert HistoryOk(job, s, i);
    var k: nat :| At(job, s, i, k, m);
    StreamsExtend(job, s, t, i);
    AfterExtends(job.stages[i], In(job, s, i), In(job, t, i), k);
    assert At(job, t, i, k, m);
  }

  lemma PlumbingHistory(job: Job, s: State, i: nat)
    requires WellFormed(job) && HistoriesOk(job, s) && ChildEnabled(job, s, i) && !s.children[i].pc.Running?
    ensures HistoryOk(job, ChildStep(job, s, i), i)
  {
    var t := ChildStep(job, s, i);
    assert HistoryOk(job, s, i);
    if t.children[i].pc.Running? {
      assert After(job.stages[i], In(job, t, i), 0) == Some(Point(job.stages[i].start, 0, []));
      assert At(job, t, i, 0, job.stages[i].start);
    }
  }

  lemma ChildGrows(job: Job, s: State, i: nat)
    requires WellFormed(job) && TablesOk(job, s) && ChildEnabled(job, s, i)
    ensures Grows(s, ChildStep(job, s, i))
  {
    OthersUntouched(job, s, i);
  }

  lemma StepHistories(job: Job, s: State, a: Move)
    requires WellFormed(job) && HistoriesOk(job, s) && Enabled(job, s, a)
    ensures HistoriesOk(job, Step(job, s, a))
  {
    var t := Step(job, s, a);
    StepBytes(job, s, a);
    if a.ChildMove? {
      var c := a.i;
      ChildGrows(job, s, c);
      OthersUntouched(job, s, c);
      OwnHistory(job, s, c);
      forall i | 0 <= i < |t.children| ensures HistoryOk(job, t, i) {
        if i != c { SameHistory(job, s, t, i); }
      }
    } else {
      assert Grows(s, t);
      forall i | 0 <= i < |t.children| ensures HistoryOk(job, t, i) {
        if i < |s.children| { SameHistory(job, s, t, i); }
      }
    }
  }

  lemma OwnHistory(job: Job, s: State, c: nat)
    requires WellFormed(job) && HistoriesOk(job, s) && ChildEnabled(job, s, c) && Grows(s, ChildStep(job, s, c))
    ensures HistoryOk(job, ChildStep(job, s, c), c)
  {
    if !s.children[c].pc.Running? {
      PlumbingHistory(job, s, c);
    } else {
      var m := s.children[c].pc.m;
      match job.stages[c].act(m) {
        case Exit => ExitHistory(job, s, c, m);
        case Put(_, _) => WriteHistory(job, s, c, m);
        case Get(_, _) => ReadHistory(job, s, c, m);
      }
    }
  }

  lemma {:induction false} RunHistories(job: Job, s: State, moves: seq<Move>, t: State)
    requires WellFormed(job) && HistoriesOk(job, s) && Run(job, s, moves, t)
    ensures HistoriesOk(job, t)
    decreases |moves|
  {
    if moves == [] {
    } else {
      StepHistories(job, s, moves[0]);
      RunHistories(job, Step(job, s, moves[0]), moves[1..], t);
    }
  }

  // ---- two runs ----

  lemma HistoryAt(job: Job, s: State, i: nat) returns (k: nat, m: Memory)
    requires i < |s.children| && i < |job.stages| && HistoryOk(job, s, i)
    requires s.children[i].pc.Running? || s.children[i].pc.Exited?
    ensures IsAt(job.stages[i], In(job, s, i), s, i, k, m)
  {
    if s.children[i].pc.Running? {
      m := s.children[i].pc.m;
      k :| IsAt(job.stages[i], In(job, s, i), s, i, k, m);
    } else {
      k, m :| IsAt(job.stages[i], In(job, s, i), s, i, k, m);
    }
  }

  /** Where child i is on its stream, and whether it is done. */
  lemma Whereabouts(job: Job, s: State, i: nat) returns (k: nat)
    requires WellFormed(job) && HistoriesOk(job, s) && i < |job.stages|
    ensures After(job.stages[i], In(job, s, i), k).Some? && After(job.stages[i], In(job, s, i), k).value.put == PutBy(s, i)
    ensures Done(job, s, i) ==> job.stages[i].act(After(job.stages[i], In(job, s, i), k).value.m).Exit?
  {
    var p, x := job.stages[i], In(job, s, i);
    if Done(job, s, i) {
      var m;
      k, m := FinishedAt(p, x, s, i);
    } else if i < |s.children| && (s.children[i].pc.Running? || s.children[i].pc.Exited?) {
      assert HistoryOk(job, s, i);
      var m;
      k, m := HistoryAt(job, s, i);
    } else {
      assert i < |s.children| ==> HistoryOk(job, s, i);
      k := 0;
      assert After(p, x, 0) == Some(Point(p.start, 0, []));
    }
  }

  /** The stream of the next stage is what this one has put out after some actions on its own. */
  lemma NextStream(job: Job, s: State, i: nat)
    requires WellFormed(job) && HistoriesOk(job, s) && i < |job.stages|
    ensures Link(job.stages[i], In(job, s, i), In(job, s, i + 1))
  {
    var k := Whereabouts(job, s, i);
    var q := After(job.stages[i], In(job, s, i), k).value;
    assert LinkBy(job.stages[i], In(job, s, i), In(job, s, i + 1), k, q, Done(job, s, i));
  }

  ghost predicate Linked(job: Job, s: State) {
    forall i :: 0 <= i < |job.stages| ==> Link(job.stages[i], In(job, s, i), In(job, s, i + 1))
  }

  lemma HistoriesLinked(job: Job, s: State)
    requires WellFormed(job) && HistoriesOk(job, s)
    ensures Linked(job, s)
  {
    forall i | 0 <= i < |job.stages| ensures Link(job.stages[i], In(job, s, i), In(job, s, i + 1)) {
      NextStream(job, s, i);
    }
  }

  lemma {:induction false} StreamsComparable(job: Job, s: State, other: Job, s': State, i: nat)
    requires job.stages == other.stages && job.input == other.input
    requires Linked(job, s) && Linked(other, s') && i <= |job.stages|
    ensures Comparable(In(job, s, i), In(other, s', i))
    decreases i
  {
    if i > 0 {
      StreamsComparable(job, s, other, s', i - 1);
      LinksComparable(job.stages[i - 1], In(job, s, i - 1), In(job, s, i), In(other, s', i - 1), In(other, s', i));
    }
  }

  /** When all have exited, the last stage has finished: nobody reads it through a pipe that could break. */
  lemma LastHasFinished(job: Job, s: State)
    requires WellFormed(job) && HistoriesOk(job, s) && s.pc.Returned?
    ensures Done(job, s, |job.stages| - 1)
  {
    var last := |job.stages| - 1;
    assert HistoryOk(job, s, last);
  }

  lemma InitHistories(job: Job)
    requires WellFormed(job)
    ensures HistoriesOk(job, Init(job))
  {
    InitBytes(job);
  }

  lemma RunLinks(job: Job, moves: seq<Move>, s: State)
    requires WellFormed(job) && Run(job, Init(job), moves, s)
    ensures Linked(job, s) && s.sink == PutBy(s, |job.stages| - 1)
    ensures s.pc.Returned? ==> In(job, s, |job.stages|).ended
  {
    InitHistories(job);
    RunHistories(job, Init(job), moves, s);
    HistoriesLinked(job, s);
    if s.pc.Returned? {
      LastHasFinished(job, s);
    }
  }

  /** Two runs of the same programs on the same input, whatever the programs: what has gone through a pipe or out of
      the last stage in one is a prefix of what has gone there in the other, or the other way round; and two complete
      runs write the same output. Schedules, capacities, descriptor numbers and a socket at the ends make no
      difference. */
  lemma {:induction false} OutputIsDetermined(job: Job, moves: seq<Move>, s: State, other: Job, moves': seq<Move>, s': State)
    requires WellFormed(job) && WellFormed(other) && job.stages == other.stages && job.input == other.input
    requires Run(job, Init(job), moves, s) && Run(other, Init(other), moves', s')
    ensures forall i: nat :: i < |job.stages| ==> PutBy(s, i) <= PutBy(s', i) || PutBy(s', i) <= PutBy(s, i)
    ensures s.sink <= s'.sink || s'.sink <= s.sink
    ensures s.pc.Returned? ==> s'.sink <= s.sink
    ensures s.pc.Returned? && s'.pc.Returned? ==> s.sink == s'.sink
  {
    RunLinks(job, moves, s);
    RunLinks(other, moves', s');
    forall i: nat | i < |job.stages| ensures PutBy(s, i) <= PutBy(s', i) || PutBy(s', i) <= PutBy(s, i) {
      StreamsComparable(job, s, other, s', i + 1);
    }
    StreamsComparable(job, s, other, s', |job.stages|);
  }
}
