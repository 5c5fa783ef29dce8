/** Pipeline stages: arbitrary deterministic programs that read descriptor 0 and write descriptor 1. */
module Stages {

  import opened Bytes

  /** The private memory of a program, under some encoding. */
  type Memory = int

  datatype Action =
    | Exit
    | Put(b: Byte, next: Memory)
    | Get(onByte: Byte -> Memory, onEof: Memory)

  /** rank bounds how long the program can go on without being given a further byte of input. */
  datatype Stage = Stage(start: Memory, act: Memory -> Action, rank: Memory -> nat)

  /** Finite input leads to finite output and an exit. */
  ghost predicate Finite(p: Stage) {
    forall m {:trigger p.act(m)} ::
      match p.act(m)
      case Exit => true
      case Put(_, next) => p.rank(next) < p.rank(m)
      case Get(_, onEof) => p.rank(onEof) < p.rank(m)
  }

  /** What the program still writes when `input` is all the input it has left. */
  ghost function Output(p: Stage, m: Memory, input: seq<Byte>): seq<Byte>
    requires Finite(p)
    decreases |input|, p.rank(m)
  {
    match p.act(m)
    case Exit => []
    case Put(b, next) => [b] + Output(p, next, input)
    case Get(onByte, onEof) =>
      if input == [] then Output(p, onEof, input) else Output(p, onByte(input[0]), input[1..])
  }

  /** The stream function of a stage. */
  ghost function Apply(p: Stage, input: seq<Byte>): seq<Byte>
    requires Finite(p)
  {
    Output(p, p.start, input)
  }
}
