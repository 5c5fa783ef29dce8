/** Descriptor tables: what fork, pipe, dup2 and close do to the map from descriptors to open ends. */
module Fds {

  /** What a descriptor refers to: one end of a pipe made by the pipeline, or a file it inherited. */
  datatype End = ReadEnd(pipe: nat) | WriteEnd(pipe: nat) | Outer(file: nat)

  type Table = map<nat, End>

  /** A pipe as pipe(2) reports it: the descriptor to read from and the descriptor to write to. */
  type PipeFds = (nat, nat)

  /** pipe(2) with result (r, w), naming the new pipe p. */
  function MakePipe(t: Table, r: nat, w: nat, p: nat): Table {
    t[r := ReadEnd(p)][w := WriteEnd(p)]
  }

  /** dup2(2); a closed source leaves the table alone. */
  function Dup2(t: Table, source: nat, target: nat): Table {
    if source in t then t[target := t[source]] else t
  }

  function Close(t: Table, fd: nat): Table {
    t - {fd}
  }

  predicate Holds(t: Table, e: End) {
    exists fd :: fd in t && t[fd] == e
  }

  /** The table of a process that started from entry and has created these pipes. */
  function WithPipes(entry: Table, pipes: seq<PipeFds>): Table {
    if pipes == [] then entry
    else
      var k := |pipes| - 1;
      MakePipe(WithPipes(entry, pipes[..k]), pipes[k].0, pipes[k].1, k)
  }

  /** Each pipe was given two descriptors that were closed when it was created. */
  predicate FreshPipes(entry: Table, pipes: seq<PipeFds>) {
    pipes == [] ||
    var k := |pipes| - 1;
    var before := WithPipes(entry, pipes[..k]);
    FreshPipes(entry, pipes[..k]) && pipes[k].0 != pipes[k].1 && pipes[k].0 !in before && pipes[k].1 !in before
  }

  /** The descriptor that the c-th call of the close loop names: read end, write end, next pipe. */
  function FdAt(pipes: seq<PipeFds>, c: nat): nat
    requires c < 2 * |pipes|
  {
    if c % 2 == 0 then pipes[c / 2].0 else pipes[c / 2].1
  }

  /** The descriptors closed by the first c calls of the close loop. */
  function Closed(pipes: seq<PipeFds>, c: nat): set<nat>
    requires c <= 2 * |pipes|
  {
    set m | 0 <= m < c :: FdAt(pipes, m)
  }

  lemma ClosedNext(pipes: seq<PipeFds>, c: nat)
    requires c < 2 * |pipes|
    ensures Closed(pipes, c + 1) == Closed(pipes, c) + {FdAt(pipes, c)}
  {
  }

  lemma ClosedEnds(pipes: seq<PipeFds>, k: nat)
    requires k < |pipes|
    ensures pipes[k].0 in Closed(pipes, 2 * |pipes|) && pipes[k].1 in Closed(pipes, 2 * |pipes|)
  {
    assert FdAt(pipes, 2 * k) == pipes[k].0;
    assert FdAt(pipes, 2 * k + 1) == pipes[k].1;
  }

  lemma ClosedOfPrefix(pipes: seq<PipeFds>)
    requires pipes != []
    ensures var k := |pipes| - 1;
            Closed(pipes, 2 * |pipes|) == Closed(pipes[..k], 2 * k) + {pipes[k].0, pipes[k].1}
  {
    var k := |pipes| - 1;
    assert forall m :: 0 <= m < 2 * k ==> FdAt(pipes, m) == FdAt(pipes[..k], m);
    assert Closed(pipes, 2 * k) == Closed(pipes[..k], 2 * k);
    ClosedNext(pipes, 2 * k);
    ClosedNext(pipes, 2 * k + 1);
  }

  /** The pipes occupy new descriptors only, and what was open before is unchanged. */
  lemma {:induction false} WithPipesKeys(entry: Table, pipes: seq<PipeFds>)
    requires FreshPipes(entry, pipes)
    ensures WithPipes(entry, pipes).Keys == entry.Keys + Closed(pipes, 2 * |pipes|)
    ensures entry.Keys !! Closed(pipes, 2 * |pipes|)
    ensures forall fd :: fd in entry ==> WithPipes(entry, pipes)[fd] == entry[fd]
  {
    if pipes == [] {
    } else {
      WithPipesKeys(entry, pipes[..|pipes| - 1]);
      ClosedOfPrefix(pipes);
    }
  }

  /** Each pipe descriptor names its own end. */
  lemma {:induction false} WithPipesEnds(entry: Table, pipes: seq<PipeFds>, k: nat)
    requires FreshPipes(entry, pipes) && k < |pipes|
    ensures var t := WithPipes(entry, pipes);
            pipes[k].0 in t && t[pipes[k].0] == ReadEnd(k) && pipes[k].1 in t && t[pipes[k].1] == WriteEnd(k)
  {
    var last := |pipes| - 1;
    if k < last {
      WithPipesEnds(entry, pipes[..last], k);
      assert pipes[..last][k] == pipes[k];
    }
  }

  /** Closing every pipe descriptor gives back exactly the table from before the pipes were made. */
  lemma CloseLoopRestores(entry: Table, pipes: seq<PipeFds>)
    requires FreshPipes(entry, pipes)
    ensures WithPipes(entry, pipes) - Closed(pipes, 2 * |pipes|) == entry
  {
    WithPipesKeys(entry, pipes);
  }

  /** When the close loop comes to pipe j, both of its descriptors are still open. */
  lemma StillOpen(entry: Table, pipes: seq<PipeFds>, j: nat)
    requires FreshPipes(entry, pipes) && j < |pipes|
    ensures var t := WithPipes(entry, pipes) - Closed(pipes, 2 * j);
            pipes[j].0 in t && pipes[j].1 in t && pipes[j].0 != pipes[j].1
  {
    WithPipesEnds(entry, pipes, j);
    forall m | 0 <= m < 2 * j ensures FdAt(pipes, m) != pipes[j].0 && FdAt(pipes, m) != pipes[j].1 {
      WithPipesEnds(entry, pipes, m / 2);
    }
  }

  /** One round of the close loop. */
  lemma CloseRound(t: Table, pipes: seq<PipeFds>, j: nat)
    requires j < |pipes|
    ensures Close(Close(t - Closed(pipes, 2 * j), pipes[j].0), pipes[j].1) == t - Closed(pipes, 2 * (j + 1))
  {
    ClosedNext(pipes, 2 * j);
    ClosedNext(pipes, 2 * j + 1);
  }
}
