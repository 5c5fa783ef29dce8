/** exec_pipeline as the shell process runs it: which descriptors and children it leaves behind on each return path. */
module ExecPipeline {
  import opened Options
  import opened Fds
  import opened Fresh
  import opened ShellLimits

  datatype ReturnCode = OK | WARN_NO_CMDS | ERR_EXEC_CMD | OK_EXIT

  datatype BuiltIn = BI_CMD_EXIT | BI_NOT_BI | BI_EXECUTED

  /** The arguments of a command; there may be none. */
  datatype Command = Command(argv: seq<string>, inputFile: Option<string>, outputFile: Option<string>)

  /** exec_built_in_cmd; chdir is not modelled. */
  function ExecBuiltIn(cmd: Command): BuiltIn {
    if cmd.argv == [] then BI_NOT_BI
    else if cmd.argv[0] == "exit" then BI_CMD_EXIT
    else if cmd.argv[0] == "cd" then BI_EXECUTED
    else BI_NOT_BI
  }

  /** The command's first argument is this name. */
  predicate Names(cmd: Command, name: string) {
    cmd.argv != [] && cmd.argv[0] == name
  }

  // ---- what a caller can predict ----

  /** How many commands come before the first built-in. */
  function FirstBuiltIn(commands: seq<Command>): (n: nat)
    ensures n <= |commands| && forall k :: 0 <= k < n ==> ExecBuiltIn(commands[k]).BI_NOT_BI?
    ensures n < |commands| ==> !ExecBuiltIn(commands[n]).BI_NOT_BI?
  {
    if commands == [] || !ExecBuiltIn(commands[0]).BI_NOT_BI? then 0 else 1 + FirstBuiltIn(commands[1..])
  }

  function Min(a: nat, b: nat): nat {
    if a < b then a else b
  }

  /** Each of the n-1 pipes needs two of the free descriptors. */
  predicate PipesFit(commands: seq<Command>, free: nat) {
    |commands| <= 1 || 2 * (|commands| - 1) <= free
  }

  function ChildCount(commands: seq<Command>, free: nat, slots: nat): nat {
    if PipesFit(commands, free) then Min(FirstBuiltIn(commands), slots) else 0
  }

  function Verdict(commands: seq<Command>, free: nat, slots: nat): ReturnCode {
    if commands == [] then WARN_NO_CMDS
    else if !PipesFit(commands, free) then ERR_EXEC_CMD
    else if ExecBuiltIn(commands[0]).BI_CMD_EXIT? then OK_EXIT
    else if |commands| == 1 && ExecBuiltIn(commands[0]).BI_EXECUTED? then OK
    else if ChildCount(commands, free, slots) == |commands| then OK
    else ERR_EXEC_CMD
  }

  /** The children that are created and not waited for. */
  function Unwaited(commands: seq<Command>, free: nat, slots: nat): nat {
    if Verdict(commands, free, slots) == OK then 0 else ChildCount(commands, free, slots)
  }

  /** A pipeline succeeds if and only if its pipes fit, none of its commands is built in and every fork finds
      room; one that does not leaves exactly the commands before the first built-in, as far as forks found room,
      running and unwaited for. */
  lemma PipelineSucceedsIff(commands: seq<Command>, free: nat, slots: nat)
    requires |commands| >= 2
    ensures Verdict(commands, free, slots) == OK
       <==> PipesFit(commands, free) && |commands| <= slots
            && forall k :: 0 <= k < |commands| ==> ExecBuiltIn(commands[k]).BI_NOT_BI?
    ensures Unwaited(commands, free, slots) > 0
       <==> PipesFit(commands, free) && slots > 0 && ExecBuiltIn(commands[0]).BI_NOT_BI?
            && (slots < |commands| || exists k :: 0 <= k < |commands| && !ExecBuiltIn(commands[k]).BI_NOT_BI?)
    ensures Unwaited(commands, free, slots) > 0 ==> Unwaited(commands, free, slots) == Min(FirstBuiltIn(commands), slots)
  {
    var b := FirstBuiltIn(commands);
    if b < |commands| {
      assert !ExecBuiltIn(commands[b]).BI_NOT_BI?;
    }
  }

  // ---- the parent ----

  class Shell {
    var table: Table
    var free: nat         // how many more descriptors this process may open
    var forked: seq<nat>  // every child ever created, oldest first
    var waited: set<nat>  // those reaped by waitpid
    var slots: nat        // how many more children there is room for

    ghost predicate Valid()
      reads this
    {
      forall pid :: pid in waited ==> pid in forked
    }

    /** pipe(2): fails when two descriptors are not to be had, else hands out any two unused ones. */
    method Pipe(p: nat) returns (r: Option<PipeFds>)
      modifies this`table, this`free
      ensures r.None? <==> old(free) < 2
      ensures r.None? ==> table == old(table) && free == old(free)
      ensures r.Some? ==> r.value.0 !in old(table) && r.value.1 !in old(table) && r.value.0 != r.value.1
      ensures r.Some? ==> table == MakePipe(old(table), r.value.0, r.value.1, p) && free == old(free) - 2
    {
      if free < 2 {
        return None;
      }
      ghost var bound := Unused(table.Keys);
      assert bound !in table && bound + 1 !in table;
      var reader: nat :| reader !in table;
      assert (if reader == bound then bound + 1 else bound) !in table + map[reader := ReadEnd(p)];
      var writer: nat :| writer !in table + map[reader := ReadEnd(p)];
      table, free := MakePipe(table, reader, writer, p), free - 2;
      return Some((reader, writer));
    }

    /** fork(2) in the parent: fails when there is no room, else returns a process id not seen before. */
    method Fork() returns (pid: Option<nat>)
      modifies this`forked, this`slots
      ensures pid.None? <==> old(slots) == 0
      ensures pid.None? ==> forked == old(forked) && slots == old(slots)
      ensures pid.Some? ==> forked == old(forked) + [pid.value] && pid.value !in old(forked) && slots == old(slots) - 1
    {
      if slots == 0 {
        return None;
      }
      ghost var used := set x | x in forked;
      ghost var bound := Unused(used);
      assert bound in forked ==> bound in used;
      assert bound !in forked;
      var next: nat :| next !in forked;
      forked, slots := forked + [next], slots - 1;
      return Some(next);
    }

    /** waitpid(2): reaps a child, which makes room for another. */
    method WaitPid(pid: nat)
      requires pid in forked && pid !in waited
      modifies this`waited, this`slots
      ensures waited == old(waited) + {pid} && slots == old(slots) + 1
    {
      waited, slots := waited + {pid}, slots + 1;
    }

    /** close(2) on an open descriptor. */
    method CloseFd(fd: nat)
      requires fd in table
      modifies this`table, this`free
      ensures table == Close(old(table), fd) && free == old(free) + 1
    {
      table, free := Close(table, fd), free + 1;
    }

    /** Closes the read end and the write end of every pipe. */
    method CloseAll(pipes: seq<PipeFds>, ghost entry: Table)
      requires FreshPipes(entry, pipes) && table == WithPipes(entry, pipes)
      modifies this`table, this`free
      ensures table == entry && free == old(free) + 2 * |pipes|
    {
      ghost var full := WithPipes(entry, pipes);
      var j := 0;
      assert Closed(pipes, 0) == {};
      assert table == table - {};
      while j < |pipes|
        invariant 0 <= j <= |pipes| && free == old(free) + 2 * j
        invariant table == full - Closed(pipes, 2 * j)
      {
        StillOpen(entry, pipes, j);
        CloseFd(pipes[j].0);
        CloseFd(pipes[j].1);
        CloseRound(full, pipes, j);
        j := j + 1;
      }
      CloseLoopRestores(entry, pipes);
    }

    /** The pipe loop: all n-1 pipes, or as many as fit. */
    method CreatePipes(n: nat) returns (ok: bool, pipes: seq<PipeFds>)
      requires n >= 1
      modifies this`table, this`free
      ensures ok <==> 2 * (n - 1) <= old(free)
      ensures |pipes| == if ok then n - 1 else old(free) / 2
      ensures FreshPipes(old(table), pipes) && table == WithPipes(old(table), pipes)
      ensures free == old(free) - 2 * |pipes|
    {
      pipes := [];
      while |pipes| < n - 1
        invariant |pipes| <= n - 1 && free == old(free) - 2 * |pipes|
        invariant FreshPipes(old(table), pipes) && table == WithPipes(old(table), pipes)
      {
        var p := Pipe(|pipes|);
        if p.None? {
          return false, pipes;
        }
        assert (pipes + [p.value])[..|pipes|] == pipes;
        pipes := pipes + [p.value];
      }
      return true, pipes;
    }

    /** The fork loop: None if it ends, else what it returns, after closing the pipes. */
    method ForkAll(commands: seq<Command>, pipes: seq<PipeFds>, ghost entry: Table)
        returns (rc: Option<ReturnCode>, pids: seq<nat>)
      requires Valid() && |commands| >= 2 && FreshPipes(entry, pipes) && table == WithPipes(entry, pipes)
      modifies this`table, this`free, this`forked, this`slots
      ensures Valid() && Created(old(forked), old(slots), pids)
      ensures |pids| == Min(FirstBuiltIn(commands), old(slots))
      ensures rc.None? <==> |pids| == |commands|
      ensures rc.None? ==> table == old(table) && free == old(free)
      ensures rc.Some? ==> table == entry && free == old(free) + 2 * |pipes|
      ensures rc.Some? ==> rc.value == if ExecBuiltIn(commands[0]).BI_CMD_EXIT? then OK_EXIT else ERR_EXEC_CMD
    {
      pids := [];
      while |pids| < |commands|
        invariant Valid() && Created(old(forked), old(slots), pids) && |pids| <= FirstBuiltIn(commands)
        invariant table == old(table) && free == old(free)
      {
        var bi := ExecBuiltIn(commands[|pids|]);
        if |pids| == 0 {
          if bi == BI_CMD_EXIT {
            CloseAll(pipes, entry);
            return Some(OK_EXIT), pids;
          } else if bi == BI_EXECUTED {
            CloseAll(pipes, entry);
            return Some(ERR_EXEC_CMD), pids;
          }
        } else if bi != BI_NOT_BI {
          CloseAll(pipes, entry);
          return Some(ERR_EXEC_CMD), pids;
        }
        var pid := Fork();
        if pid.None? {
          CloseAll(pipes, entry);
          return Some(ERR_EXEC_CMD), pids;
        }
        pids := pids + [pid.value];
      }
      return None, pids;
    }

    /** The children that the call has created: new ones, each once, each taking up room. */
    ghost predicate Created(forkedBefore: seq<nat>, slotsBefore: nat, pids: seq<nat>)
      reads this
    {
      && forked == forkedBefore + pids && slots == slotsBefore - |pids|
      && (forall k :: 0 <= k < |pids| ==> pids[k] !in forkedBefore)
      && forall j, k :: 0 <= j < k < |pids| ==> pids[j] != pids[k]
    }

    /** The wait loop. */
    method WaitAll(pids: seq<nat>)
      requires forall k :: 0 <= k < |pids| ==> pids[k] in forked && pids[k] !in waited
      requires forall j, k :: 0 <= j < k < |pids| ==> pids[j] != pids[k]
      modifies this`waited, this`slots
      ensures waited == old(waited) + (set p | p in pids) && slots == old(slots) + |pids|
    {
      var i := 0;
      while i < |pids|
        invariant 0 <= i <= |pids| && slots == old(slots) + i
        invariant waited == old(waited) + (set p | p in pids[..i])
      {
        assert pids[..i + 1] == pids[..i] + [pids[i]];
        WaitPid(pids[i]);
        i := i + 1;
      }
      assert pids[..i] == pids;
    }

    /** exec_cmd in the parent. */
    method ExecCmd() returns (rc: ReturnCode, pids: seq<nat>)
      requires Valid()
      modifies this`forked, this`waited, this`slots
      ensures Valid() && forked == old(forked) + pids && slots == old(slots)
      ensures |pids| == Min(1, old(slots)) && waited == old(waited) + (set p | p in pids)
      ensures rc == if |pids| == 1 then OK else ERR_EXEC_CMD
    {
      var pid := Fork();
      if pid.None? {
        return ERR_EXEC_CMD, [];
      }
      WaitPid(pid.value);
      return OK, [pid.value];
    }

    /**
     * What comes of a command list, in terms of what the caller can see before the call: the arguments, the free
     * descriptors and the room for children. The caller's table comes back as it was if and only if the pipes fit or
     * not even one of them does. Children are waited for on the OK path and on no other.
     */
    method ExecPipeline(commands: seq<Command>) returns (rc: ReturnCode, pids: seq<nat>)
      requires Valid() && |commands| <= CMD_MAX
      modifies this
      ensures Valid() && rc == Verdict(commands, old(free), old(slots))
      ensures forked == old(forked) + pids && |pids| == ChildCount(commands, old(free), old(slots))
      ensures waited == if rc == OK then old(waited) + (set p | p in pids) else old(waited)
      ensures slots == old(slots) - if rc == OK then 0 else |pids|
      ensures rc == WARN_NO_CMDS <==> commands == []
      ensures rc == OK_EXIT <==> commands != [] && 2 * (|commands| - 1) <= old(free) && Names(commands[0], "exit")
      ensures |commands| == 1 && Names(commands[0], "cd") ==> rc == OK && pids == []
      ensures |commands| == 1 && !Names(commands[0], "exit") && !Names(commands[0], "cd") ==>
                if old(slots) > 0 then rc == OK && |pids| == 1 else rc == ERR_EXEC_CMD && pids == []
      ensures |commands| >= 2 ==>
                (rc == OK <==> && 2 * (|commands| - 1) <= old(free) && |commands| <= old(slots)
                               && forall k :: 0 <= k < |commands| ==> !Names(commands[k], "exit") && !Names(commands[k], "cd"))
      ensures 0 < |pids| ==>
                && 2 * (|commands| - 1) <= old(free) && |pids| <= |commands| && |pids| <= old(slots)
                && forall k :: 0 <= k < |pids| ==> !Names(commands[k], "exit") && !Names(commands[k], "cd")
      ensures |pids| < |commands| && 2 * (|commands| - 1) <= old(free) ==>
                |pids| == old(slots) || Names(commands[|pids|], "exit") || Names(commands[|pids|], "cd")
      ensures table == old(table) <==> free == old(free)
      ensures table == old(table) <==> !(2 <= old(free) < 2 * (|commands| - 1))
      ensures table != old(table) ==>
                exists pipes :: |pipes| == old(free) / 2 && FreshPipes(old(table), pipes) && table == WithPipes(old(table), pipes)
    {
      if |commands| == 0 {
        return WARN_NO_CMDS, [];
      }
      if |commands| == 1 {
        var bi := ExecBuiltIn(commands[0]);
        if bi == BI_CMD_EXIT {
          return OK_EXIT, [];
        } else if bi == BI_EXECUTED {
          return OK, [];
        }
        assert FirstBuiltIn(commands) == 1;
        rc, pids := ExecCmd();
        return;
      }
      ghost var entry := table;
      var ok, pipes := CreatePipes(|commands|);
      if !ok {
        LeakIsExact(entry, pipes);
        return ERR_EXEC_CMD, [];
      }
      var stopped;
      stopped, pids := ForkAll(commands, pipes, entry);
      if stopped.Some? {
        return stopped.value, pids;
      }
      CloseAll(pipes, entry);
      WaitAll(pids);
      return OK, pids;
    }
  }

  /** The pipes that stay open change the table, unless there are none. */
  lemma LeakIsExact(entry: Table, pipes: seq<PipeFds>)
    requires FreshPipes(entry, pipes)
    ensures WithPipes(entry, pipes) == entry <==> pipes == []
  {
    if pipes != [] {
      WithPipesKeys(entry, pipes);
      ClosedEnds(pipes, 0);
    }
  }

  // ---- the child of exec_cmd ----

  class Child {
    var table: Table
    const inode: string -> nat  // the file behind a path

    constructor (table: Table, inode: string -> nat)
      ensures this.table == table && this.inode == inode
    {
      this.table, this.inode := table, inode;
    }

    /** open(2): fails, or hands out any unused descriptor for the file. */
    method Open(path: string) returns (fd: Option<nat>)
      modifies this
      ensures fd.None? ==> table == old(table)
      ensures fd.Some? ==> fd.value !in old(table) && table == old(table)[fd.value := Outer(inode(path))]
    {
      if * {
        return None;
      }
      ghost var bound := Unused(table.Keys);
      assert bound !in table;
      var unused: nat :| unused !in table;
      table := table[unused := Outer(inode(path))];
      return Some(unused);
    }

    /** open, dup2 onto a standard descriptor, close. */
    method RedirectTo(path: string, target: nat) returns (ok: bool)
      requires target in table
      modifies this
      ensures table == if ok then old(table)[target := Outer(inode(path))] else old(table)
    {
      var fd := Open(path);
      if fd.None? {
        return false;
      }
      table := Dup2(table, fd.value, target);
      table := Close(table, fd.value);
      assert table == old(table)[target := Outer(inode(path))];
      return true;
    }

    /** From fork to execvp: the child either exits or starts the program with its input file at 0, its output file at
        1, and every other descriptor as the shell had it. */
    method Redirect(cmd: Command) returns (execs: bool)
      requires 0 in table && 1 in table
      modifies this
      ensures execs ==>
                && table.Keys == old(table).Keys
                && table[0] == (if cmd.inputFile.Some? then Outer(inode(cmd.inputFile.value)) else old(table)[0])
                && table[1] == (if cmd.outputFile.Some? then Outer(inode(cmd.outputFile.value)) else old(table)[1])
                && forall fd :: fd in table && fd > 1 ==> table[fd] == old(table)[fd]
      ensures execs ==> cmd.inputFile.None? || cmd.inputFile != cmd.outputFile
      ensures cmd.inputFile.None? && cmd.outputFile.None? ==> execs
    {
      if cmd.inputFile.Some? && cmd.outputFile.Some? && cmd.inputFile.value == cmd.outputFile.value {
        return false;
      }
      if cmd.inputFile.Some? {
        var ok := RedirectTo(cmd.inputFile.value, 0);
        if !ok {
          return false;
        }
      }
      if cmd.outputFile.Some? {
        var ok := RedirectTo(cmd.outputFile.value, 1);
        if !ok {
          return false;
        }
      }
      return true;
    }
  }
}
