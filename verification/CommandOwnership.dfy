/** Which heap buffers the pipeline parser of the remote shell owns on every return path. */
module CommandOwnership {
  import opened CStrings
  import opened Fresh
  import opened Options
  import opened ShellLimits
  import Typed = PipeParser

  datatype ReturnCode = OK | WARN_NO_CMDS | ERR_TOO_MANY_COMMANDS | ERR_MEMORY

  /** The live blocks of the C heap and the string last copied into each. */
  class Heap {
    var live: map<nat, string>

    constructor ()
      ensures live == map[]
    {
      live := map[];
    }

    /** malloc(3): fails, or returns any address that is not in use. */
    method Malloc() returns (p: Option<nat>)
      modifies this
      ensures p.None? ==> live == old(live)
      ensures p.Some? ==> p.value !in old(live) && live == old(live)[p.value := ""]
    {
      if * {
        p := None;
      } else {
        ghost var bound := Unused(live.Keys);
        assert bound !in live;
        var address: nat :| address !in live;
        live := live[address := ""];
        p := Some(address);
      }
    }

    method StrCpy(p: nat, s: string)
      requires p in live
      modifies this
      ensures live == old(live)[p := s]
    {
      live := live[p := s];
    }

    /** free(3): only NULL or a live block may be freed. */
    method Free(p: Option<nat>)
      requires p.Some? ==> p.value in live
      modifies this
      ensures live == if p.Some? then old(live) - {p.value} else old(live)
    {
      if p.Some? {
        live := live - {p.value};
      }
    }
  }

  /** The texts that the non-blank segments leave in their buffers, in order. */
  function Kept(segments: seq<string>): seq<string> {
    if segments == [] then []
    else
      var last := segments[|segments| - 1];
      Kept(segments[..|segments| - 1]) + if IsBlank(last) then [] else [SkipSpaces(last)]
  }

  lemma KeptNext(segments: seq<string>, i: nat)
    requires i < |segments|
    ensures Kept(segments[..i + 1])
         == if IsBlank(segments[i]) then Kept(segments[..i]) else Kept(segments[..i]) + [SkipSpaces(segments[i])]
  {
    assert segments[..i + 1][..i] == segments[..i];
  }

  /** Each of the first i segments comes after fewer than eight non-blank ones. */
  ghost predicate FewBefore(segments: seq<string>, i: nat)
    requires i <= |segments|
  {
    forall j :: 0 <= j < i ==> |Kept(segments[..j])| < CMD_MAX
  }

  lemma FewNext(segments: seq<string>, i: nat)
    requires i < |segments| && FewBefore(segments, i)
    ensures FewBefore(segments, i + 1) <==> |Kept(segments[..i])| < CMD_MAX
    ensures FewBefore(segments, |segments|) ==> |Kept(segments[..i])| < CMD_MAX
  {
  }

  /** Some segment, blank or not, comes after eight non-blank ones. */
  ghost predicate TooMany(segments: seq<string>) {
    !FewBefore(segments, |segments|)
  }

  /** Releasing buffers i, i+1, ... one after the other, each live and holding its own text, leaves `base`. */
  ghost predicate Owned(live: map<nat, string>, base: map<nat, string>, commands: seq<Option<nat>>, texts: seq<string>, i: nat)
    requires i <= |texts| <= |commands|
    decreases |texts| - i
  {
    if i == |texts| then live == base
    else
      && commands[i].Some? && commands[i].value in live && commands[i].value !in base
      && live[commands[i].value] == texts[i]
      && Owned(live - {commands[i].value}, base, commands, texts, i + 1)
  }

  /** In other words: different live blocks outside the base, in order, and no others. */
  lemma {:induction false} OwnedBlocks(live: map<nat, string>, base: map<nat, string>, commands: seq<Option<nat>>,
                                       texts: seq<string>, i: nat)
    requires i <= |texts| <= |commands| && Owned(live, base, commands, texts, i)
    ensures forall k :: i <= k < |texts| ==> commands[k].Some? && commands[k].value in live && live[commands[k].value] == texts[k]
    ensures forall j, k :: i <= j < k < |texts| ==> commands[j] != commands[k]
    ensures forall a :: a in live <==> a in base || exists k :: i <= k < |texts| && commands[k] == Some(a)
    ensures forall a :: a in base ==> live[a] == base[a]
    decreases |texts| - i
  {
    if i < |texts| {
      OwnedBlocks(live - {commands[i].value}, base, commands, texts, i + 1);
    }
  }

  /** Slots beyond the buffers may hold anything. */
  lemma {:induction false} OwnedFrame(live: map<nat, string>, base: map<nat, string>, commands: seq<Option<nat>>,
                                      after: seq<Option<nat>>, texts: seq<string>, i: nat)
    requires i <= |texts| <= |commands| && |texts| <= |after| && Owned(live, base, commands, texts, i)
    requires forall k :: i <= k < |texts| ==> commands[k] == after[k]
    ensures Owned(live, base, after, texts, i)
    decreases |texts| - i
  {
    if i < |texts| {
      OwnedFrame(live - {commands[i].value}, base, commands, after, texts, i + 1);
    }
  }

  /** A new block whose address is in the next slot. */
  lemma {:induction false} OwnedAppend(live: map<nat, string>, base: map<nat, string>, commands: seq<Option<nat>>,
                                       texts: seq<string>, i: nat, p: nat, text: string)
    requires i <= |texts| < |commands| && Owned(live, base, commands, texts, i)
    requires p !in live && p !in base && commands[|texts|] == Some(p)
    ensures Owned(live[p := text], base, commands, texts + [text], i)
    decreases |texts| - i
  {
    if i < |texts| {
      var q := commands[i].value;
      OwnedAppend(live - {q}, base, commands, texts, i + 1, p, text);
      assert live[p := text] - {q} == (live - {q})[p := text];
    } else {
      assert live[p := text] - {p} == live;
    }
  }

  /** Releasing a block of the base. */
  lemma {:induction false} OwnedShrinkBase(live: map<nat, string>, base: map<nat, string>, commands: seq<Option<nat>>,
                                           texts: seq<string>, i: nat, p: nat)
    requires i <= |texts| <= |commands| && Owned(live, base, commands, texts, i) && p in base
    ensures Owned(live - {p}, base - {p}, commands, texts, i)
    decreases |texts| - i
  {
    if i < |texts| {
      var q := commands[i].value;
      OwnedShrinkBase(live - {q}, base, commands, texts, i + 1, p);
      assert live - {p} - {q} == live - {q} - {p};
    }
  }

  lemma {:induction false} OwnedCoversBase(live: map<nat, string>, base: map<nat, string>, commands: seq<Option<nat>>,
                                           texts: seq<string>, i: nat)
    requires i <= |texts| <= |commands| && Owned(live, base, commands, texts, i)
    ensures forall a :: a in base ==> a in live
    decreases |texts| - i
  {
    if i < |texts| {
      OwnedCoversBase(live - {commands[i].value}, base, commands, texts, i + 1);
    }
  }

  /** strcpy needs the segments that are copied to fit the buffers. */
  ghost predicate SegmentsFit(segments: seq<string>) {
    forall i :: 0 <= i < |segments| && |Kept(segments[..i])| < CMD_MAX ==> |SkipSpaces(segments[i])| < SH_CMD_MAX
  }

  class CommandList {
    const heap: Heap
    var num: nat
    const commands: array<Option<nat>>  // the _cmd_buffer pointers

    constructor (heap: Heap)
      ensures this.heap == heap && commands.Length == CMD_MAX && fresh(commands)
    {
      this.heap := heap;
      num := 0;
      commands := new Option<nat>[CMD_MAX](_ => None);
    }

    ghost predicate Owns(base: map<nat, string>, texts: seq<string>)
      reads this, heap, commands
    {
      commands.Length == CMD_MAX && num == |texts| <= CMD_MAX && Owned(heap.live, base, commands[..], texts, 0)
    }

    method AllocCmdBuff(k: nat) returns (ok: bool)
      requires k < commands.Length
      modifies heap, commands
      ensures commands[..] == old(commands[..])[k := commands[k]] && ok == commands[k].Some?
      ensures !ok ==> heap.live == old(heap.live)
      ensures ok ==> commands[k].value !in old(heap.live) && heap.live == old(heap.live)[commands[k].value := ""]
    {
      var p := heap.Malloc();
      commands[k] := p;
      assert commands[..] == old(commands[..])[k := p];
      ok := p.Some?;
    }

    method FreeCmdBuff(k: nat)
      requires k < commands.Length && (commands[k].Some? ==> commands[k].value in heap.live)
      modifies heap, commands
      ensures commands[..] == old(commands[..])[k := None]
      ensures heap.live == if old(commands[k]).Some? then old(heap.live) - {old(commands[k]).value} else old(heap.live)
    {
      heap.Free(commands[k]);
      commands[k] := None;
      assert commands[..] == old(commands[..])[k := None];
    }

    /** build_cmd_buff, as far as the buffer goes: a blank segment is refused, any other is copied. */
    method BuildCmdBuff(segment: string, k: nat) returns (rc: ReturnCode)
      requires k < commands.Length && commands[k].Some? && commands[k].value in heap.live
      requires |SkipSpaces(segment)| < SH_CMD_MAX
      modifies heap
      ensures rc == if IsBlank(segment) then WARN_NO_CMDS else OK
      ensures heap.live == if rc == OK then old(heap.live)[commands[k].value := SkipSpaces(segment)] else old(heap.live)
    {
      SkipSpacesBlank(segment);
      if SkipSpaces(segment) == [] {
        return WARN_NO_CMDS;
      }
      heap.StrCpy(commands[k].value, SkipSpaces(segment));
      return OK;
    }

    /** Releases exactly the buffers of the list, each once. */
    method FreeCmdList(ghost base: map<nat, string>, ghost texts: seq<string>)
      requires Owns(base, texts)
      modifies this`num, heap, commands
      ensures num == 0 && heap.live == base
    {
      var i := 0;
      while i < num
        invariant 0 <= i <= num == |texts| && Owned(heap.live, base, commands[..], texts, i)
      {
        ghost var before := commands[..];
        FreeCmdBuff(i);
        OwnedFrame(heap.live, base, before, commands[..], texts, i + 1);
        i := i + 1;
      }
      num := 0;
    }

    /** One segment: its buffer is kept, released again, or never obtained. */
    method AddSegment(segment: string, ghost base: map<nat, string>, ghost texts: seq<string>) returns (rc: ReturnCode)
      requires Owns(base, texts) && num < CMD_MAX && |SkipSpaces(segment)| < SH_CMD_MAX
      modifies this`num, heap, commands
      ensures rc == ERR_MEMORY || rc == if IsBlank(segment) then WARN_NO_CMDS else OK
      ensures Owns(base, if rc == OK then texts + [SkipSpaces(segment)] else texts)
    {
      OwnedCoversBase(heap.live, base, commands[..], texts, 0);
      var ok := AllocCmdBuff(num);
      OwnedFrame(old(heap.live), base, old(commands[..]), commands[..], texts, 0);
      if !ok {
        return ERR_MEMORY;
      }
      ghost var p := commands[num].value;
      OwnedAppend(old(heap.live), base, commands[..], texts, 0, p, SkipSpaces(segment));
      rc := BuildCmdBuff(segment, num);
      if rc == WARN_NO_CMDS {
        FreeCmdBuff(num);
        assert heap.live == old(heap.live);
        OwnedFrame(heap.live, base, old(commands[..]), commands[..], texts, 0);
      } else {
        assert heap.live == old(heap.live)[p := SkipSpaces(segment)];
        num := num + 1;
      }
    }

    /** The segment loop. */
    method AddSegments(line: string, ghost base: map<nat, string>) returns (rc: ReturnCode, ghost texts: seq<string>)
      requires commands.Length == CMD_MAX && heap.live == base
      requires SegmentsFit(Fields(line, PIPE))
      modifies this`num, heap, commands
      ensures Owns(base, texts)
      ensures rc == ERR_MEMORY || rc == if TooMany(Fields(line, PIPE)) then ERR_TOO_MANY_COMMANDS else OK
      ensures rc == OK ==> texts == Kept(Fields(line, PIPE))
    {
      ghost var segments := Fields(line, PIPE);
      ghost var i: nat := 0;
      num, texts := 0, [];
      var next := StrTok(line, PIPE);
      var token, rest := next.0, next.1;
      while token.Some? && num < CMD_MAX
        invariant i <= |segments| && segments[i..] == Upcoming(token, rest, PIPE)
        invariant Owns(base, texts) && texts == Kept(segments[..i])
        invariant FewBefore(segments, i)
        decreases |segments| - i
      {
        FieldAtHand(segments, i, token, rest, PIPE);
        KeptNext(segments, i);
        FewNext(segments, i);
        rc := AddSegment(token.value, base, texts);
        if rc == ERR_MEMORY {
          return;
        }
        texts := if rc == OK then texts + [SkipSpaces(token.value)] else texts;
        next := StrTok(rest, PIPE);
        NextField(segments, i, token.value, rest, PIPE, next.0, next.1);
        token, rest := next.0, next.1;
        i := i + 1;
      }
      if token.Some? && num >= CMD_MAX {
        assert |segments[i..]| > 0;
        FewNext(segments, i);
        return ERR_TOO_MANY_COMMANDS, texts;
      }
      assert |segments[i..]| == 0 && segments[..i] == segments;
      return OK, texts;
    }

    /** Every return but OK gives the heap back as it was; OK leaves one buffer per non-blank segment. */
    method BuildCmdList(line: string) returns (rc: ReturnCode)
      requires commands.Length == CMD_MAX && '<' !in line && '>' !in line
      requires SegmentsFit(Fields(line, PIPE))
      modifies this`num, heap, commands
      ensures var segments := Fields(line, PIPE);
              rc == ERR_MEMORY ||
              rc == if TooMany(segments) then ERR_TOO_MANY_COMMANDS else if Kept(segments) == [] then WARN_NO_CMDS else OK
      ensures rc == OK ==> Owns(old(heap.live), Kept(Fields(line, PIPE))) && 1 <= num <= CMD_MAX
      ensures rc != OK ==> heap.live == old(heap.live)
    {
      var copy := heap.Malloc();
      if copy.None? {
        return ERR_MEMORY;
      }
      heap.StrCpy(copy.value, line);
      ghost var base := heap.live;
      ghost var texts;
      rc, texts := AddSegments(line, base);
      OwnedCoversBase(heap.live, base, commands[..], texts, 0);
      OwnedShrinkBase(heap.live, base, commands[..], texts, 0, copy.value);
      assert base - {copy.value} == old(heap.live);
      heap.Free(copy);
      if rc != OK {
        FreeCmdList(old(heap.live), texts);
        return;
      }
      if num == 0 {
        return WARN_NO_CMDS;
      }
    }
  }

  // ---- typed command lines ----

  /** What the segments with words leave in their buffers, in order. */
  function BufferTexts(pieces: seq<Typed.Piece>): seq<string> {
    if pieces == [] then []
    else
      var last := pieces[|pieces| - 1];
      BufferTexts(pieces[..|pieces| - 1]) + if last.words == [] then [] else [Typed.Spaced(last.words)]
  }

  lemma {:induction false} KeptOfTyped(pieces: seq<Typed.Piece>, texts: seq<string>, j: nat)
    requires j <= |pieces| == |texts|
    requires forall k :: 0 <= k < |pieces| ==> Typed.Typable(pieces[k]) && texts[k] == Typed.Text(pieces[k])
    ensures Kept(texts[..j]) == BufferTexts(pieces[..j])
  {
    if j > 0 {
      var p := pieces[j - 1];
      KeptOfTyped(pieces, texts, j - 1);
      assert texts[..j][..j - 1] == texts[..j - 1] && pieces[..j][..j - 1] == pieces[..j - 1];
      Typed.ParseSegment(p);
      SkipSpacesBlank(Typed.Text(p));
      assert p.words == [] <==> Typed.Spaced(p.words) == "";
    }
  }

  lemma TypedTooMany(pieces: seq<Typed.Piece>)
    requires forall k :: 0 <= k < |pieces| ==> Typed.Typable(pieces[k])
    ensures Kept(Typed.Texts(pieces)) == BufferTexts(pieces)
    ensures TooMany(Typed.Texts(pieces)) <==> exists j :: 0 <= j < |pieces| && |BufferTexts(pieces[..j])| >= CMD_MAX
  {
    var texts := Typed.Texts(pieces);
    forall j | 0 <= j <= |pieces| ensures Kept(texts[..j]) == BufferTexts(pieces[..j]) {
      KeptOfTyped(pieces, texts, j);
    }
    assert texts[..|pieces|] == texts && pieces[..|pieces|] == pieces;
  }

  lemma TypedIsAccepted(pieces: seq<Typed.Piece>)
    requires forall k :: 0 <= k < |pieces| ==> Typed.Typable(pieces[k]) && |Typed.Spaced(pieces[k].words)| < SH_CMD_MAX
    requires forall k :: 0 <= k < |pieces| ==> '<' !in Typed.Text(pieces[k]) && '>' !in Typed.Text(pieces[k])
    ensures var line := Typed.Render(pieces);
            Fields(line, PIPE) == Typed.Texts(pieces) && SegmentsFit(Fields(line, PIPE)) && '<' !in line && '>' !in line
  {
    var texts := Typed.Texts(pieces);
    Typed.RenderRoundTrip(pieces);
    JoinWithout(texts, "|", '<');
    JoinWithout(texts, "|", '>');
    forall k | 0 <= k < |pieces| ensures |SkipSpaces(texts[k])| < SH_CMD_MAX {
      Typed.ParseSegment(pieces[k]);
    }
  }

  /** Different blocks hold the texts in order, and besides them exactly the earlier blocks are live. */
  ghost predicate BlocksOf(live: map<nat, string>, before: map<nat, string>, commands: seq<Option<nat>>, texts: seq<string>) {
    && |texts| <= |commands|
    && (forall k :: 0 <= k < |texts| ==> commands[k].Some? && commands[k].value in live && live[commands[k].value] == texts[k])
    && (forall j, k :: 0 <= j < k < |texts| ==> commands[j] != commands[k])
    && (forall a :: a in live <==> a in before || exists k :: 0 <= k < |texts| && commands[k] == Some(a))
    && forall a :: a in before ==> live[a] == before[a]
  }

  lemma OwnedIsBlocks(live: map<nat, string>, before: map<nat, string>, commands: seq<Option<nat>>, texts: seq<string>)
    requires |texts| <= |commands| && Owned(live, before, commands, texts, 0)
    ensures BlocksOf(live, before, commands, texts)
  {
    OwnedBlocks(live, before, commands, texts, 0);
  }

  /** The call on a typed line without redirections. A segment behind eight segments with words is one too many, even
      a blank one. Otherwise each segment with words gets a buffer of its own for its text behind the whitespace in
      front; a line of blank segments is refused. Whatever the outcome, no other block is left or lost. */
  method BuildTypedList(list: CommandList, pieces: seq<Typed.Piece>) returns (rc: ReturnCode)
    requires list.commands.Length == 8
    requires forall k :: 0 <= k < |pieces| ==> Typed.Typable(pieces[k]) && |Typed.Spaced(pieces[k].words)| < 320
    requires forall k :: 0 <= k < |pieces| ==> '<' !in Typed.Text(pieces[k]) && '>' !in Typed.Text(pieces[k])
    modifies list`num, list.heap, list.commands
    ensures rc == ERR_MEMORY ||
            rc == if exists j :: 0 <= j < |pieces| && |BufferTexts(pieces[..j])| >= 8 then ERR_TOO_MANY_COMMANDS
                  else if BufferTexts(pieces) == [] then WARN_NO_CMDS else OK
    ensures rc != OK ==> list.heap.live == old(list.heap.live)
    ensures rc == OK ==> list.num == |BufferTexts(pieces)| <= 8
    ensures rc == OK ==> BlocksOf(list.heap.live, old(list.heap.live), list.commands[..], BufferTexts(pieces))
  {
    TypedTooMany(pieces);
    TypedIsAccepted(pieces);
    rc := list.BuildCmdList(Typed.Render(pieces));
    if rc == OK {
      OwnedIsBlocks(list.heap.live, old(list.heap.live), list.commands[..], BufferTexts(pieces));
    }
  }
}
