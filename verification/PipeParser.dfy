/** The first shell's two-level parser: segments between pipes, then an executable and its arguments. */
module PipeParser {
  import opened CStrings
  import opened Options
  import opened ShellLimits

  datatype ReturnCode = OK | WARN_NO_CMDS | ERR_TOO_MANY_COMMANDS | ERR_CMD_OR_ARGS_TOO_BIG

  /** The two character arrays of command_t, read as C strings. */
  datatype Command = Command(exe: string, args: string)

  const BLANKS: string := " \t\n"

  /** What a segment means: the first field, and the other fields with one space between neighbours. */
  function Parse(segment: string): Command {
    var fields := Fields(SkipSpaces(segment), BLANKS);
    if fields == [] then Command(SkipSpaces(segment), "") else Command(fields[0], Join(fields[1..], " "))
  }

  /** The segments that strcpy puts into an exe field fit there. */
  ghost predicate SegmentsFit(line: string) {
    forall k :: 0 <= k < |Fields(line, PIPE)| && k < CMD_MAX ==> |SkipSpaces(Fields(line, PIPE)[k])| < EXE_MAX
  }

  class CommandList {
    var num: nat
    const commands: array<Command>

    ghost predicate Valid() {
      commands.Length == CMD_MAX
    }

    constructor ()
      ensures Valid() && fresh(commands)
    {
      num := 0;
      commands := new Command[CMD_MAX](_ => Command("", ""));
    }

    /** The first num segments are stored, leading whitespace removed; the other commands are zeroed. */
    ghost predicate SplitSoFar(segments: seq<string>)
      reads this, commands
    {
      && Valid() && num <= CMD_MAX && num <= |segments|
      && forall k :: 0 <= k < CMD_MAX ==>
           commands[k] == Command(if k < num then SkipSpaces(segments[k]) else "", "")
    }

    /** The segment, less its leading whitespace, becomes the next command of the list. */
    method StoreSegment(segment: string, ghost segments: seq<string>)
      requires SplitSoFar(segments) && num < CMD_MAX && num < |segments| && segments[num] == segment
      requires |SkipSpaces(segment)| < EXE_MAX
      modifies this`num, commands
      ensures SplitSoFar(segments) && num == old(num) + 1
    {
      commands[num] := Command(SkipSpaces(segment), commands[num].args);
      num := num + 1;
    }

    /** strtok_r for the next segment of the line: the C string it points at. */
    method NextSegment(line: array<char>, at: nat, ghost text: string) returns (segment: Option<string>, rest: nat)
      requires NUL !in text && CutUpTo(line[..], text, PIPE, at)
      modifies line
      ensures CutUpTo(line[..], text, PIPE, rest) && (segment.None? ==> rest == |text|)
      ensures FieldsFrom(text, at, PIPE) == Ahead(text, segment, rest)
    {
      var start;
      start, rest := StrTokR(line, at, PIPE, text);
      if start.None? {
        return None, rest;
      }
      var s := FieldString(line, start.value, EndAt(text, start.value, PIPE), text);
      return Some(s), rest;
    }

    /** The C string at a field of the text. */
    method FieldString(line: array<char>, start: nat, ghost end: nat, ghost text: string) returns (s: string)
      requires start <= end <= |text| && NUL !in text && end < line.Length && line[end] == NUL
      requires forall i :: start <= i < end ==> line[i] == text[i]
      ensures s == text[start..end]
    {
      s := CString(line[..], start);
      assert forall i :: start <= i < end ==> line[..][i] == text[i] && text[i] in text;
      CStringIs(line[..], start, end);
    }

    /** The segments still to come when one is at hand and strtok_r will go on at `rest`. */
    ghost function Ahead(text: string, segment: Option<string>, rest: nat): seq<string>
      requires rest <= |text|
    {
      if segment.None? then [] else [segment.value] + FieldsFrom(text, rest, PIPE)
    }

    lemma AheadNext(all: seq<string>, k: nat, text: string, segment: string, rest: nat)
      requires k <= |all| && rest <= |text| && all[k..] == Ahead(text, Some(segment), rest)
      ensures k < |all| && all[k] == segment && all[k + 1..] == FieldsFrom(text, rest, PIPE)
    {
      assert all[k] == all[k..][0] && all[k + 1..] == all[k..][1..];
    }

    /** The segments go to the exe fields; strcpy needs them to fit. The line is cut in the process: each pipe
        behind a segment becomes a NUL. */
    method SplitCommands(line: array<char>, ghost text: string) returns (rc: ReturnCode, ghost cut: nat)
      requires CutUpTo(line[..], text, PIPE, 0) && NUL !in text
      requires num == 0 && SplitSoFar(Fields(text, PIPE)) && SegmentsFit(text)
      modifies this`num, commands, line
      ensures SplitSoFar(Fields(text, PIPE))
      ensures rc == if |Fields(text, PIPE)| > CMD_MAX then ERR_TOO_MANY_COMMANDS else OK
      ensures num == if rc == OK then |Fields(text, PIPE)| else CMD_MAX
      ensures CutUpTo(line[..], text, PIPE, cut) && (rc == OK ==> cut == |text|)
    {
      ghost var all := Fields(text, PIPE);
      FieldsFromIs(text, 0, PIPE);
      assert text[0..] == text && all[0..] == all;
      var segment, rest := NextSegment(line, 0, text);
      while segment.Some?
        invariant CutUpTo(line[..], text, PIPE, rest) && SplitSoFar(all)
        invariant all[num..] == Ahead(text, segment, rest) && (segment.None? ==> rest == |text|)
        decreases |all| - num
      {
        AheadNext(all, num, text, segment.value, rest);
        if num >= CMD_MAX {
          return ERR_TOO_MANY_COMMANDS, rest;
        }
        ghost var before := line[..];
        StoreSegment(segment.value, all);
        assert line[..] == before;
        segment, rest := NextSegment(line, rest, text);
      }
      assert |all[num..]| == 0;
      return OK, rest;
    }

    /** The argument loop: the fields of the segment's rest, one space before each but the first. */
    method JoinArgs(rest: string) returns (ok: bool, args: string)
      requires |rest| < EXE_MAX
      ensures ok && args == Join(Fields(rest, BLANKS), " ")
    {
      ghost var all := Fields(rest, BLANKS);
      ghost var done: nat := 0;
      args := "";
      var next := StrTok(rest, BLANKS);
      var token, left := next.0, next.1;
      StrTokExtent(rest, BLANKS);
      while token.Some?
        invariant done <= |all| && all[done..] == Upcoming(token, left, BLANKS)
        invariant args == Join(all[..done], " ") && (done > 0 <==> args != "")
        invariant token.Some? ==> token.value != [] && |args| + Extent(token, left) < EXE_MAX
        decreases |all| - done
      {
        FieldAtHand(all, done, token, left, BLANKS);
        JoinAppend(all[..done], token.value, " ");
        if |args| + |token.value| + 2 >= ARG_MAX {
          return false, args;
        }
        if |args| > 0 {
          args := args + " ";
        }
        args := args + token.value;
        StrTokExtent(left, BLANKS);
        next := StrTok(left, BLANKS);
        NextField(all, done, token.value, left, BLANKS, next.0, next.1);
        token, left := next.0, next.1;
        done := done + 1;
      }
      assert |all[done..]| == 0 && all[..done] == all;
      return true, args;
    }

    /** The second pass over command i: its first field stays, the rest becomes the arguments. */
    method SplitArgs(i: nat, ghost segment: string) returns (rc: ReturnCode)
      requires Valid() && i < num <= CMD_MAX && commands[i] == Command(SkipSpaces(segment), "")
      requires |SkipSpaces(segment)| < EXE_MAX
      modifies commands
      ensures rc == OK && commands[i] == Parse(segment)
      ensures forall k :: 0 <= k < CMD_MAX && k != i ==> commands[k] == old(commands[k])
    {
      var (token, rest) := StrTok(commands[i].exe, BLANKS);
      StrTokExtent(commands[i].exe, BLANKS);
      if token.None? {
        return OK;
      }
      if |token.value| >= EXE_MAX {
        return ERR_CMD_OR_ARGS_TOO_BIG;
      }
      var ok, args := JoinArgs(rest);
      if !ok {
        return ERR_CMD_OR_ARGS_TOO_BIG;
      }
      assert Fields(commands[i].exe, BLANKS)[1..] == Fields(rest, BLANKS);
      commands[i] := Command(token.value, if |args| > 0 then args else commands[i].args);
      return OK;
    }

    method BuildCmdList(line: array<char>, ghost text: string) returns (rc: ReturnCode)
      requires Valid() && CutUpTo(line[..], text, PIPE, 0) && NUL !in text && SegmentsFit(text)
      modifies this`num, commands, line
      ensures rc == if Fields(text, PIPE) == [] then WARN_NO_CMDS
                    else if |Fields(text, PIPE)| > CMD_MAX then ERR_TOO_MANY_COMMANDS else OK
      ensures rc == OK ==> num == |Fields(text, PIPE)| <= CMD_MAX
      ensures rc == OK ==> forall k :: 0 <= k < num ==> commands[k] == Parse(Fields(text, PIPE)[k])
    {
      num := 0;
      forall k | 0 <= k < CMD_MAX {
        commands[k] := Command("", "");
      }
      ghost var cut;
      rc, cut := SplitCommands(line, text);
      if rc != OK {
        return;
      }
      ghost var all := Fields(text, PIPE);
      var i := 0;
      while i < num
        invariant 0 <= i <= num == |all| <= CMD_MAX
        invariant forall k :: 0 <= k < i ==> commands[k] == Parse(all[k])
        invariant forall k :: i <= k < num ==> commands[k] == Command(SkipSpaces(all[k]), "")
      {
        rc := SplitArgs(i, all[i]);
        if rc != OK {
          return;
        }
        i := i + 1;
      }
      return if num > 0 then OK else WARN_NO_CMDS;
    }
  }

  lemma {:induction false} JoinAppend(parts: seq<string>, last: string, separator: string)
    ensures Join(parts + [last], separator) == if parts == [] then last else Join(parts, separator) + separator + last
  {
    if parts == [] {
    } else {
      assert (parts + [last])[1..] == parts[1..] + [last];
      JoinAppend(parts[1..], last, separator);
      if |parts| > 1 {
        assert parts[0] + separator + (Join(parts[1..], separator) + separator + last)
            == (parts[0] + separator + Join(parts[1..], separator)) + separator + last;
      }
    }
  }

  // ---- the round trip ----

  /** A word and what stands between it and the next one. */
  datatype Word = Word(text: string, gap: string)

  /** A segment as it may be typed: whitespace, then words. */
  datatype Piece = Piece(lead: string, words: seq<Word>)

  function Spaced(words: seq<Word>): string {
    if words == [] then "" else words[0].text + words[0].gap + Spaced(words[1..])
  }

  function Strings(words: seq<Word>): (r: seq<string>)
    ensures |r| == |words| && forall k :: 0 <= k < |words| ==> r[k] == words[k].text
  {
    if words == [] then [] else [words[0].text] + Strings(words[1..])
  }

  /** Words and gaps that the parser can tell apart: any characters but separators, a pipe and NUL in a word, and the
      separators blank, tab and newline in the gaps. Only the last gap may be empty. */
  ghost predicate Separable(words: seq<Word>) {
    && (forall k :: 0 <= k < |words| ==> words[k].text != "" && forall c :: c in words[k].text ==> c !in " \t\n|\0")
    && (forall k :: 0 <= k < |words| ==> forall c :: c in words[k].gap ==> c in " \t\n")
    && forall k :: 0 <= k < |words| - 1 ==> words[k].gap != ""
  }

  /** In front of the words there may be any whitespace of the C locale. A segment without words is not empty. */
  ghost predicate Typable(p: Piece) {
    && Separable(p.words) && (forall c :: c in p.lead ==> c in " \t\n\U{0B}\U{0C}\r")
    && if p.words == [] then p.lead != "" else p.words[0].text[0] !in " \t\n\U{0B}\U{0C}\r"
  }

  function Text(p: Piece): string {
    p.lead + Spaced(p.words)
  }

  function Texts(pieces: seq<Piece>): (r: seq<string>)
    ensures |r| == |pieces| && forall k :: 0 <= k < |pieces| ==> r[k] == Text(pieces[k])
  {
    if pieces == [] then [] else [Text(pieces[0])] + Texts(pieces[1..])
  }

  /** "segment|segment|..." */
  function Render(pieces: seq<Piece>): string {
    Join(Texts(pieces), "|")
  }

  /** What the parser should make of the words. */
  function Meaning(words: seq<string>): Command {
    if words == [] then Command("", "") else Command(words[0], Join(words[1..], " "))
  }

  lemma {:induction false} SeparatorsFirst(blanks: string, s: string)
    requires forall c :: c in blanks ==> c in BLANKS
    ensures Fields(blanks + s, BLANKS) == Fields(s, BLANKS)
  {
    if blanks == "" {
      assert blanks + s == s;
    } else {
      assert (blanks + s)[0] == blanks[0] && blanks[0] in blanks && (blanks + s)[1..] == blanks[1..] + s;
      SeparatorsFirst(blanks[1..], s);
      SkipOne(blanks + s);
    }
  }

  lemma SkipOne(s: string)
    requires s != "" && s[0] in BLANKS
    ensures Fields(s, BLANKS) == Fields(s[1..], BLANKS)
  {
    assert StrTok(s, BLANKS) == StrTok(s[1..], BLANKS);
  }

  lemma WordIsField(text: string)
    requires text != "" && forall c :: c in text ==> c !in " \t\n|\0"
    ensures IsField(text, BLANKS)
  {
    forall k | 0 <= k < |text| ensures text[k] !in BLANKS {
      assert text[k] in text;
      assert " \t\n|\0" == BLANKS + "|\0";
    }
  }

  lemma GapSplit(text: string, gap: string, rest: string)
    requires gap != ""
    ensures text + gap + rest == text + [gap[0]] + (gap[1..] + rest)
  {
    assert gap == [gap[0]] + gap[1..];
  }

  lemma LastWord(text: string)
    requires IsField(text, BLANKS)
    ensures Fields(text, BLANKS) == [text] + Fields("", BLANKS)
  {
    FieldsCons(text, ' ', "", BLANKS);
    assert StrTok("", BLANKS) == (None, []);
  }

  lemma WordThenFields(word: Word, rest: string)
    requires IsField(word.text, BLANKS) && (forall c :: c in word.gap ==> c in BLANKS) && (word.gap == "" ==> rest == "")
    ensures Fields(word.text + word.gap + rest, BLANKS) == [word.text] + Fields(rest, BLANKS)
  {
    var text, gap := word.text, word.gap;
    if gap == "" {
      assert text + gap + rest == text;
      LastWord(text);
    } else {
      GapSplit(text, gap, rest);
      FieldsCons(text, gap[0], gap[1..] + rest, BLANKS);
      SeparatorsFirst(gap[1..], rest);
    }
  }

  /** The words come back, whatever the gaps. */
  lemma {:induction false} FieldsOfSpaced(words: seq<Word>)
    requires Separable(words)
    ensures Fields(Spaced(words), BLANKS) == Strings(words)
  {
    if words != [] {
      FieldsOfSpaced(words[1..]);
      WordIsField(words[0].text);
      WordThenFields(words[0], Spaced(words[1..]));
    }
  }

  lemma {:induction false} SpacedChars(words: seq<Word>)
    requires Separable(words)
    ensures forall c :: c in Spaced(words) ==> c != '|' && c != '\0'
  {
    if words != [] {
      SpacedChars(words[1..]);
      var special := " \t\n|\0";
      assert special[3] == '|' && special[4] == '\0';
      assert forall c :: c in words[0].text ==> c !in special;
      assert forall c :: c in words[0].gap ==> c in " \t\n";
    }
  }

  /** A typed segment contains neither a pipe nor a NUL. */
  lemma TextIsField(p: Piece)
    requires Typable(p)
    ensures IsField(Text(p), PIPE) && '\0' !in Text(p)
  {
    SpacedChars(p.words);
    assert forall c :: c in p.lead ==> c != '|' && c != '\0';
    forall k | 0 <= k < |Text(p)| ensures Text(p)[k] != '|' && Text(p)[k] != '\0' {
      assert Text(p)[k] in p.lead || Text(p)[k] in Spaced(p.words);
    }
  }

  /** A typed segment means its words; the whitespace in front is not stored. */
  lemma ParseSegment(p: Piece)
    requires Typable(p)
    ensures Parse(Text(p)) == Meaning(Strings(p.words)) && SkipSpaces(Text(p)) == Spaced(p.words)
  {
    var body := Spaced(p.words);
    forall c | c in p.lead ensures IsSpace(c) {
      assert c in " \t\n\U{0B}\U{0C}\r";
    }
    if p.words != [] {
      var white := " \t\n\U{0B}\U{0C}\r";
      assert body[0] == p.words[0].text[0] && body[0] !in white;
      assert white[0] == ' ' && white[1] == '\t' && white[2] == '\n';
      assert white[3] == '\U{0B}' && white[4] == '\U{0C}' && white[5] == '\r';
    }
    SkipSpacesLead(p.lead, body);
    FieldsOfSpaced(p.words);
  }

  lemma {:induction false} FieldsOfPieces(texts: seq<string>)
    requires forall k :: 0 <= k < |texts| ==> IsField(texts[k], PIPE)
    ensures Fields(Join(texts, "|"), PIPE) == texts
  {
    if |texts| == 1 {
      FieldsCons(texts[0], '|', "", PIPE);
      assert texts == [texts[0]];
    } else if |texts| > 1 {
      FieldsOfPieces(texts[1..]);
      FieldsCons(texts[0], '|', Join(texts[1..], "|"), PIPE);
      assert texts == [texts[0]] + texts[1..];
    }
  }

  /** Splitting a typed command line gives its segments, and they mean their words. */
  lemma RenderRoundTrip(pieces: seq<Piece>)
    requires forall k :: 0 <= k < |pieces| ==> Typable(pieces[k])
    ensures Fields(Render(pieces), PIPE) == Texts(pieces) && '\0' !in Render(pieces)
    ensures forall k :: 0 <= k < |pieces| ==> Parse(Text(pieces[k])) == Meaning(Strings(pieces[k].words))
  {
    forall k | 0 <= k < |pieces|
      ensures IsField(Texts(pieces)[k], PIPE) && '\0' !in Texts(pieces)[k]
      ensures Parse(Text(pieces[k])) == Meaning(Strings(pieces[k].words))
    {
      TextIsField(pieces[k]);
      ParseSegment(pieces[k]);
    }
    FieldsOfPieces(Texts(pieces));
    JoinWithout(Texts(pieces), "|", '\0');
  }

  lemma RenderFits(pieces: seq<Piece>)
    requires forall k :: 0 <= k < |pieces| ==> Typable(pieces[k])
    requires forall k :: 0 <= k < |pieces| && k < 8 ==> |Spaced(pieces[k].words)| < 64
    ensures SegmentsFit(Render(pieces))
  {
    RenderRoundTrip(pieces);
    forall k | 0 <= k < |pieces| && k < CMD_MAX ensures |SkipSpaces(Texts(pieces)[k])| < EXE_MAX {
      ParseSegment(pieces[k]);
    }
  }

  /** The parser on a typed command line: up to eight segments that fit come back as what their words mean, blank ones
      as empty commands; more are refused. */
  method CommandLineRoundTrip(pieces: seq<Piece>) returns (list: CommandList, rc: ReturnCode)
    requires forall k :: 0 <= k < |pieces| ==> Typable(pieces[k])
    requires forall k :: 0 <= k < |pieces| && k < 8 ==> |Spaced(pieces[k].words)| < 64
    ensures fresh(list) && list.Valid()
    ensures rc == if pieces == [] then WARN_NO_CMDS else if |pieces| <= 8 then OK else ERR_TOO_MANY_COMMANDS
    ensures rc == OK ==> list.num == |pieces|
    ensures rc == OK ==> forall k :: 0 <= k < |pieces| ==>
              var words := Strings(pieces[k].words);
              list.commands[k] == if words == [] then Command("", "") else Command(words[0], Join(words[1..], " "))
  {
    RenderRoundTrip(pieces);
    RenderFits(pieces);
    var line := Buffer(Render(pieces));
    list := new CommandList();
    rc := list.BuildCmdList(line, Render(pieces));
  }

  /** Single-space-joined words: they come back, and nothing but one space stands between two of them. */
  lemma {:induction false} JoinedWords(words: seq<string>)
    requires forall k :: 0 <= k < |words| ==> words[k] != "" && ' ' !in words[k]
    ensures Fields(Join(words, " "), " ") == words
    ensures words != [] ==> |Join(words, " ")| == |Join(words, "")| + |words| - 1
  {
    if |words| == 1 {
      FieldsCons(words[0], ' ', "", " ");
      assert words == [words[0]];
    } else if words != [] {
      JoinedWords(words[1..]);
      FieldsCons(words[0], ' ', Join(words[1..], " "), " ");
      assert words == [words[0]] + words[1..];
    }
  }

  /** A buffer that holds the text and its terminator. */
  method Buffer(text: string) returns (line: array<char>)
    ensures fresh(line) && line[..] == text + [NUL]
  {
    line := new char[|text| + 1](i => if 0 <= i < |text| then text[i] else NUL);
  }
}
