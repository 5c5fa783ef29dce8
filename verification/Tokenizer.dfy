/** The quote-aware tokenizer that cuts a command line into arguments inside its own buffer. */
module Tokenizer {
  import opened CStrings
  import opened Options
  import opened ShellLimits

  const QUOTE: char := '"'

  datatype ReturnCode = OK | WARN_NO_CMDS | ERR_MEMORY

  /** argv entry arg, dereferenced as a C string, is s. */
  ghost predicate Reads(buffer: seq<char>, arg: Option<nat>, s: string) {
    arg.Some? && arg.value < |buffer| && CString(buffer, arg.value) == s
  }

  // ---- the specification: a recursive-descent reading of the line ----

  /** The length of the part before the closing quote, or of everything if there is none. */
  function QuotedLength(s: string): (n: nat)
    ensures n <= |s| && (n < |s| ==> s[n] == QUOTE) && QUOTE !in s[..n]
  {
    if s == [] || s[0] == QUOTE then 0 else 1 + QuotedLength(s[1..])
  }

  /** The length of the part before the first space or quote. */
  function WordLength(s: string): (n: nat)
    ensures n <= |s| && (n < |s| ==> s[n] == QUOTE || IsSpace(s[n]))
    ensures forall k :: 0 <= k < n ==> s[k] != QUOTE && !IsSpace(s[k])
  {
    if s == [] || s[0] == QUOTE || IsSpace(s[0]) then 0 else 1 + WordLength(s[1..])
  }

  /**
   * The arguments of a line: quoted strings, empty ones included, and words ended by a space or the end of
   * the line. A word that runs into a quote is dropped. An unclosed quote takes the rest of the line, if any.
   */
  function Tokens(line: string): seq<string>
    decreases |line|
  {
    if line == [] then []
    else if IsSpace(line[0]) then Tokens(line[1..])
    else if line[0] == QUOTE then
      var rest := line[1..];
      var n := QuotedLength(rest);
      if n < |rest| then [rest[..n]] + Tokens(rest[n + 1..])
      else if n > 0 then [rest]
      else []
    else
      var n := WordLength(line);
      if n == |line| then [line]
      else if line[n] == QUOTE then Tokens(line[n..])
      else [line[..n]] + Tokens(line[n + 1..])
  }

  lemma {:induction false} SkipSpacesTokens(line: string)
    ensures Tokens(SkipSpaces(line)) == Tokens(line)
  {
    if line != [] && IsSpace(line[0]) {
      SkipSpacesTokens(line[1..]);
    }
  }

  /** No spaces and no quotes: the characters of an unquoted argument. */
  predicate IsWord(s: string) {
    forall k :: 0 <= k < |s| ==> s[k] != QUOTE && !IsSpace(s[k])
  }

  lemma {:induction false} WordLengthIs(s: string, n: nat)
    requires n <= |s| && IsWord(s[..n]) && (n < |s| ==> s[n] == QUOTE || IsSpace(s[n]))
    ensures WordLength(s) == n
  {
    if n > 0 {
      assert s[..n][0] == s[0] && s[1..][..n - 1] == s[..n][1..];
      WordLengthIs(s[1..], n - 1);
    }
  }

  lemma {:induction false} QuotedLengthIs(s: string, n: nat)
    requires n <= |s| && QUOTE !in s[..n] && (n < |s| ==> s[n] == QUOTE)
    ensures QuotedLength(s) == n
  {
    if n > 0 {
      assert s[0] in s[..n] && s[1..][..n - 1] == s[..n][1..];
      QuotedLengthIs(s[1..], n - 1);
    }
  }

  /** A word is an argument if a space or the end of the line follows, and is dropped if a quote follows. */
  lemma {:induction false} WordTokens(s: string, n: nat)
    requires 0 < n <= |s| && IsWord(s[..n])
    ensures n == |s| ==> Tokens(s) == [s]
    ensures n < |s| && s[n] == QUOTE ==> Tokens(s) == Tokens(s[n..])
    ensures n < |s| && IsSpace(s[n]) ==> Tokens(s) == [s[..n]] + Tokens(s[n + 1..])
  {
    assert s[..n][0] == s[0];
    if n == |s| || s[n] == QUOTE || IsSpace(s[n]) {
      WordLengthIs(s, n);
    }
  }

  /** A quoted string of length n. */
  lemma {:induction false} QuotedTokens(s: string, n: nat)
    requires n + 1 <= |s| && s[0] == QUOTE && QUOTE !in s[1..n + 1]
    ensures n + 1 == |s| ==> Tokens(s) == if n > 0 then [s[1..]] else []
    ensures n + 1 < |s| && s[n + 1] == QUOTE ==> Tokens(s) == [s[1..n + 1]] + Tokens(s[n + 2..])
  {
    var rest := s[1..];
    assert rest[..n] == s[1..n + 1];
    if n + 1 == |s| || s[n + 1] == QUOTE {
      QuotedLengthIs(rest, n);
      if n + 1 < |s| {
        assert rest[n + 1..] == s[n + 2..];
      }
    }
  }

  // ---- which characters of a line become arguments ----

  /** The characters in quotes, and outside quotes those that are not spaces. */
  function Content(line: string, inQuotes: bool): string {
    if line == [] then []
    else if line[0] == QUOTE then Content(line[1..], !inQuotes)
    else if !inQuotes && IsSpace(line[0]) then Content(line[1..], false)
    else [line[0]] + Content(line[1..], inQuotes)
  }

  /** Outside quotes, some character of a word is directly followed by a quote. */
  predicate WordMeetsQuote(line: string, inQuotes: bool) {
    line != [] &&
    ((!inQuotes && line[0] != QUOTE && !IsSpace(line[0]) && |line| > 1 && line[1] == QUOTE)
     || WordMeetsQuote(line[1..], if line[0] == QUOTE then !inQuotes else inQuotes))
  }

  function Concat(parts: seq<string>): string {
    if parts == [] then [] else parts[0] + Concat(parts[1..])
  }

  lemma ConcatCons(first: string, parts: seq<string>)
    ensures Concat([first] + parts) == first + Concat(parts)
  {
    assert ([first] + parts)[1..] == parts;
  }

  lemma {:induction false} ContentOfWord(s: string, n: nat)
    requires n <= |s| && IsWord(s[..n])
    ensures Content(s, false) == s[..n] + Content(s[n..], false)
    ensures n > 0 ==> (WordMeetsQuote(s, false) <==> (n < |s| && s[n] == QUOTE) || WordMeetsQuote(s[n..], false))
    decreases n
  {
    if n == 0 {
      assert s[..0] == [] && s[0..] == s;
    } else {
      assert s[..n][0] == s[0] && s[1..][..n - 1] == s[..n][1..] && s[1..][n - 1..] == s[n..];
      ContentOfWord(s[1..], n - 1);
      assert s[..n] == [s[0]] + s[1..n] && s[1..][..n - 1] == s[1..n];
      if n > 1 {
        assert s[1] == s[..n][1];
      }
    }
  }

  lemma {:induction false} ContentOfQuoted(s: string, n: nat)
    requires n <= |s| && QUOTE !in s[..n]
    ensures Content(s, true) == s[..n] + Content(s[n..], true)
    ensures WordMeetsQuote(s, true) == WordMeetsQuote(s[n..], true)
    decreases n
  {
    if n == 0 {
      assert s[..0] == [] && s[0..] == s;
    } else {
      assert s[0] in s[..n] && s[1..][..n - 1] == s[..n][1..] && s[1..][n - 1..] == s[n..];
      ContentOfQuoted(s[1..], n - 1);
      assert s[..n] == [s[0]] + s[1..n] && s[1..][..n - 1] == s[1..n];
    }
  }

  lemma {:induction false} KeptAfterQuote(line: string)
    requires line != [] && line[0] == QUOTE
    ensures Keeps(line)
    decreases |line|, 0
  {
    var rest := line[1..];
    var n := QuotedLength(rest);
    ContentOfQuoted(rest, n);
    if n < |rest| {
      var more := rest[n + 1..];
      KeptOrDropped(more);
      assert rest[n..][0] == QUOTE && rest[n..][1..] == more;
      assert Content(line, false) == rest[..n] + Content(more, false);
      assert Tokens(line) == [rest[..n]] + Tokens(more);
      ConcatCons(rest[..n], Tokens(more));
    } else {
      assert rest[..n] == rest && rest[n..] == [] && Content(line, false) == rest;
      assert Tokens(line) == if n > 0 then [rest] else [];
      ConcatCons(rest, []);
      assert [rest] + [] == [rest] && rest + Concat([]) == rest;
    }
  }

  lemma {:induction false} KeptAfterWord(line: string)
    requires line != [] && line[0] != QUOTE && !IsSpace(line[0])
    ensures Keeps(line)
    decreases |line|, 0
  {
    var n := WordLength(line);
    var word, rest := line[..n], line[n..];
    assert n > 0;
    ContentOfWord(line, n);
    if n == |line| {
      assert word == line && rest == [] && Tokens(line) == [line];
      ConcatCons(line, []);
      assert [line] + [] == [line] && line + Concat([]) == line;
    } else {
      assert rest[0] == line[n];
      if line[n] == QUOTE {
        KeptOrDropped(rest);
        assert Tokens(line) == Tokens(rest);
      } else {
        KeptOrDropped(line[n + 1..]);
        assert rest[1..] == line[n + 1..];
        assert Tokens(line) == [word] + Tokens(line[n + 1..]);
        ConcatCons(word, Tokens(line[n + 1..]));
      }
    }
  }

  /** The arguments, put together, are the line's content, or shorter than it if a word meets a quote. */
  ghost predicate Keeps(line: string) {
    if WordMeetsQuote(line, false) then |Concat(Tokens(line))| < |Content(line, false)|
    else Concat(Tokens(line)) == Content(line, false)
  }

  lemma {:induction false} KeptOrDropped(line: string)
    ensures Keeps(line)
    decreases |line|, 1
  {
    if line == [] {
    } else if IsSpace(line[0]) {
      KeptOrDropped(line[1..]);
    } else if line[0] == QUOTE {
      KeptAfterQuote(line);
    } else {
      KeptAfterWord(line);
    }
  }

  /** The tokenizer keeps every quoted character and every unquoted one that is no space if and only if no word
      is directly followed by a quote; otherwise it loses some. */
  lemma NothingDroppedIff(line: string)
    ensures Concat(Tokens(line)) == Content(line, false) <==> !WordMeetsQuote(line, false)
    ensures |Concat(Tokens(line))| <= |Content(line, false)|
  {
    KeptOrDropped(line);
  }

  /** ab"c" gives c alone. */
  lemma WordBeforeQuoteIsDropped()
    ensures Tokens("ab\"c\"") == ["c"] && Content("ab\"c\"", false) == "abc"
  {
    var line := "ab\"c\"";
    assert line[..2] == "ab" && line[2..] == "\"c\"";
    assert IsWord(line[..2]);
    WordTokens(line, 2);
    ContentOfWord(line, 2);
    var quoted := line[2..];
    assert quoted[1..2] == "c" && quoted[3..] == [];
    QuotedTokens(quoted, 1);
    assert quoted[1..] == "c\"" && quoted[1..][1..] == "\"" && quoted[1..][1..][1..] == [];
    assert Content("\"", true) == [];
    assert Content("c\"", true) == "c";
  }

  // ---- the round trip ----

  /** Each argument as it is or in double quotes, each with a gap behind it. */
  function Render(args: seq<string>, quoted: seq<bool>, gaps: seq<string>): string
    requires |args| == |quoted| == |gaps|
  {
    if args == [] then ""
    else (if quoted[0] then "\"" + args[0] + "\"" else args[0]) + gaps[0] + Render(args[1..], quoted[1..], gaps[1..])
  }

  lemma {:induction false} BlankPrefix(blank: string, s: string)
    requires IsBlank(blank)
    ensures Tokens(blank + s) == Tokens(s)
  {
    if blank == [] {
      assert blank + s == s;
    } else {
      assert (blank + s)[0] == blank[0] && blank[0] in blank && (blank + s)[1..] == blank[1..] + s;
      BlankPrefix(blank[1..], s);
    }
  }

  lemma {:induction false} QuotedThenTokens(arg: string, rest: string)
    requires QUOTE !in arg
    ensures Tokens("\"" + arg + "\"" + rest) == [arg] + Tokens(rest)
  {
    var line := "\"" + arg + "\"" + rest;
    var n := |arg|;
    assert line[1..n + 1] == arg && line[n + 2..] == rest;
    QuotedTokens(line, n);
  }

  lemma BareThenTokens(word: string, gap: string, rest: string)
    requires word != "" && IsWord(word) && IsBlank(gap) && (gap == "" ==> rest == "")
    ensures Tokens(word + gap + rest) == [word] + Tokens(rest)
  {
    var line, n := word + gap + rest, |word|;
    assert line[..n] == word;
    WordTokens(line, n);
    if gap == "" {
      assert line == word;
    } else {
      assert line[n] == gap[0] && gap[0] in gap && line[n + 1..] == gap[1..] + rest;
      BlankPrefix(gap[1..], rest);
    }
  }

  lemma WhiteIsBlank(s: string)
    requires forall c :: c in s ==> c in " \t\n\U{0B}\U{0C}\r"
    ensures IsBlank(s)
  {
    forall c | c in s ensures IsSpace(c) {
      assert c in " \t\n\U{0B}\U{0C}\r";
    }
  }

  lemma NoWhiteIsWord(s: string)
    requires '"' !in s && forall c :: c in s ==> c !in " \t\n\U{0B}\U{0C}\r"
    ensures IsWord(s)
  {
    forall k | 0 <= k < |s| ensures s[k] != QUOTE && !IsSpace(s[k]) {
      var white := " \t\n\U{0B}\U{0C}\r";
      assert s[k] in s && s[k] !in white;
      assert white[0] == ' ' && white[1] == '\t' && white[2] == '\n';
      assert white[3] == '\U{0B}' && white[4] == '\U{0C}' && white[5] == '\r';
    }
  }

  /** Arguments and gaps that the tokenizer can tell apart. In the gaps are the whitespace characters of the C locale,
      and an argument outside quotes has none of them, is not empty and has a gap behind it unless it comes last. */
  ghost predicate Readable(args: seq<string>, quoted: seq<bool>, gaps: seq<string>) {
    && |args| == |quoted| == |gaps|
    && (forall k :: 0 <= k < |args| ==> '"' !in args[k] && '\0' !in args[k])
    && (forall k :: 0 <= k < |args| ==> forall c :: c in gaps[k] ==> c in " \t\n\U{0B}\U{0C}\r")
    && forall k :: 0 <= k < |args| && !quoted[k] ==>
         && args[k] != "" && (forall c :: c in args[k] ==> c !in " \t\n\U{0B}\U{0C}\r")
         && (gaps[k] == "" ==> k == |args| - 1)
  }

  lemma ReadableRest(args: seq<string>, quoted: seq<bool>, gaps: seq<string>)
    requires Readable(args, quoted, gaps) && args != []
    ensures Readable(args[1..], quoted[1..], gaps[1..])
  {
    forall k | 0 <= k < |args[1..]|
      ensures forall c :: c in gaps[1..][k] ==> c in " \t\n\U{0B}\U{0C}\r"
      ensures !quoted[1..][k] ==> forall c :: c in args[1..][k] ==> c !in " \t\n\U{0B}\U{0C}\r"
    {
      assert gaps[1..][k] == gaps[k + 1] && args[1..][k] == args[k + 1];
    }
  }

  lemma RenderOne(args: seq<string>, quoted: seq<bool>, gaps: seq<string>)
    requires Readable(args, quoted, gaps) && args != []
    ensures Tokens(Render(args, quoted, gaps)) == [args[0]] + Tokens(Render(args[1..], quoted[1..], gaps[1..]))
    ensures Render(args, quoted, gaps) != "" && !IsSpace(Render(args, quoted, gaps)[0])
  {
    var rest := Render(args[1..], quoted[1..], gaps[1..]);
    WhiteIsBlank(gaps[0]);
    if quoted[0] {
      assert "\"" + args[0] + "\"" + gaps[0] + rest == "\"" + args[0] + "\"" + (gaps[0] + rest);
      QuotedThenTokens(args[0], gaps[0] + rest);
      BlankPrefix(gaps[0], rest);
    } else {
      NoWhiteIsWord(args[0]);
      BareThenTokens(args[0], gaps[0], rest);
    }
  }

  /** Reading back a rendered argument list gives the list. */
  lemma {:induction false} RenderRoundTrip(args: seq<string>, quoted: seq<bool>, gaps: seq<string>, lead: string)
    requires Readable(args, quoted, gaps) && forall c :: c in lead ==> c in " \t\n\U{0B}\U{0C}\r"
    ensures Tokens(lead + Render(args, quoted, gaps)) == args
  {
    WhiteIsBlank(lead);
    BlankPrefix(lead, Render(args, quoted, gaps));
    if args != [] {
      var rest := Render(args[1..], quoted[1..], gaps[1..]);
      RenderOne(args, quoted, gaps);
      ReadableRest(args, quoted, gaps);
      RenderRoundTrip(args[1..], quoted[1..], gaps[1..], "");
      assert "" + rest == rest && args == [args[0]] + args[1..];
    }
  }

  lemma {:induction false} RenderNulFree(args: seq<string>, quoted: seq<bool>, gaps: seq<string>)
    requires Readable(args, quoted, gaps)
    ensures '\0' !in Render(args, quoted, gaps)
  {
    if args != [] {
      ReadableRest(args, quoted, gaps);
      RenderNulFree(args[1..], quoted[1..], gaps[1..]);
      assert '\0' !in gaps[0] by { assert '\0' !in " \t\n\U{0B}\U{0C}\r"; }
    }
  }

  // ---- the tokenizer in place ----

  /** arg points at a NUL-terminated copy of token. */
  ghost predicate PointsAt(buffer: seq<char>, arg: Option<nat>, token: string) {
    arg.Some? && TextAt(buffer, arg.value, token)
  }

  /** The tokens sit in the buffer one behind the other, terminators included, all before position limit. */
  ghost predicate Stored(buffer: seq<char>, argv: seq<Option<nat>>, tokens: seq<string>, limit: nat) {
    && |tokens| <= |argv|
    && (forall k :: 0 <= k < |tokens| ==> PointsAt(buffer, argv[k], tokens[k]) && argv[k].value + |tokens[k]| < limit)
    && (forall j, k :: 0 <= j < k < |tokens| ==> argv[j].value + |tokens[j]| < argv[k].value)
  }

  /** Stored tokens are what C reads back. */
  lemma {:induction false} StoredStrings(buffer: seq<char>, argv: seq<Option<nat>>, line: string, n: nat, limit: nat)
    requires NUL !in line && n <= |Tokens(line)| && Stored(buffer, argv, Tokens(line)[..n], limit)
    ensures forall k :: 0 <= k < n ==> Reads(buffer, argv[k], Tokens(line)[k])
  {
    forall k | 0 <= k < n ensures Reads(buffer, argv[k], Tokens(line)[k]) {
      TokensNulFree(line, k);
      assert Tokens(line)[..n][k] == Tokens(line)[k];
      TextAtString(buffer, argv[k].value, Tokens(line)[k]);
    }
  }

  /** Stores at or after the limit leave the stored tokens alone. */
  lemma StoredFrame(before: seq<char>, after: seq<char>, argv: seq<Option<nat>>, tokens: seq<string>, limit: nat, higher: nat)
    requires Stored(before, argv, tokens, limit) && |after| == |before| && limit <= |before| && limit <= higher
    requires before[..limit] == after[..limit]
    ensures Stored(after, argv, tokens, higher)
  {
    forall k | 0 <= k < |tokens| ensures PointsAt(after, argv[k], tokens[k]) {
      var at, end := argv[k].value, argv[k].value + |tokens[k]|;
      assert PointsAt(before, argv[k], tokens[k]);
      assert before[at..end] == before[..limit][at..end] == after[at..end];
      assert before[..limit][end] == after[..limit][end];
    }
  }

  /** Cutting the token at start..end out of the buffer adds it to the stored ones. */
  lemma StoredAppend(buffer: seq<char>, argv: seq<Option<nat>>, tokens: seq<string>, limit: nat, start: nat, end: nat)
    requires Stored(buffer, argv, tokens, limit) && limit <= start <= end < |buffer| && |tokens| < |argv|
    ensures Stored(buffer[end := NUL], argv[|tokens| := Some(start)], tokens + [buffer[start..end]], end + 1)
  {
    var after := buffer[end := NUL];
    StoredFrame(buffer, after, argv, tokens, limit, end + 1);
    assert after[start..end] == buffer[start..end];
  }

  class CmdBuff {
    var argc: nat
    const argv: array<Option<nat>>
    const buffer: array<char>

    ghost predicate Valid() {
      argv.Length == CMD_ARGV_MAX && buffer.Length == SH_CMD_MAX
    }

    /** A zeroed buffer, no arguments. */
    constructor ()
      ensures Valid() && fresh(argv) && fresh(buffer) && argc == 0
      ensures forall k :: 0 <= k < argv.Length ==> argv[k] == None
      ensures forall k :: 0 <= k < buffer.Length ==> buffer[k] == NUL
    {
      argc := 0;
      argv := new Option<nat>[CMD_ARGV_MAX](_ => None);
      buffer := new char[SH_CMD_MAX](_ => NUL);
    }

    /** alloc_cmd_buff: the caller may pass no structure to fill, and malloc may fail. */
    static method Alloc(given: bool) returns (rc: ReturnCode, cmd: CmdBuff?)
      ensures rc == if cmd == null then ERR_MEMORY else OK
      ensures !given ==> rc == ERR_MEMORY
      ensures cmd != null ==> fresh(cmd) && cmd.Valid() && cmd.argc == 0
      ensures cmd != null ==> cmd.argv.Length == 9 && forall k :: 0 <= k < 9 ==> cmd.argv[k] == None
      ensures cmd != null ==> cmd.buffer.Length == 320 && forall k :: 0 <= k < 320 ==> cmd.buffer[k] == '\0'
    {
      if !given {
        return ERR_MEMORY, null;
      }
      var outOfMemory := *;
      if outOfMemory {
        return ERR_MEMORY, null;
      }
      cmd := new CmdBuff();
      return OK, cmd;
    }

    /** Between two characters of the scan: the tokens found so far are stored, the rest of the text is intact. */
    ghost predicate Scanning(text: string, all: seq<string>, token: nat, inQuotes: bool, start: Option<nat>)
      reads this, argv, buffer
    {
      && Valid() && ScanOk(text, all, argc, token, inQuotes, start)
      && Matches(buffer[..], text, From(token, start))
      && Stored(buffer[..], argv[..], all[..argc], Anchor(token, inQuotes, start))
    }

    /** Puts the text and its terminator into the buffer; the rest of the buffer keeps what it held. */
    method CopyIn(text: string)
      requires Valid() && |text| < SH_CMD_MAX
      modifies buffer
      ensures Matches(buffer[..], text, 0)
      ensures buffer[|text| + 1..] == old(buffer[|text| + 1..])
    {
      var k := 0;
      while k < |text|
        invariant k <= |text|
        invariant buffer[..k] == text[..k]
        invariant buffer[|text| + 1..] == old(buffer[|text| + 1..])
      {
        buffer[k] := text[k];
        k := k + 1;
      }
      buffer[k] := NUL;
    }

    /** The argument from start ends at token: a terminator goes there, and the next argv slot points at its start. */
    method CutArgument(token: nat, start: nat, ghost text: string, ghost all: seq<string>, ghost limit: nat)
      requires Valid() && limit <= start <= token < |text| && argc < CMD_ARGV_MAX
      requires argc < |all| && all[argc] == text[start..token]
      requires Matches(buffer[..], text, start) && Stored(buffer[..], argv[..], all[..argc], limit)
      modifies this`argc, argv, buffer
      ensures argc == old(argc) + 1
      ensures Matches(buffer[..], text, token + 1) && Stored(buffer[..], argv[..], all[..argc], token + 1)
    {
      MatchesAt(buffer[..], text, start, token);
      MatchesFrom(buffer[..], buffer[..][token := NUL], text, start, token + 1);
      StoredAppend(buffer[..], argv[..], all[..argc], limit, start, token);
      assert buffer[..][start..token] == text[start..token];
      assert all[..argc] + [all[argc]] == all[..argc + 1];
      buffer[token] := NUL;
      argv[argc] := Some(start);
      argc := argc + 1;
      assert argv[..] == old(argv[..])[argc - 1 := Some(start)];
      assert buffer[..] == old(buffer[..])[token := NUL];
    }

    /** The end of the line ends the last argument. */
    method CutLast(ghost token: nat, start: Option<nat>, inQuotes: bool, ghost text: string, ghost all: seq<string>)
      requires Scanning(text, all, token, inQuotes, start) && NUL !in text
      requires if argc == CMD_ARGV_MAX then start.None? else token == |text|
      modifies this`argc, argv
      ensures argc == Slots(|all|)
      ensures Stored(buffer[..], argv[..], all[..argc], SH_CMD_MAX)
    {
      if token == |text| {
        EndOfText(text, all, argc, inQuotes, start);
      }
      if start.Some? {
        MatchesAt(buffer[..], text, start.value, start.value);
        assert start.value < |text| ==> text[start.value] in text;
      }
      ghost var limit := Anchor(token, inQuotes, start);
      if start.Some? && buffer[start.value] != NUL && argc < CMD_ARGV_MAX {
        assert buffer[start.value..|text|] == text[start.value..];
        ghost var before := argv[..];
        StoredAppend(buffer[..], before, all[..argc], limit, start.value, |text|);
        assert buffer[..][|text| := NUL] == buffer[..];
        argv[argc] := start;
        argc := argc + 1;
        assert argv[..] == before[argc - 1 := start];
        assert all[..argc] == all;
      } else {
        StoredFrame(buffer[..], buffer[..], argv[..], all[..argc], limit, SH_CMD_MAX);
      }
    }

    /** The NULL behind the arguments. Behind nine arguments there is no slot for it: the source then stores outside
        `argv`, which the model leaves undone and reports. */
    method EndArguments(ghost tokens: seq<string>) returns (overrun: bool)
      requires Valid() && argc == |tokens| <= CMD_ARGV_MAX && Stored(buffer[..], argv[..], tokens, SH_CMD_MAX)
      modifies argv
      ensures overrun <==> argc == CMD_ARGV_MAX
      ensures !overrun ==> argv[argc] == None
      ensures Stored(buffer[..], argv[..], tokens, SH_CMD_MAX)
    {
      overrun := argc >= CMD_ARGV_MAX;
      if !overrun {
        ghost var stored := argv[..];
        argv[argc] := None;
        assert forall k :: 0 <= k < |tokens| ==> argv[..][k] == stored[k];
      }
    }

    /** The tokens of the line, as many of them as argv has slots. All stores stay inside argv if and only if there are
        at most eight. */
    method BuildCmdBuff(line: string) returns (rc: ReturnCode, overrun: bool)
      requires Valid() && NUL !in line && |SkipSpaces(line)| < SH_CMD_MAX
      modifies this`argc, argv, buffer
      ensures rc == if IsBlank(line) then WARN_NO_CMDS else OK
      ensures rc == WARN_NO_CMDS ==> argc == old(argc) && argv[..] == old(argv[..]) && buffer[..] == old(buffer[..])
      ensures overrun <==> |Tokens(line)| > CMD_MAX
      ensures rc == OK ==> argc == Slots(|Tokens(line)|) && (!overrun ==> argv[argc] == None)
      ensures rc == OK ==> Stored(buffer[..], argv[..], Tokens(line)[..argc], SH_CMD_MAX)
      ensures rc == OK ==> forall k :: 0 <= k < argc ==> Reads(buffer[..], argv[k], Tokens(line)[k])
    {
      var text := SkipSpaces(line);
      SkipSpacesTokens(line);
      SkipSpacesBlank(line);
      if text == [] {
        return WARN_NO_CMDS, false;
      }
      CopyIn(text);
      overrun := ScanText(text);
      StoredStrings(buffer[..], argv[..], line, argc, SH_CMD_MAX);
      return OK, overrun;
    }

    /** The scan over the text that CopyIn has put in the buffer, and what follows it. */
    method ScanText(ghost text: string) returns (overrun: bool)
      requires Valid() && text != [] && NUL !in text && Matches(buffer[..], text, 0)
      modifies this`argc, argv, buffer
      ensures overrun <==> |Tokens(text)| > CMD_MAX
      ensures argc == Slots(|Tokens(text)|) && (!overrun ==> argv[argc] == None)
      ensures Stored(buffer[..], argv[..], Tokens(text)[..argc], SH_CMD_MAX)
    {
      ghost var all := Tokens(text);
      argc := 0;
      var token, inQuotes := 0, false;
      var start: Option<nat> := None;
      assert Split(text, all, 0, 0) by { assert text[0..] == text; }
      while buffer[token] != NUL && argc < CMD_ARGV_MAX
        invariant Scanning(text, all, token, inQuotes, start) && (argc == CMD_ARGV_MAX ==> start.None?)
        decreases |text| - token
      {
        MatchesAt(buffer[..], text, From(token, start), token);
        start, inQuotes := ScanChar(token, start, inQuotes, text, all);
        token := token + 1;
      }
      MatchesAt(buffer[..], text, From(token, start), token);
      CutLast(token, start, inQuotes, text, all);
      overrun := EndArguments(all[..argc]);
    }

    /** The body of the loop, for the character at token. */
    method ScanChar(token: nat, start: Option<nat>, inQuotes: bool, ghost text: string, ghost all: seq<string>)
        returns (start': Option<nat>, inQuotes': bool)
      requires Scanning(text, all, token, inQuotes, start) && argc < CMD_ARGV_MAX
      requires token < |text| && buffer[token] == text[token]
      modifies this`argc, argv, buffer
      ensures Scanning(text, all, token + 1, inQuotes', start') && (argc == CMD_ARGV_MAX ==> start'.None?)
    {
      start', inQuotes' := start, inQuotes;
      ghost var limit := Anchor(token, inQuotes, start);
      if buffer[token] == QUOTE {
        inQuotes' := !inQuotes;
        if inQuotes' {
          OpenQuote(text, all, argc, token, start);
          MatchesFrom(buffer[..], buffer[..], text, From(token, start), token + 1);
          StoredFrame(buffer[..], buffer[..], argv[..], all[..argc], limit, token);
          start' := Some(token + 1);
        } else {
          CloseQuote(text, all, argc, token, start.value);
          CutArgument(token, start.value, text, all, limit);
          start' := None;
        }
      } else if !inQuotes && IsSpace(buffer[token]) {
        if start.Some? {
          EndWord(text, all, argc, token, start.value);
          CutArgument(token, start.value, text, all, limit);
          start' := None;
        } else {
          SkipSpace(text, all, argc, token);
          MatchesFrom(buffer[..], buffer[..], text, token, token + 1);
          StoredFrame(buffer[..], buffer[..], argv[..], all[..argc], limit, token + 1);
        }
      } else {
        KeepChar(text, all, argc, token, inQuotes, start);
        if start.None? {
          start' := Some(token);
        }
      }
    }
  }

  /** How many of n tokens get a slot. */
  function Slots(n: nat): nat {
    if n < CMD_ARGV_MAX then n else CMD_ARGV_MAX
  }

  /** In the 320 characters of the buffer, arg points at this string and a NUL behind it. */
  ghost predicate LiesAt(buffer: seq<char>, arg: Option<nat>, s: string) {
    && |buffer| == 320 && arg.Some? && arg.value + |s| < 320
    && buffer[arg.value..arg.value + |s|] == s && buffer[arg.value + |s|] == '\0'
  }

  lemma WhiteIsNulFree(s: string)
    requires forall c :: c in s ==> c in " \t\n\U{0B}\U{0C}\r"
    ensures NUL !in s
  {
    assert NUL !in " \t\n\U{0B}\U{0C}\r";
  }

  lemma RenderHead(args: seq<string>, quoted: seq<bool>, gaps: seq<string>)
    requires Readable(args, quoted, gaps)
    ensures var line := Render(args, quoted, gaps); (line == "" <==> args == []) && (line != "" ==> !IsSpace(line[0]))
  {
    if args != [] {
      RenderOne(args, quoted, gaps);
    }
  }

  lemma AcceptedLine(lead: string, line: string)
    requires IsBlank(lead) && NUL !in lead && NUL !in line && (line != "" ==> !IsSpace(line[0]))
    ensures NUL !in lead + line && SkipSpaces(lead + line) == line && (IsBlank(lead + line) <==> line == "")
  {
    SkipSpacesLead(lead, line);
    SkipSpacesBlank(lead + line);
  }

  lemma RenderedLine(args: seq<string>, quoted: seq<bool>, gaps: seq<string>, lead: string)
    requires Readable(args, quoted, gaps) && forall c :: c in lead ==> c in " \t\n\U{0B}\U{0C}\r"
    ensures var line := lead + Render(args, quoted, gaps);
            && Tokens(line) == args && NUL !in line && SkipSpaces(line) == Render(args, quoted, gaps)
            && (IsBlank(line) <==> args == [])
  {
    RenderRoundTrip(args, quoted, gaps, lead);
    RenderNulFree(args, quoted, gaps);
    WhiteIsBlank(lead);
    WhiteIsNulFree(lead);
    RenderHead(args, quoted, gaps);
    AcceptedLine(lead, Render(args, quoted, gaps));
  }

  /** Rendering arguments and running the tokenizer, on a buffer with whatever was in it before, gives exactly those
      arguments, up to the ninth; with nine or more a store misses argv. A line without arguments is refused. */
  method ArgumentRoundTrip(cmd: CmdBuff, args: seq<string>, quoted: seq<bool>, gaps: seq<string>, lead: string)
      returns (rc: ReturnCode, overrun: bool)
    requires cmd.Valid() && Readable(args, quoted, gaps) && forall c :: c in lead ==> c in " \t\n\U{0B}\U{0C}\r"
    requires |Render(args, quoted, gaps)| < 320
    modifies cmd`argc, cmd.argv, cmd.buffer
    ensures rc == (if args == [] then WARN_NO_CMDS else OK) && (overrun <==> |args| > 8)
    ensures 0 < |args| <= 8 ==> cmd.argc == |args| && cmd.argv[cmd.argc] == None
    ensures forall k :: 0 <= k < |args| && k < 9 ==> LiesAt(cmd.buffer[..], cmd.argv[k], args[k])
  {
    RenderedLine(args, quoted, gaps, lead);
    rc, overrun := cmd.BuildCmdBuff(lead + Render(args, quoted, gaps));
    forall k | 0 <= k < |args| && k < 9 ensures LiesAt(cmd.buffer[..], cmd.argv[k], args[k]) {
      assert PointsAt(cmd.buffer[..], cmd.argv[..][k], args[..cmd.argc][k]);
    }
  }

  /** One-letter words with a space between any two. */
  function Spaced(letters: string): string {
    if |letters| <= 1 then letters else [letters[0], ' '] + Spaced(letters[1..])
  }

  lemma {:induction false} SpacedTokens(letters: string)
    requires IsWord(letters) && NUL !in letters
    ensures |Tokens(Spaced(letters))| == |letters| && |Spaced(letters)| <= 2 * |letters| && NUL !in Spaced(letters)
  {
    if |letters| == 1 {
      assert letters[..1] == letters;
      WordTokens(letters, 1);
    } else if letters != [] {
      var line, rest := Spaced(letters), Spaced(letters[1..]);
      SpacedTokens(letters[1..]);
      assert line[..1] == [letters[0]] && line[2..] == rest && IsWord([letters[0]]);
      WordTokens(line, 1);
    }
  }

  /** A line of nine letters is enough to make a store miss argv. */
  lemma NineTokensOverrun()
    ensures exists line :: '\0' !in line && |line| < 320 && |Tokens(line)| > 8
  {
    var letters := "abcdefghi";
    SpacedTokens(letters);
  }

  // ---- the unread part of the buffer ----

  function From(token: nat, start: Option<nat>): nat {
    if start.Some? then start.value else token
  }

  /** From this position on the buffer still holds the text and its terminator. */
  ghost predicate Matches(buffer: seq<char>, text: string, from: nat) {
    from <= |text| < |buffer| && buffer[from..|text|] == text[from..] && buffer[|text|] == NUL
  }

  lemma MatchesAt(buffer: seq<char>, text: string, from: nat, at: nat)
    requires Matches(buffer, text, from) && from <= at <= |text|
    ensures buffer[from..at] == text[from..at]
    ensures buffer[at] == if at < |text| then text[at] else NUL
  {
    assert buffer[from..at] == buffer[from..|text|][..at - from] == text[from..at];
    assert at < |text| ==> buffer[from..|text|][at - from] == text[from..][at - from];
  }

  lemma MatchesFrom(buffer: seq<char>, after: seq<char>, text: string, from: nat, higher: nat)
    requires Matches(buffer, text, from) && from <= higher <= |text|
    requires |after| == |buffer| && buffer[higher..] == after[higher..]
    ensures Matches(after, text, higher)
  {
    assert after[higher..|text|] == buffer[higher..][..|text| - higher] == buffer[from..|text|][higher - from..];
    assert text[from..][higher - from..] == text[higher..];
    assert after[|text|] == after[higher..][|text| - higher] == buffer[|text|];
  }

  /** Tokens are made of characters of the line. */
  lemma {:induction false} TokensNulFree(line: string, k: nat)
    requires NUL !in line && k < |Tokens(line)|
    ensures NUL !in Tokens(line)[k]
    decreases |line|, 1
  {
    if IsSpace(line[0]) {
      assert Tokens(line) == Tokens(line[1..]);
      TokensNulFree(line[1..], k);
    } else if line[0] == QUOTE {
      QuotedNulFree(line, k);
    } else {
      WordNulFree(line, k);
    }
  }

  lemma {:induction false} QuotedNulFree(line: string, k: nat)
    requires NUL !in line && k < |Tokens(line)| && line[0] == QUOTE
    ensures NUL !in Tokens(line)[k]
    decreases |line|, 0
  {
    var rest := line[1..];
    var n := QuotedLength(rest);
    assert NUL !in rest;
    if n < |rest| {
      var content, more := rest[..n], rest[n + 1..];
      assert Tokens(line) == [content] + Tokens(more);
      assert NUL !in content && NUL !in more;
      FirstOrLater(content, more, k);
    } else {
      assert n > 0 && Tokens(line) == [rest];
    }
  }

  lemma {:induction false} WordNulFree(line: string, k: nat)
    requires NUL !in line && k < |Tokens(line)| && line[0] != QUOTE && !IsSpace(line[0])
    ensures NUL !in Tokens(line)[k]
    decreases |line|, 0
  {
    var n := WordLength(line);
    if n == |line| {
      assert Tokens(line) == [line];
    } else if line[n] == QUOTE {
      assert n > 0 && Tokens(line) == Tokens(line[n..]);
      TokensNulFree(line[n..], k);
    } else {
      assert Tokens(line) == [line[..n]] + Tokens(line[n + 1..]);
      FirstOrLater(line[..n], line[n + 1..], k);
    }
  }

  lemma {:induction false} FirstOrLater(first: string, line: string, k: nat)
    requires NUL !in first && NUL !in line && k < 1 + |Tokens(line)|
    ensures NUL !in ([first] + Tokens(line))[k]
    decreases |line|, 2
  {
    if k > 0 {
      assert ([first] + Tokens(line))[k] == Tokens(line)[k - 1];
      TokensNulFree(line, k - 1);
    }
  }

  // ---- the scan, step by step, against the specification ----

  /** Where the part of the text begins whose tokens are not yet stored. */
  ghost function Anchor(token: nat, inQuotes: bool, start: Option<nat>): int {
    if start.None? then token else if inQuotes then start.value - 1 else start.value
  }

  /** all = the arguments stored so far, then the tokens of the text from the anchor on. */
  ghost predicate Split(text: string, all: seq<string>, argc: nat, anchor: int) {
    0 <= anchor <= |text| && argc <= |all| && all[..argc] + Tokens(text[anchor..]) == all
  }

  /** What the scan knows about the token it is inside of. */
  ghost predicate ScanOk(text: string, all: seq<string>, argc: nat, token: nat, inQuotes: bool, start: Option<nat>) {
    && token <= |text|
    && Split(text, all, argc, Anchor(token, inQuotes, start))
    && (start.None? ==> !inQuotes)
    && (start.Some? && inQuotes ==>
          1 <= start.value <= token && text[start.value - 1] == QUOTE && QUOTE !in text[start.value..token])
    && (start.Some? && !inQuotes ==> start.value < token && IsWord(text[start.value..token]))
  }

  lemma TakeOne(all: seq<string>, argc: nat, x: string, rest: seq<string>)
    requires argc <= |all| && all[..argc] + ([x] + rest) == all
    ensures argc < |all| && all[argc] == x && all[..argc + 1] + rest == all
  {
    assert all[..argc] + ([x] + rest) == (all[..argc] + [x]) + rest;
  }

  lemma {:induction false} DropWord(text: string, all: seq<string>, argc: nat, token: nat, start: Option<nat>)
    requires ScanOk(text, all, argc, token, false, start) && token < |text| && text[token] == QUOTE
    ensures Split(text, all, argc, token)
  {
    if start.Some? {
      var rest, n := text[start.value..], token - start.value;
      assert rest[..n] == text[start.value..token] && rest[n] == QUOTE;
      WordTokens(rest, n);
      assert rest[n..] == text[token..];
      assert Tokens(rest) == Tokens(text[token..]);
    }
  }

  lemma OpenQuote(text: string, all: seq<string>, argc: nat, token: nat, start: Option<nat>)
    requires ScanOk(text, all, argc, token, false, start) && token < |text| && text[token] == QUOTE
    ensures ScanOk(text, all, argc, token + 1, true, Some(token + 1))
  {
    DropWord(text, all, argc, token, start);
  }

  lemma {:induction false} CloseQuote(text: string, all: seq<string>, argc: nat, token: nat, start: nat)
    requires ScanOk(text, all, argc, token, true, Some(start)) && token < |text| && text[token] == QUOTE
    ensures ScanOk(text, all, argc + 1, token + 1, false, None)
    ensures argc < |all| && all[argc] == text[start..token]
  {
    var rest, n := text[start - 1..], token - start;
    assert rest[1..n + 1] == text[start..token] && rest[n + 2..] == text[token + 1..];
    QuotedTokens(rest, n);
    TakeOne(all, argc, text[start..token], Tokens(text[token + 1..]));
  }

  lemma {:induction false} EndWord(text: string, all: seq<string>, argc: nat, token: nat, start: nat)
    requires ScanOk(text, all, argc, token, false, Some(start)) && token < |text| && IsSpace(text[token])
    ensures ScanOk(text, all, argc + 1, token + 1, false, None)
    ensures argc < |all| && all[argc] == text[start..token]
  {
    var rest, n := text[start..], token - start;
    assert rest[..n] == text[start..token] && rest[n + 1..] == text[token + 1..];
    WordTokens(rest, n);
    TakeOne(all, argc, text[start..token], Tokens(text[token + 1..]));
  }

  lemma SkipSpace(text: string, all: seq<string>, argc: nat, token: nat)
    requires ScanOk(text, all, argc, token, false, None) && token < |text| && IsSpace(text[token])
    ensures ScanOk(text, all, argc, token + 1, false, None)
  {
    assert text[token..][1..] == text[token + 1..];
  }

  lemma {:induction false} WordGrows(text: string, from: nat, token: nat)
    requires from <= token < |text| && IsWord(text[from..token]) && text[token] != QUOTE && !IsSpace(text[token])
    ensures IsWord(text[from..token + 1])
  {
    var word := text[from..token + 1];
    forall k | 0 <= k < |word| ensures word[k] != QUOTE && !IsSpace(word[k]) {
      assert word[k] == text[from + k];
      assert k < token - from ==> text[from + k] == text[from..token][k];
    }
  }

  /** A character inside a token, or the first of a word. */
  lemma {:induction false} KeepChar(text: string, all: seq<string>, argc: nat, token: nat, inQuotes: bool, start: Option<nat>)
    requires ScanOk(text, all, argc, token, inQuotes, start) && token < |text| && text[token] != QUOTE
    requires inQuotes || !IsSpace(text[token])
    ensures ScanOk(text, all, argc, token + 1, inQuotes, Some(From(token, start)))
  {
    var from := From(token, start);
    if inQuotes {
      assert text[from..token + 1] == text[from..token] + [text[token]];
    } else {
      WordGrows(text, from, token);
    }
  }

  /** What the end of the text makes of an unfinished token. */
  lemma EndOfText(text: string, all: seq<string>, argc: nat, inQuotes: bool, start: Option<nat>)
    requires ScanOk(text, all, argc, |text|, inQuotes, start)
    ensures start.None? || start.value == |text| ==> argc == |all|
    ensures start.Some? && start.value < |text| ==> argc + 1 == |all| && all == all[..argc] + [text[start.value..]]
  {
    if start.Some? {
      var n := |text| - start.value;
      assert text[start.value..|text|] == text[start.value..];
      if inQuotes {
        var rest := text[start.value - 1..];
        assert rest[1..n + 1] == text[start.value..] && rest[1..] == text[start.value..];
        QuotedTokens(rest, n);
      } else {
        assert text[start.value..][..n] == text[start.value..];
        WordTokens(text[start.value..], n);
      }
    } else {
      assert text[|text|..] == [];
    }
  }
}
