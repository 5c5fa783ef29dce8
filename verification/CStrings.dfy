/** C strings as sequences of characters without NUL, and the library calls the shells parse them with. */
module CStrings {
  import opened Options

  const NUL: char := 0 as char

  /** isspace in the C locale. */
  predicate IsSpace(c: char) {
    c == ' ' || 9 as char <= c <= 13 as char
  }

  predicate IsBlank(s: string) {
    forall c :: c in s ==> IsSpace(c)
  }

  /** What is left of a string behind its leading whitespace. */
  function SkipSpaces(s: string): (r: string)
    ensures |r| <= |s| && (r == [] || !IsSpace(r[0]))
  {
    if s != [] && IsSpace(s[0]) then SkipSpaces(s[1..]) else s
  }

  lemma {:induction false} SkipSpacesBlank(s: string)
    ensures SkipSpaces(s) == [] <==> IsBlank(s)
    ensures NUL !in s ==> NUL !in SkipSpaces(s)
  {
    if s != [] && IsSpace(s[0]) {
      SkipSpacesBlank(s[1..]);
      assert s == [s[0]] + s[1..];
    }
  }

  lemma {:induction false} SkipSpacesLead(lead: string, s: string)
    requires IsBlank(lead) && (s == [] || !IsSpace(s[0]))
    ensures SkipSpaces(lead + s) == s
  {
    if lead == [] {
      assert lead + s == s;
    } else {
      assert (lead + s)[0] == lead[0] && lead[0] in lead && (lead + s)[1..] == lead[1..] + s;
      SkipSpacesLead(lead[1..], s);
    }
  }

  // ---- strings in a buffer ----

  /** What C sees at a pointer into the buffer: the characters up to the first NUL. */
  function CString(buffer: seq<char>, at: nat): string
    requires at <= |buffer|
    decreases |buffer| - at
  {
    if at == |buffer| || buffer[at] == NUL then [] else [buffer[at]] + CString(buffer, at + 1)
  }

  /** A NUL-terminated copy of s lies at this position. */
  predicate TextAt(buffer: seq<char>, at: nat, s: string) {
    at + |s| < |buffer| && buffer[at..at + |s|] == s && buffer[at + |s|] == NUL
  }

  lemma {:induction false} TextAtString(buffer: seq<char>, at: nat, s: string)
    requires TextAt(buffer, at, s) && NUL !in s
    ensures CString(buffer, at) == s
    decreases |s|
  {
    if s != [] {
      assert buffer[at] == buffer[at..at + |s|][0] == s[0] && s[0] in s;
      assert buffer[at + 1..at + 1 + |s[1..]|] == buffer[at..at + |s|][1..];
      TextAtString(buffer, at + 1, s[1..]);
    }
  }

  /** From here to a NUL the buffer reads as this string. */
  lemma {:induction false} CStringIs(buffer: seq<char>, at: nat, end: nat)
    requires at <= end < |buffer| && buffer[end] == NUL && forall i :: at <= i < end ==> buffer[i] != NUL
    ensures CString(buffer, at) == buffer[at..end]
    decreases end - at
  {
    if at < end {
      CStringIs(buffer, at + 1, end);
      assert buffer[at..end] == [buffer[at]] + buffer[at + 1..end];
    }
  }

  // ---- strtok_r ----

  /** The length of the part before the first delimiter. */
  function FieldLength(s: string, delims: string): (n: nat)
    ensures n <= |s|
  {
    if s == [] || s[0] in delims then 0 else 1 + FieldLength(s[1..], delims)
  }

  function SkipDelims(s: string, delims: string): (r: string)
    ensures |r| <= |s| && (r == [] || r[0] !in delims)
  {
    if s != [] && s[0] in delims then SkipDelims(s[1..], delims) else s
  }

  /** One call of strtok_r: the next non-empty field, and where the next call goes on. */
  function StrTok(s: string, delims: string): (r: (Option<string>, string))
    ensures r.0.Some? ==> |r.1| < |s| && r.0.value != []
  {
    var t := SkipDelims(s, delims);
    var n := FieldLength(t, delims);
    if t == [] then (None, []) else (Some(t[..n]), if n < |t| then t[n + 1..] else [])
  }

  /** All fields that repeated calls of strtok_r yield. */
  function Fields(s: string, delims: string): seq<string>
    decreases |s|
  {
    var (field, rest) := StrTok(s, delims);
    if field.None? then [] else [field.value] + Fields(rest, delims)
  }

  /** The fields still to come when strtok_r has just returned `field` and will go on at `rest`. */
  function Upcoming(field: Option<string>, rest: string, delims: string): seq<string> {
    if field.None? then [] else [field.value] + Fields(rest, delims)
  }

  /** The characters of the line that these fields and the delimiters between them take. */
  function Extent(field: Option<string>, rest: string): nat {
    if field.None? then 0 else |field.value| + if rest == [] then 0 else 1 + |rest|
  }

  lemma StrTokExtent(s: string, delims: string)
    ensures var (field, rest) := StrTok(s, delims);
            Extent(field, rest) <= |s| && Upcoming(field, rest, delims) == Fields(s, delims)
  {
  }

  /** The field at hand is the next one. */
  lemma FieldAtHand(all: seq<string>, k: nat, field: Option<string>, rest: string, delims: string)
    requires k <= |all| && field.Some? && all[k..] == Upcoming(field, rest, delims)
    ensures k < |all| && all[k] == field.value && all[..k + 1] == all[..k] + [field.value]
  {
    assert all[k] == all[k..][0];
  }

  /** Behind the field at hand come the fields of the rest. */
  lemma NextField(all: seq<string>, k: nat, field: string, rest: string, delims: string, next: Option<string>, more: string)
    requires k < |all| && all[k..] == Upcoming(Some(field), rest, delims) && (next, more) == StrTok(rest, delims)
    ensures all[k + 1..] == Upcoming(next, more, delims)
  {
    assert all[k + 1..] == all[k..][1..];
    StrTokExtent(rest, delims);
  }

  // ---- strtok_r in place ----

  /** The first position that holds no delimiter. */
  function SkipAt(text: string, at: nat, delims: string): (k: nat)
    requires at <= |text|
    ensures at <= k <= |text|
    decreases |text| - at
  {
    if at < |text| && text[at] in delims then SkipAt(text, at + 1, delims) else at
  }

  /** The first position that holds a delimiter. */
  function EndAt(text: string, at: nat, delims: string): (k: nat)
    requires at <= |text|
    ensures at <= k <= |text|
    decreases |text| - at
  {
    if at == |text| || text[at] in delims then at else EndAt(text, at + 1, delims)
  }

  /** Where strtok_r goes on after a field that ends here. */
  function NextAt(text: string, end: nat): (k: nat)
    requires end <= |text|
    ensures end <= k <= |text|
  {
    if end < |text| then end + 1 else end
  }

  /** The fields of the text from this position on. */
  function FieldsFrom(text: string, at: nat, delims: string): seq<string>
    requires at <= |text|
    decreases |text| - at
  {
    var start := SkipAt(text, at, delims);
    var end := EndAt(text, start, delims);
    if start == |text| then [] else [text[start..end]] + FieldsFrom(text, NextAt(text, end), delims)
  }

  lemma {:induction false} SkipAtSkips(text: string, at: nat, delims: string)
    requires at <= |text|
    ensures var k := SkipAt(text, at, delims);
            (k < |text| ==> text[k] !in delims) && forall i :: at <= i < k ==> text[i] in delims
    decreases |text| - at
  {
    if at < |text| && text[at] in delims {
      SkipAtSkips(text, at + 1, delims);
    }
  }

  lemma {:induction false} EndAtEnds(text: string, at: nat, delims: string)
    requires at <= |text|
    ensures var k := EndAt(text, at, delims);
            (k < |text| ==> text[k] in delims) && forall i :: at <= i < k ==> text[i] !in delims
    decreases |text| - at
  {
    if at < |text| && text[at] !in delims {
      EndAtEnds(text, at + 1, delims);
    }
  }

  lemma {:induction false} SkipAtIs(text: string, at: nat, delims: string)
    requires at <= |text|
    ensures SkipDelims(text[at..], delims) == text[SkipAt(text, at, delims)..]
    decreases |text| - at
  {
    if at < |text| && text[at] in delims {
      SkipAtIs(text, at + 1, delims);
      assert text[at..][1..] == text[at + 1..];
    }
  }

  lemma {:induction false} EndAtIs(text: string, at: nat, delims: string)
    requires at <= |text|
    ensures FieldLength(text[at..], delims) == EndAt(text, at, delims) - at
    decreases |text| - at
  {
    if at < |text| && text[at] !in delims {
      EndAtIs(text, at + 1, delims);
      assert text[at..][1..] == text[at + 1..];
    }
  }

  /** One field of a text whose fields begin at start. */
  lemma FieldsSlice(s: string, delims: string, text: string, start: nat, end: nat)
    requires start < |text| && start <= end <= |text|
    requires SkipDelims(s, delims) == text[start..] && FieldLength(text[start..], delims) == end - start
    ensures Fields(s, delims) == [text[start..end]] + Fields(text[NextAt(text, end)..], delims)
  {
    var t, n := text[start..], end - start;
    assert t[..n] == text[start..end];
    assert StrTok(s, delims).0 == Some(text[start..end]);
    if n < |t| {
      assert t[n + 1..] == text[end + 1..];
    } else {
      assert text[|text|..] == [];
    }
    assert StrTok(s, delims).1 == text[NextAt(text, end)..];
  }

  /** They are the fields that repeated calls of strtok_r yield on that part of the text. */
  lemma {:induction false} FieldsFromIs(text: string, at: nat, delims: string)
    requires at <= |text|
    ensures FieldsFrom(text, at, delims) == Fields(text[at..], delims)
    decreases |text| - at
  {
    var start := SkipAt(text, at, delims);
    SkipAtIs(text, at, delims);
    if start < |text| {
      var end := EndAt(text, start, delims);
      EndAtIs(text, start, delims);
      FieldsSlice(text[at..], delims, text, start, end);
      FieldsFromIs(text, NextAt(text, end), delims);
    }
  }

  /** A line that strtok_r has gone over: each delimiter behind a field has become a NUL. */
  function CutChar(text: string, delims: string, i: nat): char
    requires i < |text|
  {
    if i > 0 && text[i] in delims && text[i - 1] !in delims then NUL else text[i]
  }

  /** strtok_r has gone over the line as far as position `at`, where a field or delimiters begin; from there on the
      line still holds the text and its terminator. */
  ghost predicate CutUpTo(line: seq<char>, text: string, delims: string, at: nat) {
    && at <= |text| < |line| && line[|text|] == NUL && (0 < at < |text| ==> text[at - 1] in delims)
    && (forall i :: 0 <= i < at ==> line[i] == CutChar(text, delims, i))
    && (forall i :: at <= i < |text| ==> line[i] == text[i])
  }

  /** Cutting the field that comes next. */
  lemma CutNext(line: seq<char>, text: string, delims: string, at: nat)
    requires CutUpTo(line, text, delims, at)
    ensures var start := SkipAt(text, at, delims);
            var end := EndAt(text, start, delims);
            && (start < end <==> start < |text|)
            && CutUpTo(if start < end then line[end := NUL] else line, text, delims, NextAt(text, end))
  {
    var start := SkipAt(text, at, delims);
    var end := EndAt(text, start, delims);
    SkipAtSkips(text, at, delims);
    EndAtEnds(text, start, delims);
    forall i | at <= i < end ensures CutChar(text, delims, i) == text[i] {
      if at < i < start {
        assert text[i - 1] in delims;
      }
    }
    if start < end < |text| {
      assert text[end - 1] !in delims;
    }
  }

  /** From position `at` on the line holds the text and its terminator. */
  ghost predicate Holds(line: array<char>, text: string, at: nat)
    reads line
  {
    at <= |text| < line.Length && line[|text|] == NUL && forall i :: at <= i < |text| ==> line[i] == text[i]
  }

  method FindStart(line: array<char>, at: nat, delims: string, ghost text: string) returns (start: nat)
    requires Holds(line, text, at) && NUL !in delims
    ensures start == SkipAt(text, at, delims)
  {
    start := at;
    while line[start] in delims
      invariant at <= start <= |text| && SkipAt(text, start, delims) == SkipAt(text, at, delims)
      decreases |text| - start
    {
      start := start + 1;
    }
  }

  method FindEnd(line: array<char>, start: nat, delims: string, ghost text: string) returns (end: nat)
    requires Holds(line, text, start) && NUL !in text
    ensures end == EndAt(text, start, delims) && (line[end] == NUL <==> end == |text|)
  {
    end := start;
    while line[end] != NUL && line[end] !in delims
      invariant start <= end <= |text| && EndAt(text, end, delims) == EndAt(text, start, delims)
      decreases |text| - end
    {
      end := end + 1;
    }
    assert end < |text| ==> text[end] in text;
  }

  /** strtok_r: where the field lies, and where the next call goes on. */
  method StrTokR(line: array<char>, at: nat, delims: string, ghost text: string) returns (field: Option<nat>, rest: nat)
    requires CutUpTo(line[..], text, delims, at) && NUL !in text && NUL !in delims
    modifies line
    ensures CutUpTo(line[..], text, delims, rest)
    ensures var start := SkipAt(text, at, delims);
            var end := EndAt(text, start, delims);
            && field == (if start < |text| then Some(start) else None) && rest == NextAt(text, end)
            && line[end] == NUL && forall i :: start <= i < end ==> line[i] == text[i]
  {
    CutNext(line[..], text, delims, at);
    var start := FindStart(line, at, delims, text);
    var end := FindEnd(line, start, delims, text);
    if start == end {
      return None, start;
    }
    rest := if line[end] == NUL then end else end + 1;
    ghost var before := line[..];
    line[end] := NUL;
    assert line[..] == before[end := NUL];
    return Some(start), rest;
  }

  predicate IsField(s: string, delims: string) {
    s != [] && forall k :: 0 <= k < |s| ==> s[k] !in delims
  }

  lemma {:induction false} FieldLengthIs(s: string, n: nat, delims: string)
    requires n <= |s| && (n < |s| ==> s[n] in delims) && forall k :: 0 <= k < n ==> s[k] !in delims
    ensures FieldLength(s, delims) == n
  {
    if n > 0 {
      FieldLengthIs(s[1..], n - 1, delims);
    }
  }

  /** A field followed by a delimiter, or by the end of the line. */
  lemma {:induction false} FieldsCons(field: string, delim: char, rest: string, delims: string)
    requires IsField(field, delims) && delim in delims
    ensures Fields(field, delims) == [field]
    ensures Fields(field + [delim] + rest, delims) == [field] + Fields(rest, delims)
  {
    var s := field + [delim] + rest;
    assert s[0] == field[0];
    assert forall k :: 0 <= k < |field| ==> s[k] == field[k];
    FieldLengthIs(s, |field|, delims);
    FieldLengthIs(field, |field|, delims);
    assert s[..|field|] == field && s[|field| + 1..] == rest && field[..|field|] == field;
  }

  /** The strings with a separator between neighbours. */
  function Join(parts: seq<string>, separator: string): string {
    if parts == [] then []
    else if |parts| == 1 then parts[0]
    else parts[0] + separator + Join(parts[1..], separator)
  }

  lemma {:induction false} JoinWithout(parts: seq<string>, separator: string, c: char)
    requires c !in separator && forall k :: 0 <= k < |parts| ==> c !in parts[k]
    ensures c !in Join(parts, separator)
  {
    if |parts| > 1 {
      JoinWithout(parts[1..], separator, c);
    }
  }
}
