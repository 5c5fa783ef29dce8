/** The reply stream of the remote shell: every reply ends with the byte 0x04, and the client reads up to it. */
module Framing {
  import opened Bytes

  const RDSH_EOF_CHAR: Byte := 0x04
  const RECV_LIMIT: nat := 0xFFFF  // RDSH_COMM_BUFF_SZ - 1

  type Chunk = seq<Byte>

  function Concat(chunks: seq<Chunk>): seq<Byte> {
    if chunks == [] then [] else chunks[0] + Concat(chunks[1..])
  }

  lemma ConcatOne(chunk: Chunk)
    ensures Concat([chunk]) == chunk
  {
    assert [chunk] == [chunk] + [];
    assert Concat([]) == [];
  }

  lemma {:induction false} ConcatAppend(a: seq<Chunk>, b: seq<Chunk>)
    ensures Concat(a + b) == Concat(a) + Concat(b)
  {
    if a == [] {
      assert a + b == b;
    } else {
      assert (a + b)[1..] == a[1..] + b;
      ConcatAppend(a[1..], b);
    }
  }

  /** What recv can deliver for a message: non-empty pieces within the receive limit. */
  ghost predicate Splits(chunks: seq<Chunk>, bytes: seq<Byte>) {
    Concat(chunks) == bytes && forall k :: 0 <= k < |chunks| ==> 0 < |chunks[k]| <= RECV_LIMIT
  }

  /** A message that send_message_eof ends: the marker comes last and nowhere else. */
  ghost predicate IsReply(bytes: seq<Byte>) {
    bytes != [] && bytes[|bytes| - 1] == RDSH_EOF_CHAR && RDSH_EOF_CHAR !in bytes[..|bytes| - 1]
  }

  /** The bytes that send_message_string sends: the string with its terminator, then the marker. */
  function StringMessage(text: seq<Byte>): seq<Byte> {
    text + [0] + [RDSH_EOF_CHAR]
  }

  lemma StringMessageIsReply(text: seq<Byte>)
    ensures StringMessage(text) == text + [0, 4]
    ensures IsReply(text + [0, 4]) <==> 4 !in text
    ensures IsReply(text + [4]) <==> 4 !in text
  {
    var m := StringMessage(text);
    assert m[..|m| - 1] == text + [0];
    assert (text + [4])[..|text|] == text;
  }

  /** Only the last piece of a reply ends with the marker. */
  lemma {:induction false} MarkerEndsReply(chunks: seq<Chunk>, bytes: seq<Byte>, k: nat)
    requires Splits(chunks, bytes) && IsReply(bytes) && k < |chunks|
    ensures chunks[k][|chunks[k]| - 1] == 4 <==> k == |chunks| - 1
  {
    var before, after := Concat(chunks[..k]), Concat(chunks[k + 1..]);
    assert chunks == chunks[..k] + ([chunks[k]] + chunks[k + 1..]);
    ConcatAppend(chunks[..k], [chunks[k]] + chunks[k + 1..]);
    assert ([chunks[k]] + chunks[k + 1..])[1..] == chunks[k + 1..];
    assert bytes == before + (chunks[k] + after);
    var at := |before| + |chunks[k]| - 1;
    assert bytes[at] == chunks[k][|chunks[k]| - 1];
    if k < |chunks| - 1 {
      assert after != [] by { assert chunks[k + 1..][0] == chunks[k + 1]; }
      assert bytes[at] in bytes[..|bytes| - 1];
    } else {
      assert after == [] && at == |bytes| - 1;
    }
  }

  // ---- what the client prints ----

  /** What "%.*s" prints of the bytes received: it stops at a NUL. */
  function UpToNul(bytes: seq<Byte>): seq<Byte> {
    if bytes == [] || bytes[0] == 0 then [] else [bytes[0]] + UpToNul(bytes[1..])
  }

  function Visible(chunks: seq<Chunk>): seq<Byte> {
    if chunks == [] then [] else UpToNul(chunks[0]) + Visible(chunks[1..])
  }

  lemma {:induction false} VisibleAppend(a: seq<Chunk>, b: seq<Chunk>)
    ensures Visible(a + b) == Visible(a) + Visible(b)
  {
    if a == [] {
      assert a + b == b;
    } else {
      assert (a + b)[1..] == a[1..] + b;
      VisibleAppend(a[1..], b);
    }
  }

  lemma VisibleOne(chunk: Chunk)
    ensures Visible([chunk]) == UpToNul(chunk)
  {
    assert Visible([chunk][1..]) == [];
  }

  lemma {:induction false} UpToNulPrefix(text: seq<Byte>, after: seq<Byte>)
    requires 0 !in text && (after == [] || after[0] == 0)
    ensures UpToNul(text + after) == text
  {
    if text == [] {
      assert text + after == after;
    } else {
      assert (text + after)[0] == text[0] && text[0] in text && (text + after)[1..] == text[1..] + after;
      UpToNulPrefix(text[1..], after);
    }
  }

  lemma {:induction false} ChunksAtMostBytes(chunks: seq<Chunk>)
    requires forall k :: 0 <= k < |chunks| ==> 0 < |chunks[k]|
    ensures |chunks| <= |Concat(chunks)|
  {
    if chunks != [] {
      ChunksAtMostBytes(chunks[1..]);
    }
  }

  lemma LastChunk(chunks: seq<Chunk>, bytes: seq<Byte>)
    requires Splits(chunks, bytes) && |bytes| <= 1
    ensures chunks == if bytes == [] then [] else [bytes]
  {
    ChunksAtMostBytes(chunks);
    if bytes != [] {
      assert chunks != [];
      ConcatOne(chunks[0]);
      assert chunks == [chunks[0]];
    }
  }

  /** A string message is printed as its text; the marker shows too exactly if it arrives on its own. */
  lemma {:induction false} StringMessagePrints(text: seq<Byte>, chunks: seq<Chunk>)
    requires 0 !in text && Splits(chunks, StringMessage(text))
    ensures chunks != []
    ensures Visible(chunks) == text + if |chunks[|chunks| - 1]| == 1 then [4] else []
    decreases |chunks|
  {
    var message, first, rest := StringMessage(text), chunks[0], chunks[1..];
    assert 0 < |first| && message == first + Concat(rest);
    assert Concat(rest) == message[|first|..] && Splits(rest, message[|first|..]);
    if |first| <= |text| {
      assert first == text[..|first|] && message[|first|..] == StringMessage(text[|first|..]);
      UpToNulPrefix(first, []);
      assert first + [] == first;
      StringMessagePrints(text[|first|..], rest);
      assert rest[|rest| - 1] == chunks[|chunks| - 1];
      assert first + text[|first|..] == text;
    } else if |first| == |text| + 1 {
      assert first == text + [0] && message[|first|..] == [RDSH_EOF_CHAR];
      UpToNulPrefix(text, [0]);
      LastChunk(rest, [RDSH_EOF_CHAR]);
      assert chunks == [first] + rest;
      VisibleOne([RDSH_EOF_CHAR]);
      assert UpToNul([RDSH_EOF_CHAR]) == [RDSH_EOF_CHAR] + UpToNul([]);
    } else {
      assert first == message && message[|first|..] == [];
      assert message == text + [0, RDSH_EOF_CHAR];
      UpToNulPrefix(text, [0, RDSH_EOF_CHAR]);
      LastChunk(rest, []);
    }
  }

  // ---- the receive loop ----

  datatype Outcome = EndOfReply | Disconnected | Failed

  /** What the server sends for one command: one message or several, the marker at the end. */
  ghost predicate IsAnswer(bytes: seq<Byte>) {
    bytes != [] && bytes[|bytes| - 1] == RDSH_EOF_CHAR
  }

  /** Pieces taken off the connection, none of them ended by the marker. */
  ghost predicate Unfinished(chunks: seq<Chunk>) {
    forall k :: 0 <= k < |chunks| ==> 0 < |chunks[k]| <= RECV_LIMIT && chunks[k][|chunks[k]| - 1] != RDSH_EOF_CHAR
  }

  /** The pieces of an answer up to the first one that the marker ends. */
  ghost predicate Finished(chunks: seq<Chunk>) {
    var n := |chunks|;
    && n > 0 && Unfinished(chunks[..n - 1]) && 0 < |chunks[n - 1]| <= RECV_LIMIT
    && chunks[n - 1][|chunks[n - 1]| - 1] == RDSH_EOF_CHAR
  }

  lemma AddChunk(chunks: seq<Chunk>, chunk: Chunk)
    ensures Concat(chunks + [chunk]) == Concat(chunks) + chunk
    ensures Visible(chunks + [chunk]) == Visible(chunks) + UpToNul(chunk)
  {
    ConcatAppend(chunks, [chunk]);
    ConcatOne(chunk);
    VisibleAppend(chunks, [chunk]);
    VisibleOne(chunk);
  }

  lemma ConcatLast(chunks: seq<Chunk>)
    requires chunks != []
    ensures Concat(chunks) == Concat(chunks[..|chunks| - 1]) + chunks[|chunks| - 1]
  {
    assert chunks == chunks[..|chunks| - 1] + [chunks[|chunks| - 1]];
    AddChunk(chunks[..|chunks| - 1], chunks[|chunks| - 1]);
  }

  lemma NextReply(replies: seq<seq<Byte>>, received: seq<seq<Byte>>, bytes: seq<Byte>)
    requires |received| < |replies| && received == replies[..|received|]
    ensures bytes == replies[|received|] ==> received + [bytes] == replies[..|received| + 1]
    ensures bytes < replies[|received|] ==> CutShort(received + [bytes], replies[..|received| + 1])
  {
    assert (received + [bytes])[..|received|] == received == replies[..|received| + 1][..|received|];
  }

  lemma Suffix(before: seq<Byte>, more: seq<Byte>)
    ensures (before + more)[|before|..] == more
  {
  }

  /** What the client can show for a reply. */
  ghost predicate ShownAs(reply: seq<Byte>, text: seq<Byte>) {
    exists chunks :: Splits(chunks, reply) && text == Visible(chunks)
  }

  /** `taken` has been taken in pieces of which none ended with the marker, and `text` is what they showed. */
  ghost predicate TakenInPart(taken: seq<Byte>, text: seq<Byte>) {
    exists chunks :: Unfinished(chunks) && Concat(chunks) == taken && Visible(chunks) == text
  }

  /** The same up to a piece that the marker ended. */
  ghost predicate TakenToMarker(taken: seq<Byte>, text: seq<Byte>) {
    exists chunks :: Finished(chunks) && Concat(chunks) == taken && Visible(chunks) == text
  }

  lemma NothingTaken()
    ensures TakenInPart([], [])
  {
    assert Unfinished([]) && Concat([]) == [] && Visible([]) == [];
  }

  lemma OneMore(chunks: seq<Chunk>, chunk: Chunk)
    requires Unfinished(chunks) && 0 < |chunk| <= RECV_LIMIT
    ensures if chunk[|chunk| - 1] == RDSH_EOF_CHAR then Finished(chunks + [chunk]) else Unfinished(chunks + [chunk])
  {
    assert (chunks + [chunk])[..|chunks|] == chunks;
  }

  lemma PiecesTaken(taken: seq<Byte>, text: seq<Byte>) returns (chunks: seq<Chunk>)
    requires TakenInPart(taken, text)
    ensures Unfinished(chunks) && Concat(chunks) == taken && Visible(chunks) == text
  {
    chunks :| Unfinished(chunks) && Concat(chunks) == taken && Visible(chunks) == text;
  }

  predicate MarkerEnds(chunk: Chunk) {
    chunk != [] && chunk[|chunk| - 1] == RDSH_EOF_CHAR
  }

  lemma TakeChunk(taken: seq<Byte>, text: seq<Byte>, chunk: Chunk)
    requires TakenInPart(taken, text) && |chunk| <= RECV_LIMIT
    ensures if MarkerEnds(chunk) then TakenToMarker(taken + chunk, text + UpToNul(chunk))
            else TakenInPart(taken + chunk, text + UpToNul(chunk))
  {
    if chunk == [] {
      assert taken + chunk == taken && text + UpToNul(chunk) == text;
    } else {
      var chunks := PiecesTaken(taken, text);
      AddChunk(chunks, chunk);
      OneMore(chunks, chunk);
    }
  }

  /** As long as no piece ended with the marker, the answer is not complete. */
  lemma NotYet(taken: seq<Byte>, text: seq<Byte>, answer: seq<Byte>)
    requires TakenInPart(taken, text)
    ensures IsAnswer(answer) ==> taken != answer
  {
    var chunks := PiecesTaken(taken, text);
    if chunks != [] {
      ConcatLast(chunks);
    }
  }

  lemma PiecesToMarker(taken: seq<Byte>, text: seq<Byte>) returns (chunks: seq<Chunk>)
    requires TakenToMarker(taken, text)
    ensures Finished(chunks) && Concat(chunks) == taken && Visible(chunks) == text
  {
    chunks :| Finished(chunks) && Concat(chunks) == taken && Visible(chunks) == text;
  }

  /** The pieces of a reply up to one that the marker ends are the whole reply. */
  lemma Complete(taken: seq<Byte>, text: seq<Byte>, reply: seq<Byte>)
    requires TakenToMarker(taken, text) && taken <= reply
    ensures taken != [] && (IsReply(reply) ==> taken == reply)
  {
    var chunks := PiecesToMarker(taken, text);
    ConcatLast(chunks);
    var at := |taken| - 1;
    assert reply[at] == taken[at] == RDSH_EOF_CHAR;
  }

  lemma CompleteIsShown(reply: seq<Byte>, text: seq<Byte>)
    requires TakenToMarker(reply, text)
    ensures ShownAs(reply, text)
  {
    var chunks := PiecesToMarker(reply, text);
    assert forall k :: 0 <= k < |chunks| - 1 ==> chunks[k] == chunks[..|chunks| - 1][k];
    assert Splits(chunks, reply);
  }

  /** Two messages sent for one command, as when a program is not found: the client stops after the first one or
      takes both, and in the first case the second one is left for the next command. */
  lemma TwoMessages(first: seq<Byte>, second: seq<Byte>, taken: seq<Byte>, text: seq<Byte>)
    requires IsReply(first) && IsReply(second) && TakenToMarker(taken, text) && taken <= first + second
    ensures taken == first || taken == first + second
  {
    var chunks := PiecesToMarker(taken, text);
    ConcatLast(chunks);
    if |taken| <= |first| {
      assert taken <= first;
      Complete(taken, text, first);
    } else {
      var more := taken[|first|..];
      assert taken == first + more && more <= second && more[|more| - 1] == RDSH_EOF_CHAR;
    }
  }

  lemma {:induction false} VisibleNulFree(chunks: seq<Chunk>)
    requires 0 !in Concat(chunks)
    ensures Visible(chunks) == Concat(chunks)
  {
    if chunks != [] {
      assert forall b :: b in chunks[0] ==> b in Concat(chunks);
      assert forall b :: b in Concat(chunks[1..]) ==> b in Concat(chunks);
      UpToNulPrefix(chunks[0], []);
      assert chunks[0] + [] == chunks[0];
      VisibleNulFree(chunks[1..]);
    }
  }

  /** What a user sees: a program's output and the marker behind it, and of a string message the text, sometimes with
      the marker. */
  lemma ShownText(text: seq<Byte>, shown: seq<Byte>)
    requires 0 !in text
    ensures ShownAs(text + [4], shown) ==> shown == text + [4]
    ensures ShownAs(text + [0, 4], shown) ==> shown == text || shown == text + [4]
  {
    if ShownAs(text + [4], shown) {
      var chunks :| Splits(chunks, text + [4]) && shown == Visible(chunks);
      VisibleNulFree(chunks);
    }
    if ShownAs(text + [0, 4], shown) {
      assert text + [0, 4] == StringMessage(text);
      var chunks :| Splits(chunks, text + [0, 4]) && shown == Visible(chunks);
      StringMessagePrints(text, chunks);
    }
  }

  /** All replies but the last have been received in full, the last one only in part. */
  ghost predicate CutShort(received: seq<seq<Byte>>, replies: seq<seq<Byte>>) {
    var last := |replies| - 1;
    |received| == |replies| > 0 && received[..last] == replies[..last] && received[last] < replies[last]
  }

  /** Of the answer, `taken` has been taken and `rest` is still to come; what is missing will never be sent. */
  ghost predicate Remains(answer: seq<Byte>, taken: seq<Byte>, rest: seq<Byte>, closed: bool) {
    taken + rest <= answer && (taken + rest == answer || closed)
  }

  lemma TakenIsPart(answer: seq<Byte>, taken: seq<Byte>, rest: seq<Byte>, closed: bool)
    requires Remains(answer, taken, rest, closed)
    ensures taken <= answer && (taken == answer ==> rest == [])
  {
  }

  lemma Advance(answer: seq<Byte>, taken: seq<Byte>, rest: seq<Byte>, closed: bool, chunk: Chunk, rest': seq<Byte>, closed': bool)
    requires Remains(answer, taken, rest, closed) && (closed ==> closed')
    requires chunk + rest' <= rest && (chunk + rest' == rest || closed')
    ensures Remains(answer, taken + chunk, rest', closed')
  {
    assert (taken + chunk) + rest' == taken + (chunk + rest');
  }

  /** inFlight: bytes sent by the server that the client has not received; unsent: what the server will still send for
      the commands it has got; closed: it will send nothing more; consumed: every byte the client has taken off the
      connection; printed: the client's output. */
  class Client {
    var inFlight: seq<Byte>
    var unsent: seq<Byte>
    var closed: bool
    var consumed: seq<Byte>
    var printed: seq<Byte>

    constructor ()
      ensures Valid() && Empty() && !closed && consumed == [] && printed == []
    {
      inFlight, unsent, closed, consumed, printed := [], [], false, [], [];
    }

    ghost predicate Valid()
      reads this
    {
      closed ==> unsent == []
    }

    ghost predicate Empty()
      reads this
    {
      inFlight == [] && unsent == []
    }

    /** What the client has yet to receive. */
    ghost function Rest(): seq<Byte>
      reads this
    {
      inFlight + unsent
    }

    /** send(2): fails, or the server gets the command and will answer it, unless it has closed the connection. */
    method SendCommand(answer: seq<Byte>) returns (ok: bool)
      requires Valid()
      modifies this`unsent
      ensures Valid() && unsent == if ok && !closed then old(unsent) + answer else old(unsent)
    {
      ok := *;
      if ok && !closed {
        unsent := unsent + answer;
      }
    }

    /** While the client waits the server may send more or close the connection; it does one of the two if nothing is
        in flight. */
    method ServerRuns()
      requires Valid() && (!Empty() || closed)
      modifies this`inFlight, this`unsent, this`closed
      ensures Valid() && (inFlight != [] || closed) && (old(closed) ==> closed)
      ensures Rest() <= old(Rest()) && (Rest() == old(Rest()) || closed)
    {
      var sent: nat :| sent <= |unsent| && (unsent != [] ==> sent > 0);
      inFlight, unsent := inFlight + unsent[..sent], unsent[sent..];
      assert Rest() == old(Rest());
      var closes := *;
      if closes && !closed {
        closed, unsent := true, [];
        assert Rest() == inFlight;
      }
    }

    /** recv(2): fails, or delivers any non-empty piece of what is in flight, or nothing once the server has closed. */
    method Recv() returns (ok: bool, chunk: Chunk)
      requires Valid() && (!Empty() || closed)
      modifies this
      ensures Valid() && printed == old(printed) && consumed == old(consumed) + chunk && |chunk| <= 65535
      ensures chunk + Rest() <= old(Rest()) && (chunk + Rest() == old(Rest()) || closed) && (old(closed) ==> closed)
      ensures !ok ==> chunk == []
      ensures ok && chunk == [] ==> closed && Empty()
    {
      ServerRuns();
      ghost var rest := Rest();
      ok, chunk := *, [];
      if ok && inFlight != [] {
        var size: nat :| 0 < size <= |inFlight| && size <= RECV_LIMIT;
        chunk, inFlight := inFlight[..size], inFlight[size..];
      }
      assert chunk + Rest() == rest;
      consumed := consumed + chunk;
    }

    /** So far `taken` has been taken of the answer and `text` printed. */
    ghost predicate Took(answer: seq<Byte>, taken: seq<Byte>, text: seq<Byte>, consumedBefore: seq<Byte>, printedBefore: seq<Byte>)
      reads this
    {
      consumed == consumedBefore + taken && printed == printedBefore + text && Remains(answer, taken, Rest(), closed)
    }

    /** One recv call and its output. */
    method TakePiece(ghost answer: seq<Byte>, ghost taken: seq<Byte>, ghost text: seq<Byte>,
                     ghost consumedBefore: seq<Byte>, ghost printedBefore: seq<Byte>)
        returns (ok: bool, chunk: Chunk)
      requires Valid() && Took(answer, taken, text, consumedBefore, printedBefore) && (taken != answer || closed)
      modifies this
      ensures Valid() && Took(answer, taken + chunk, text + UpToNul(chunk), consumedBefore, printedBefore)
      ensures (old(closed) ==> closed) && |chunk| <= RECV_LIMIT && |Rest()| + |chunk| <= |old(Rest())|
      ensures !ok ==> chunk == []
      ensures ok && chunk == [] ==> closed && Empty()
    {
      assert taken + [] == taken;
      ok, chunk := Recv();
      Advance(answer, taken, old(Rest()), old(closed), chunk, Rest(), closed);
      printed := printed + UpToNul(chunk);
      assert consumed == consumedBefore + (taken + chunk);
      assert printed == printedBefore + (text + UpToNul(chunk));
    }

    /** The inner receive loop, however the answer is cut up and whenever its parts are sent. If the answer is one
        reply, all of it is taken and nothing is left on the connection, unless recv fails or the server closes before
        the reply is complete. */
    method ReceiveReply(ghost answer: seq<Byte>) returns (outcome: Outcome, ghost taken: seq<Byte>, ghost text: seq<Byte>)
      requires Valid() && answer == Rest() && (IsAnswer(answer) || closed)
      modifies this
      ensures Valid() && (old(closed) ==> closed) && Took(answer, taken, text, old(consumed), old(printed))
      ensures if outcome == EndOfReply then TakenToMarker(taken, text) else TakenInPart(taken, text)
      ensures outcome == Disconnected ==> closed && Empty()
      ensures outcome == EndOfReply ==> taken != [] && (IsReply(answer) ==> taken == answer && Empty())
      ensures IsReply(answer) && outcome != EndOfReply ==> taken < answer
    {
      taken, text := [], [];
      NothingTaken();
      while true
        invariant Valid() && (old(closed) ==> closed) && Took(answer, taken, text, old(consumed), old(printed))
        invariant TakenInPart(taken, text)
        decreases |Rest()|
      {
        NotYet(taken, text, answer);
        var ok, chunk := TakePiece(answer, taken, text, old(consumed), old(printed));
        TakeChunk(taken, text, chunk);
        taken, text := taken + chunk, text + UpToNul(chunk);
        TakenIsPart(answer, taken, Rest(), closed);
        if |chunk| == 0 {
          NotYet(taken, text, answer);
          return if ok then Disconnected else Failed, taken, text;
        }
        if chunk[|chunk| - 1] == RDSH_EOF_CHAR {
          Complete(taken, text, answer);
          return EndOfReply, taken, text;
        }
      }
    }

    /** A command and its reply. The server starts to answer only once it has got the command, and afterwards nothing is
        left on the connection: `received` is what was taken off it for this command and `shown` what was printed. */
    method RunCommand(reply: seq<Byte>) returns (outcome: Outcome, received: seq<Byte>, shown: seq<Byte>)
      requires Valid() && Empty() && IsReply(reply)
      modifies this
      ensures Valid() && consumed == old(consumed) + received && printed == old(printed) + shown
      ensures outcome == EndOfReply ==> received == reply && ShownAs(reply, shown) && Empty()
      ensures outcome == Disconnected ==> closed && Empty()
      ensures outcome != EndOfReply ==> received < reply
    {
      var sent := SendCommand(reply);
      if !sent {
        return Failed, [], [];
      }
      assert Rest() == unsent == if closed then [] else reply;
      ghost var taken, text;
      var consumedBefore, printedBefore := |consumed|, |printed|;
      outcome, taken, text := ReceiveReply(unsent);
      received, shown := consumed[consumedBefore..], printed[printedBefore..];
      Suffix(old(consumed), taken);
      Suffix(old(printed), text);
      if outcome == EndOfReply {
        CompleteIsShown(taken, text);
      }
    }

    /** A session: replies never mix, however they are cut up and whenever their parts are sent. `received` and `shown`
        list them command by command; a failure cuts the session short inside the reply to the current command. */
    method RunCommands(replies: seq<seq<Byte>>) returns (outcome: Outcome, received: seq<seq<Byte>>, shown: seq<seq<Byte>>)
      requires Valid() && Empty() && forall r :: 0 <= r < |replies| ==> IsReply(replies[r])
      modifies this
      ensures Valid() && |received| == |shown| && consumed == old(consumed) + Concat(received)
      ensures outcome == EndOfReply ==> received == replies && Empty()
      ensures outcome != EndOfReply ==> 0 < |received| <= |replies| && CutShort(received, replies[..|received|])
      ensures forall r :: 0 <= r < |shown| && (outcome == EndOfReply || r < |shown| - 1) ==> ShownAs(replies[r], shown[r])
      ensures outcome == Disconnected ==> closed && Empty()
    {
      received, shown := [], [];
      while |received| < |replies|
        invariant Valid() && Empty() && |received| == |shown| <= |replies| && received == replies[..|received|]
        invariant consumed == old(consumed) + Concat(received)
        invariant forall r :: 0 <= r < |shown| ==> ShownAs(replies[r], shown[r])
      {
        var bytes, text;
        outcome, bytes, text := RunCommand(replies[|received|]);
        AddChunk(received, bytes);
        NextReply(replies, received, bytes);
        assert consumed == old(consumed) + (Concat(received) + bytes);
        received, shown := received + [bytes], shown + [text];
        if outcome != EndOfReply {
          return;
        }
      }
      outcome := EndOfReply;
    }
  }

  /** The bytes of a message, each in a piece of its own. */
  function OneByOne(bytes: seq<Byte>): seq<Chunk> {
    if bytes == [] then [] else [[bytes[0]]] + OneByOne(bytes[1..])
  }

  lemma {:induction false} OneByOneSplits(bytes: seq<Byte>)
    ensures Splits(OneByOne(bytes), bytes) && |OneByOne(bytes)| == |bytes|
    ensures forall k :: 0 <= k < |bytes| ==> OneByOne(bytes)[k] == [bytes[k]]
  {
    if bytes != [] {
      OneByOneSplits(bytes[1..]);
      assert OneByOne(bytes)[1..] == OneByOne(bytes[1..]);
      assert [bytes[0]] + bytes[1..] == bytes;
    }
  }

  /** Piece k ends with the marker although more pieces follow: the receive loop would stop there. */
  ghost predicate EndsEarly(chunks: seq<Chunk>, message: seq<Byte>, k: nat) {
    k + 1 < |chunks| && Splits(chunks, message) && chunks[k][|chunks[k]| - 1] == RDSH_EOF_CHAR
  }

  /** The marker inside a payload is what framing cannot carry: some way of cutting up the message then ends the
      reply early, and otherwise none does. */
  lemma MarkerInPayloadBreaksFraming(payload: seq<Byte>)
    ensures 4 in payload <==> exists chunks: seq<Chunk>, k: nat :: EndsEarly(chunks, payload + [4], k)
  {
    var message := payload + [RDSH_EOF_CHAR];
    if RDSH_EOF_CHAR in payload {
      var i :| 0 <= i < |payload| && payload[i] == RDSH_EOF_CHAR;
      OneByOneSplits(message);
      assert EndsEarly(OneByOne(message), message, i);
    } else {
      assert message[..|message| - 1] == payload;
      forall chunks: seq<Chunk>, k: nat ensures !EndsEarly(chunks, message, k) {
        if Splits(chunks, message) && k < |chunks| {
          MarkerEndsReply(chunks, message, k);
        }
      }
    }
  }
}
