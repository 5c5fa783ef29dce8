/** The length-prefixed echo protocol: a ten-byte header of five 16-bit fields, then the payload. */
module Protocol {
  import opened Bytes
  import opened Options

  const HEADER_SIZE: nat := 10
  const MAX_MSG_BUFF: nat := 2048
  const MAX_PAYLOAD_SZ: nat := MAX_MSG_BUFF - HEADER_SIZE
  const PROTO_IDENTITY: Word := 0x0808
  const PROTO_VERSION: Word := 1
  const PROTO_DIR_REQ: Word := 1
  const PROTO_DIR_RSP: Word := 2

  /** proto_header_t, in the order of its fields in memory. */
  datatype Header = Header(protoId: Word, protoVer: Word, workSim: Word, msgDir: Word, msgLen: Word)

  function HeaderBytes(h: Header): (r: seq<Byte>)
    ensures |r| == HEADER_SIZE
  {
    WordBytes(h.protoId) + WordBytes(h.protoVer) + WordBytes(h.workSim) + WordBytes(h.msgDir) + WordBytes(h.msgLen)
  }

  function HeaderOf(buffer: seq<Byte>): Header
    requires |buffer| >= HEADER_SIZE
  {
    Header(WordAt(buffer, 0), WordAt(buffer, 2), WordAt(buffer, 4), WordAt(buffer, 6), WordAt(buffer, 8))
  }

  lemma HeaderRoundTrip(h: Header, buffer: seq<Byte>)
    requires |buffer| >= HEADER_SIZE && buffer[..HEADER_SIZE] == HeaderBytes(h)
    ensures HeaderOf(buffer) == h
  {
    var b := HeaderBytes(h);
    assert forall i :: 0 <= i < HEADER_SIZE ==> buffer[i] == b[i] by {
      assert forall i :: 0 <= i < HEADER_SIZE ==> buffer[i] == buffer[..HEADER_SIZE][i];
    }
  }

  // ---- protocol.c ----

  /** get_msg_len: the sum is a uint16_t. */
  function GetMsgLen(buffer: seq<Byte>): Word
    requires |buffer| >= HEADER_SIZE
  {
    ToWord(HeaderOf(buffer).msgLen + HEADER_SIZE)
  }

  /** extract_msg on the first size bytes received; the message is the buffer itself. */
  function ExtractMsg(buffer: seq<Byte>, size: Word): Option<seq<Byte>>
    requires size <= |buffer|
  {
    if size < HEADER_SIZE then None
    else if GetMsgLen(buffer) < size then None
    else Some(buffer)
  }

  function PayloadOf(message: seq<Byte>): seq<Byte>
    requires |message| >= HEADER_SIZE && HEADER_SIZE + HeaderOf(message).msgLen <= |message|
  {
    message[HEADER_SIZE..HEADER_SIZE + HeaderOf(message).msgLen]
  }

  /** Copies the bytes to position `at`. */
  method CopyTo(buffer: array<Byte>, at: nat, bytes: seq<Byte>)
    requires at + |bytes| <= buffer.Length
    modifies buffer
    ensures forall i :: 0 <= i < buffer.Length ==>
              buffer[i] == if at <= i < at + |bytes| then bytes[i - at] else old(buffer[i])
    ensures buffer[at..at + |bytes|] == bytes
  {
    var k := 0;
    while k < |bytes|
      invariant 0 <= k <= |bytes|
      invariant forall i :: 0 <= i < buffer.Length ==>
                  buffer[i] == if at <= i < at + k then bytes[i - at] else old(buffer[i])
    {
      buffer[at + k] := bytes[k];
      k := k + 1;
    }
  }

  /** Zeroes the first `size` bytes. */
  method Clear(buffer: array<Byte>, size: nat)
    requires size <= buffer.Length
    modifies buffer
    ensures forall i :: 0 <= i < buffer.Length ==> buffer[i] == if i < size then 0 else old(buffer[i])
  {
    var k := 0;
    while k < size
      invariant 0 <= k <= size
      invariant forall i :: 0 <= i < buffer.Length ==> buffer[i] == if i < k then 0 else old(buffer[i])
    {
      buffer[k] := 0;
      k := k + 1;
    }
  }

  /** build_msg: false, and nothing written, if the buffer is too small. */
  method BuildMsg(data: seq<Byte>, buffer: array<Byte>, size: Word) returns (ok: bool)
    requires |data| < 0x1_0000 && size <= buffer.Length
    modifies buffer
    ensures ok <==> HEADER_SIZE + |data| <= size
    ensures !ok ==> buffer[..] == old(buffer[..])
    ensures ok ==> buffer[..HEADER_SIZE] == HeaderBytes(Header(PROTO_IDENTITY, PROTO_VERSION, 0, PROTO_DIR_REQ, |data|))
    ensures ok ==> buffer[..10] == [8, 8, 1, 0, 0, 0, 1, 0, |data| % 256, |data| / 256]
    ensures ok ==> buffer[HEADER_SIZE..HEADER_SIZE + |data|] == data
    ensures ok ==> forall i :: HEADER_SIZE + |data| <= i < size ==> buffer[i] == 0
    ensures forall i :: size <= i < buffer.Length ==> buffer[i] == old(buffer[i])
  {
    if size < |data| + HEADER_SIZE {
      return false;
    }
    Clear(buffer, size);
    CopyTo(buffer, 0, HeaderBytes(Header(PROTO_IDENTITY, PROTO_VERSION, 0, PROTO_DIR_REQ, |data|)));
    ghost var header := buffer[..HEADER_SIZE];
    CopyTo(buffer, HEADER_SIZE, data);
    assert buffer[..HEADER_SIZE] == header;
    return true;
  }

  /** What build_msg packed is recovered: the length field does not wrap, and extract_msg accepts exactly
      the buffers of at least a header and at most the message, among them the whole message. */
  lemma BuiltMessageExtracts(buffer: seq<Byte>, h: Header, data: seq<Byte>)
    requires h.msgLen == |data| <= 0xFFFF - HEADER_SIZE && HEADER_SIZE + |data| <= |buffer|
    requires buffer[..HEADER_SIZE] == HeaderBytes(h) && buffer[HEADER_SIZE..HEADER_SIZE + |data|] == data
    ensures GetMsgLen(buffer) == HEADER_SIZE + |data|
    ensures HeaderOf(buffer) == h && PayloadOf(buffer) == data
    ensures forall size: Word :: size <= |buffer| ==> (ExtractMsg(buffer, size) == Some(buffer) <==> HEADER_SIZE <= size <= HEADER_SIZE + |data|)
  {
    HeaderRoundTrip(h, buffer);
  }

  /** In general: from a header up to what the length field announces, taken modulo 65536. A message that announces
      more than 65525 bytes of payload is therefore refused whole. */
  lemma ExtractedIff(buffer: seq<Byte>, size: Word)
    requires 10 <= |buffer| && size <= |buffer|
    ensures var len := buffer[8] as int + 256 * buffer[9] as int;
            && (ExtractMsg(buffer, size).Some? <==> 10 <= size <= (len + 10) % 65536)
            && (ExtractMsg(buffer, size).Some? ==> ExtractMsg(buffer, size).value == buffer)
            && (len > 65525 ==> ExtractMsg(buffer, size).None?)
  {
  }

  // ---- server-proto.c ----

  const ECHO_OPEN: seq<Byte> := [69, 67, 72, 79, 58, 91]  // ECHO:[
  const ECHO_CLOSE: seq<Byte> := [93]  // ]

  /** The bytes %.*s prints: up to the precision, or to the first NUL. */
  function Printed(bytes: seq<Byte>, precision: nat): (r: seq<Byte>)
    requires precision <= |bytes| || 0 in bytes
    ensures |r| <= precision
  {
    if precision == 0 || bytes[0] == 0 then [] else [bytes[0]] + Printed(bytes[1..], precision - 1)
  }

  function EchoText(payload: seq<Byte>, len: nat): seq<Byte>
    requires len <= |payload| || 0 in payload
  {
    ECHO_OPEN + Printed(payload, len) + ECHO_CLOSE
  }

  /** k bytes are shown if they are as many as asked for, or a NUL stops them there. */
  lemma {:induction false} PrintedIs(bytes: seq<Byte>, precision: nat, k: nat)
    requires k <= precision && k <= |bytes| && 0 !in bytes[..k]
    requires k < precision ==> k < |bytes| && bytes[k] == 0
    requires precision <= |bytes| || 0 in bytes
    ensures Printed(bytes, precision) == bytes[..k]
  {
    if k > 0 {
      assert bytes[0] in bytes[..k] && bytes[1..][..k - 1] == bytes[..k][1..];
      assert 0 in bytes ==> 0 in bytes[1..] by { assert bytes == [bytes[0]] + bytes[1..]; }
      PrintedIs(bytes[1..], precision - 1, k - 1);
      assert bytes[..k] == [bytes[0]] + bytes[..k][1..];
    }
  }

  /** How much of a text snprintf writes before the NUL. */
  function Fitting(text: seq<Byte>, size: nat): seq<Byte>
    requires size > 0
  {
    if |text| < size then text else text[..size - 1]
  }

  /** snprintf writes what fits, then a NUL, and reports the length of the whole text. */
  method SnPrintf(buffer: array<Byte>, at: nat, size: nat, text: seq<Byte>) returns (len: nat)
    requires 0 < size && at + size <= buffer.Length
    modifies buffer
    ensures len == |text|
    ensures buffer[at..at + |Fitting(text, size)| + 1] == Fitting(text, size) + [0]
    ensures forall i :: 0 <= i < buffer.Length && !(at <= i < at + size) ==> buffer[i] == old(buffer[i])
  {
    CopyTo(buffer, at, Fitting(text, size) + [0]);
    return |text|;
  }

  method BuildRspFromReq(request: seq<Byte>, response: array<Byte>)
    requires |request| >= HEADER_SIZE && response.Length == MAX_MSG_BUFF
    requires HeaderOf(request).msgLen <= |request| - HEADER_SIZE || 0 in request[HEADER_SIZE..]
    modifies response
    ensures var h := HeaderOf(request);
            var text := EchoText(request[HEADER_SIZE..], h.msgLen);
            var sent := Fitting(text, MAX_PAYLOAD_SZ);
            && response[..HEADER_SIZE] == HeaderBytes(Header(h.protoId, h.protoVer, h.workSim, PROTO_DIR_RSP, ToWord(|text|)))
            && response[HEADER_SIZE..HEADER_SIZE + |sent| + 1] == sent + [0]
  {
    var h := HeaderOf(request);
    var text := EchoText(request[HEADER_SIZE..], h.msgLen);
    var len := SnPrintf(response, HEADER_SIZE, MAX_PAYLOAD_SZ, text);
    ghost var printed := response[HEADER_SIZE..HEADER_SIZE + |Fitting(text, MAX_PAYLOAD_SZ)| + 1];
    CopyTo(response, 0, HeaderBytes(Header(h.protoId, h.protoVer, h.workSim, PROTO_DIR_RSP, ToWord(len))));
    assert response[HEADER_SIZE..HEADER_SIZE + |Fitting(text, MAX_PAYLOAD_SZ)| + 1] == printed;
  }

  /** The response to a NUL-free request carries the whole text, and its announced length fits the send
      buffer with a byte to spare, if and only if the request has at most 2030 bytes. */
  lemma EchoFitsIff(payload: seq<Byte>)
    requires 0 !in payload && |payload| <= 0xFFFF
    ensures EchoText(payload, |payload|) == ECHO_OPEN + payload + ECHO_CLOSE
    ensures |EchoText(payload, |payload|)| < MAX_PAYLOAD_SZ <==> |payload| <= 2030
    ensures |payload| <= 2030 ==> HEADER_SIZE + ToWord(|EchoText(payload, |payload|)|) < MAX_MSG_BUFF
  {
    assert payload[..|payload|] == payload;
    PrintedIs(payload, |payload|, |payload|);
  }

  /** These are the bytes that the echo shows: the whole payload of the request, or what comes before its first NUL. */
  predicate Shows(request: seq<Byte>, shown: seq<Byte>) {
    && |request| >= 10 + |shown| && request[10..10 + |shown|] == shown && 0 !in shown
    && var len := request[8] as int + 256 * request[9] as int;
       len == |shown| || (len > |shown| && |request| > 10 + |shown| && request[10 + |shown|] == 0)
  }

  lemma EchoOfShown(request: seq<Byte>, shown: seq<Byte>)
    requires |request| >= HEADER_SIZE && Shows(request, shown)
    ensures var payload, len := request[HEADER_SIZE..], HeaderOf(request).msgLen;
            (len <= |payload| || 0 in payload) && EchoText(payload, len) == ECHO_OPEN + shown + ECHO_CLOSE
  {
    var payload, len := request[HEADER_SIZE..], HeaderOf(request).msgLen;
    assert payload[..|shown|] == shown;
    assert len > |shown| ==> payload[|shown|] == 0;
    PrintedIs(payload, len, |shown|);
  }

  /** The response byte by byte: the first six bytes of the request, direction 2, the length of the whole text modulo
      65536 with the low byte first, then as much of ECHO:[...] as fits into 2037 bytes, and a NUL. */
  ghost predicate EchoBytes(payload: seq<Byte>, request: seq<Byte>, response: seq<Byte>)
    requires |request| >= 10 && |response| == 2048
  {
    var n := |payload| + 7;
    && response[..8] == request[..6] + [2, 0]
    && response[8] as int + 256 * response[9] as int == n % 65536
    && (forall i :: 10 <= i < 10 + n && i < 2047 ==>
          response[i] == if i < 16 then [69, 67, 72, 79, 58, 91][i - 10] else if i < n + 9 then payload[i - 16] else 93)
    && response[10 + if n < 2037 then n else 2037] == 0
  }

  lemma EchoTextAt(payload: seq<Byte>, i: nat)
    requires i < |payload| + 7
    ensures (ECHO_OPEN + payload + ECHO_CLOSE)[i]
         == if i < 6 then [69, 67, 72, 79, 58, 91][i] else if i < |payload| + 6 then payload[i - 6] else 93
  {
  }

  /** The fields of a header lie low byte first, one behind the other. */
  lemma HeaderBytesOf(buffer: seq<Byte>)
    requires |buffer| >= HEADER_SIZE
    ensures HeaderBytes(HeaderOf(buffer)) == buffer[..HEADER_SIZE]
  {
  }

  lemma EchoHeader(len: Word, request: seq<Byte>, response: seq<Byte>)
    requires |request| >= 10 && |response| >= 10
    requires response[..HEADER_SIZE] == HeaderBytes(HeaderOf(request).(msgDir := PROTO_DIR_RSP, msgLen := len))
    ensures response[..8] == request[..6] + [2, 0] && response[8] as int + 256 * response[9] as int == len
  {
    var header := HeaderBytes(HeaderOf(request).(msgDir := PROTO_DIR_RSP, msgLen := len));
    HeaderBytesOf(request);
    assert response[..8] == header[..8] by { assert response[..8] == response[..HEADER_SIZE][..8]; }
    assert request[..6] == HeaderBytes(HeaderOf(request))[..6] by { assert request[..6] == request[..HEADER_SIZE][..6]; }
    assert header[..8] == HeaderBytes(HeaderOf(request))[..6] + [2, 0];
    assert response[8] == header[8] && response[9] == header[9] by {
      assert response[8] == response[..HEADER_SIZE][8] && response[9] == response[..HEADER_SIZE][9];
    }
  }

  lemma EchoByteByByte(payload: seq<Byte>, request: seq<Byte>, response: seq<Byte>)
    requires |request| >= 10 && |response| == 2048
    requires var text := ECHO_OPEN + payload + ECHO_CLOSE;
             var sent := Fitting(text, MAX_PAYLOAD_SZ);
             && response[..HEADER_SIZE] == HeaderBytes(HeaderOf(request).(msgDir := PROTO_DIR_RSP, msgLen := ToWord(|text|)))
             && response[HEADER_SIZE..HEADER_SIZE + |sent| + 1] == sent + [0]
    ensures EchoBytes(payload, request, response)
  {
    var text := ECHO_OPEN + payload + ECHO_CLOSE;
    var sent := Fitting(text, MAX_PAYLOAD_SZ);
    EchoHeader(ToWord(|text|), request, response);
    forall i | 10 <= i <= 10 + |sent| ensures response[i] == (sent + [0])[i - 10] {
      assert response[HEADER_SIZE..HEADER_SIZE + |sent| + 1][i - 10] == response[i];
    }
    forall i | 10 <= i < 10 + |text| && i < 2047
      ensures response[i] == if i < 16 then [69, 67, 72, 79, 58, 91][i - 10] else if i < |text| + 9 then payload[i - 16] else 93
    {
      EchoTextAt(payload, i - 10);
      assert sent[i - 10] == text[i - 10];
    }
  }

  /** What the server makes of any request: the response announces the length of the whole echo text and carries as
      much of it as fits, with a NUL behind. */
  method ServeRequest(shown: seq<Byte>, request: seq<Byte>) returns (response: seq<Byte>)
    requires |request| >= 10 && Shows(request, shown)
    ensures |response| == 2048 && EchoBytes(shown, request, response)
    ensures var text := ECHO_OPEN + shown + ECHO_CLOSE;
            var sent := Fitting(text, MAX_PAYLOAD_SZ);
            && response[..HEADER_SIZE] == HeaderBytes(HeaderOf(request).(msgDir := PROTO_DIR_RSP, msgLen := ToWord(|text|)))
            && response[HEADER_SIZE..HEADER_SIZE + |sent| + 1] == sent + [0]
  {
    EchoOfShown(request, shown);
    var buffer := new Byte[MAX_MSG_BUFF];
    BuildRspFromReq(request, buffer);
    response := buffer[..];
    ghost var sent := Fitting(ECHO_OPEN + shown + ECHO_CLOSE, MAX_PAYLOAD_SZ);
    assert response[HEADER_SIZE..HEADER_SIZE + |sent| + 1] == buffer[HEADER_SIZE..HEADER_SIZE + |sent| + 1];
    assert response[..HEADER_SIZE] == buffer[..HEADER_SIZE];
    EchoByteByByte(shown, request, response);
  }

  /** Up to 2030 bytes the response is the echo text and nothing is cut. */
  lemma WholeTextSent(payload: seq<Byte>, response: seq<Byte>)
    requires |payload| <= 2030 && |response| == MAX_MSG_BUFF
    requires var text := ECHO_OPEN + payload + ECHO_CLOSE;
             var sent := Fitting(text, MAX_PAYLOAD_SZ);
             response[HEADER_SIZE..HEADER_SIZE + |sent| + 1] == sent + [0]
    ensures var text := ECHO_OPEN + payload + ECHO_CLOSE;
            ToWord(|text|) == |text| && response[HEADER_SIZE..HEADER_SIZE + |text|] == text
  {
    var text := ECHO_OPEN + payload + ECHO_CLOSE;
    var sent := response[HEADER_SIZE..HEADER_SIZE + |text| + 1];
    assert response[HEADER_SIZE..HEADER_SIZE + |text|] == sent[..|text|];
  }

  /** A request through build_msg, the server and extract_msg: the client gets "ECHO:[payload]" back. */
  method EchoRoundTrip(payload: seq<Byte>) returns (echoed: seq<Byte>)
    requires 0 !in payload && |payload| <= 2030
    ensures echoed == [69, 67, 72, 79, 58, 91] + payload + [93]
  {
    var buffer := new Byte[MAX_MSG_BUFF];
    var ok := BuildMsg(payload, buffer, MAX_MSG_BUFF);
    var request := buffer[..];
    assert request[HEADER_SIZE..HEADER_SIZE + |payload|] == buffer[HEADER_SIZE..HEADER_SIZE + |payload|];
    var h := Header(PROTO_IDENTITY, PROTO_VERSION, 0, PROTO_DIR_REQ, |payload|);
    HeaderRoundTrip(h, request);
    HeaderBytesOf(request);
    var response := ServeRequest(payload, request);
    WholeTextSent(payload, response);
    ghost var text := ECHO_OPEN + payload + ECHO_CLOSE;
    BuiltMessageExtracts(response, Header(PROTO_IDENTITY, PROTO_VERSION, 0, PROTO_DIR_RSP, |text|), text);
    var message := ExtractMsg(response, GetMsgLen(response));
    echoed := PayloadOf(message.value);
  }
}
