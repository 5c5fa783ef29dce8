module Bytes {
  type Byte = b: int | 0 <= b < 0x100

  /** uint16_t */
  type Word = w: int | 0 <= w < 0x1_0000

  /** Conversion to uint16_t keeps the low 16 bits. */
  function ToWord(x: nat): Word {
    x % 0x1_0000
  }

  /** A 16-bit field as it lies in memory, low byte first. */
  function WordBytes(w: Word): seq<Byte> {
    [w % 0x100, w / 0x100]
  }

  function WordAt(bytes: seq<Byte>, at: nat): Word
    requires at + 2 <= |bytes|
  {
    var low: int, high: int := bytes[at], bytes[at + 1];
    low + 0x100 * high
  }
}
