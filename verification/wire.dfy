/** Bytes on a socket: little-endian words and pointers, and the twelve-byte message header.
    The library sends its structs as they lie in memory, so both ends share one byte order. */
module Wire {

  type byte = b: int | 0 <= b < 256

  const WORD_SIZE := 4
  const HEADER_SIZE := 12
  const POINTER_SIZE := 8

  /** Link types as they stand in a header, and the word that acknowledges a message. */
  const TYPE_SOCKET_TX := 0
  const TYPE_SOCKET_RX := 1
  const ACK := 1

  const WORD_LIMIT := 0x1_0000_0000
  const POINTER_LIMIT := 0x1_0000_0000_0000_0000

  function EncodeWord(n: nat): (s: seq<byte>)
    ensures |s| == WORD_SIZE
  {
    [n % 256, n / 256 % 256, n / 256 / 256 % 256, n / 256 / 256 / 256 % 256]
  }

  function DecodeWord(s: seq<byte>): (n: nat)
    requires |s| == WORD_SIZE
    ensures n < WORD_LIMIT
  {
    s[0] as int + 256 * (s[1] as int + 256 * (s[2] as int + 256 * s[3] as int))
  }

  lemma WordRoundTrip(n: nat)
    requires n < WORD_LIMIT
    ensures DecodeWord(EncodeWord(n)) == n
  {
  }

  function EncodePointer(p: nat): (s: seq<byte>)
    ensures |s| == POINTER_SIZE
  {
    EncodeWord(p % WORD_LIMIT) + EncodeWord(p / WORD_LIMIT)
  }

  function DecodePointer(s: seq<byte>): (p: nat)
    requires |s| == POINTER_SIZE
    ensures p < POINTER_LIMIT
  {
    DecodeWord(s[..WORD_SIZE]) + WORD_LIMIT * DecodeWord(s[WORD_SIZE..])
  }

  lemma PointerRoundTrip(p: nat)
    requires p < POINTER_LIMIT
    ensures DecodePointer(EncodePointer(p)) == p
  {
    var s := EncodePointer(p);
    assert s[..WORD_SIZE] == EncodeWord(p % WORD_LIMIT);
    assert s[WORD_SIZE..] == EncodeWord(p / WORD_LIMIT);
    WordRoundTrip(p % WORD_LIMIT);
    WordRoundTrip(p / WORD_LIMIT);
  }

  /** The three uint32 fields sent before every payload. */
  datatype Header = Header(kind: nat, flags: bv32, bufSize: nat)
  {
    predicate Valid() {
      kind < WORD_LIMIT && bufSize < WORD_LIMIT
    }
  }

  function EncodeHeader(h: Header): (s: seq<byte>)
    ensures |s| == HEADER_SIZE
  {
    EncodeWord(h.kind) + EncodeWord(h.flags as int) + EncodeWord(h.bufSize)
  }

  function DecodeHeader(s: seq<byte>): (h: Header)
    requires |s| == HEADER_SIZE
    ensures h.Valid()
  {
    Header(DecodeWord(s[..4]), DecodeWord(s[4..8]) as bv32, DecodeWord(s[8..]))
  }

  lemma FlagsSurviveConversion(f: bv32)
    ensures (f as int) as bv32 == f
  {
  }

  lemma HeaderRoundTrip(h: Header)
    requires h.Valid()
    ensures DecodeHeader(EncodeHeader(h)) == h
  {
    var s := EncodeHeader(h);
    assert s[..4] == EncodeWord(h.kind);
    assert s[4..8] == EncodeWord(h.flags as int);
    assert s[8..] == EncodeWord(h.bufSize);
    WordRoundTrip(h.kind);
    WordRoundTrip(h.flags as int);
    WordRoundTrip(h.bufSize);
    FlagsSurviveConversion(h.flags);
  }

  /** The layout, byte by byte: least significant byte first, and type, flags and size in this order. */
  lemma Layout(a: byte, b: byte, c: byte, d: byte)
    ensures DecodeWord([a, b, c, d]) == a as int + 256 * b as int + 65536 * c as int + 16777216 * d as int
    ensures EncodeWord(0x04030201) == [1, 2, 3, 4] && EncodeWord(ACK) == [1, 0, 0, 0]
    ensures EncodePointer(0x0807060504030201) == [1, 2, 3, 4, 5, 6, 7, 8]
    ensures EncodeHeader(Header(1, 9, 515)) == [1, 0, 0, 0, 9, 0, 0, 0, 3, 2, 0, 0]
  {
    assert (9 as bv32) as int == 9;
  }
}
