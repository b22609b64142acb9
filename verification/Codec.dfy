/** Packets: a header with magic number, total length and checksum, then the body. */
module Codec {
  import opened Wrappers
  import opened Crc32
  import opened Bursts
  import opened ByteOrder

  const MAGIC_NUMBER := 0x647265616D646200
  const HEADER_SIZE := 16
  const WORD_RANGE := 0x1_0000_0000
  const MAX_PACKET_SIZE := 64 * 1024 * 1024

  lemma Ranges()
    ensures Range(4) == WORD_RANGE && Range(8) == WORD_RANGE * WORD_RANGE
  {
    assert Range(2) == 65536;
    assert Range(4) == 256 * (256 * Range(2));
    assert Range(6) == 256 * (256 * Range(4));
  }

  // Headers.

  datatype Header = Header(magicNumber: nat, totalLength: nat, checksum: nat)

  function HeaderBytes(h: Header): (bytes: Bytes)
    ensures |bytes| == HEADER_SIZE
  {
    LittleEndian(h.magicNumber, 8) + LittleEndian(h.totalLength, 4) + LittleEndian(h.checksum, 4)
  }

  function ReadHeader(bytes: Bytes): Header
    requires |bytes| >= HEADER_SIZE
  {
    Header(Number(bytes[..8]), Number(bytes[8..12]), Number(bytes[12..16]))
  }

  predicate InRange(h: Header) {
    h.magicNumber < WORD_RANGE * WORD_RANGE && h.totalLength < WORD_RANGE && h.checksum < WORD_RANGE
  }

  lemma HeaderReadsBack(h: Header, rest: Bytes)
    requires InRange(h)
    ensures ReadHeader(HeaderBytes(h) + rest) == h && (HeaderBytes(h) + rest)[HEADER_SIZE..] == rest
  {
    Ranges();
    NumberReadsBack(h.magicNumber, 8);
    NumberReadsBack(h.totalLength, 4);
    NumberReadsBack(h.checksum, 4);
    var bytes := HeaderBytes(h) + rest;
    assert bytes[..8] == LittleEndian(h.magicNumber, 8);
    assert bytes[8..12] == LittleEndian(h.totalLength, 4);
    assert bytes[12..16] == LittleEndian(h.checksum, 4);
  }

  lemma HeaderWritesBack(bytes: Bytes)
    requires |bytes| >= HEADER_SIZE
    ensures HeaderBytes(ReadHeader(bytes)) == bytes[..HEADER_SIZE] && InRange(ReadHeader(bytes))
  {
    Ranges();
    BytesReadBack(bytes[..8]);
    BytesReadBack(bytes[8..12]);
    BytesReadBack(bytes[12..16]);
    assert bytes[..16] == bytes[..8] + bytes[8..12] + bytes[12..16];
  }

  function WordValue(c: bv32): nat {
    c as nat
  }

  lemma WordBack(c: bv32)
    ensures WordValue(c) < WORD_RANGE && (WordValue(c)) as bv32 == c
  {
  }

  lemma WordsDiffer(c: bv32, d: bv32)
    requires WordValue(c) == WordValue(d)
    ensures c == d
  {
    hide WordValue;
    WordBack(c);
    WordBack(d);
  }

  // Encoding and decoding whole packets.

  function ChecksumValue(body: Bytes): (n: nat)
    ensures n < WORD_RANGE
  {
    WordBack(Checksum(body));
    WordValue(Checksum(body))
  }

  /** The header of a body: the total length is stored in 32 bits. */
  function HeaderOf(body: Bytes): (h: Header)
    ensures InRange(h)
  {
    Header(MAGIC_NUMBER, (HEADER_SIZE + |body|) % WORD_RANGE, ChecksumValue(body))
  }

  function Encoded(body: Bytes): Bytes {
    HeaderBytes(HeaderOf(body)) + body
  }

  const TOO_SHORT := "Codec::decode: data too short for header"
  const BAD_MAGIC := "Codec::decode: invalid magic number"
  const BAD_LENGTH := "Codec::decode: total_length mismatch"
  const BAD_CHECKSUM := "Codec::decode: checksum mismatch"

  function Decoded(packet: Bytes): Outcome<Bytes> {
    if |packet| < HEADER_SIZE then Throw(TOO_SHORT)
    else
      var header := ReadHeader(packet);
      if header.magicNumber != MAGIC_NUMBER then Throw(BAD_MAGIC)
      else if header.totalLength != |packet| then Throw(BAD_LENGTH)
      else if ChecksumValue(packet[HEADER_SIZE..]) != header.checksum then Throw(BAD_CHECKSUM)
      else Value(packet[HEADER_SIZE..])
  }

  method Encode(data: Bytes) returns (packet: Bytes)
    ensures packet == Encoded(data)
  {
    hide HeaderBytes;
    var checksum := Compute(data);
    WordBack(checksum);
    var header := Header(MAGIC_NUMBER, (HEADER_SIZE + |data|) % WORD_RANGE, checksum as nat);
    packet := [];
    packet := packet + HeaderBytes(header);
    packet := packet + data;
    assert [] + HeaderBytes(header) == HeaderBytes(header);
  }

  method Decode(data: Bytes) returns (r: Outcome<Bytes>)
    ensures r == Decoded(data)
  {
    if |data| < HEADER_SIZE {
      return Throw(TOO_SHORT);
    }
    var header := ReadHeader(data);
    if header.magicNumber != MAGIC_NUMBER {
      return Throw(BAD_MAGIC);
    }
    if header.totalLength != |data| {
      return Throw(BAD_LENGTH);
    }
    var bodySize := header.totalLength - HEADER_SIZE;
    var body := data[HEADER_SIZE..HEADER_SIZE + bodySize];
    assert body == data[HEADER_SIZE..];
    var computed := Compute(body);
    if WordValue(computed) != header.checksum {
      return Throw(BAD_CHECKSUM);
    }
    return Value(body);
  }

  /** What decodes to a body is exactly that body's encoding, of a length that 32 bits can hold. */
  lemma DecodedIffEncoded(packet: Bytes, body: Bytes)
    ensures Decoded(packet) == Value(body) <==> packet == Encoded(body) && |packet| < WORD_RANGE
  {
    hide HeaderBytes, Checksum, ReadHeader, ChecksumValue;
    HeaderReadsBack(HeaderOf(body), body);
    if Decoded(packet) == Value(body) {
      HeaderWritesBack(packet);
      assert ReadHeader(packet) == HeaderOf(body);
      assert packet == packet[..HEADER_SIZE] + packet[HEADER_SIZE..];
    }
  }

  /** Decoding undoes encoding exactly when the packet's length fits into 32 bits. */
  lemma EncodeDecode(body: Bytes)
    ensures Decoded(Encoded(body)) == Value(body) <==> HEADER_SIZE + |body| < WORD_RANGE
  {
    hide Encoded, Decoded;
    DecodedIffEncoded(Encoded(body), body);
    assert |Encoded(body)| == HEADER_SIZE + |body| by {
      EncodedLength(body);
    }
  }

  lemma EncodedLength(body: Bytes)
    ensures |Encoded(body)| == HEADER_SIZE + |body|
  {
  }

  // Taking packets off the front of a buffer.

  datatype Frame = Incomplete | Malformed(message: string) | Packet(body: Bytes, rest: Bytes)

  const STREAM_BAD_MAGIC := "Codec::try_decode_one: invalid magic number"
  const STREAM_BAD_LENGTH := "Codec::try_decode_one: invalid total_length"
  const STREAM_BAD_CHECKSUM := "Codec::try_decode_one: checksum mismatch"

  /** What stands at the front of a buffer. */
  function FirstFrame(buffer: Bytes): (f: Frame)
    ensures f.Packet? ==> |f.rest| < |buffer|
  {
    if |buffer| < HEADER_SIZE then Incomplete
    else
      var header := ReadHeader(buffer);
      if header.magicNumber != MAGIC_NUMBER then Malformed(STREAM_BAD_MAGIC)
      else if header.totalLength < HEADER_SIZE || header.totalLength > MAX_PACKET_SIZE then Malformed(STREAM_BAD_LENGTH)
      else if |buffer| < header.totalLength then Incomplete
      else
        var body := buffer[HEADER_SIZE..header.totalLength];
        if ChecksumValue(body) != header.checksum then Malformed(STREAM_BAD_CHECKSUM)
        else Packet(body, buffer[header.totalLength..])
  }

  /** A growing vector of bytes, shared by reference. */
  class ByteVector {
    var bytes: Bytes

    constructor ()
      ensures bytes == []
    {
      bytes := [];
    }
  }

  /** Takes one packet off the buffer; otherwise, and when it throws, nothing changes. */
  method TryDecodeOne(buffer: ByteVector, outBody: ByteVector) returns (r: Outcome<bool>)
    requires buffer != outBody
    modifies buffer, outBody
    ensures match FirstFrame(old(buffer.bytes))
            case Incomplete => r == Value(false) && unchanged(buffer) && unchanged(outBody)
            case Malformed(message) => r == Throw(message) && unchanged(buffer) && unchanged(outBody)
            case Packet(body, rest) => r == Value(true) && outBody.bytes == body && buffer.bytes == rest
  {
    if |buffer.bytes| < HEADER_SIZE {
      return Value(false);
    }
    var header := ReadHeader(buffer.bytes);
    if header.magicNumber != MAGIC_NUMBER {
      return Throw(STREAM_BAD_MAGIC);
    }
    if header.totalLength < HEADER_SIZE || header.totalLength > MAX_PACKET_SIZE {
      return Throw(STREAM_BAD_LENGTH);
    }
    if |buffer.bytes| < header.totalLength {
      return Value(false);
    }
    var bodySize := header.totalLength - HEADER_SIZE;
    var body := buffer.bytes[HEADER_SIZE..HEADER_SIZE + bodySize];
    var computed := Compute(body);
    if WordValue(computed) != header.checksum {
      return Throw(STREAM_BAD_CHECKSUM);
    }
    outBody.bytes := body;
    buffer.bytes := buffer.bytes[header.totalLength..];
    return Value(true);
  }

  predicate Sendable(body: Bytes) {
    HEADER_SIZE + |body| <= MAX_PACKET_SIZE
  }

  /** A packet is taken exactly when the buffer starts with an encoding of bounded size. */
  lemma FrameIffEncoded(buffer: Bytes, body: Bytes, rest: Bytes)
    ensures FirstFrame(buffer) == Packet(body, rest) <==> buffer == Encoded(body) + rest && Sendable(body)
  {
    hide HeaderBytes, Checksum, ReadHeader, ChecksumValue;
    HeaderReadsBack(HeaderOf(body), body + rest);
    assert Encoded(body) + rest == HeaderBytes(HeaderOf(body)) + (body + rest);
    if FirstFrame(buffer) == Packet(body, rest) {
      HeaderWritesBack(buffer);
      assert ReadHeader(buffer) == HeaderOf(body);
      assert buffer == buffer[..HEADER_SIZE] + (body + rest);
    }
  }

  /** More bytes do not change what was found, only what is left. */
  lemma FrameIsStable(buffer: Bytes, more: Bytes)
    ensures match FirstFrame(buffer)
            case Incomplete => true
            case Malformed(message) => FirstFrame(buffer + more) == Malformed(message)
            case Packet(body, rest) => FirstFrame(buffer + more) == Packet(body, rest + more)
  {
    hide Number, ChecksumValue;
    var longer := buffer + more;
    if |buffer| >= HEADER_SIZE {
      assert longer[..8] == buffer[..8] && longer[8..12] == buffer[8..12] && longer[12..16] == buffer[12..16];
      var total := ReadHeader(buffer).totalLength;
      if HEADER_SIZE <= total <= |buffer| {
        assert longer[HEADER_SIZE..total] == buffer[HEADER_SIZE..total];
        assert longer[total..] == buffer[total..] + more;
      }
    }
  }

  // Corruption.

  lemma ChecksumValuesDiffer(a: Bytes, b: Bytes, start: nat)
    requires BurstWithin(a, b, start)
    ensures ChecksumValue(a) != ChecksumValue(b)
  {
    hide Checksum, WordValue;
    ChecksumDetectsBurst(a, b, start);
    if WordValue(Checksum(a)) == WordValue(Checksum(b)) {
      WordsDiffer(Checksum(a), Checksum(b));
    }
  }

  /** Both decoders reject a packet whose body alone was hit by a burst within four bytes. */
  lemma CorruptedBodyIsRejected(body: Bytes, hit: Bytes, start: nat, rest: Bytes)
    requires BurstWithin(body, hit, start) && HEADER_SIZE + |body| < WORD_RANGE
    ensures var packet := HeaderBytes(HeaderOf(body)) + hit;
            && Decoded(packet) == Throw(BAD_CHECKSUM)
            && (Sendable(body) ==> FirstFrame(packet + rest) == Malformed(STREAM_BAD_CHECKSUM))
  {
    hide HeaderBytes, ReadHeader, ChecksumValue, BurstWithin;
    var packet := HeaderBytes(HeaderOf(body)) + hit;
    SameLength(body, hit, start);
    HeaderReadsBack(HeaderOf(body), hit);
    ChecksumValuesDiffer(body, hit, start);
    HeaderReadsBack(HeaderOf(body), hit + rest);
    var buffer := packet + rest;
    assert buffer == HeaderBytes(HeaderOf(body)) + (hit + rest);
    assert buffer[HEADER_SIZE..HEADER_SIZE + |body|] == hit;
  }

  lemma SameLength(body: Bytes, hit: Bytes, start: nat)
    requires BurstWithin(body, hit, start)
    ensures |body| == |hit|
  {
  }
}
