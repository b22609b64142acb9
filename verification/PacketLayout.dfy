/** The bytes of a packet, one by one, and the largest body that is taken off a stream. */
module PacketLayout {
  import opened Wrappers
  import opened Crc32
  import opened ByteOrder
  import opened Codec

  /** Four bytes of a number, the lowest first. */
  function Bytes4(n: nat): Bytes {
    [(n % 256) as bv8, (n / 256 % 256) as bv8, (n / 65536 % 256) as bv8, (n / 16777216 % 256) as bv8]
  }

  lemma LowestByte(n: nat, byte: nat, more: nat, count: nat)
    requires byte < 256 && n == 256 * more + byte
    ensures LittleEndian(n, count + 1) == [byte as bv8] + LittleEndian(more, count)
  {
    assert n % 256 == byte && n / 256 == more;
  }

  lemma SecondByte(n: nat)
    ensures n / 256 / 256 == n / 65536
  {
  }

  lemma ThirdByte(n: nat)
    ensures n / 65536 / 256 == n / 16777216
  {
  }

  lemma FourBytes(n: nat)
    ensures LittleEndian(n, 4) == Bytes4(n)
  {
    hide LittleEndian;
    SecondByte(n);
    ThirdByte(n);
    LowestByte(n, n % 256, n / 256, 3);
    LowestByte(n / 256, n / 256 % 256, n / 65536, 2);
    LowestByte(n / 65536, n / 65536 % 256, n / 16777216, 1);
    LowestByte(n / 16777216, n / 16777216 % 256, n / 16777216 / 256, 0);
    NoByte(n / 16777216 / 256);
  }

  lemma NoByte(n: nat)
    ensures LittleEndian(n, 0) == []
  {
  }

  /** A packet: the letters of dreamdb backwards after a zero, the length, the body's checksum, the body. */
  lemma PacketBytes(body: Bytes)
    requires 16 + |body| < 0x1_0000_0000
    ensures var packet := Encoded(body);
            && |packet| == 16 + |body|
            && packet[..8] == [0x00, 0x62, 0x64, 0x6D, 0x61, 0x65, 0x72, 0x64]
            && packet[8..12] == Bytes4(16 + |body|)
            && packet[12..16] == Bytes4(Checksum(body) as nat)
            && packet[16..] == body
  {
    hide LittleEndian, Checksum, Bytes4;
    var packet := Encoded(body);
    MagicBytes();
    FourBytes(16 + |body|);
    FourBytes(Checksum(body) as nat);
    ChecksumIsWord(body);
    assert packet == LittleEndian(MAGIC_NUMBER, 8)
                     + LittleEndian(16 + |body|, 4) + LittleEndian(Checksum(body) as nat, 4) + body;
  }

  lemma ChecksumIsWord(body: Bytes)
    ensures ChecksumValue(body) == Checksum(body) as nat
  {
    hide Checksum;
  }

  lemma MagicBytes()
    ensures LittleEndian(MAGIC_NUMBER, 8) == [0x00, 0x62, 0x64, 0x6D, 0x61, 0x65, 0x72, 0x64]
  {
    hide LittleEndian;
    LowestByte(0x647265616D646200, 0x00, 0x647265616D6462, 7);
    LowestByte(0x647265616D6462, 0x62, 0x647265616D64, 6);
    LowestByte(0x647265616D64, 0x64, 0x647265616D, 5);
    LowestByte(0x647265616D, 0x6D, 0x64726561, 4);
    LowestByte(0x64726561, 0x61, 0x647265, 3);
    LowestByte(0x647265, 0x65, 0x6472, 2);
    LowestByte(0x6472, 0x72, 0x64, 1);
    LowestByte(0x64, 0x64, 0x0, 0);
    NoByte(0);
  }

  lemma FourBytesTell(bytes: Bytes, n: nat)
    requires |bytes| == 4 && n < 0x1_0000_0000
    ensures Number(bytes) == n <==> bytes == Bytes4(n)
  {
    hide LittleEndian, Number, Bytes4;
    Ranges();
    FourBytes(n);
    NumberReadsBack(n, 4);
    BytesReadBack(bytes);
  }

  lemma MagicTells(bytes: Bytes)
    requires |bytes| == 8
    ensures Number(bytes) == MAGIC_NUMBER <==> bytes == [0x00, 0x62, 0x64, 0x6D, 0x61, 0x65, 0x72, 0x64]
  {
    hide LittleEndian, Number;
    Ranges();
    MagicBytes();
    NumberReadsBack(MAGIC_NUMBER, 8);
    BytesReadBack(bytes);
  }

  /** What decoding answers, byte by byte, the first error first. */
  lemma DecodeAnswers(packet: Bytes)
    requires |packet| < 0x1_0000_0000
    ensures Decoded(packet) ==
            if |packet| < 16 then Throw("Codec::decode: data too short for header")
            else if packet[..8] != [0x00, 0x62, 0x64, 0x6D, 0x61, 0x65, 0x72, 0x64] then
              Throw("Codec::decode: invalid magic number")
            else if packet[8..12] != Bytes4(|packet|) then Throw("Codec::decode: total_length mismatch")
            else if packet[12..16] != Bytes4(Checksum(packet[16..]) as nat) then
              Throw("Codec::decode: checksum mismatch")
            else Value(packet[16..])
  {
    hide Number, Checksum, Bytes4;
    if |packet| >= 16 {
      MagicTells(packet[..8]);
      FourBytesTell(packet[8..12], |packet|);
      ChecksumIsWord(packet[16..]);
      FourBytesTell(packet[12..16], Checksum(packet[16..]) as nat);
    }
  }

  /** The number four bytes stand for. */
  function Number4(bytes: Bytes): nat
    requires |bytes| == 4
  {
    bytes[0] as nat + 256 * bytes[1] as nat + 65536 * bytes[2] as nat + 16777216 * bytes[3] as nat
  }

  lemma NumberOfFour(bytes: Bytes)
    requires |bytes| == 4
    ensures Number(bytes) == Number4(bytes) < 0x1_0000_0000
  {
    assert Number(bytes) == bytes[0] as nat + 256 * Number(bytes[1..]);
    assert Number(bytes[1..]) == bytes[1] as nat + 256 * Number(bytes[2..]) by {
      assert bytes[1..][1..] == bytes[2..];
    }
    assert Number(bytes[2..]) == bytes[2] as nat + 256 * Number(bytes[3..]) by {
      assert bytes[2..][1..] == bytes[3..];
    }
    assert Number(bytes[3..]) == bytes[3] as nat by {
      assert bytes[3..][1..] == [];
    }
  }

  /** What is found at the front of a stream, byte by byte, the first error first. */
  lemma StreamAnswers(buffer: Bytes)
    ensures FirstFrame(buffer) ==
            if |buffer| < 16 then Incomplete
            else if buffer[..8] != [0x00, 0x62, 0x64, 0x6D, 0x61, 0x65, 0x72, 0x64] then
              Malformed("Codec::try_decode_one: invalid magic number")
            else
              var length := Number4(buffer[8..12]);
              if length < 16 || length > 67108864 then Malformed("Codec::try_decode_one: invalid total_length")
              else if |buffer| < length then Incomplete
              else if buffer[12..16] != Bytes4(Checksum(buffer[16..length]) as nat) then
                Malformed("Codec::try_decode_one: checksum mismatch")
              else Packet(buffer[16..length], buffer[length..])
  {
    hide Number, Checksum, Bytes4, Number4;
    if |buffer| >= 16 {
      MagicTells(buffer[..8]);
      NumberOfFour(buffer[8..12]);
      var length := Number4(buffer[8..12]);
      if 16 <= length <= |buffer| {
        ChecksumIsWord(buffer[16..length]);
        FourBytesTell(buffer[12..16], Checksum(buffer[16..length]) as nat);
      }
    }
  }

  /** Bodies of up to 64 MiB minus 16 bytes are taken off a stream; longer ones are refused by their length. */
  lemma LargestBody(body: Bytes, rest: Bytes)
    requires 16 + |body| < 0x1_0000_0000
    ensures FirstFrame(Encoded(body) + rest) ==
            if |body| <= 67108848 then Packet(body, rest)
            else Malformed("Codec::try_decode_one: invalid total_length")
  {
    hide ReadHeader, HeaderBytes, ChecksumValue;
    if |body| <= 67108848 {
      FrameIffEncoded(Encoded(body) + rest, body, rest);
    } else {
      HeaderReadsBack(HeaderOf(body), body + rest);
      assert Encoded(body) + rest == HeaderBytes(HeaderOf(body)) + (body + rest);
    }
  }
}
