/**
 * The checksum as the remainder of a division of polynomials over the integers modulo 2, as section 8 of RFC 1952
 * has it.  Polynomials are lists of coefficients, the highest power first; no register occurs in their division.
 */
module Polynomials {
  import opened Crc32
  import opened Bursts

  /** x^32 + x^26 + x^23 + x^22 + x^16 + x^12 + x^11 + x^10 + x^8 + x^7 + x^5 + x^4 + x^2 + x + 1. */
  const EXPONENTS := [32, 26, 23, 22, 16, 12, 11, 10, 8, 7, 5, 4, 2, 1, 0]

  /** Takes the divisor, moved up to the highest power, away from the dividend. */
  function Reduced(dividend: seq<bool>): (r: seq<bool>)
    requires |dividend| > 32
    ensures |r| == |dividend|
  {
    seq(|dividend|, p requires 0 <= p < |dividend| => dividend[p] != (p <= 32 && 32 - p in EXPONENTS))
  }

  /** Long division: what remains when all powers from 32 on are gone. */
  function Remainder(dividend: seq<bool>): (r: seq<bool>)
    ensures |r| == if |dividend| < 32 then |dividend| else 32
    decreases |dividend|
  {
    if |dividend| <= 32 then dividend
    else Remainder((if dividend[0] then Reduced(dividend) else dividend)[1..])
  }

  /** The bits of a byte, the lowest first. */
  function ByteBits(b: bv8): (bits: seq<bool>)
    ensures |bits| == 8
  {
    [b & 1 != 0, b & 2 != 0, b & 4 != 0, b & 8 != 0, b & 16 != 0, b & 32 != 0, b & 64 != 0, b & 128 != 0]
  }

  /** The message times x^32, its first 32 coefficients inverted. */
  function Dividend(data: seq<bv8>): (d: seq<bool>)
    ensures |d| == 8 * |data| + 32
  {
    seq(8 * |data| + 32, p requires 0 <= p < 8 * |data| + 32 =>
      (p < 8 * |data| && ByteBits(data[p / 8])[p % 8]) != (p < 32))
  }

  /** The word whose lowest bit comes first. */
  function Word(bits: seq<bool>): bv32 {
    if bits == [] then 0 else Or(Bit(bits[0]), Twice(Word(bits[1..])))
  }

  function Or(a: bv32, b: bv32): bv32 {
    a | b
  }

  function Inverted(bits: seq<bool>): (r: seq<bool>)
    ensures |r| == |bits|
  {
    seq(|bits|, p requires 0 <= p < |bits| => !bits[p])
  }

  // The register holds the remainder.

  function Zeros(n: nat): (bits: seq<bool>)
    ensures |bits| == n
  {
    seq(n, _ => false)
  }

  function Overlaid(first: seq<bool>, bits: seq<bool>): (r: seq<bool>)
    ensures |r| == |bits|
  {
    seq(|bits|, p requires 0 <= p < |bits| => bits[p] != (p < |first| && first[p]))
  }

  lemma {:induction false} BitAt(w: bv32, n: nat, i: nat)
    requires i < n
    ensures WordBits(w, n)[i] == Odd(Shifted(w, i))
    decreases n
  {
    hide Odd, Half;
    if i > 0 {
      BitAt(Half(w), n - 1, i - 1);
    }
  }

  lemma {:induction false} ShiftedHalf(w: bv32, i: nat)
    ensures Shifted(w, i + 1) == Half(Shifted(w, i)) == Shifted(Half(w), i)
    decreases i
  {
    hide Half;
    if i > 0 {
      ShiftedHalf(Half(w), i - 1);
    }
  }

  lemma {:induction false} ShiftedXor(v: bv32, w: bv32, i: nat)
    ensures Shifted(Xor(v, w), i) == Xor(Shifted(v, i), Shifted(w, i))
    decreases i
  {
    hide Half, Xor;
    if i > 0 {
      XorHalf(v, w);
      ShiftedXor(Half(v), Half(w), i - 1);
    }
  }

  lemma HalfBit(w: bv32, i: nat)
    requires i < 32
    ensures WordBits(Half(w), 32)[i] == (i < 31 && WordBits(w, 32)[i + 1])
  {
    hide Half, Odd, WordBits, Shifted;
    BitAt(Half(w), 32, i);
    ShiftedHalf(w, i);
    if i < 31 {
      BitAt(w, 32, i + 1);
    } else {
      WordShiftsOut(w);
      ZeroIsEven();
    }
  }

  lemma ZeroIsEven()
    ensures !Odd(0)
  {
  }

  lemma XorBit(v: bv32, w: bv32, i: nat)
    requires i < 32
    ensures WordBits(Xor(v, w), 32)[i] == (WordBits(v, 32)[i] != WordBits(w, 32)[i])
  {
    hide Odd, Xor, WordBits, Shifted;
    BitAt(Xor(v, w), 32, i);
    BitAt(v, 32, i);
    BitAt(w, 32, i);
    ShiftedXor(v, w, i);
    XorOdd(Shifted(v, i), Shifted(w, i));
  }

  /** Bit 31 - k of the register constant is set exactly for the exponents k below 32. */
  lemma PolynomialBits(i: nat)
    requires i < 32
    ensures WordBits(POLYNOMIAL, 32)[i] <==> 31 - i in EXPONENTS
  {
    hide WordBits;
    PolynomialWord();
    assert WordBits(POLYNOMIAL, 32) == WordBits(0xEDB88320, 32);
  }

  lemma PolynomialWord()
    ensures WordBits(0xEDB88320, 32) ==
            [false, false, false, false, false, true, false, false, true, true, false, false, false, false, false, true,
             false, false, false, true, true, true, false, true, true, false, true, true, false, true, true, true]
  {
    hide WordBits;
    EightBits(0xEDB88320, 24);
    EightBits(0xEDB883, 16);
    EightBits(0xEDB8, 8);
    EightBits(0xED, 0);
    NoBits(0);
  }

  lemma NoBits(w: bv32)
    ensures WordBits(w, 0) == []
  {
  }

  function WordByte(w: bv32): (bits: seq<bool>)
    ensures |bits| == 8
  {
    [w & 1 != 0, w & 2 != 0, w & 4 != 0, w & 8 != 0, w & 16 != 0, w & 32 != 0, w & 64 != 0, w & 128 != 0]
  }

  lemma TwoBits(w: bv32, n: nat)
    ensures WordBits(w, n + 2) == [Odd(w), Odd(Half(w))] + WordBits(Half(Half(w)), n)
  {
    hide Odd, Half;
    assert WordBits(w, n + 2) == [Odd(w)] + WordBits(Half(w), n + 1);
  }

  lemma FourBits(w: bv32, n: nat)
    ensures WordBits(w, n + 4)
         == [Odd(w), Odd(Half(w)), Odd(Half(Half(w))), Odd(Half(Half(Half(w))))]
            + WordBits(Half(Half(Half(Half(w)))), n)
  {
    hide Odd, Half, WordBits;
    TwoBits(w, n + 2);
    TwoBits(Half(Half(w)), n);
  }

  lemma EightBits(w: bv32, n: nat)
    ensures WordBits(w, n + 8) == WordByte(w) + WordBits(Down(w), n)
  {
    hide WordBits;
    var v := Half(Half(Half(Half(w))));
    FourBits(w, n + 4);
    FourBits(v, n);
    LowNibble(w);
    HighNibble(w);
  }

  lemma LowNibble(w: bv32)
    ensures Odd(w) == (w & 1 != 0) && Odd(Half(w)) == (w & 2 != 0)
    ensures Odd(Half(Half(w))) == (w & 4 != 0) && Odd(Half(Half(Half(w)))) == (w & 8 != 0)
  {
  }

  lemma HighNibble(w: bv32)
    ensures var v := Half(Half(Half(Half(w))));
            && Odd(v) == (w & 16 != 0) && Odd(Half(v)) == (w & 32 != 0)
            && Odd(Half(Half(v))) == (w & 64 != 0) && Odd(Half(Half(Half(v)))) == (w & 128 != 0)
            && Half(Half(Half(Half(v)))) == Down(w)
  {
  }

  // One bit of the message is one step of the division.

  lemma FedBit(c: bv32, b: bool)
    ensures Half(Xor(c, Bit(b))) == Half(c) && Odd(Xor(c, Bit(b))) == (Odd(c) != b)
  {
  }

  lemma StepBit(c: bv32, b: bool, i: nat)
    requires i < 32
    ensures WordBits(BitStep(Xor(c, Bit(b))), 32)[i]
         == ((i < 31 && WordBits(c, 32)[i + 1]) != ((Odd(c) != b) && 31 - i in EXPONENTS))
  {
    hide Odd, Half, Xor, Bit, WordBits;
    FedBit(c, b);
    HalfBit(c, i);
    XorBit(Half(c), POLYNOMIAL, i);
    PolynomialBits(i);
  }

  lemma StepAt(c: bv32, u: seq<bool>, p: nat)
    requires u != [] && p < |u| + 31
    ensures var d := Overlaid(WordBits(c, 32), u + Zeros(32));
            var next := BitStep(Xor(c, Bit(u[0])));
            (if d[0] then Reduced(d) else d)[p + 1] == Overlaid(WordBits(next, 32), u[1..] + Zeros(32))[p]
  {
    hide BitStep, Xor, Bit, WordBits, Odd, Half, Zeros;
    FirstBitOf(c);
    assert (u + Zeros(32))[0] == u[0];
    AllShifts(u, p);
    if p < 32 {
      StepBit(c, u[0], p);
    }
  }

  lemma AllShifts(u: seq<bool>, p: nat)
    requires u != [] && p < |u| + 31
    ensures (u + Zeros(32))[p + 1] == (u[1..] + Zeros(32))[p]
  {
    hide Zeros;
  }

  lemma FirstBitOf(w: bv32)
    ensures WordBits(w, 32)[0] == Odd(w)
  {
    hide Odd, Half;
  }

  lemma StepDivides(c: bv32, u: seq<bool>)
    requires u != []
    ensures var d := Overlaid(WordBits(c, 32), u + Zeros(32));
            var next := BitStep(Xor(c, Bit(u[0])));
            (if d[0] then Reduced(d) else d)[1..] == Overlaid(WordBits(next, 32), u[1..] + Zeros(32))
  {
    hide BitStep, Xor, Bit, WordBits, Overlaid, Reduced;
    forall p: nat | p < |u| + 31
      ensures var d := Overlaid(WordBits(c, 32), u + Zeros(32));
              var next := BitStep(Xor(c, Bit(u[0])));
              (if d[0] then Reduced(d) else d)[p + 1] == Overlaid(WordBits(next, 32), u[1..] + Zeros(32))[p]
    {
      StepAt(c, u, p);
    }
  }

  /** The register after some bits is what the division of those bits over the first register leaves. */
  lemma {:induction false} RegisterIsRemainder(c: bv32, u: seq<bool>)
    ensures WordBits(Serial(c, u), 32) == Remainder(Overlaid(WordBits(c, 32), u + Zeros(32)))
    decreases u
  {
    hide BitStep, Xor, Bit, WordBits, Overlaid, Reduced;
    if u == [] {
      NothingFed(c);
      assert u + Zeros(32) == Zeros(32);
    } else {
      StepDivides(c, u);
      RegisterIsRemainder(BitStep(Xor(c, Bit(u[0]))), u[1..]);
    }
  }

  lemma NothingFed(c: bv32)
    ensures Overlaid(WordBits(c, 32), Zeros(32)) == WordBits(c, 32)
  {
    hide WordBits;
  }

  // The message's bits, and words from bits.

  lemma SameByte(b: bv8)
    ensures ByteBits(b) == WordByte(b as bv32)
  {
  }

  lemma ByteIsBits(b: bv8)
    ensures WordBits(b as bv32, 8) == ByteBits(b)
  {
    hide WordBits, ByteBits, WordByte;
    EightBits(b as bv32, 0);
    NoBits(Down(b as bv32));
    SameByte(b);
  }

  lemma AllOnes(i: nat)
    requires i < 32
    ensures WordBits(ALL_ONES, 32)[i]
  {
    hide WordBits;
    EightBits(ALL_ONES, 24);
    EightBits(0xFFFFFF, 16);
    EightBits(0xFFFF, 8);
    EightBits(0xFF, 0);
    NoBits(0);
  }

  lemma DividendIsOverlaid(data: seq<bv8>)
    ensures Overlaid(WordBits(ALL_ONES, 32), Bits(data) + Zeros(32)) == Dividend(data)
  {
    hide WordBits, Bits, ByteBits;
    forall p | 0 <= p < 8 * |data| + 32
      ensures Overlaid(WordBits(ALL_ONES, 32), Bits(data) + Zeros(32))[p] == Dividend(data)[p]
    {
      if p < 32 {
        AllOnes(p);
      }
      if p < 8 * |data| {
        BitsAt(data, p / 8, p % 8);
        ByteIsBits(data[p / 8]);
        assert (Bits(data) + Zeros(32))[p] == Bits(data)[p];
      } else {
        assert (Bits(data) + Zeros(32))[p] == Zeros(32)[p - 8 * |data|];
      }
    }
  }

  lemma {:induction false} WordIsWord(w: bv32, n: nat)
    requires Shifted(w, n) == 0
    ensures Word(WordBits(w, n)) == w
    decreases n
  {
    hide Odd, Half, Twice, Bit, Or;
    if n > 0 {
      WordIsWord(Half(w), n - 1);
      Joined(w);
      assert WordBits(w, n)[1..] == WordBits(Half(w), n - 1);
    }
  }

  lemma Joined(w: bv32)
    ensures Or(Bit(Odd(w)), Twice(Half(w))) == w
  {
  }

  lemma InvertedBits(w: bv32)
    ensures WordBits(Xor(w, ALL_ONES), 32) == Inverted(WordBits(w, 32))
  {
    hide WordBits, Xor;
    forall i | 0 <= i < 32
      ensures WordBits(Xor(w, ALL_ONES), 32)[i] == Inverted(WordBits(w, 32))[i]
    {
      XorBit(w, ALL_ONES, i);
      AllOnes(i);
    }
  }

  /**
   * Which checksum it is: the message's bits, each byte's lowest first, times x^32, the first 32 coefficients
   * inverted, divided by the polynomial; the remainder inverted, its highest power in the lowest bit.
   */
  lemma ChecksumIsRemainder(data: seq<bv8>)
    ensures Checksum(data) == Word(Inverted(Remainder(Dividend(data))))
  {
    hide WordBits, Serial, Xor, Bits, Dividend, Overlaid, Inverted, Word, Shifted;
    RegisterIsRemainder(ALL_ONES, Bits(data));
    DividendIsOverlaid(data);
    InvertedBits(Serial(ALL_ONES, Bits(data)));
    WordShiftsOut(Checksum(data));
    WordIsWord(Checksum(data), 32);
  }

  // The check value.

  lemma FeedByte(c: bv32, b: bv8, rest: seq<bv8>)
    ensures Serial(c, Bits([b] + rest)) == Serial(BitSteps(Xor(c, b as bv32), 8), Bits(rest))
  {
    hide Serial, Xor, WordBits, BitSteps, Shifted;
    assert ([b] + rest)[1..] == rest;
    SerialAppends(c, WordBits(b as bv32, 8), Bits(rest));
    ByteShiftsOut(b);
    SerialIsParallel(c, b as bv32, 8);
  }

  lemma EightSteps(x: bv32, a: bv32, b: bv32, c: bv32, d: bv32, e: bv32, f: bv32, g: bv32, h: bv32)
    requires BitStep(x) == a && BitStep(a) == b && BitStep(b) == c && BitStep(c) == d
    requires BitStep(d) == e && BitStep(e) == f && BitStep(f) == g && BitStep(g) == h
    ensures BitSteps(x, 8) == h
  {
    hide BitStep;
    assert BitSteps(x, 8) == BitSteps(b, 6) == BitSteps(d, 4) == BitSteps(f, 2) == BitSteps(h, 0);
  }

  lemma FedByte(c: bv32, data: seq<bv8>, i: nat, next: bv32)
    requires i < |data| && BitSteps(Xor(c, data[i] as bv32), 8) == next
    ensures Serial(c, Bits(data[i..])) == Serial(next, Bits(data[i + 1..]))
  {
    hide Serial, Xor, Bits, BitSteps;
    FeedByte(c, data[i], data[i + 1..]);
    assert data[i..] == [data[i]] + data[i + 1..];
  }

  lemma Digit1()
    ensures BitSteps(Xor(0xFFFFFFFF, 0x31), 8) == 0x7C231048
  {
    EightSteps(0xFFFFFFCE, 0x7FFFFFE7, 0xD2477CD3, 0x849B3D49, 0xAFF51D84, 0x57FA8EC2,
               0x2BFD4761, 0xF8462090, 0x7C231048);
  }

  lemma Digit2()
    ensures BitSteps(Xor(0x7C231048, 0x32), 8) == 0xB0ACBB32
  {
    EightSteps(0x7C23107A, 0x3E11883D, 0xF2B0473E, 0x7958239F, 0xD11492EF, 0x8532CA57,
               0xAF21E60B, 0xBA287025, 0xB0ACBB32);
  }

  lemma Digit3()
    ensures BitSteps(Xor(0xB0ACBB32, 0x33), 8) == 0x77B79C2D
  {
    EightSteps(0xB0ACBB01, 0xB5EEDEA0, 0x5AF76F50, 0x2D7BB7A8, 0x16BDDBD4, 0x0B5EEDEA,
               0x05AF76F5, 0xEF6F385A, 0x77B79C2D);
  }

  lemma Digit4()
    ensures BitSteps(Xor(0x77B79C2D, 0x34), 8) == 0x641C1F5C
  {
    EightSteps(0x77B79C19, 0xD6634D2C, 0x6B31A696, 0x3598D34B, 0xF774EA85, 0x9602F662,
               0x4B017B31, 0xC8383EB8, 0x641C1F5C);
  }

  lemma Digit5()
    ensures BitSteps(Xor(0x641C1F5C, 0x35), 8) == 0x340AC5E3
  {
    EightSteps(0x641C1F69, 0xDFB68C94, 0x6FDB464A, 0x37EDA325, 0xF64E52B2, 0x7B272959,
               0xD02B178C, 0x68158BC6, 0x340AC5E3);
  }

  lemma Digit6()
    ensures BitSteps(Xor(0x340AC5E3, 0x36), 8) == 0xF68D2C9E
  {
    EightSteps(0x340AC5D5, 0xF7BDE1CA, 0x7BDEF0E5, 0xD057FB52, 0x682BFDA9, 0xD9AD7DF4,
               0x6CD6BEFA, 0x366B5F7D, 0xF68D2C9E);
  }

  lemma Digit7()
    ensures BitSteps(Xor(0xF68D2C9E, 0x37), 8) == 0xAFFC9660
  {
    EightSteps(0xF68D2CA9, 0x96FE1574, 0x4B7F0ABA, 0x25BF855D, 0xFF67418E, 0x7FB3A0C7,
               0xD2615343, 0x84882A81, 0xAFFC9660);
  }

  lemma Digit8()
    ensures BitSteps(Xor(0xAFFC9660, 0x38), 8) == 0x651F2550
  {
    EightSteps(0xAFFC9658, 0x57FE4B2C, 0x2BFF2596, 0x15FF92CB, 0xE7474A45, 0x9E1B2602,
               0x4F0D9301, 0xCA3E4AA0, 0x651F2550);
  }

  lemma Digit9()
    ensures BitSteps(Xor(0x651F2550, 0x39), 8) == 0x340BC6D9
  {
    EightSteps(0x651F2569, 0xDF371194, 0x6F9B88CA, 0x37CDC465, 0xF65E6112, 0x7B2F3089,
               0xD02F1B64, 0x68178DB2, 0x340BC6D9);
  }

  /** The check value: the checksum of the nine ASCII digits from 1 to 9. */
  lemma CheckValue()
    ensures Checksum([0x31, 0x32, 0x33, 0x34, 0x35, 0x36, 0x37, 0x38, 0x39]) == 0xCBF43926
  {
    hide Serial, Bits, BitSteps, Xor;
    var data: seq<bv8> := [0x31, 0x32, 0x33, 0x34, 0x35, 0x36, 0x37, 0x38, 0x39];
    assert data[0..] == data;
    Digit1();
    FedByte(ALL_ONES, data, 0, 0x7C231048);
    Digit2();
    FedByte(0x7C231048, data, 1, 0xB0ACBB32);
    Digit3();
    FedByte(0xB0ACBB32, data, 2, 0x77B79C2D);
    Digit4();
    FedByte(0x77B79C2D, data, 3, 0x641C1F5C);
    Digit5();
    FedByte(0x641C1F5C, data, 4, 0x340AC5E3);
    Digit6();
    FedByte(0x340AC5E3, data, 5, 0xF68D2C9E);
    Digit7();
    FedByte(0xF68D2C9E, data, 6, 0xAFFC9660);
    Digit8();
    FedByte(0xAFFC9660, data, 7, 0x651F2550);
    Digit9();
    FedByte(0x651F2550, data, 8, 0x340BC6D9);
    assert data[9..] == [];
    NoneFed(0x340BC6D9);
    FinalXor();
  }

  lemma NoneFed(c: bv32)
    ensures Serial(c, Bits([])) == c
  {
  }

  lemma FinalXor()
    ensures Xor(0x340BC6D9, ALL_ONES) == 0xCBF43926
  {
  }
}
