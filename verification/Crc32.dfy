/** CRC-32: the table-driven loop and its bit-serial definition. */
module Crc32 {

  const POLYNOMIAL: bv32 := 0xEDB88320
  const ALL_ONES: bv32 := 0xFFFF_FFFF

  // Word operations by name, so that proofs can leave their bits alone.

  function Xor(a: bv32, b: bv32): bv32 {
    a ^ b
  }

  function Half(a: bv32): bv32 {
    a >> 1
  }

  predicate Odd(a: bv32) {
    a & 1 == 1
  }

  function LowBit(a: bv32): bv32 {
    a & 1
  }

  function LowByte(a: bv32): bv32 {
    a & 0xFF
  }

  function Down(a: bv32): bv32 {
    a >> 8
  }

  /** One turn of the reflected shift register. */
  function BitStep(c: bv32): bv32 {
    if Odd(c) then Xor(Half(c), POLYNOMIAL) else Half(c)
  }

  function BitSteps(c: bv32, n: nat): bv32
    decreases n
  {
    if n == 0 then c else BitSteps(BitStep(c), n - 1)
  }

  function Bit(b: bool): bv32 {
    if b then 1 else 0
  }

  /** The register after a bit string, fed one bit at a time. */
  function Serial(c: bv32, bits: seq<bool>): bv32
    decreases bits
  {
    if bits == [] then c else Serial(BitStep(Xor(c, Bit(bits[0]))), bits[1..])
  }

  /** The n lowest bits of a word, lowest first. */
  function WordBits(w: bv32, n: nat): (bits: seq<bool>)
    ensures |bits| == n
    decreases n
  {
    if n == 0 then [] else [Odd(w)] + WordBits(Half(w), n - 1)
  }

  function Bits(data: seq<bv8>): (bits: seq<bool>)
    ensures |bits| == 8 * |data|
  {
    if data == [] then [] else WordBits(data[0] as bv32, 8) + Bits(data[1..])
  }

  /** The checksum of RFC 1952, section 8: the register starts with ones, sees every bit, and is inverted. */
  function Checksum(data: seq<bv8>): bv32 {
    Xor(Serial(ALL_ONES, Bits(data)), ALL_ONES)
  }

  // The step is linear over exclusive or.

  lemma XorHalf(a: bv32, b: bv32)
    ensures Half(Xor(a, b)) == Xor(Half(a), Half(b))
  {
  }

  lemma OddBit(a: bv32)
    ensures LowBit(a) == if Odd(a) then 1 else 0
  {
  }

  lemma XorOdd(a: bv32, b: bv32)
    ensures Odd(Xor(a, b)) == (Odd(a) != Odd(b))
  {
    OddBit(a);
    OddBit(b);
    assert (a ^ b) & 1 == (a & 1) ^ (b & 1);
  }

  lemma XorSwaps(x: bv32, y: bv32, p: bv32)
    ensures Xor(Xor(x, y), p) == Xor(Xor(x, p), y)
  {
    hide Xor;
    XorAssociates(x, y, p);
    XorAssociates(x, p, y);
    XorCommutes(y, p);
  }

  lemma XorCommutes(x: bv32, y: bv32)
    ensures Xor(x, y) == Xor(y, x)
  {
  }

  lemma XorAssociates(x: bv32, y: bv32, p: bv32)
    ensures Xor(Xor(x, y), p) == Xor(x, Xor(y, p))
  {
  }

  lemma XorCancels(x: bv32, y: bv32, p: bv32)
    ensures Xor(x, y) == Xor(Xor(x, p), Xor(y, p))
  {
    assert Xor(p, Xor(y, p)) == y;
    XorAssociates(x, p, Xor(y, p));
  }

  lemma Linear(a: bv32, b: bv32)
    ensures BitStep(Xor(a, b)) == Xor(BitStep(a), BitStep(b))
  {
    hide Xor, Half, Odd;
    XorHalf(a, b);
    XorOdd(a, b);
    XorCancels(Half(a), Half(b), POLYNOMIAL);
    XorSwaps(Half(a), Half(b), POLYNOMIAL);
    XorAssociates(Half(a), Half(b), POLYNOMIAL);
  }

  lemma {:induction false} StepsLinear(a: bv32, b: bv32, n: nat)
    ensures BitSteps(Xor(a, b), n) == Xor(BitSteps(a, n), BitSteps(b, n))
    decreases n
  {
    hide BitStep, Xor;
    if n > 0 {
      Linear(a, b);
      StepsLinear(BitStep(a), BitStep(b), n - 1);
    }
  }

  // A byte at a time.

  function Even(w: bv32): bv32 {
    w & 0xFFFF_FFFE
  }

  lemma SplitLowBit(w: bv32)
    ensures w == Xor(LowBit(w), Even(w)) && !Odd(Even(w)) && Half(Even(w)) == Half(w)
  {
  }

  /** Feeding the lowest bit of a word leaves the rest of it one place further down. */
  lemma Peel(c: bv32, w: bv32)
    ensures BitStep(Xor(c, w)) == Xor(BitStep(Xor(c, LowBit(w))), Half(w))
  {
    hide Xor, LowBit, Even, Odd, Half;
    SplitLowBit(w);
    XorAssociates(c, LowBit(w), Even(w));
    Linear(Xor(c, LowBit(w)), Even(w));
  }

  function Shifted(w: bv32, n: nat): bv32
    decreases n
  {
    if n == 0 then w else Shifted(Half(w), n - 1)
  }

  lemma XorZero(c: bv32)
    ensures Xor(c, 0) == c
  {
  }

  /** Feeding the bits of a word one by one is feeding them at once. */
  lemma {:induction false} SerialIsParallel(c: bv32, w: bv32, n: nat)
    requires Shifted(w, n) == 0
    ensures Serial(c, WordBits(w, n)) == BitSteps(Xor(c, w), n)
    decreases n
  {
    hide BitStep, Xor, LowBit, Half, Odd;
    if n == 0 {
      XorZero(c);
    } else {
      Peel(c, w);
      OddBit(w);
      var bits := WordBits(w, n);
      assert bits[1..] == WordBits(Half(w), n - 1);
      SerialIsParallel(BitStep(Xor(c, LowBit(w))), Half(w), n - 1);
    }
  }

  lemma ByteShiftsOut(b: bv8)
    ensures Shifted(b as bv32, 8) == 0
  {
    var w := b as bv32;
    assert Half(Half(Half(Half(Half(Half(Half(Half(w)))))))) == 0;
    var v := Half(Half(Half(Half(w))));
    assert Shifted(w, 8) == Shifted(Half(Half(w)), 6) == Shifted(v, 4) == Shifted(Half(Half(v)), 2);
  }

  function HighBytes(w: bv32): bv32 {
    w & 0xFFFF_FF00
  }

  lemma SplitByte(x: bv32)
    ensures x == Xor(HighBytes(x), LowByte(x)) && LowByte(HighBytes(x)) == 0 && Down(HighBytes(x)) == Down(x)
  {
  }

  /** The lowest n bits of a word are zero. */
  predicate Empty(w: bv32, n: nat)
    decreases n
  {
    n == 0 || (!Odd(w) && Empty(Half(w), n - 1))
  }

  lemma {:induction false} EmptyShifts(w: bv32, n: nat)
    requires Empty(w, n)
    ensures BitSteps(w, n) == Shifted(w, n)
    decreases n
  {
    hide Xor, Half, Odd;
    if n > 0 {
      EmptyShifts(Half(w), n - 1);
    }
  }

  lemma EmptyByte(w: bv32)
    requires LowByte(w) == 0
    ensures Empty(w, 8) && Shifted(w, 8) == Down(w)
  {
    var v := Half(Half(Half(Half(w))));
    assert !Odd(w) && !Odd(Half(w)) && !Odd(Half(Half(w))) && !Odd(Half(Half(Half(w))));
    assert !Odd(v) && !Odd(Half(v)) && !Odd(Half(Half(v))) && !Odd(Half(Half(Half(v))));
    assert Half(Half(Half(Half(v)))) == Down(w);
    Empty4(v, 0);
    Empty4(w, 4);
  }

  lemma Empty4(w: bv32, n: nat)
    requires !Odd(w) && !Odd(Half(w)) && !Odd(Half(Half(w))) && !Odd(Half(Half(Half(w))))
    ensures Empty(w, n + 4) == Empty(Half(Half(Half(Half(w)))), n)
    ensures Shifted(w, n + 4) == Shifted(Half(Half(Half(Half(w)))), n)
  {
    hide Odd, Half;
    var v := Half(Half(w));
    assert Empty(w, n + 4) == Empty(v, n + 2) == Empty(Half(Half(v)), n);
    assert Shifted(w, n + 4) == Shifted(v, n + 2) == Shifted(Half(Half(v)), n);
  }

  /** Eight steps are one look-up of the low byte, over the other bytes moved down. */
  lemma ByteStep(x: bv32)
    ensures BitSteps(x, 8) == Xor(Down(x), BitSteps(LowByte(x), 8))
  {
    hide BitSteps, Xor, HighBytes, LowByte, Down, Empty, Shifted;
    SplitByte(x);
    StepsLinear(HighBytes(x), LowByte(x), 8);
    EmptyByte(HighBytes(x));
    EmptyShifts(HighBytes(x), 8);
  }

  lemma {:induction false} SerialAppends(c: bv32, a: seq<bool>, b: seq<bool>)
    ensures Serial(c, a + b) == Serial(Serial(c, a), b)
    decreases a
  {
    hide BitStep, Xor;
    if a == [] {
      assert a + b == b;
    } else {
      assert (a + b)[1..] == a[1..] + b;
      SerialAppends(BitStep(Xor(c, Bit(a[0]))), a[1..], b);
    }
  }

  lemma FeedByte(c: bv32, b: bv8, rest: seq<bool>)
    ensures Serial(c, WordBits(b as bv32, 8) + rest) == Serial(BitSteps(Xor(c, b as bv32), 8), rest)
  {
    hide Xor, BitSteps, Serial, WordBits, Shifted;
    SerialAppends(c, WordBits(b as bv32, 8), rest);
    ByteShiftsOut(b);
    SerialIsParallel(c, b as bv32, 8);
  }

  // The table and the loop.

  method GenerateEntry(index: bv32) returns (crc: bv32)
    ensures crc == BitSteps(index, 8)
  {
    crc := index;
    for i := 0 to 8
      invariant BitSteps(crc, 8 - i) == BitSteps(index, 8)
    {
      if crc & 1 == 1 {
        crc := (crc >> 1) ^ POLYNOMIAL;
      } else {
        crc := crc >> 1;
      }
    }
  }

  /** The table entry of a byte. */
  ghost function Entry(b: bv8): bv32 {
    BitSteps(b as bv32, 8)
  }

  ghost predicate IsTable(table: seq<bv32>) {
    |table| == 256 && forall i | 0 <= i < 256 :: table[i] == Entry(i as bv8)
  }

  method GenerateTable() returns (table: array<bv32>)
    ensures fresh(table) && IsTable(table[..])
  {
    hide BitSteps;
    table := new bv32[256];
    for i := 0 to 256
      invariant forall j | 0 <= j < i :: table[j] == Entry(j as bv8)
    {
      table[i] := GenerateEntry((i as bv8) as bv32);
    }
  }

  function Index(crc: bv32, b: bv8): bv8 {
    ((crc ^ (b as bv32)) & 0xFF) as bv8
  }

  lemma IndexIsLowByte(crc: bv32, b: bv8)
    ensures Index(crc, b) as bv32 == LowByte(Xor(crc, b as bv32)) && Down(Xor(crc, b as bv32)) == Down(crc)
  {
  }

  lemma SerialOfNothing(c: bv32)
    ensures Serial(c, []) == c && Bits([]) == []
  {
  }

  lemma BitsOfHead(b: bv8, rest: seq<bv8>)
    ensures Bits([b] + rest) == WordBits(b as bv32, 8) + Bits(rest)
  {
    hide WordBits;
  }

  /** One turn of the loop consumes one byte. */
  lemma Turn(crc: bv32, b: bv8, rest: seq<bv8>)
    ensures Serial(crc, Bits([b] + rest))
         == Serial(Xor(Down(crc), Entry(Index(crc, b))), Bits(rest))
  {
    hide BitSteps, Serial, WordBits, Xor, Bits, Down, LowByte, Index;
    BitsOfHead(b, rest);
    FeedByte(crc, b, Bits(rest));
    ByteStep(Xor(crc, b as bv32));
    IndexIsLowByte(crc, b);
  }

  lemma ByteBack(b: bv8)
    ensures b as int < 256 && (b as int) as bv8 == b
  {
  }

  lemma TableAt(table: seq<bv32>, index: bv8)
    requires IsTable(table)
    ensures index as int < |table| && table[index as int] == Entry(index)
  {
    hide Entry;
    ByteBack(index);
  }

  method Compute(data: seq<bv8>) returns (crc: bv32)
    ensures crc == Checksum(data)
  {
    hide Entry, Serial, Bits, Xor, Down, IsTable, Index;
    var table := GenerateTable();
    crc := ALL_ONES;
    assert data[0..] == data;
    for i := 0 to |data|
      invariant IsTable(table[..])
      invariant Serial(crc, Bits(data[i..])) == Serial(ALL_ONES, Bits(data))
    {
      assert data[i..] == [data[i]] + data[i + 1..];
      Turn(crc, data[i], data[i + 1..]);
      var index := Index(crc, data[i]);
      TableAt(table[..], index);
      crc := Xor(Down(crc), table[index as int]);
    }
    SerialOfNothing(crc);
    crc := Xor(crc, ALL_ONES);
  }
}
