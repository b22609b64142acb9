/** Every error burst of at most 32 bits changes the checksum, wherever it falls and however long the data is. */
module Bursts {
  import opened Crc32

  function And(a: bv32, b: bv32): bv32 {
    a & b
  }

  function Twice(a: bv32): bv32 {
    a << 1
  }

  predicate Top(a: bv32) {
    a & 0x8000_0000 != 0
  }

  // The step is invertible: the polynomial's top bit tells which way it went.

  lemma StepFromZero()
    ensures BitStep(0) == 0
  {
  }

  lemma StepToZero(x: bv32)
    requires BitStep(x) == 0
    ensures x == 0
  {
  }

  lemma StepBack(x: bv32)
    requires !Top(BitStep(x))
    ensures !Odd(x) && x == Twice(BitStep(x))
  {
  }

  // The words that can still become zero within n more bits are those with nothing above bit n.

  /** All bits from bit n upwards. */
  function High(n: nat): bv32 {
    if n == 0 then ALL_ONES else Twice(High(n - 1))
  }

  predicate LeftJustified(h: bv32) {
    (h << 1) & !h == 0
  }

  lemma TwiceJustified(h: bv32)
    requires LeftJustified(h)
    ensures LeftJustified(Twice(h)) && (Top(Twice(h)) ==> Top(h))
  {
  }

  lemma {:induction false} HighJustified(n: nat)
    ensures LeftJustified(High(n))
  {
    hide LeftJustified, Twice;
    if n == 0 {
      assert LeftJustified(ALL_ONES) by {
        AllOnesJustified();
      }
    } else {
      HighJustified(n - 1);
      TwiceJustified(High(n - 1));
    }
  }

  lemma AllOnesJustified()
    ensures LeftJustified(ALL_ONES)
  {
  }

  lemma HighFour(n: nat, h: bv32)
    requires High(n) == h
    ensures High(n + 4) == h << 4
  {
    assert High(n + 2) == Twice(Twice(h));
    assert High(n + 4) == Twice(Twice(High(n + 2)));
  }

  lemma HighAtTop()
    ensures Top(High(31))
  {
    HighFour(0, ALL_ONES);
    HighFour(4, 0xFFFF_FFF0);
    HighFour(8, 0xFFFF_FF00);
    HighFour(12, 0xFFFF_F000);
    HighFour(16, 0xFFFF_0000);
    HighFour(20, 0xFFF0_0000);
    HighFour(24, 0xFF00_0000);
    assert High(30) == Twice(Twice(High(28)));
    assert High(31) == Twice(High(30));
  }

  lemma {:induction false} HighReachesTop(n: nat)
    requires n <= 31
    ensures Top(High(n))
    decreases 31 - n
  {
    hide Top, Twice, LeftJustified;
    if n == 31 {
      HighAtTop();
    } else {
      HighReachesTop(n + 1);
      HighJustified(n);
      TwiceJustified(High(n));
    }
  }

  lemma NotTop(c: bv32, h: bv32)
    requires And(c, h) == 0 && Top(h)
    ensures !Top(c)
  {
  }

  lemma TwiceAvoids(c: bv32, h: bv32, b: bool)
    requires And(c, h) == 0
    ensures And(Xor(Twice(c), Bit(b)), Twice(h)) == 0
  {
    hide And, Xor, Twice, Bit;
    AndDistributes(Twice(c), Bit(b), Twice(h));
    AndTwice(c, h);
    BitBelow(b, h);
    XorZero(0);
  }

  lemma AndDistributes(x: bv32, y: bv32, h: bv32)
    ensures And(Xor(x, y), h) == Xor(And(x, h), And(y, h))
  {
  }

  lemma AndTwice(c: bv32, h: bv32)
    ensures And(Twice(c), Twice(h)) == Twice(And(c, h)) && Twice(0) == 0
  {
  }

  lemma BitBelow(b: bool, h: bv32)
    ensures And(Bit(b), Twice(h)) == 0
  {
  }

  lemma XorMoves(c: bv32, b: bv32, x: bv32)
    requires Xor(c, b) == x
    ensures c == Xor(x, b)
  {
  }

  lemma ZeroIsEven(b: bool)
    ensures Xor(0, Bit(b)) == Bit(b) && Odd(Bit(b)) == b && And(0, ALL_ONES) == 0
  {
  }

  /** If at most 32 bits bring the register to zero, its high part was zero; if all of it was, the bits are. */
  lemma {:induction false} ToZero(c: bv32, bits: seq<bool>)
    requires |bits| <= 32 && Serial(c, bits) == 0
    ensures And(c, High(|bits|)) == 0 && (c == 0 ==> true !in bits)
    decreases bits
  {
    hide BitStep, Xor, And, Twice, Top, Odd, Bit;
    if bits == [] {
      ZeroIsEven(false);
    } else {
      var x := Xor(c, Bit(bits[0]));
      var next := BitStep(x);
      var n := |bits| - 1;
      ToZero(next, bits[1..]);
      HighReachesTop(n);
      NotTop(next, High(n));
      StepBack(x);
      XorMoves(c, Bit(bits[0]), x);
      TwiceAvoids(next, High(n), bits[0]);
      ZeroIsEven(bits[0]);
      if c == 0 {
        assert !bits[0];
        BitOfFalse();
        StepFromZero();
        assert bits == [bits[0]] + bits[1..];
      }
    }
  }

  lemma BitOfFalse()
    ensures Bit(false) == 0
  {
  }

  /** Zero bits never bring the register to zero. */
  lemma {:induction false} StaysNonzero(c: bv32, bits: seq<bool>)
    requires true !in bits && Serial(c, bits) == 0
    ensures c == 0
    decreases bits
  {
    hide BitStep, Xor;
    if bits != [] {
      StaysNonzero(BitStep(Xor(c, Bit(bits[0]))), bits[1..]);
      StepToZero(Xor(c, Bit(bits[0])));
      XorZero(c);
    }
  }

  /** A difference within 32 bits leaves no zero register behind. */
  lemma {:induction false} BurstLeavesTrace(bits: seq<bool>, start: nat)
    requires Serial(0, bits) == 0
    requires forall k | 0 <= k < |bits| && bits[k] :: start <= k < start + 32
    ensures true !in bits
    decreases bits
  {
    hide BitStep, Xor;
    if bits != [] && start > 0 {
      assert !bits[0];
      XorZero(0);
      StepFromZero();
      BurstLeavesTrace(bits[1..], start - 1);
      assert bits == [bits[0]] + bits[1..];
    } else {
      var n := if |bits| < 32 then |bits| else 32;
      var burst, quiet := bits[..n], bits[n..];
      assert bits == burst + quiet;
      SerialAppends(0, burst, quiet);
      StaysNonzero(Serial(0, burst), quiet);
      ToZero(0, burst);
    }
  }

  // Two messages.

  function Difference(u: seq<bool>, v: seq<bool>): (d: seq<bool>)
    requires |u| == |v|
    ensures |d| == |u| && forall k | 0 <= k < |d| :: d[k] == (u[k] != v[k])
  {
    if u == [] then [] else [u[0] != v[0]] + Difference(u[1..], v[1..])
  }

  lemma XorOfBits(a: bv32, b: bv32, x: bool, y: bool)
    ensures Xor(Xor(a, Bit(x)), Xor(b, Bit(y))) == Xor(Xor(a, b), Bit(x != y))
  {
    hide Xor, Bit;
    var p, q := Bit(x), Bit(y);
    XorAssociates(a, p, Xor(b, q));
    XorAssociates(p, b, q);
    XorCommutes(p, b);
    XorAssociates(b, p, q);
    XorAssociates(a, b, Xor(p, q));
    XorOfTwo(x, y);
  }

  lemma XorOfTwo(x: bool, y: bool)
    ensures Xor(Bit(x), Bit(y)) == Bit(x != y)
  {
  }

  /** Registers differ as one fed with the difference of their inputs. */
  lemma {:induction false} SerialDifference(a: bv32, b: bv32, u: seq<bool>, v: seq<bool>)
    requires |u| == |v|
    ensures Xor(Serial(a, u), Serial(b, v)) == Serial(Xor(a, b), Difference(u, v))
    decreases u
  {
    hide BitStep, Xor, Bit;
    if u != [] {
      var x, y := Xor(a, Bit(u[0])), Xor(b, Bit(v[0]));
      SerialDifference(BitStep(x), BitStep(y), u[1..], v[1..]);
      Linear(x, y);
      XorOfBits(a, b, u[0], v[0]);
      var d := Difference(u, v);
      assert d[0] == (u[0] != v[0]) && d[1..] == Difference(u[1..], v[1..]);
    }
  }

  lemma XorSelf(x: bv32)
    ensures Xor(x, x) == 0
  {
  }

  /** Two different bit strings that agree outside a window of 32 bits leave different registers. */
  lemma BurstDetected(c: bv32, u: seq<bool>, v: seq<bool>, start: nat)
    requires |u| == |v| && u != v
    requires forall k | 0 <= k < |u| && u[k] != v[k] :: start <= k < start + 32
    ensures Serial(c, u) != Serial(c, v)
  {
    hide Serial, Xor, Difference;
    if Serial(c, u) == Serial(c, v) {
      SerialDifference(c, c, u, v);
      XorSelf(c);
      XorSelf(Serial(c, u));
      BurstLeavesTrace(Difference(u, v), start);
      NoDifference(u, v);
    }
  }

  lemma NoDifference(u: seq<bool>, v: seq<bool>)
    requires |u| == |v| && true !in Difference(u, v)
    ensures u == v
  {
    hide Difference;
    forall k | 0 <= k < |u|
      ensures u[k] == v[k]
    {
      assert Difference(u, v)[k] == (u[k] != v[k]);
    }
  }

  // The bound is sharp: the 33 bits of the generator polynomial itself go unnoticed.

  lemma ShiftedEight(w: bv32, n: nat)
    ensures Shifted(w, n + 8) == Shifted(Down(w), n)
  {
    var v := Half(Half(Half(Half(w))));
    assert Shifted(w, n + 8) == Shifted(Half(Half(w)), n + 6) == Shifted(v, n + 4);
    var u := Half(Half(Half(Half(v))));
    assert Shifted(v, n + 4) == Shifted(Half(Half(v)), n + 2) == Shifted(u, n);
    assert u == Down(w);
  }

  lemma WordShiftsOut(w: bv32)
    ensures Shifted(w, 32) == 0
  {
    hide Shifted, Down;
    ShiftedEight(w, 24);
    ShiftedEight(Down(w), 16);
    ShiftedEight(Down(Down(w)), 8);
    ShiftedEight(Down(Down(Down(w))), 0);
    assert Shifted(Down(Down(Down(Down(w)))), 0) == 0 by {
      NothingLeft(w);
    }
  }

  lemma NothingLeft(w: bv32)
    ensures Shifted(Down(Down(Down(Down(w)))), 0) == 0
  {
  }

  lemma {:induction false} StepsOfZero(n: nat)
    ensures BitSteps(0, n) == 0
  {
    if n > 0 {
      StepFromZero();
      StepsOfZero(n - 1);
    }
  }

  lemma FirstBit()
    ensures BitStep(Xor(0, Bit(true))) == POLYNOMIAL
  {
  }

  function Generator(): (bits: seq<bool>)
    ensures |bits| == 33 && bits[0]
  {
    [true] + WordBits(POLYNOMIAL, 32)
  }

  lemma GeneratorVanishes()
    ensures Serial(0, Generator()) == 0
  {
    hide BitStep, BitSteps, Xor, Bit, WordBits;
    var d := Generator();
    assert d[0] && d[1..] == WordBits(POLYNOMIAL, 32);
    FirstBit();
    assert Serial(0, d) == Serial(POLYNOMIAL, WordBits(POLYNOMIAL, 32));
    WordShiftsOut(POLYNOMIAL);
    SerialIsParallel(POLYNOMIAL, POLYNOMIAL, 32);
    XorSelf(POLYNOMIAL);
    StepsOfZero(32);
  }

  lemma NoBit()
    ensures BitStep(Xor(0, Bit(false))) == 0
  {
  }

  lemma {:induction false} ZerosVanish(bits: seq<bool>)
    requires true !in bits
    ensures Serial(0, bits) == 0
    decreases bits
  {
    hide BitStep, Xor, Bit;
    if bits != [] {
      assert bits[0] in bits;
      NoBit();
      ZerosVanish(bits[1..]);
    }
  }

  /** Whatever the register holds, flipping the bits of the generator somewhere leaves it the same. */
  lemma GeneratorGoesUnnoticed(c: bv32, u: seq<bool>, v: seq<bool>, before: seq<bool>, after: seq<bool>)
    requires |u| == |v| && Difference(u, v) == before + (Generator() + after)
    requires true !in before && true !in after
    ensures u != v && Serial(c, u) == Serial(c, v)
  {
    hide Serial, Xor, Difference, Generator;
    var d := Difference(u, v);
    assert d[|before|] == Generator()[0];
    SerialAppends(0, before, Generator() + after);
    SerialAppends(0, Generator(), after);
    ZerosVanish(before);
    ZerosVanish(after);
    GeneratorVanishes();
    SerialDifference(c, c, u, v);
    XorSelf(c);
    SameFromXor(Serial(c, u), Serial(c, v));
  }

  lemma SameFromXor(a: bv32, b: bv32)
    requires Xor(a, b) == 0
    ensures a == b
  {
  }

  // The same for bytes.

  lemma {:induction false} BitsAt(data: seq<bv8>, k: nat, i: nat)
    requires k < |data| && i < 8
    ensures Bits(data)[8 * k + i] == WordBits(data[k] as bv32, 8)[i]
  {
    hide WordBits;
    if k > 0 {
      BitsAt(data[1..], k - 1, i);
    }
  }

  lemma {:induction false} WordFromBits(v: bv32, w: bv32, n: nat)
    requires WordBits(v, n) == WordBits(w, n) && Shifted(v, n) == Shifted(w, n)
    ensures v == w
    decreases n
  {
    hide Half, Odd;
    if n > 0 {
      var x, y := WordBits(v, n), WordBits(w, n);
      assert x[0] == Odd(v) && y[0] == Odd(w);
      assert x[1..] == WordBits(Half(v), n - 1) && y[1..] == WordBits(Half(w), n - 1);
      WordFromBits(Half(v), Half(w), n - 1);
      FromHalf(v, w);
    }
  }

  lemma FromHalf(v: bv32, w: bv32)
    requires Half(v) == Half(w) && Odd(v) == Odd(w)
    ensures v == w
  {
    OddBit(v);
    OddBit(w);
    assert v == (v >> 1 << 1) | (v & 1) && w == (w >> 1 << 1) | (w & 1);
  }

  lemma ByteFromBits(a: bv8, b: bv8)
    requires WordBits(a as bv32, 8) == WordBits(b as bv32, 8)
    ensures a == b
  {
    hide WordBits, Shifted;
    ByteShiftsOut(a);
    ByteShiftsOut(b);
    WordFromBits(a as bv32, b as bv32, 8);
    Widening(a, b);
  }

  lemma Widening(a: bv8, b: bv8)
    ensures a as bv32 == b as bv32 ==> a == b
  {
  }

  /** Two messages of equal length that differ, but only within four consecutive bytes. */
  ghost predicate BurstWithin(a: seq<bv8>, b: seq<bv8>, start: nat) {
    |a| == |b| && a != b && forall k | 0 <= k < |a| && a[k] != b[k] :: start <= k < start + 4
  }

  lemma BytesDifferInBits(a: seq<bv8>, b: seq<bv8>, k: nat)
    requires |a| == |b| && k < |a| && a[k] != b[k]
    ensures Bits(a) != Bits(b)
  {
    hide Bits, WordBits;
    if Bits(a) == Bits(b) {
      var u, v := WordBits(a[k] as bv32, 8), WordBits(b[k] as bv32, 8);
      forall i | 0 <= i < 8
        ensures u[i] == v[i]
      {
        BitsAt(a, k, i);
        BitsAt(b, k, i);
      }
      ByteFromBits(a[k], b[k]);
    }
  }

  lemma BitsDifferInByte(a: seq<bv8>, b: seq<bv8>, k: nat)
    requires |a| == |b| && k < 8 * |a| && Bits(a)[k] != Bits(b)[k]
    ensures a[k / 8] != b[k / 8]
  {
    hide Bits, WordBits;
    BitsAt(a, k / 8, k % 8);
    BitsAt(b, k / 8, k % 8);
  }

  lemma XorSame(x: bv32, y: bv32, p: bv32)
    requires Xor(x, p) == Xor(y, p)
    ensures x == y
  {
    hide Xor;
    XorMoves(x, p, Xor(x, p));
    XorMoves(y, p, Xor(x, p));
  }

  /** Two messages whose bits differ by the generator's alone have the same checksum. */
  lemma ChecksumMissesGenerator(a: seq<bv8>, b: seq<bv8>, before: seq<bool>, after: seq<bool>)
    requires |a| == |b| && Difference(Bits(a), Bits(b)) == before + (Generator() + after)
    requires true !in before && true !in after
    ensures a != b && Checksum(a) == Checksum(b)
  {
    hide Serial, Bits, Xor, Difference, Generator;
    GeneratorGoesUnnoticed(ALL_ONES, Bits(a), Bits(b), before, after);
  }

  /** The checksum detects every burst of errors within four consecutive bytes. */
  lemma ChecksumDetectsBurst(a: seq<bv8>, b: seq<bv8>, start: nat)
    requires BurstWithin(a, b, start)
    ensures Checksum(a) != Checksum(b)
  {
    hide Serial, Bits, Xor;
    var k :| 0 <= k < |a| && a[k] != b[k];
    BytesDifferInBits(a, b, k);
    forall i | 0 <= i < 8 * |a| && Bits(a)[i] != Bits(b)[i]
      ensures 8 * start <= i < 8 * start + 32
    {
      BitsDifferInByte(a, b, i);
    }
    BurstDetected(ALL_ONES, Bits(a), Bits(b), 8 * start);
    if Checksum(a) == Checksum(b) {
      XorSame(Serial(ALL_ONES, Bits(a)), Serial(ALL_ONES, Bits(b)), ALL_ONES);
    }
  }
}
