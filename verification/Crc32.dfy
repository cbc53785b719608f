/** The CRC-32 of src/crash_recovery.c: a 256-entry table and a byte loop, against
    bit-by-bit division by the reversed polynomial 0xEDB88320 (section 8 of RFC 1952).
    The word operations have names so that proofs can hide their bits. */
module Crc32 {

  type Byte = bv8

  const POLYNOMIAL: bv32 := 0xEDB88320
  const ONES: bv32 := 0xFFFFFFFF

  function Xor(x: bv32, y: bv32): bv32 {
    x ^ y
  }

  function Half(x: bv32): bv32 {
    x >> 1
  }

  predicate Odd(x: bv32) {
    x & 1 == 1
  }

  function LowByte(x: bv32): bv32 {
    x & 0xFF
  }

  function HighBytes(x: bv32): bv32 {
    x & 0xFFFFFF00
  }

  function ShiftByte(x: bv32): bv32 {
    x >> 8
  }

  function Word(b: Byte): bv32 {
    b as bv32
  }

  function BitOf(b: bool): bv32 {
    if b then 1 else 0
  }

  /** One step of the division register: shift out a bit, subtract if it was set. */
  function Step(x: bv32): bv32 {
    if Odd(x) then Xor(POLYNOMIAL, Half(x)) else Half(x)
  }

  function Steps(x: bv32, n: nat): bv32
    decreases n
  {
    if n == 0 then x else Steps(Step(x), n - 1)
  }

  /** The register after the message bits have been fed in, low bit first. */
  function Divide(x: bv32, bits: seq<bool>): bv32
    decreases bits
  {
    if bits == [] then x else Divide(Step(Xor(x, BitOf(bits[0]))), bits[1..])
  }

  function Halves(w: bv32, n: nat): bv32
    decreases n
  {
    if n == 0 then w else Halves(Half(w), n - 1)
  }

  function LowBits(w: bv32, n: nat): (bits: seq<bool>)
    ensures |bits| == n
    decreases n
  {
    if n == 0 then [] else [Odd(w)] + LowBits(Half(w), n - 1)
  }

  function Bits(data: seq<Byte>): (bits: seq<bool>)
    ensures |bits| == 8 * |data|
  {
    if data == [] then [] else LowBits(Word(data[0]), 8) + Bits(data[1..])
  }

  /** The checksum by long division: what the table loop has to compute. */
  function Crc(data: seq<Byte>): bv32 {
    Xor(Divide(ONES, Bits(data)), ONES)
  }

  // ------------------------------------------------------------- table and loop

  class Table {
    const entries: array<bv32>

    ghost predicate Valid()
      reads this, entries
    {
      entries.Length == 256 && forall i: int | 0 <= i < 256 :: entries[i] == Steps(i as bv32, 8)
    }

    /** crc32_build_table */
    constructor ()
      ensures Valid() && fresh(entries)
    {
      hide Xor, Half, Odd;
      entries := new bv32[256];
      new;
      var i := 0;
      while i < 256
        invariant 0 <= i <= 256
        invariant forall k: int | 0 <= k < i :: entries[k] == Steps(k as bv32, 8)
      {
        var crc := i as bv32;
        var j := 0;
        while j < 8
          invariant 0 <= j <= 8
          invariant Steps(crc, 8 - j) == Steps(i as bv32, 8)
        {
          crc := if Odd(crc) then Xor(POLYNOMIAL, Half(crc)) else Half(crc);
          j := j + 1;
        }
        entries[i] := crc;
        i := i + 1;
      }
    }

    /** crc32_compute: the table loop computes the long division. */
    method Compute(data: seq<Byte>) returns (crc: bv32)
      requires Valid()
      ensures crc == Crc(data)
    {
      hide Step, LowBits;
      crc := ONES;
      var i := 0;
      while i < |data|
        invariant 0 <= i <= |data|
        invariant Divide(crc, Bits(data[i..])) == Divide(ONES, Bits(data))
      {
        assert data[i..][0] == data[i] && data[i..][1..] == data[i + 1..];
        DivideConcat(crc, LowBits(Word(data[i]), 8), Bits(data[i + 1..]));
        TableStep(crc, data[i]);
        crc := Lookup(crc, data[i]);
        i := i + 1;
      }
      crc := Xor(crc, ONES);
    }

    /** The body of the byte loop. */
    method Lookup(crc: bv32, b: Byte) returns (r: bv32)
      requires Valid()
      ensures r == Xor(Steps(LowByte(Xor(crc, Word(b))), 8), ShiftByte(crc))
    {
      hide Steps, Xor, LowByte, Word, ShiftByte;
      var index := LowByte(Xor(crc, Word(b)));
      LowByteIsIndex(Xor(crc, Word(b)));
      r := Xor(entries[index as int], ShiftByte(crc));
    }
  }

  lemma LowByteIsIndex(x: bv32)
    ensures LowByte(x) as int < 256 && (LowByte(x) as int) as bv32 == LowByte(x)
  {}

  // --------------------------------------------------------- the words and xor

  lemma XorCommutes(x: bv32, y: bv32)
    ensures Xor(x, y) == Xor(y, x)
  {}

  lemma XorAssociates(x: bv32, y: bv32, z: bv32)
    ensures Xor(Xor(x, y), z) == Xor(x, Xor(y, z))
  {}

  lemma XorSelf(x: bv32)
    ensures Xor(x, x) == 0 && Xor(x, 0) == x
  {}

  lemma XorCancels(p: bv32, x: bv32, y: bv32)
    ensures Xor(Xor(p, x), Xor(p, y)) == Xor(x, y)
    ensures Xor(Xor(p, x), y) == Xor(p, Xor(x, y)) == Xor(x, Xor(p, y))
  {
    hide Xor;
    XorCommutes(p, x);
    XorAssociates(x, p, Xor(p, y));
    XorAssociates(p, p, y);
    XorSelf(p);
    XorSelf(y);
    XorCommutes(0, y);
    XorAssociates(p, x, y);
    XorAssociates(x, p, y);
  }

  lemma XorEqual(x: bv32, y: bv32)
    ensures Xor(x, y) == 0 <==> x == y
  {
    hide Xor;
    XorSelf(x);
    XorCancels(x, 0, y);
    XorSelf(y);
    if Xor(x, y) == 0 {
      XorCommutes(x, y);
      XorAssociates(y, x, x);
      XorCommutes(0, y);
      XorCommutes(0, x);
      XorAssociates(x, x, y);
    }
  }

  lemma HalfXor(x: bv32, y: bv32)
    ensures Half(Xor(x, y)) == Xor(Half(x), Half(y))
  {}

  lemma OddXor(x: bv32, y: bv32)
    ensures Odd(Xor(x, y)) <==> Odd(x) != Odd(y)
  {
    assert (x ^ y) & 1 == (x & 1) ^ (y & 1);
    assert x & 1 == 0 || x & 1 == 1;
    assert y & 1 == 0 || y & 1 == 1;
  }

  lemma HalfBit(b: bool)
    ensures Half(BitOf(b)) == 0 && (Odd(BitOf(b)) <==> b)
  {}

  // -------------------------------------------------- the division is linear

  lemma StepXor(x: bv32, y: bv32)
    ensures Step(Xor(x, y)) == Xor(Step(x), Step(y))
  {
    hide Xor, Half, Odd;
    HalfXor(x, y);
    OddXor(x, y);
    XorCancels(POLYNOMIAL, Half(x), Half(y));
  }

  lemma {:induction false} StepsXor(x: bv32, y: bv32, n: nat)
    ensures Steps(Xor(x, y), n) == Xor(Steps(x, n), Steps(y, n))
    decreases n
  {
    hide Step, Xor;
    if n > 0 {
      StepXor(x, y);
      StepsXor(Step(x), Step(y), n - 1);
    }
  }

  lemma {:induction false} DivideConcat(x: bv32, a: seq<bool>, b: seq<bool>)
    ensures Divide(x, a + b) == Divide(Divide(x, a), b)
    decreases a
  {
    hide Step, Xor, BitOf;
    if a == [] {
      assert a + b == b;
    } else {
      assert (a + b)[1..] == a[1..] + b;
      DivideConcat(Step(Xor(x, BitOf(a[0]))), a[1..], b);
    }
  }

  /** An even register is only shifted. */
  lemma StepTakesBit(x: bv32, w: bv32)
    ensures Step(Xor(x, w)) == Xor(Step(Xor(x, BitOf(Odd(w)))), Half(w))
  {
    hide Xor, Half, Odd, BitOf;
    HalfXor(x, w);
    OddXor(x, w);
    HalfXor(x, BitOf(Odd(w)));
    OddXor(x, BitOf(Odd(w)));
    HalfBit(Odd(w));
    XorSelf(Half(x));
    XorAssociates(POLYNOMIAL, Half(x), Half(w));
  }

  /** Feeding a word's low bits is stepping with the word xored in. */
  lemma {:induction false} DivideLowBits(x: bv32, w: bv32, n: nat)
    ensures Divide(x, LowBits(w, n)) == Xor(Steps(Xor(x, w), n), Halves(w, n))
    decreases n
  {
    hide Step, BitOf, Xor, Half, Odd;
    if n == 0 {
      XorAssociates(x, w, w);
      XorSelf(w);
      XorSelf(x);
    } else {
      StepTakesBit(x, w);
      DivideLowBits(Step(Xor(x, BitOf(Odd(w)))), Half(w), n - 1);
      assert LowBits(w, n)[1..] == LowBits(Half(w), n - 1);
    }
  }

  /** A register whose low n bits are clear is only shifted. */
  lemma {:induction false} StepsOfHigh(x: bv32, n: nat)
    requires LowBits(x, n) == seq(n, i => false)
    ensures Steps(x, n) == Halves(x, n)
    decreases n
  {
    hide Xor, Half, Odd;
    if n > 0 {
      assert !Odd(x) by {
        assert LowBits(x, n)[0] == Odd(x);
      }
      assert LowBits(Half(x), n - 1) == LowBits(x, n)[1..];
      StepsOfHigh(Half(x), n - 1);
    }
  }

  /** The table identity: eight division steps are one lookup and one shift. */
  lemma TableStep(crc: bv32, b: Byte)
    ensures Divide(crc, LowBits(Word(b), 8)) == Xor(Steps(LowByte(Xor(crc, Word(b))), 8), ShiftByte(crc))
  {
    hide Step, BitOf, Divide, LowBits, Steps, Halves, Xor, LowByte, Word, HighBytes, ShiftByte;
    var y := Xor(crc, Word(b));
    DivideLowBits(crc, Word(b), 8);
    EightHalves(Word(b));
    ByteIsLow(b);
    SplitLowByte(crc, b);
    StepsXor(LowByte(y), HighBytes(y), 8);
    HighClear(y);
    StepsOfHigh(HighBytes(y), 8);
    EightHalves(HighBytes(y));
    XorSelf(Xor(Steps(LowByte(y), 8), ShiftByte(crc)));
  }

  lemma SplitLowByte(crc: bv32, b: Byte)
    ensures var y := Xor(crc, Word(b));
            Xor(LowByte(y), HighBytes(y)) == y && ShiftByte(HighBytes(y)) == ShiftByte(crc)
  {}

  lemma ByteIsLow(b: Byte)
    ensures ShiftByte(Word(b)) == 0
  {}

  lemma HighClear(x: bv32)
    ensures LowBits(HighBytes(x), 8) == seq(8, i => false)
  {
    var y := HighBytes(x);
    EvenHalves(x);
    hide Odd, Half;
    var h1 := Half(y);
    var h2 := Half(h1);
    var h3 := Half(h2);
    var h4 := Half(h3);
    var h5 := Half(h4);
    var h6 := Half(h5);
    assert LowBits(h4, 4) == [false, false, false, false] by {
      assert LowBits(h6, 2) == [false, false];
    }
    assert LowBits(h2, 6) == [false, false] + LowBits(h4, 4);
    assert LowBits(y, 8) == [false, false] + LowBits(h2, 6);
  }

  lemma EvenHalves(x: bv32)
    ensures var y := HighBytes(x);
      && !Odd(y) && !Odd(Half(y)) && !Odd(Half(Half(y))) && !Odd(Half(Half(Half(y))))
      && !Odd(Half(Half(Half(Half(y))))) && !Odd(Half(Half(Half(Half(Half(y))))))
      && !Odd(Half(Half(Half(Half(Half(Half(y)))))))
      && !Odd(Half(Half(Half(Half(Half(Half(Half(y))))))))
  {}

  lemma EightHalves(w: bv32)
    ensures Halves(w, 8) == ShiftByte(w)
  {
    HalfEight(w);
    hide Half;
    var h4 := Half(Half(Half(Half(w))));
    assert Halves(w, 8) == Halves(h4, 4);
  }

  lemma HalfEight(w: bv32)
    ensures Half(Half(Half(Half(Half(Half(Half(Half(w)))))))) == ShiftByte(w)
  {}

  // ---------------------------------------------------------- error detection

  function XorBits(a: seq<bool>, b: seq<bool>): (c: seq<bool>)
    requires |a| == |b|
    ensures |c| == |a|
  {
    if a == [] then [] else [a[0] != b[0]] + XorBits(a[1..], b[1..])
  }

  /** Two registers fed two messages differ by the difference fed the difference. */
  lemma {:induction false} DivideXor(x: bv32, y: bv32, a: seq<bool>, b: seq<bool>)
    requires |a| == |b|
    ensures Xor(Divide(x, a), Divide(y, b)) == Divide(Xor(x, y), XorBits(a, b))
    decreases a
  {
    hide Step, Xor, BitOf;
    if a != [] {
      var ba, bb := BitOf(a[0]), BitOf(b[0]);
      DivideXor(Step(Xor(x, ba)), Step(Xor(y, bb)), a[1..], b[1..]);
      StepXor(Xor(x, ba), Xor(y, bb));
      XorAssociates(x, ba, Xor(y, bb));
      XorCancels(y, ba, bb);
      XorAssociates(x, y, Xor(ba, bb));
      BitXor(a[0], b[0]);
      assert XorBits(a, b)[1..] == XorBits(a[1..], b[1..]);
    }
  }

  lemma BitXor(a: bool, b: bool)
    ensures Xor(BitOf(a), BitOf(b)) == BitOf(a != b)
  {}

  predicate TopBit(x: bv32) {
    x & 0x8000_0000 != 0
  }

  lemma TopBitOfOddStep(x: bv32)
    requires Odd(x)
    ensures TopBit(Step(x))
  {}

  lemma StepOfZero(x: bv32)
    ensures Step(x) == 0 <==> x == 0
  {
    if Odd(x) {
      TopBitOfOddStep(x);
    }
    OddOrHalf(x);
  }

  lemma OddOrHalf(x: bv32)
    ensures !Odd(x) && Half(x) == 0 <==> x == 0
    ensures Half(0) == 0 && !TopBit(0)
  {}

  lemma HalfIgnoresBit(x: bv32, b: bool)
    ensures Half(Xor(x, BitOf(b))) == Half(x)
  {}

  /** The division step loses nothing, so a common tail keeps a difference. */
  lemma {:induction false} DivideInjective(x: bv32, y: bv32, bits: seq<bool>)
    requires Divide(x, bits) == Divide(y, bits)
    ensures x == y
    decreases bits
  {
    hide Step, Xor, BitOf;
    if bits != [] {
      var b := BitOf(bits[0]);
      DivideInjective(Step(Xor(x, b)), Step(Xor(y, b)), bits[1..]);
      StepXor(Xor(x, b), Xor(y, b));
      XorEqual(Step(Xor(x, b)), Step(Xor(y, b)));
      StepOfZero(Xor(Xor(x, b), Xor(y, b)));
      XorEqual(Xor(x, b), Xor(y, b));
      XorCommutes(x, b);
      XorCommutes(y, b);
      XorCancels(b, x, y);
      XorEqual(x, y);
    }
  }

  /** A register with its top bit set survives 31 shifts. */
  lemma {:induction false} TopBitSurvives(x: bv32, n: nat)
    requires TopBit(x) && n <= 31
    ensures Halves(x, n) != 0
  {
    hide Half, TopBit;
    if Halves(x, n) == 0 {
      HalvesAdd(x, n, 31 - n);
      HalvesOfZero(31 - n);
      TopBitLast(x);
    }
  }

  lemma {:induction false} HalvesAdd(x: bv32, m: nat, n: nat)
    ensures Halves(x, m + n) == Halves(Halves(x, m), n)
    decreases m
  {
    hide Half;
    if m > 0 {
      HalvesAdd(Half(x), m - 1, n);
    }
  }

  lemma {:induction false} HalvesOfZero(n: nat)
    ensures Halves(0, n) == 0
  {
    if n > 0 {
      OddOrHalf(0);
      HalvesOfZero(n - 1);
    }
  }

  lemma TopBitLast(x: bv32)
    requires TopBit(x)
    ensures Halves(x, 31) != 0
  {
    hide Halves, Half, TopBit;
    EightHalves(x);
    HalvesAdd(x, 8, 23);
    var y := Halves(x, 8);
    EightHalves(y);
    HalvesAdd(y, 8, 15);
    var z := Halves(y, 8);
    EightHalves(z);
    HalvesAdd(z, 8, 7);
    var u := Halves(z, 8);
    SevenHalves(u);
    TopByte(x);
  }

  lemma TopByte(x: bv32)
    requires TopBit(x)
    ensures ShiftByte(ShiftByte(ShiftByte(x))) >> 7 != 0
  {}

  lemma SevenHalves(w: bv32)
    ensures Halves(w, 7) == w >> 7
  {
    HalfSeven(w);
    hide Half;
    assert Halves(w, 7) == Halves(Half(Half(Half(Half(w)))), 3);
  }

  lemma HalfSeven(w: bv32)
    ensures Half(Half(Half(Half(Half(Half(Half(w))))))) == w >> 7
  {}

  /** Backwards from a zero register: at most as many low bits as steps are left. */
  lemma {:induction false} ZeroBackwards(x: bv32, bits: seq<bool>)
    requires Divide(x, bits) == 0 && |bits| <= 32
    ensures Halves(x, |bits|) == 0
    decreases bits
  {
    hide Step, Xor, BitOf, Half, Odd, TopBit;
    if bits != [] {
      var y := Xor(x, BitOf(bits[0]));
      ZeroBackwards(Step(y), bits[1..]);
      if Odd(y) {
        TopBitOfOddStep(y);
        TopBitSurvives(Step(y), |bits| - 1);
      }
      StepOfEven(y);
      HalfIgnoresBit(x, bits[0]);
    }
  }

  lemma StepOfEven(y: bv32)
    ensures !Odd(y) ==> Step(y) == Half(y)
  {}

  /** A nonzero burst of at most 32 bits never leaves the register at zero. */
  lemma {:induction false} BurstIsSeen(bits: seq<bool>)
    requires |bits| <= 32 && Divide(0, bits) == 0
    ensures true !in bits
    decreases bits
  {
    hide Step, Xor, BitOf, Half, Odd, TopBit;
    if bits != [] {
      XorSelf(BitOf(bits[0]));
      XorCommutes(0, BitOf(bits[0]));
      if bits[0] {
        TopBitOfOne();
        ZeroBackwards(Step(1), bits[1..]);
        TopBitSurvives(Step(1), |bits| - 1);
      } else {
        StepOfZero(0);
        assert BitOf(false) == 0 by { BitValues(); }
        BurstIsSeen(bits[1..]);
      }
    }
  }

  lemma TopBitOfOne()
    ensures BitOf(true) == 1 && TopBit(Step(1))
  {}

  lemma BitValues()
    ensures BitOf(false) == 0
  {}

  lemma {:induction false} XorBitsOfDifferent(a: seq<bool>, b: seq<bool>)
    requires |a| == |b| && true !in XorBits(a, b)
    ensures a == b
  {
    if a != [] {
      assert XorBits(a, b)[0] == (a[0] != b[0]);
      assert XorBits(a, b)[1..] == XorBits(a[1..], b[1..]);
      XorBitsOfDifferent(a[1..], b[1..]);
    }
  }

  /** Messages that agree outside 32 consecutive bits, and differ there, never
      leave the same remainder. */
  lemma BurstDetected(x: bv32, head: seq<bool>, a: seq<bool>, b: seq<bool>, tail: seq<bool>)
    requires |a| == |b| <= 32 && a != b
    ensures Divide(x, head + a + tail) != Divide(x, head + b + tail)
  {
    hide Divide, Xor, XorBits;
    var y := Divide(x, head);
    DivideConcat(x, head + a, tail);
    DivideConcat(x, head, a);
    DivideConcat(x, head + b, tail);
    DivideConcat(x, head, b);
    if Divide(x, head + a + tail) == Divide(x, head + b + tail) {
      DivideInjective(Divide(y, a), Divide(y, b), tail);
      DivideXor(y, y, a, b);
      XorEqual(Divide(y, a), Divide(y, b));
      XorEqual(y, y);
      BurstIsSeen(XorBits(a, b));
      XorBitsOfDifferent(a, b);
    }
  }

  lemma {:induction false} BitsConcat(a: seq<Byte>, b: seq<Byte>)
    ensures Bits(a + b) == Bits(a) + Bits(b)
  {
    hide LowBits, Word;
    if a == [] {
      assert a + b == b;
    } else {
      assert (a + b)[1..] == a[1..] + b;
      BitsConcat(a[1..], b);
    }
  }

  lemma {:induction false} BitsInjective(a: seq<Byte>, b: seq<Byte>)
    requires |a| == |b| && Bits(a) == Bits(b)
    ensures a == b
  {
    hide LowBits, Word;
    if a != [] {
      assert LowBits(Word(a[0]), 8) == Bits(a)[..8] == Bits(b)[..8] == LowBits(Word(b[0]), 8);
      assert Bits(a[1..]) == Bits(a)[8..] == Bits(b)[8..] == Bits(b[1..]);
      ByteOfBits(a[0], b[0]);
      BitsInjective(a[1..], b[1..]);
    }
  }

  lemma ByteOfBits(a: Byte, b: Byte)
    requires LowBits(Word(a), 8) == LowBits(Word(b), 8)
    ensures a == b
  {
    hide Word;
    if a != b {
      EightHalves(Word(a));
      EightHalves(Word(b));
      ByteIsLow(a);
      ByteIsLow(b);
      LowBitsDiffer(Word(a), Word(b), 8);
      WordInjective(a, b);
    }
  }

  lemma WordInjective(a: Byte, b: Byte)
    requires Word(a) == Word(b)
    ensures a == b
  {}

  lemma {:induction false} LowBitsDiffer(v: bv32, w: bv32, n: nat)
    requires LowBits(v, n) == LowBits(w, n) && Halves(v, n) == Halves(w, n)
    ensures v == w
    decreases n
  {
    hide Half, Odd;
    if n > 0 {
      assert Odd(v) == LowBits(v, n)[0] == LowBits(w, n)[0] == Odd(w);
      assert LowBits(Half(v), n - 1) == LowBits(v, n)[1..] == LowBits(w, n)[1..] == LowBits(Half(w), n - 1);
      LowBitsDiffer(Half(v), Half(w), n - 1);
      HalfAndOdd(v, w);
    }
  }

  lemma HalfAndOdd(v: bv32, w: bv32)
    requires Half(v) == Half(w) && Odd(v) == Odd(w)
    ensures v == w
  {
    hide Half, Odd, Xor;
    HalfXor(v, w);
    OddXor(v, w);
    XorSelf(Half(v));
    OddOrHalf(Xor(v, w));
    XorEqual(v, w);
  }

  /** Two bodies of equal length that differ, and only within four consecutive
      bytes, never share a checksum. */
  lemma FourByteBurstDetected(a: seq<Byte>, b: seq<Byte>, i: nat)
    requires |a| == |b| && a != b
    requires forall k :: 0 <= k < |a| && !(i <= k < i + 4) ==> a[k] == b[k]
    ensures Crc(a) != Crc(b)
  {
    hide Divide, Xor, Bits;
    var lo := if i < |a| then i else |a|;
    var hi := if i + 4 < |a| then i + 4 else |a|;
    var head, tail := a[..lo], a[hi..];
    var wa, wb := a[lo..hi], b[lo..hi];
    assert a == head + wa + tail;
    assert b == head + wb + tail;
    BitsConcat(head + wa, tail);
    BitsConcat(head, wa);
    BitsConcat(head + wb, tail);
    BitsConcat(head, wb);
    if Bits(wa) == Bits(wb) {
      BitsInjective(wa, wb);
    }
    BurstDetected(ONES, Bits(head), Bits(wa), Bits(wb), Bits(tail));
    if Crc(a) == Crc(b) {
      XorRight(Divide(ONES, Bits(a)), Divide(ONES, Bits(b)), ONES);
    }
  }

  lemma XorRight(x: bv32, y: bv32, z: bv32)
    requires Xor(x, z) == Xor(y, z)
    ensures x == y
  {
    hide Xor;
    XorCommutes(x, z);
    XorCommutes(y, z);
    XorCancels(z, x, y);
    XorEqual(Xor(z, x), Xor(z, y));
    XorEqual(x, y);
  }
}
