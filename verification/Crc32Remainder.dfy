/** The CRC-32 as section 8 of RFC 1952 defines it: the remainder of a polynomial division
    over the two-element field. A polynomial is the list of its coefficients, the highest
    power first. */
module Crc32Remainder {
  import opened Crc32

  type Poly = seq<bool>

  /** The powers of x in the generator. */
  const POWERS: set<int> := {32, 26, 23, 22, 16, 12, 11, 10, 8, 7, 5, 4, 2, 1, 0}

  function Generator(): (g: Poly)
    ensures |g| == 33
  {
    seq(33, i => 32 - i in POWERS)
  }

  function Zeros(n: nat): (z: Poly)
    ensures |z| == n
  {
    seq(n, i => false)
  }

  function Ones(n: nat): (z: Poly)
    ensures |z| == n
  {
    seq(n, i => true)
  }

  /** Addition, coefficient by coefficient. */
  function Plus(a: Poly, b: Poly): (c: Poly)
    requires |a| == |b|
    ensures |c| == |a|
  {
    seq(|a|, i requires 0 <= i < |a| => a[i] != b[i])
  }

  /** The product with the generator. */
  function Product(q: Poly): (p: Poly)
    ensures |p| == |q| + 32
  {
    if q == [] then Zeros(32)
    else
      var rest := [false] + Product(q[1..]);
      if q[0] then Plus(Generator() + Zeros(|q| - 1), rest) else rest
  }

  /** The register: its low bit is the coefficient of the highest power. */
  function Register(w: bv32): (p: Poly)
    ensures |p| == 32
  {
    LowBits(w, 32)
  }

  // ------------------------------------------------------------------- the words

  lemma {:induction false} LowBitsOfXor(x: bv32, y: bv32, n: nat)
    ensures LowBits(Xor(x, y), n) == Plus(LowBits(x, n), LowBits(y, n))
    decreases n
  {
    hide Xor, Half, Odd;
    if n > 0 {
      HalfXor(x, y);
      OddXor(x, y);
      LowBitsOfXor(Half(x), Half(y), n - 1);
    }
  }

  lemma {:induction false} LowBitsOfZero(n: nat)
    ensures LowBits(0, n) == Zeros(n)
    decreases n
  {
    hide Half, Odd;
    OddOrHalf(0);
    if n > 0 {
      LowBitsOfZero(n - 1);
    }
  }

  lemma LowBitsOfBit(b: bool, n: nat)
    requires n > 0
    ensures LowBits(BitOf(b), n) == [b] + Zeros(n - 1)
  {
    hide Half, Odd, BitOf;
    HalfBit(b);
    LowBitsOfZero(n - 1);
  }

  lemma {:induction false} LowBitsEnd(w: bv32, n: nat)
    ensures LowBits(w, n + 1) == LowBits(w, n) + [Odd(Halves(w, n))]
    decreases n
  {
    hide Half, Odd;
    if n > 0 {
      LowBitsEnd(Half(w), n - 1);
    }
  }

  lemma AllHalves(w: bv32)
    ensures Halves(w, 32) == 0
  {
    HalvesAdd(w, 8, 24);
    HalvesAdd(Halves(w, 8), 8, 16);
    HalvesAdd(Halves(Halves(w, 8), 8), 8, 8);
    hide Half, ShiftByte;
    EightHalves(w);
    EightHalves(ShiftByte(w));
    EightHalves(ShiftByte(ShiftByte(w)));
    EightHalves(ShiftByte(ShiftByte(ShiftByte(w))));
    FourBytes(w);
  }

  lemma FourBytes(w: bv32)
    ensures ShiftByte(ShiftByte(ShiftByte(ShiftByte(w)))) == 0
  {}

  /** Shifting the register multiplies by x. */
  lemma RegisterOfHalf(w: bv32)
    ensures Register(w) + [false] == [Odd(w)] + Register(Half(w))
  {
    hide Half, Odd;
    LowBitsEnd(w, 32);
    AllHalves(w);
    OddOrHalf(0);
  }

  lemma Nibble(w: bv32, n: nat)
    ensures LowBits(w, n + 4) == [w & 1 != 0, w & 2 != 0, w & 4 != 0, w & 8 != 0] + LowBits(w >> 4, n)
  {
    NibbleBits(w);
    hide Half, Odd, LowBits;
    TwoBits(w, n + 2);
    TwoBits(Half(Half(w)), n);
  }

  lemma TwoBits(w: bv32, n: nat)
    ensures LowBits(w, n + 2) == [Odd(w), Odd(Half(w))] + LowBits(Half(Half(w)), n)
  {
    hide Half, Odd;
    assert LowBits(Half(w), n + 1) == [Odd(Half(w))] + LowBits(Half(Half(w)), n);
  }

  lemma NibbleBits(w: bv32)
    ensures Odd(w) == (w & 1 != 0) && Odd(Half(w)) == (w & 2 != 0)
    ensures Odd(Half(Half(w))) == (w & 4 != 0) && Odd(Half(Half(Half(w)))) == (w & 8 != 0)
    ensures Half(Half(Half(Half(w)))) == w >> 4
  {
    HalvesShift(w);
    hide Half, Odd;
    OddBits(w);
  }

  lemma HalvesShift(w: bv32)
    ensures Half(w) == w >> 1 && Half(Half(w)) == w >> 2 && Half(Half(Half(w))) == w >> 3
    ensures Half(Half(Half(Half(w)))) == w >> 4
  {}

  lemma OddBits(w: bv32)
    ensures Odd(w) == (w & 1 != 0) && Odd(w >> 1) == (w & 2 != 0)
    ensures Odd(w >> 2) == (w & 4 != 0) && Odd(w >> 3) == (w & 8 != 0)
  {
    OddIs(w);
    OddIs(w >> 1);
    OddIs(w >> 2);
    OddIs(w >> 3);
    hide Odd;
  }

  lemma OddIs(w: bv32)
    ensures Odd(w) == (w & 1 != 0)
  {}

  lemma HighNibble(w: bv32)
    ensures ((w >> 4) & 1 != 0) == (w & 16 != 0) && ((w >> 4) & 2 != 0) == (w & 32 != 0)
    ensures ((w >> 4) & 4 != 0) == (w & 64 != 0) && ((w >> 4) & 8 != 0) == (w & 128 != 0)
  {}

  /** The message polynomial has the bits of each byte in order, the low bit first. */
  lemma BitsOfByte(b: Byte)
    ensures var w := Word(b);
            LowBits(w, 8) ==
            [w & 1 != 0, w & 2 != 0, w & 4 != 0, w & 8 != 0, w & 16 != 0, w & 32 != 0, w & 64 != 0, w & 128 != 0]
  {
    hide LowBits, Word, Half, Odd;
    var w := Word(b);
    HighNibble(w);
    Nibble(w, 4);
    Nibble(w >> 4, 0);
    NoBits((w >> 4) >> 4);
  }

  lemma NoBits(w: bv32)
    ensures LowBits(w, 0) == []
  {}

  lemma LowPolynomialBits()
    ensures LowBits(POLYNOMIAL, 32) ==
            [false, false, false, false] + [false, true, false, false] +
            [true, true, false, false] + [false, false, false, true] + LowBits(0xedb8, 16)
  {
    hide LowBits;
    Nibble(0xedb88320, 28);
    Nibble(0xedb8832, 24);
    Nibble(0xedb883, 20);
    Nibble(0xedb88, 16);
  }

  lemma HighPolynomialBits()
    ensures LowBits(0xedb8, 16) ==
            [false, false, false, true] + [true, true, false, true] +
            [true, false, true, true] + [false, true, true, true]
  {
    hide LowBits;
    Nibble(0xedb8, 12);
    Nibble(0xedb, 8);
    Nibble(0xed, 4);
    Nibble(0xe, 0);
    NoBits(0);
  }

  /** The constant is the generator without its highest power. */
  lemma RegisterOfPolynomial()
    ensures [true] + Register(POLYNOMIAL) == Generator()
  {
    hide LowBits;
    LowPolynomialBits();
    HighPolynomialBits();
  }

  // -------------------------------------------------------------------- division

  /** One step of the register is multiplication by x, and taking the generator away when
      that overflows. */
  lemma StepDivides(y: bv32)
    ensures [false] + Register(Step(y)) ==
            if Odd(y) then Plus(Generator(), Register(y) + [false]) else Register(y) + [false]
  {
    RegisterOfHalf(y);
    hide Register, Generator, Odd, Half, Xor;
    if Odd(y) {
      LowBitsIsRegister(POLYNOMIAL, Half(y));
      RegisterOfPolynomial();
      var p, h := Register(POLYNOMIAL), Register(Half(y));
      assert Plus([true] + p, [true] + h) == [false] + Plus(p, h);
    }
  }

  lemma LowBitsIsRegister(x: bv32, y: bv32)
    ensures Register(Xor(x, y)) == Plus(Register(x), Register(y))
  {
    hide Xor;
    LowBitsOfXor(x, y, 32);
  }

  /** The polynomial that is divided: the message times x to the 32nd, with the register
      added to its first 32 coefficients. */
  function Dividend(x: bv32, bits: seq<bool>): (d: Poly)
    ensures |d| == |bits| + 32
  {
    Plus(Register(x) + Zeros(|bits|), bits + Zeros(32))
  }

  lemma RegisterOfBit(b: bool)
    ensures Register(BitOf(b)) == [b] + Zeros(31)
  {
    LowBitsOfBit(b, 32);
  }

  lemma FirstBitFolds(x: bv32, bits: seq<bool>)
    requires bits != []
    ensures var y := Xor(x, BitOf(bits[0]));
            Dividend(x, bits) == Plus(Register(y) + Zeros(|bits|), [false] + bits[1..] + Zeros(32))
  {
    hide Register, Xor, BitOf;
    var b := bits[0];
    LowBitsIsRegister(x, BitOf(b));
    RegisterOfBit(b);
  }

  /** One bit of the division: the dividend that is left, the generator taken away when the
      leading coefficient is one. */
  lemma DividendStep(x: bv32, bits: seq<bool>)
    requires bits != []
    ensures var y, n := Xor(x, BitOf(bits[0])), |bits|;
            var left := [false] + Dividend(Step(y), bits[1..]);
            Dividend(x, bits) == if Odd(y) then Plus(Generator() + Zeros(n - 1), left) else left
  {
    hide Register, Generator, Odd, Step, Xor, BitOf;
    var y, n, rest := Xor(x, BitOf(bits[0])), |bits|, bits[1..];
    FirstBitFolds(x, bits);
    StepDivides(y);
    var r, r' := Register(y), Register(Step(y));
    assert r + Zeros(n) == (r + [false]) + Zeros(n - 1);
    if Odd(y) {
      assert r + [false] == Plus(Generator(), [false] + r');
    }
  }

  lemma Carry(d: Poly, p: Poly, g: Poly, r: Poly, n: nat)
    requires |r| == 32 && |d| == |p| == n + 32 && |g| == n + 33 && d == Plus(p, Zeros(n) + r)
    ensures [false] + d == Plus([false] + p, Zeros(n + 1) + r)
    ensures Plus(g, [false] + d) == Plus(Plus(g, [false] + p), Zeros(n + 1) + r)
  {
    var left, right := [false] + d, Plus([false] + p, Zeros(n + 1) + r);
    forall i | 0 <= i < n + 33
      ensures left[i] == right[i]
    {
      if i > 0 {
        assert left[i] == d[i - 1] && (Zeros(n + 1) + r)[i] == (Zeros(n) + r)[i - 1];
      }
    }
    assert left == right;
  }

  /** The final register is the remainder of that polynomial by the generator. */
  lemma {:induction false} DivideIsRemainder(x: bv32, bits: seq<bool>) returns (q: Poly)
    ensures |q| == |bits|
    ensures Dividend(x, bits) == Plus(Product(q), Zeros(|bits|) + Register(Divide(x, bits)))
    decreases bits
  {
    hide Register, Generator, Odd, Step, Xor, BitOf;
    if bits == [] {
      q := [];
      assert Register(x) + [] == Register(x) && [] + Zeros(32) == Zeros(32) && Zeros(0) + Register(x) == Register(x);
    } else {
      var y, rest := Xor(x, BitOf(bits[0])), bits[1..];
      var q' := DivideIsRemainder(Step(y), rest);
      q := [Odd(y)] + q';
      assert q[1..] == q';
      DividendStep(x, bits);
      StepDivides(y);
      var r := Register(Divide(x, bits));
      assert Divide(x, bits) == Divide(Step(y), rest);
      hide Dividend, Divide, Plus, Zeros;
      Carry(Dividend(Step(y), rest), Product(q'), Generator() + Zeros(|rest|), r, |rest|);
    }
  }

  // --------------------------------------------------------------- the remainder

  /** Quotient and remainder of a polynomial by the generator are unique. */
  lemma {:induction false} RemainderUnique(q1: Poly, r1: Poly, q2: Poly, r2: Poly)
    requires |q1| == |q2| && |r1| == |r2| == 32
    requires Plus(Product(q1), Zeros(|q1|) + r1) == Plus(Product(q2), Zeros(|q2|) + r2)
    ensures q1 == q2 && r1 == r2
    decreases |q1|
  {
    var a, b := Plus(Product(q1), Zeros(|q1|) + r1), Plus(Product(q2), Zeros(|q2|) + r2);
    if q1 == [] {
      assert forall i | 0 <= i < 32 :: a[i] == r1[i] && b[i] == r2[i];
    } else {
      LeadingBit(q1);
      LeadingBit(q2);
      assert a[0] == q1[0] && b[0] == q2[0];
      var p1, p2 := Product(q1[1..]), Product(q2[1..]);
      SameBehind(q1, r1, q2, r2);
      RemainderUnique(q1[1..], r1, q2[1..], r2);
      assert q1 == [q1[0]] + q1[1..] && q2 == [q2[0]] + q2[1..];
    }
  }

  lemma LeadingBit(q: Poly)
    requires q != []
    ensures Product(q)[0] == q[0]
  {
    assert Generator()[0];
  }

  /** With the same leading bit, what follows is the same too. */
  lemma SameBehind(q1: Poly, r1: Poly, q2: Poly, r2: Poly)
    requires |q1| == |q2| > 0 && |r1| == |r2| == 32 && q1[0] == q2[0]
    requires Plus(Product(q1), Zeros(|q1|) + r1) == Plus(Product(q2), Zeros(|q2|) + r2)
    ensures Plus(Product(q1[1..]), Zeros(|q1| - 1) + r1) == Plus(Product(q2[1..]), Zeros(|q2| - 1) + r2)
  {
    var n := |q1| - 1;
    var a, b := Plus(Product(q1), Zeros(n + 1) + r1), Plus(Product(q2), Zeros(n + 1) + r2);
    var c, d := Plus(Product(q1[1..]), Zeros(n) + r1), Plus(Product(q2[1..]), Zeros(n) + r2);
    var g := Generator() + Zeros(n);
    forall i | 0 <= i < n + 32
      ensures c[i] == d[i]
    {
      Behind(q1, r1, i);
      Behind(q2, r2, i);
      assert a[i + 1] == b[i + 1];
    }
  }

  lemma Behind(q: Poly, r: Poly, i: nat)
    requires q != [] && |r| == 32 && i < |q| + 31
    ensures var g := Generator() + Zeros(|q| - 1);
            Plus(Product(q), Zeros(|q|) + r)[i + 1] ==
            (Plus(Product(q[1..]), Zeros(|q| - 1) + r)[i] != (q[0] && g[i + 1]))
  {
    hide *;
    ProductBehind(q, i);
    TailBehind(|q| - 1, r, i);
    var b := q[0] && (Generator() + Zeros(|q| - 1))[i + 1];
    SumsBehind(Product(q), Product(q[1..]), Zeros(|q|) + r, Zeros(|q| - 1) + r, i, b);
  }

  lemma SumsBehind(p: Poly, p': Poly, t: Poly, t': Poly, i: nat, b: bool)
    requires i + 1 < |p| == |t| && i < |p'| == |t'|
    requires p[i + 1] == (p'[i] != b) && t[i + 1] == t'[i]
    ensures Plus(p, t)[i + 1] == (Plus(p', t')[i] != b)
  {
    SumAt(p, t, i + 1);
    SumAt(p', t', i);
    hide Plus;
  }

  lemma TailBehind(n: nat, r: Poly, i: nat)
    requires i < n + |r|
    ensures (Zeros(n + 1) + r)[i + 1] == (Zeros(n) + r)[i]
  {
  }

  lemma ProductBehind(q: Poly, i: nat)
    requires q != [] && i < |q| + 31
    ensures Product(q)[i + 1] == (Product(q[1..])[i] != (q[0] && (Generator() + Zeros(|q| - 1))[i + 1]))
  {
    hide Generator, Product, Zeros, Plus;
    ProductIs(q);
    ShiftedAt(q[0], Generator() + Zeros(|q| - 1), Product(q[1..]), i);
  }

  lemma ShiftedAt(b: bool, g: Poly, p: Poly, i: nat)
    requires i < |p| && |g| == |p| + 1
    ensures (if b then Plus(g, [false] + p) else [false] + p)[i + 1] == (p[i] != (b && g[i + 1]))
  {
    assert ([false] + p)[i + 1] == p[i];
  }

  lemma ProductIs(q: Poly)
    requires q != []
    ensures var rest := [false] + Product(q[1..]);
            Product(q) == if q[0] then Plus(Generator() + Zeros(|q| - 1), rest) else rest
  {
    hide Generator, Zeros, Plus;
  }

  lemma SumAt(a: Poly, b: Poly, i: nat)
    requires i < |a| == |b|
    ensures Plus(a, b)[i] == (a[i] != b[i])
  {}

  /** The checksum, all its bits inverted, is the remainder of this polynomial by the
      generator: the bits of the data times x to the 32nd, with its first 32
      coefficients inverted. */
  lemma CrcIsRemainder(data: seq<Byte>) returns (q: Poly)
    ensures |q| == 8 * |data|
    ensures Plus(Ones(32) + Zeros(8 * |data|), Bits(data) + Zeros(32)) ==
            Plus(Product(q), Zeros(8 * |data|) + Plus(Register(Crc(data)), Ones(32)))
  {
    hide Register, Xor, Divide, Bits, Product;
    q := DivideIsRemainder(ONES, Bits(data));
    RegisterOfOnes();
    LowBitsIsRegister(Divide(ONES, Bits(data)), ONES);
    var r := Register(Divide(ONES, Bits(data)));
    assert Plus(Plus(r, Ones(32)), Ones(32)) == r;
  }

  lemma RegisterOfOnes()
    ensures Register(ONES) == Ones(32)
  {
    hide LowBits;
    HalfOfOnes();
    Nibble(0xFFFF, 12);
    Nibble(0xFFF, 8);
    Nibble(0xFF, 4);
    Nibble(0xF, 0);
    NoBits(0);
  }

  lemma HalfOfOnes()
    ensures LowBits(ONES, 32) == Ones(16) + LowBits(0xFFFF, 16)
  {
    hide LowBits;
    Nibble(0xFFFFFFFF, 28);
    Nibble(0xFFFFFFF, 24);
    Nibble(0xFFFFFF, 20);
    Nibble(0xFFFFF, 16);
  }
}
