/** Sha256 against FIPS 180-4: where its constants come from (sections 4.2.2 and 5.3.3),
    and what its word functions do to each bit (section 4.1.2). */
module Sha256Standard {
  import opened Sha256

  // ---------------------------------------------------------------- the primes

  const PRIMES: seq<nat> :=
    [2, 3, 5, 7, 11, 13, 17, 19] +
    [23, 29, 31, 37, 41, 43, 47, 53] +
    [59, 61, 67, 71, 73, 79, 83, 89] +
    [97, 101, 103, 107, 109, 113, 127, 131] +
    [137, 139, 149, 151, 157, 163, 167, 173] +
    [179, 181, 191, 193, 197, 199, 211, 223] +
    [227, 229, 233, 239, 241, 251, 257, 263] +
    [269, 271, 277, 281, 283, 293, 307, 311]

  predicate IsPrime(n: nat) {
    n >= 2 && forall d | 2 <= d < n :: n % d != 0
  }

  /** No prime up to the square root divides the number, for numbers below 324. */
  predicate Sieved(n: nat) {
    && n % 2 != 0 && n % 3 != 0 && n % 5 != 0
    && (n < 49 || n % 7 != 0) && (n < 121 || n % 11 != 0) && (n < 169 || n % 13 != 0) && (n < 289 || n % 17 != 0)
  }

  lemma SievedIsPrime(n: nat)
    requires 18 <= n < 324
    ensures IsPrime(n) <==> Sieved(n)
  {
    if IsPrime(n) {
      PrimeIsSieved(n);
    } else {
      CompositeIsNot(n);
    }
  }

  lemma PrimeIsSieved(n: nat)
    requires 18 <= n && IsPrime(n)
    ensures Sieved(n)
  {}

  lemma CompositeIsNot(n: nat)
    requires 18 <= n < 324 && !IsPrime(n)
    ensures !Sieved(n)
  {
    hide Sieved;
    var d :| 2 <= d < n && n % d == 0;
    hide IsPrime;
    var q := n / d;
    Quotient(n, d);
    if d <= q {
      SmallFactor(d, q);
    } else {
      SmallFactor(q, d);
    }
  }

  lemma Quotient(n: nat, d: nat)
    requires 2 <= d < n && n % d == 0
    ensures n == d * (n / d) == (n / d) * d && n / d >= 2
  {
    assert n == d * (n / d);
    assert d * 0 == 0 && d * 1 == d;
  }

  lemma SmallFactor(m: nat, k: nat)
    requires 2 <= m <= k && 18 <= m * k < 324
    ensures !Sieved(m * k)
  {
    if m >= 18 {
      Large(m, k);
    } else {
      var p := if m % 2 == 0 then 2 else if m % 3 == 0 then 3 else if m % 5 == 0 then 5 else m;
      Factor(m, p, m / p, k);
    }
  }

  lemma Large(m: nat, k: nat)
    requires 18 <= m <= k
    ensures m * k >= 324
  {
    assert m * k >= 18 * k;
  }

  lemma Factor(m: nat, p: nat, a: nat, k: nat)
    requires p in {2, 3, 5, 7, 11, 13, 17} && a > 0 && p <= k && m == p * a
    ensures !Sieved(m * k)
  {
    var x := a * k;
    assert x >= k;
    assert p * a * k == p * x;
    Multiples(x);
  }

  lemma Multiples(x: nat)
    ensures (2 * x) % 2 == 0 && (3 * x) % 3 == 0 && (5 * x) % 5 == 0 && (7 * x) % 7 == 0
    ensures (11 * x) % 11 == 0 && (13 * x) % 13 == 0 && (17 * x) % 17 == 0
  {}

  lemma Row1(n: nat)
    requires 18 <= n <= 19
    ensures Sieved(n) <==> n in [19]
  {}

  lemma Row2(n: nat)
    requires 20 <= n <= 37
    ensures Sieved(n) <==> n in [23, 29, 31, 37]
  {}

  lemma Row3(n: nat)
    requires 38 <= n <= 53
    ensures Sieved(n) <==> n in [41, 43, 47, 53]
  {}

  lemma Row4(n: nat)
    requires 54 <= n <= 71
    ensures Sieved(n) <==> n in [59, 61, 67, 71]
  {}

  lemma Row5(n: nat)
    requires 72 <= n <= 89
    ensures Sieved(n) <==> n in [73, 79, 83, 89]
  {}

  lemma Row6(n: nat)
    requires 90 <= n <= 107
    ensures Sieved(n) <==> n in [97, 101, 103, 107]
  {}

  lemma Row7(n: nat)
    requires 108 <= n <= 131
    ensures Sieved(n) <==> n in [109, 113, 127, 131]
  {}

  lemma Row8(n: nat)
    requires 132 <= n <= 151
    ensures Sieved(n) <==> n in [137, 139, 149, 151]
  {}

  lemma Row9(n: nat)
    requires 152 <= n <= 173
    ensures Sieved(n) <==> n in [157, 163, 167, 173]
  {}

  lemma Row10(n: nat)
    requires 174 <= n <= 193
    ensures Sieved(n) <==> n in [179, 181, 191, 193]
  {}

  lemma Row11(n: nat)
    requires 194 <= n <= 223
    ensures Sieved(n) <==> n in [197, 199, 211, 223]
  {}

  lemma Row12(n: nat)
    requires 224 <= n <= 239
    ensures Sieved(n) <==> n in [227, 229, 233, 239]
  {}

  lemma Row13(n: nat)
    requires 240 <= n <= 263
    ensures Sieved(n) <==> n in [241, 251, 257, 263]
  {}

  lemma Row14(n: nat)
    requires 264 <= n <= 281
    ensures Sieved(n) <==> n in [269, 271, 277, 281]
  {}

  lemma Row15(n: nat)
    requires 282 <= n <= 311
    ensures Sieved(n) <==> n in [283, 293, 307, 311]
  {}

  lemma TinyPrimes(n: nat)
    requires n < 18
    ensures IsPrime(n) <==> n in [2, 3, 5, 7, 11, 13, 17]
  {
    if n > 2 && n % 2 == 0 {
      assert !IsPrime(n);
    } else if n > 3 && n % 3 == 0 {
      assert !IsPrime(n);
    }
  }

  /** The list holds exactly the primes up to its last entry, in order: the first 64. */
  lemma PrimesAreFirst(n: nat)
    ensures |PRIMES| == 64 && PRIMES[63] == 311
    ensures forall j, k | 0 <= j < k < 64 :: PRIMES[j] < PRIMES[k]
    ensures n <= 311 ==> (n in PRIMES <==> IsPrime(n))
  {
    assert forall k | 0 <= k < 63 :: PRIMES[k] < PRIMES[k + 1];
    Increasing(PRIMES);
    hide IsPrime, Sieved;
    if n <= 311 {
      PrimeInList(n);
    }
  }

  lemma {:induction false} Increasing(s: seq<nat>)
    requires forall k | 0 <= k < |s| - 1 :: s[k] < s[k + 1]
    ensures forall j, k | 0 <= j < k < |s| :: s[j] < s[k]
  {
    if |s| > 1 {
      var init := s[..|s| - 1];
      forall k | 0 <= k < |init| - 1
        ensures init[k] < init[k + 1]
      {
        assert init[k] == s[k] && init[k + 1] == s[k + 1];
      }
      Increasing(init);
      forall j | 0 <= j < |s| - 1
        ensures s[j] < s[|s| - 1]
      {
        assert init[j] == s[j] && init[|s| - 2] == s[|s| - 2] < s[|s| - 2 + 1];
      }
      forall j, k | 0 <= j < k < |s|
        ensures s[j] < s[k]
      {
        if k < |s| - 1 {
          assert init[j] < init[k];
        }
      }
    }
  }

  lemma ListedA(n: nat)
    requires 18 <= n <= 71
    ensures n in PRIMES <==> Sieved(n)
  {
    hide Sieved;
    if n <= 19 {
      Row1(n);
    } else if n <= 37 {
      Row2(n);
    } else if n <= 53 {
      Row3(n);
    } else {
      Row4(n);
    }
  }

  lemma ListedB(n: nat)
    requires 72 <= n <= 151
    ensures n in PRIMES <==> Sieved(n)
  {
    hide Sieved;
    if n <= 89 {
      Row5(n);
    } else if n <= 107 {
      Row6(n);
    } else if n <= 131 {
      Row7(n);
    } else {
      Row8(n);
    }
  }

  lemma ListedC(n: nat)
    requires 152 <= n <= 239
    ensures n in PRIMES <==> Sieved(n)
  {
    hide Sieved;
    if n <= 173 {
      Row9(n);
    } else if n <= 193 {
      Row10(n);
    } else if n <= 223 {
      Row11(n);
    } else {
      Row12(n);
    }
  }

  lemma ListedD(n: nat)
    requires 240 <= n <= 311
    ensures n in PRIMES <==> Sieved(n)
  {
    hide Sieved;
    if n <= 263 {
      Row13(n);
    } else if n <= 281 {
      Row14(n);
    } else {
      Row15(n);
    }
  }

  lemma PrimeInList(n: nat)
    requires n <= 311
    ensures n in PRIMES <==> IsPrime(n)
  {
    hide IsPrime, Sieved;
    if n < 18 {
      TinyPrimes(n);
    } else {
      SievedIsPrime(n);
      if n <= 71 {
        ListedA(n);
      } else if n <= 151 {
        ListedB(n);
      } else if n <= 239 {
        ListedC(n);
      } else {
        ListedD(n);
      }
    }
  }

  // ------------------------------------------------------------- the constants

  function Cube(x: nat): nat {
    x * x * x
  }

  function Square(x: nat): nat {
    x * x
  }

  const TWO32: nat := 0x1_0000_0000

  /** r is the integer part of the cube root of p, taken 32 bits further. */
  predicate IsCubeRoot(p: nat, r: nat) {
    Cube(r) <= p * Cube(TWO32) < Cube(r + 1)
  }

  predicate IsSquareRoot(p: nat, r: nat) {
    Square(r) <= p * Square(TWO32) < Square(r + 1)
  }

  /** The integer part of the cube root of a number below 343, the cube of 7. */
  function WholeCubeRoot(p: nat): nat {
    if p < 8 then 1 else if p < 27 then 2 else if p < 64 then 3 else if p < 125 then 4 else if p < 216 then 5 else 6
  }

  function CubeRootAt(t: nat): nat
    requires t < 64
  {
    WholeCubeRoot(PRIMES[t]) * TWO32 + K[t] as nat
  }

  predicate KRight(t: nat)
    requires t < 64
  {
    IsCubeRoot(PRIMES[t], CubeRootAt(t))
  }

  lemma KRow0()
    ensures KRight(0) && KRight(1) && KRight(2) && KRight(3)
  {}

  lemma KRow1()
    ensures KRight(4) && KRight(5) && KRight(6) && KRight(7)
  {}

  lemma KRow2()
    ensures KRight(8) && KRight(9) && KRight(10) && KRight(11)
  {}

  lemma KRow3()
    ensures KRight(12) && KRight(13) && KRight(14) && KRight(15)
  {}

  lemma KRow4()
    ensures KRight(16) && KRight(17) && KRight(18) && KRight(19)
  {}

  lemma KRow5()
    ensures KRight(20) && KRight(21) && KRight(22) && KRight(23)
  {}

  lemma KRow6()
    ensures KRight(24) && KRight(25) && KRight(26) && KRight(27)
  {}

  lemma KRow7()
    ensures KRight(28) && KRight(29) && KRight(30) && KRight(31)
  {}

  lemma KRow8()
    ensures KRight(32) && KRight(33) && KRight(34) && KRight(35)
  {}

  lemma KRow9()
    ensures KRight(36) && KRight(37) && KRight(38) && KRight(39)
  {}

  lemma KRow10()
    ensures KRight(40) && KRight(41) && KRight(42) && KRight(43)
  {}

  lemma KRow11()
    ensures KRight(44) && KRight(45) && KRight(46) && KRight(47)
  {}

  lemma KRow12()
    ensures KRight(48) && KRight(49) && KRight(50) && KRight(51)
  {}

  lemma KRow13()
    ensures KRight(52) && KRight(53) && KRight(54) && KRight(55)
  {}

  lemma KRow14()
    ensures KRight(56) && KRight(57) && KRight(58) && KRight(59)
  {}

  lemma KRow15()
    ensures KRight(60) && KRight(61) && KRight(62) && KRight(63)
  {}

  lemma AllKRight(t: nat)
    requires t < 64
    ensures KRight(t)
  {
    hide KRight;
    if t < 4 {
      KRow0();
    } else if t < 8 {
      KRow1();
    } else if t < 12 {
      KRow2();
    } else if t < 16 {
      KRow3();
    } else if t < 20 {
      KRow4();
    } else if t < 24 {
      KRow5();
    } else if t < 28 {
      KRow6();
    } else if t < 32 {
      KRow7();
    } else if t < 36 {
      KRow8();
    } else if t < 40 {
      KRow9();
    } else if t < 44 {
      KRow10();
    } else if t < 48 {
      KRow11();
    } else if t < 52 {
      KRow12();
    } else if t < 56 {
      KRow13();
    } else if t < 60 {
      KRow14();
    } else {
      KRow15();
    }
  }

  /** Each round constant holds the first 32 bits of the fractional part of the cube root
      of the prime with its number. */
  lemma KIsCubeRoot(t: nat) returns (whole: nat)
    requires t < 64
    ensures IsCubeRoot(PRIMES[t], whole * TWO32 + K[t] as nat)
  {
    whole := WholeCubeRoot(PRIMES[t]);
    AllKRight(t);
    hide IsCubeRoot;
  }

  /** Each initial hash word holds those of the square root of one of the first eight. */
  lemma H0IsSquareRoot(i: nat) returns (whole: nat)
    requires i < 8
    ensures IsSquareRoot(PRIMES[i], whole * TWO32 + H0[i] as nat)
  {
    whole := [1, 1, 2, 2, 3, 3, 4, 4][i];
  }

  // -------------------------------------------------------- the word functions

  /** The word with the lowest n bits set. */
  function Low(n: bv6): Word
    requires n < 32
  {
    (1 << n) - 1
  }

  /** A rotation puts the lowest n bits in the upper places and the others in the lower. */
  lemma RotRMovesBits(x: Word, n: bv6)
    requires 0 < n < 32
    ensures RotR(x, n) >> (32 - n) == x & Low(n)
    ensures RotR(x, n) & Low(32 - n) == x >> n
  {}

  /** Ch has the bits of y where x has ones, and the bits of z where it has zeros. */
  lemma ChChooses(x: Word, y: Word, z: Word)
    ensures Ch(x, y, z) & x == y & x && Ch(x, y, z) & !x == z & !x
  {}

  /** Maj has the bits of x and y where these agree, and the bits of z where they do not. */
  lemma MajAgrees(x: Word, y: Word, z: Word)
    ensures Maj(x, y, z) & !(x ^ y) == x & !(x ^ y) && Maj(x, y, z) & (x ^ y) == z & (x ^ y)
  {}

  /** Bit j alone. */
  function BitAt(j: bv6): Word
    requires j < 32
  {
    1 << j
  }

  lemma XorAssociates(x: Word, y: Word, z: Word)
    ensures Xor(Xor(x, y), z) == Xor(x, Xor(y, z))
  {}

  lemma XorCommutes(x: Word, y: Word)
    ensures Xor(x, y) == Xor(y, x)
  {}

  lemma FourXors(a: Word, b: Word, c: Word, d: Word)
    ensures Xor(Xor(a, b), Xor(c, d)) == Xor(Xor(a, c), Xor(b, d))
  {
    hide Xor;
    XorAssociates(a, b, Xor(c, d));
    XorAssociates(b, c, d);
    XorCommutes(b, c);
    XorAssociates(c, b, d);
    XorAssociates(a, c, Xor(b, d));
  }

  lemma SixXors(a: Word, b: Word, c: Word, d: Word, e: Word, f: Word)
    ensures Xor(Xor(Xor(a, d), Xor(b, e)), Xor(c, f)) == Xor(Xor(Xor(a, b), c), Xor(Xor(d, e), f))
  {
    hide Xor;
    FourXors(a, d, b, e);
    FourXors(Xor(a, b), Xor(d, e), c, f);
  }

  lemma RotR2(x: Word, y: Word)
    ensures RotR(Xor(x, y), 2) == Xor(RotR(x, 2), RotR(y, 2))
  {}

  lemma RotR6(x: Word, y: Word)
    ensures RotR(Xor(x, y), 6) == Xor(RotR(x, 6), RotR(y, 6))
  {}

  lemma RotR7(x: Word, y: Word)
    ensures RotR(Xor(x, y), 7) == Xor(RotR(x, 7), RotR(y, 7))
  {}

  lemma RotR11(x: Word, y: Word)
    ensures RotR(Xor(x, y), 11) == Xor(RotR(x, 11), RotR(y, 11))
  {}

  lemma RotR13(x: Word, y: Word)
    ensures RotR(Xor(x, y), 13) == Xor(RotR(x, 13), RotR(y, 13))
  {}

  lemma RotR17(x: Word, y: Word)
    ensures RotR(Xor(x, y), 17) == Xor(RotR(x, 17), RotR(y, 17))
  {}

  lemma RotR18(x: Word, y: Word)
    ensures RotR(Xor(x, y), 18) == Xor(RotR(x, 18), RotR(y, 18))
  {}

  lemma RotR19(x: Word, y: Word)
    ensures RotR(Xor(x, y), 19) == Xor(RotR(x, 19), RotR(y, 19))
  {}

  lemma RotR22(x: Word, y: Word)
    ensures RotR(Xor(x, y), 22) == Xor(RotR(x, 22), RotR(y, 22))
  {}

  lemma RotR25(x: Word, y: Word)
    ensures RotR(Xor(x, y), 25) == Xor(RotR(x, 25), RotR(y, 25))
  {}

  lemma Shift3(x: Word, y: Word)
    ensures ShR(Xor(x, y), 3) == Xor(ShR(x, 3), ShR(y, 3))
  {}

  lemma Shift10(x: Word, y: Word)
    ensures ShR(Xor(x, y), 10) == Xor(ShR(x, 10), ShR(y, 10))
  {}

  lemma BigSigma0IsLinear(x: Word, y: Word)
    ensures BigSigma0(Xor(x, y)) == Xor(BigSigma0(x), BigSigma0(y))
  {
    RotR2(x, y);
    RotR13(x, y);
    RotR22(x, y);
    SixXors(RotR(x, 2), RotR(x, 13), RotR(x, 22), RotR(y, 2), RotR(y, 13), RotR(y, 22));
    hide Xor, RotR;
  }

  lemma BigSigma1IsLinear(x: Word, y: Word)
    ensures BigSigma1(Xor(x, y)) == Xor(BigSigma1(x), BigSigma1(y))
  {
    RotR6(x, y);
    RotR11(x, y);
    RotR25(x, y);
    SixXors(RotR(x, 6), RotR(x, 11), RotR(x, 25), RotR(y, 6), RotR(y, 11), RotR(y, 25));
    hide Xor, RotR;
  }

  lemma SmallSigma0IsLinear(x: Word, y: Word)
    ensures SmallSigma0(Xor(x, y)) == Xor(SmallSigma0(x), SmallSigma0(y))
  {
    RotR7(x, y);
    RotR18(x, y);
    Shift3(x, y);
    SixXors(RotR(x, 7), RotR(x, 18), ShR(x, 3), RotR(y, 7), RotR(y, 18), ShR(y, 3));
    hide Xor, RotR, ShR;
  }

  lemma SmallSigma1IsLinear(x: Word, y: Word)
    ensures SmallSigma1(Xor(x, y)) == Xor(SmallSigma1(x), SmallSigma1(y))
  {
    RotR17(x, y);
    RotR19(x, y);
    Shift10(x, y);
    SixXors(RotR(x, 17), RotR(x, 19), ShR(x, 10), RotR(y, 17), RotR(y, 19), ShR(y, 10));
    hide Xor, RotR, ShR;
  }

  /** Two words that meet in a sigma meet bit by bit. With the two lemmas that follow, which
      say what becomes of each bit alone, this says what becomes of every word. */
  lemma SigmasAreLinear(x: Word, y: Word)
    ensures BigSigma0(x ^ y) == BigSigma0(x) ^ BigSigma0(y) && BigSigma1(x ^ y) == BigSigma1(x) ^ BigSigma1(y)
    ensures SmallSigma0(x ^ y) == SmallSigma0(x) ^ SmallSigma0(y)
    ensures SmallSigma1(x ^ y) == SmallSigma1(x) ^ SmallSigma1(y)
  {
    hide BigSigma0, BigSigma1, SmallSigma0, SmallSigma1;
    BigSigma0IsLinear(x, y);
    BigSigma1IsLinear(x, y);
    SmallSigma0IsLinear(x, y);
    SmallSigma1IsLinear(x, y);
  }

  /** The big sigmas move each bit down by 2, 13 and 22 places, or by 6, 11 and 25, around
      the end of the word. */
  lemma BigSigmasMoveBits(j: bv6)
    requires j < 32
    ensures BigSigma0(BitAt(j)) == BitAt((j - 2) & 31) ^ BitAt((j - 13) & 31) ^ BitAt((j - 22) & 31)
    ensures BigSigma1(BitAt(j)) == BitAt((j - 6) & 31) ^ BitAt((j - 11) & 31) ^ BitAt((j - 25) & 31)
  {}

  /** The small sigmas move it down by 7 and 18 places, or by 17 and 19, around the end, and
      by 3 places, or by 10, off the end. */
  lemma SmallSigmasMoveBits(j: bv6)
    requires j < 32
    ensures SmallSigma0(BitAt(j)) ==
            BitAt((j - 7) & 31) ^ BitAt((j - 18) & 31) ^ (if j < 3 then 0 else BitAt(j - 3))
    ensures SmallSigma1(BitAt(j)) ==
            BitAt((j - 17) & 31) ^ BitAt((j - 19) & 31) ^ (if j < 10 then 0 else BitAt(j - 10))
  {}

  // ------------------------------------------------------------------ the rounds

  /** The successive values of the working variable a, and of e, after their first four:
      b, c and d are older values of a, and f, g and h are older values of e. */
  function ValueA(v: Vars, block: seq<Byte>, n: nat): Word
    requires |block| == 64 && n <= 67
    decreases n, 1
  {
    if n < 4 then [v.d, v.c, v.b, v.a][n]
    else
      var t := n - 4;
      Add(Mixed(v, block, t), Add(BigSigma0(ValueA(v, block, t + 3)),
                                  Maj(ValueA(v, block, t + 3), ValueA(v, block, t + 2), ValueA(v, block, t + 1))))
  }

  function ValueE(v: Vars, block: seq<Byte>, n: nat): Word
    requires |block| == 64 && n <= 67
    decreases n, 1
  {
    if n < 4 then [v.h, v.g, v.f, v.e][n] else Add(ValueA(v, block, n - 4), Mixed(v, block, n - 4))
  }

  /** What round t mixes into both. */
  function Mixed(v: Vars, block: seq<Byte>, t: nat): Word
    requires |block| == 64 && t < 64
    decreases t + 4, 0
  {
    var e, f, g, h := ValueE(v, block, t + 3), ValueE(v, block, t + 2), ValueE(v, block, t + 1), ValueE(v, block, t);
    Add(Add(Add(Add(h, BigSigma1(e)), Ch(e, f, g)), K[t]), Schedule(block, t))
  }

  lemma {:induction false} RoundsAreValues(v: Vars, block: seq<Byte>, t: nat)
    requires |block| == 64 && t <= 64
    ensures Rounds(v, block, t) ==
            Vars(ValueA(v, block, t + 3), ValueA(v, block, t + 2), ValueA(v, block, t + 1), ValueA(v, block, t),
                 ValueE(v, block, t + 3), ValueE(v, block, t + 2), ValueE(v, block, t + 1), ValueE(v, block, t))
  {
    hide Add, BigSigma0, BigSigma1, Ch, Maj, Schedule;
    if t > 0 {
      RoundsAreValues(v, block, t - 1);
    }
  }
}
