/**
 What FIPS 180-4 says of its constants and its logical functions, apart from their tables and
 formulas: the constants are fractional parts of roots of the first primes, and the functions
 act bit by bit.
 */
module Sha256Standard {
  import opened Bytes
  import opened Sha256

  // ---------------------------------------------------------- bit by bit (4.1.2)

  lemma {:induction false} ComplementIsBitwise(x: nat, n: nat, i: nat)
    requires x < Pow2(n) && i < n
    ensures Bit(Pow2(n) - 1 - x, i) <==> !Bit(x, i)
  {
    var y := Pow2(n) - 1 - x;
    assert Pow2(n) == 2 * Pow2(n - 1);
    assert y % 2 == 1 - x % 2 && y / 2 == Pow2(n - 1) - 1 - x / 2;
    if i > 0 { ComplementIsBitwise(x / 2, n - 1, i - 1); }
  }

  lemma NotIsBitwise(x: Word, i: nat)
    requires i < 32
    ensures Bit(Not(x), i) <==> !Bit(x, i)
  {
    WordBound();
    ComplementIsBitwise(x, 32, i);
  }

  lemma {:induction false} ShrIsBitwise(x: Word, n: nat, i: nat)
    ensures Bit(Shr(x, n), i) <==> Bit(x, i + n)
  {
    if n > 0 { ShrIsBitwise(x, n - 1, i + 1); }
  }

  lemma XorAt(x: Word, y: Word, i: nat)
    requires i < 32
    ensures Bit(Xor(x, y), i) <==> (Bit(x, i) <==> !Bit(y, i))
  {
    XorIsBitwise(x, y, 32, i);
  }

  lemma AndAt(x: Word, y: Word, i: nat)
    requires i < 32
    ensures Bit(And(x, y), i) <==> Bit(x, i) && Bit(y, i)
  {
    AndIsBitwise(x, y, 32, i);
  }

  /** Choose: where x has a one the bit of y, elsewhere the bit of z. */
  lemma ChIsBitwise(x: Word, y: Word, z: Word, i: nat)
    requires i < 32
    ensures Bit(Ch(x, y, z), i) <==> if Bit(x, i) then Bit(y, i) else Bit(z, i)
  {
    hide Bit, Xor, And, Not;
    XorAt(And(x, y), And(Not(x), z), i);
    AndAt(x, y, i);
    AndAt(Not(x), z, i);
    NotIsBitwise(x, i);
  }

  /** Majority: the bit that at least two of the three words have. */
  lemma MajIsBitwise(x: Word, y: Word, z: Word, i: nat)
    requires i < 32
    ensures Bit(Maj(x, y, z), i) <==>
              (Bit(x, i) && Bit(y, i)) || (Bit(x, i) && Bit(z, i)) || (Bit(y, i) && Bit(z, i))
  {
    hide Bit, Xor, And;
    XorAt(Xor(And(x, y), And(x, z)), And(y, z), i);
    XorAt(And(x, y), And(x, z), i);
    AndAt(x, y, i);
    AndAt(x, z, i);
    AndAt(y, z, i);
  }

  /** An odd number of the three bits is set. */
  predicate Odd(a: bool, b: bool, c: bool) {
    a <==> (b <==> c)
  }

  lemma XorOfThree(a: Word, b: Word, c: Word, i: nat)
    requires i < 32
    ensures Bit(Xor(Xor(a, b), c), i) <==> Odd(Bit(a, i), Bit(b, i), Bit(c, i))
  {
    hide Bit, Xor;
    XorAt(Xor(a, b), c, i);
    XorAt(a, b, i);
  }

  lemma BigSigma0IsBitwise(x: Word, i: nat)
    requires i < 32
    ensures Bit(BigSigma0(x), i) <==> Odd(Bit(x, (i + 2) % 32), Bit(x, (i + 13) % 32), Bit(x, (i + 22) % 32))
  {
    hide Bit, Xor, Rotr;
    XorOfThree(Rotr(x, 2), Rotr(x, 13), Rotr(x, 22), i);
    RotrIsBitwise(x, 2, i);
    RotrIsBitwise(x, 13, i);
    RotrIsBitwise(x, 22, i);
  }

  lemma BigSigma1IsBitwise(x: Word, i: nat)
    requires i < 32
    ensures Bit(BigSigma1(x), i) <==> Odd(Bit(x, (i + 6) % 32), Bit(x, (i + 11) % 32), Bit(x, (i + 25) % 32))
  {
    hide Bit, Xor, Rotr;
    XorOfThree(Rotr(x, 6), Rotr(x, 11), Rotr(x, 25), i);
    RotrIsBitwise(x, 6, i);
    RotrIsBitwise(x, 11, i);
    RotrIsBitwise(x, 25, i);
  }

  lemma SmallSigma0IsBitwise(x: Word, i: nat)
    requires i < 32
    ensures Bit(SmallSigma0(x), i) <==> Odd(Bit(x, (i + 7) % 32), Bit(x, (i + 18) % 32), Bit(x, i + 3))
  {
    hide Bit, Xor, Rotr, Shr;
    XorOfThree(Rotr(x, 7), Rotr(x, 18), Shr(x, 3), i);
    RotrIsBitwise(x, 7, i);
    RotrIsBitwise(x, 18, i);
    ShrIsBitwise(x, 3, i);
  }

  lemma SmallSigma1IsBitwise(x: Word, i: nat)
    requires i < 32
    ensures Bit(SmallSigma1(x), i) <==> Odd(Bit(x, (i + 17) % 32), Bit(x, (i + 19) % 32), Bit(x, i + 10))
  {
    hide Bit, Xor, Rotr, Shr;
    XorOfThree(Rotr(x, 17), Rotr(x, 19), Shr(x, 10), i);
    RotrIsBitwise(x, 17, i);
    RotrIsBitwise(x, 19, i);
    ShrIsBitwise(x, 10, i);
  }

  /** A word has 32 bits: what lies above them is zero. */
  lemma {:induction false} NoBitAbove(x: nat, n: nat, i: nat)
    requires x < Pow2(n) && i >= n
    ensures !Bit(x, i)
  {
    if i > 0 {
      if n > 0 {
        NoBitAbove(x / 2, n - 1, i - 1);
      } else {
        NoBitAbove(x / 2, 0, i - 1);
      }
    }
  }

  /** Words with the same 32 bits are the same, so the lemmas above determine the functions. */
  lemma {:induction false} BitsDetermine(x: nat, y: nat, n: nat)
    requires x < Pow2(n) && y < Pow2(n) && forall i: nat | i < n :: Bit(x, i) <==> Bit(y, i)
    ensures x == y
  {
    if n > 0 {
      assert Bit(x, 0) <==> Bit(y, 0);
      forall i: nat | i < n - 1
        ensures Bit(x / 2, i) <==> Bit(y / 2, i)
      {
        assert Bit(x, i + 1) <==> Bit(y, i + 1);
      }
      BitsDetermine(x / 2, y / 2, n - 1);
    }
  }

  // --------------------------------------------------- constants (4.2.2 and 5.3.3)

  /** The first sixty-four primes; `PrimesInOrder` says that it is they. */
  function Prime(t: nat): nat
    requires t < 64
  {
    match t
    case 0 => 2 case 1 => 3 case 2 => 5 case 3 => 7 case 4 => 11 case 5 => 13 case 6 => 17 case 7 => 19
    case 8 => 23 case 9 => 29 case 10 => 31 case 11 => 37 case 12 => 41 case 13 => 43 case 14 => 47 case 15 => 53
    case 16 => 59 case 17 => 61 case 18 => 67 case 19 => 71 case 20 => 73 case 21 => 79 case 22 => 83 case 23 => 89
    case 24 => 97 case 25 => 101 case 26 => 103 case 27 => 107 case 28 => 109 case 29 => 113 case 30 => 127 case 31 => 131
    case 32 => 137 case 33 => 139 case 34 => 149 case 35 => 151 case 36 => 157 case 37 => 163 case 38 => 167 case 39 => 173
    case 40 => 179 case 41 => 181 case 42 => 191 case 43 => 193 case 44 => 197 case 45 => 199 case 46 => 211 case 47 => 223
    case 48 => 227 case 49 => 229 case 50 => 233 case 51 => 239 case 52 => 241 case 53 => 251 case 54 => 257 case 55 => 263
    case 56 => 269 case 57 => 271 case 58 => 277 case 59 => 281 case 60 => 283 case 61 => 293 case 62 => 307 case _ => 311
  }

  predicate IsPrime(n: nat) {
    n >= 2 && forall d | 2 <= d < n :: n % d != 0
  }

  /** Divisible by one of the primes up to 17, but not that prime itself. */
  predicate HasSmallFactor(n: nat) {
    || (n % 2 == 0 && n > 2) || (n % 3 == 0 && n > 3) || (n % 5 == 0 && n > 5) || (n % 7 == 0 && n > 7)
    || (n % 11 == 0 && n > 11) || (n % 13 == 0 && n > 13) || (n % 17 == 0 && n > 17)
  }
  lemma ByTwo(n: nat, k: nat)
    requires n == 2 * k && k >= 2
    ensures HasSmallFactor(n)
  {
    assert n % 2 == 0;
  }

  lemma ByThree(n: nat, k: nat)
    requires n == 3 * k && k >= 2
    ensures HasSmallFactor(n)
  {
    assert n % 3 == 0;
  }

  lemma ByFive(n: nat, k: nat)
    requires n == 5 * k && k >= 2
    ensures HasSmallFactor(n)
  {
    assert n % 5 == 0;
  }

  lemma BySeven(n: nat, k: nat)
    requires n == 7 * k && k >= 2
    ensures HasSmallFactor(n)
  {
    assert n % 7 == 0;
  }

  lemma ByEleven(n: nat, k: nat)
    requires n == 11 * k && k >= 2
    ensures HasSmallFactor(n)
  {
    assert n % 11 == 0;
  }

  lemma ByThirteen(n: nat, k: nat)
    requires n == 13 * k && k >= 2
    ensures HasSmallFactor(n)
  {
    assert n % 13 == 0;
  }

  lemma BySeventeen(n: nat, k: nat)
    requires n == 17 * k && k >= 2
    ensures HasSmallFactor(n)
  {
    assert n % 17 == 0;
  }

  /** A divisor up to 17 has a prime factor up to 17. */
  lemma SmallDivisor(n: nat, d: nat, q: nat)
    requires n == d * q && 2 <= d <= 17 && q >= 2
    ensures HasSmallFactor(n)
  {
    hide HasSmallFactor;
    match d
    case 2 => ByTwo(n, q);
    case 3 => ByThree(n, q);
    case 4 => ByTwo(n, 2 * q);
    case 5 => ByFive(n, q);
    case 6 => ByTwo(n, 3 * q);
    case 7 => BySeven(n, q);
    case 8 => ByTwo(n, 4 * q);
    case 9 => ByThree(n, 3 * q);
    case 10 => ByTwo(n, 5 * q);
    case 11 => ByEleven(n, q);
    case 12 => ByTwo(n, 6 * q);
    case 13 => ByThirteen(n, q);
    case 14 => ByTwo(n, 7 * q);
    case 15 => ByThree(n, 5 * q);
    case 16 => ByTwo(n, 8 * q);
    case _ => BySeventeen(n, q);
  }

  lemma SmallFactorDivides(n: nat)
    requires HasSmallFactor(n)
    ensures !IsPrime(n)
  {
    var d := if n % 2 == 0 && n > 2 then 2 else if n % 3 == 0 && n > 3 then 3 else if n % 5 == 0 && n > 5 then 5
             else if n % 7 == 0 && n > 7 then 7 else if n % 11 == 0 && n > 11 then 11
             else if n % 13 == 0 && n > 13 then 13 else 17;
    assert 2 <= d < n && n % d == 0;
  }

  lemma OneIsSmall(d: nat, q: nat)
    requires d * q < 324
    ensures d <= 17 || q <= 17
  {
    if d >= 18 && q >= 18 { BothAreLarge(d, q); }
  }

  lemma BothAreLarge(d: nat, q: nat)
    requires d >= 18 && q >= 18
    ensures d * q >= 324
  {
    assert (d - 18) * (q - 18) >= 0;
  }

  lemma QuotientOf(n: nat, d: nat) returns (q: nat)
    requires 2 <= d < n && n % d == 0
    ensures n == d * q && q >= 2
  {
    q := n / d;
  }

  /** Below the square of 18 that is what keeps a number from being prime. */
  lemma NoSmallFactor(n: nat)
    requires 2 <= n < 324
    ensures IsPrime(n) <==> !HasSmallFactor(n)
  {
    hide HasSmallFactor;
    if HasSmallFactor(n) {
      SmallFactorDivides(n);
    } else {
      forall d | 2 <= d < n
        ensures n % d != 0
      {
        if n % d == 0 {
          var q := QuotientOf(n, d);
          OneIsSmall(d, q);
          if d <= 17 { SmallDivisor(n, d, q); } else { SmallDivisor(n, q, d); }
        }
      }
    }
  }

  predicate AllSmall(from: nat, to: nat)
    decreases if from < to then to - from else 0
  {
    from >= to || (HasSmallFactor(from) && AllSmall(from + 1, to))
  }

  lemma {:induction false} EachIsSmall(from: nat, to: nat, n: nat)
    requires AllSmall(from, to) && from <= n < to
    ensures HasSmallFactor(n)
    decreases if from < to then to - from else 0
  {
    if from < n { EachIsSmall(from + 1, to, n); }
  }

  /** No number from `p` up to `q` but `p` itself lacks a small factor. */
  predicate NextTo(p: nat, q: nat) {
    p < q && !HasSmallFactor(p) && AllSmall(p + 1, q)
  }

  lemma Gaps0To7(t: nat)
    requires 0 <= t < 8
    ensures NextTo(Prime(t), Prime(t + 1))
  {
    assert NextTo(2, 3) && NextTo(3, 5);
    assert NextTo(5, 7) && NextTo(7, 11);
    assert NextTo(11, 13) && NextTo(13, 17);
    assert NextTo(17, 19) && NextTo(19, 23);
    hide NextTo;
  }

  lemma Gaps8To15(t: nat)
    requires 8 <= t < 16
    ensures NextTo(Prime(t), Prime(t + 1))
  {
    assert NextTo(23, 29) && NextTo(29, 31);
    assert NextTo(31, 37) && NextTo(37, 41);
    assert NextTo(41, 43) && NextTo(43, 47);
    assert NextTo(47, 53) && NextTo(53, 59);
    hide NextTo;
  }

  lemma Gaps16To23(t: nat)
    requires 16 <= t < 24
    ensures NextTo(Prime(t), Prime(t + 1))
  {
    assert NextTo(59, 61) && NextTo(61, 67);
    assert NextTo(67, 71) && NextTo(71, 73);
    assert NextTo(73, 79) && NextTo(79, 83);
    assert NextTo(83, 89) && NextTo(89, 97);
    hide NextTo;
  }

  lemma Gaps24To31(t: nat)
    requires 24 <= t < 32
    ensures NextTo(Prime(t), Prime(t + 1))
  {
    assert NextTo(97, 101) && NextTo(101, 103);
    assert NextTo(103, 107) && NextTo(107, 109);
    assert NextTo(109, 113) && NextTo(113, 127);
    assert NextTo(127, 131) && NextTo(131, 137);
    hide NextTo;
  }

  lemma Gaps32To39(t: nat)
    requires 32 <= t < 40
    ensures NextTo(Prime(t), Prime(t + 1))
  {
    assert NextTo(137, 139) && NextTo(139, 149);
    assert NextTo(149, 151) && NextTo(151, 157);
    assert NextTo(157, 163) && NextTo(163, 167);
    assert NextTo(167, 173) && NextTo(173, 179);
    hide NextTo;
  }

  lemma Gaps40To47(t: nat)
    requires 40 <= t < 48
    ensures NextTo(Prime(t), Prime(t + 1))
  {
    assert NextTo(179, 181) && NextTo(181, 191);
    assert NextTo(191, 193) && NextTo(193, 197);
    assert NextTo(197, 199) && NextTo(199, 211);
    assert NextTo(211, 223) && NextTo(223, 227);
    hide NextTo;
  }

  lemma Gaps48To55(t: nat)
    requires 48 <= t < 56
    ensures NextTo(Prime(t), Prime(t + 1))
  {
    assert NextTo(227, 229) && NextTo(229, 233);
    assert NextTo(233, 239) && NextTo(239, 241);
    assert NextTo(241, 251) && NextTo(251, 257);
    assert NextTo(257, 263) && NextTo(263, 269);
    hide NextTo;
  }

  lemma Gaps56To62(t: nat)
    requires 56 <= t < 63
    ensures NextTo(Prime(t), Prime(t + 1))
  {
    assert NextTo(269, 271) && NextTo(271, 277);
    assert NextTo(277, 281) && NextTo(281, 283);
    assert NextTo(283, 293) && NextTo(293, 307);
    assert NextTo(307, 311);
    hide NextTo;
  }

  lemma Gap(t: nat)
    requires t < 63
    ensures NextTo(Prime(t), Prime(t + 1))
  {
    hide NextTo, Prime;
    if t < 8 {
      Gaps0To7(t);
    } else if t < 16 {
      Gaps8To15(t);
    } else if t < 24 {
      Gaps16To23(t);
    } else if t < 32 {
      Gaps24To31(t);
    } else if t < 40 {
      Gaps32To39(t);
    } else if t < 48 {
      Gaps40To47(t);
    } else if t < 56 {
      Gaps48To55(t);
    } else {
      Gaps56To62(t);
    }
  }

  lemma PrimesAreBounded(t: nat)
    requires t < 64
    ensures 2 <= Prime(t) <= 311 && Prime(0) == 2 && (t == 63 ==> Prime(t) == 311)
  {
  }

  lemma LastIsPrime()
    ensures IsPrime(311)
  {
    NoSmallFactor(311);
  }

  /** It starts with two, and each is the next prime after the one before. */
  lemma PrimesInOrder(t: nat)
    requires t < 64
    ensures Prime(0) == 2 && IsPrime(Prime(t))
    ensures t < 63 ==> Prime(t) < Prime(t + 1) && forall n | Prime(t) < n < Prime(t + 1) :: !IsPrime(n)
  {
    hide HasSmallFactor, IsPrime, AllSmall, Prime;
    PrimesAreBounded(t);
    if t == 63 {
      LastIsPrime();
    } else {
      PrimesAreBounded(t + 1);
      Gap(t);
      NoSmallFactor(Prime(t));
      forall n | Prime(t) < n < Prime(t + 1)
        ensures !IsPrime(n)
      {
        EachIsSmall(Prime(t) + 1, Prime(t + 1), n);
        NoSmallFactor(n);
      }
    }
  }

  /** `k` is the first 32 bits of the fractional part of the cube root of `p`, whose whole part is `c`. */
  predicate CubeRootIs(p: nat, c: nat, k: Word) {
    var root := c * 0x1_0000_0000 + k;
    root * root * root <= p * 0x1_0000_0000_0000_0000_0000_0000 < (root + 1) * (root + 1) * (root + 1)
  }

  /** `k` is the first 32 bits of the fractional part of the square root of `p`, whose whole part is `c`. */
  predicate SquareRootIs(p: nat, c: nat, k: Word) {
    var root := c * 0x1_0000_0000 + k;
    root * root <= p * 0x1_0000_0000_0000_0000 < (root + 1) * (root + 1)
  }

  lemma InitialIsSquareRoots()
    ensures SquareRootIs(2, 1, INITIAL.a) && SquareRootIs(3, 1, INITIAL.b)
    ensures SquareRootIs(5, 2, INITIAL.c) && SquareRootIs(7, 2, INITIAL.d)
    ensures SquareRootIs(11, 3, INITIAL.e) && SquareRootIs(13, 3, INITIAL.f)
    ensures SquareRootIs(17, 4, INITIAL.g) && SquareRootIs(19, 4, INITIAL.h)
  {
  }

  function WholeCubeRoot(p: nat): nat {
    if p < 8 then 1 else if p < 27 then 2 else if p < 64 then 3 else if p < 125 then 4 else if p < 216 then 5 else 6
  }

  lemma RoundConstants0To3(t: nat)
    requires 0 <= t < 4
    ensures CubeRootIs(Prime(t), WholeCubeRoot(Prime(t)), RoundConstant(t))
  {
    assert CubeRootIs(2, 1, RoundConstant(0));
    assert CubeRootIs(3, 1, RoundConstant(1));
    assert CubeRootIs(5, 1, RoundConstant(2));
    assert CubeRootIs(7, 1, RoundConstant(3));
    hide CubeRootIs, RoundConstant;
  }

  lemma RoundConstants4To7(t: nat)
    requires 4 <= t < 8
    ensures CubeRootIs(Prime(t), WholeCubeRoot(Prime(t)), RoundConstant(t))
  {
    assert CubeRootIs(11, 2, RoundConstant(4));
    assert CubeRootIs(13, 2, RoundConstant(5));
    assert CubeRootIs(17, 2, RoundConstant(6));
    assert CubeRootIs(19, 2, RoundConstant(7));
    hide CubeRootIs, RoundConstant;
  }

  lemma RoundConstants8To11(t: nat)
    requires 8 <= t < 12
    ensures CubeRootIs(Prime(t), WholeCubeRoot(Prime(t)), RoundConstant(t))
  {
    assert CubeRootIs(23, 2, RoundConstant(8));
    assert CubeRootIs(29, 3, RoundConstant(9));
    assert CubeRootIs(31, 3, RoundConstant(10));
    assert CubeRootIs(37, 3, RoundConstant(11));
    hide CubeRootIs, RoundConstant;
  }

  lemma RoundConstants12To15(t: nat)
    requires 12 <= t < 16
    ensures CubeRootIs(Prime(t), WholeCubeRoot(Prime(t)), RoundConstant(t))
  {
    assert CubeRootIs(41, 3, RoundConstant(12));
    assert CubeRootIs(43, 3, RoundConstant(13));
    assert CubeRootIs(47, 3, RoundConstant(14));
    assert CubeRootIs(53, 3, RoundConstant(15));
    hide CubeRootIs, RoundConstant;
  }

  lemma RoundConstants16To19(t: nat)
    requires 16 <= t < 20
    ensures CubeRootIs(Prime(t), WholeCubeRoot(Prime(t)), RoundConstant(t))
  {
    assert CubeRootIs(59, 3, RoundConstant(16));
    assert CubeRootIs(61, 3, RoundConstant(17));
    assert CubeRootIs(67, 4, RoundConstant(18));
    assert CubeRootIs(71, 4, RoundConstant(19));
    hide CubeRootIs, RoundConstant;
  }

  lemma RoundConstants20To23(t: nat)
    requires 20 <= t < 24
    ensures CubeRootIs(Prime(t), WholeCubeRoot(Prime(t)), RoundConstant(t))
  {
    assert CubeRootIs(73, 4, RoundConstant(20));
    assert CubeRootIs(79, 4, RoundConstant(21));
    assert CubeRootIs(83, 4, RoundConstant(22));
    assert CubeRootIs(89, 4, RoundConstant(23));
    hide CubeRootIs, RoundConstant;
  }

  lemma RoundConstants24To27(t: nat)
    requires 24 <= t < 28
    ensures CubeRootIs(Prime(t), WholeCubeRoot(Prime(t)), RoundConstant(t))
  {
    assert CubeRootIs(97, 4, RoundConstant(24));
    assert CubeRootIs(101, 4, RoundConstant(25));
    assert CubeRootIs(103, 4, RoundConstant(26));
    assert CubeRootIs(107, 4, RoundConstant(27));
    hide CubeRootIs, RoundConstant;
  }

  lemma RoundConstants28To31(t: nat)
    requires 28 <= t < 32
    ensures CubeRootIs(Prime(t), WholeCubeRoot(Prime(t)), RoundConstant(t))
  {
    assert CubeRootIs(109, 4, RoundConstant(28));
    assert CubeRootIs(113, 4, RoundConstant(29));
    assert CubeRootIs(127, 5, RoundConstant(30));
    assert CubeRootIs(131, 5, RoundConstant(31));
    hide CubeRootIs, RoundConstant;
  }

  lemma RoundConstants32To35(t: nat)
    requires 32 <= t < 36
    ensures CubeRootIs(Prime(t), WholeCubeRoot(Prime(t)), RoundConstant(t))
  {
    assert CubeRootIs(137, 5, RoundConstant(32));
    assert CubeRootIs(139, 5, RoundConstant(33));
    assert CubeRootIs(149, 5, RoundConstant(34));
    assert CubeRootIs(151, 5, RoundConstant(35));
    hide CubeRootIs, RoundConstant;
  }

  lemma RoundConstants36To39(t: nat)
    requires 36 <= t < 40
    ensures CubeRootIs(Prime(t), WholeCubeRoot(Prime(t)), RoundConstant(t))
  {
    assert CubeRootIs(157, 5, RoundConstant(36));
    assert CubeRootIs(163, 5, RoundConstant(37));
    assert CubeRootIs(167, 5, RoundConstant(38));
    assert CubeRootIs(173, 5, RoundConstant(39));
    hide CubeRootIs, RoundConstant;
  }

  lemma RoundConstants40To43(t: nat)
    requires 40 <= t < 44
    ensures CubeRootIs(Prime(t), WholeCubeRoot(Prime(t)), RoundConstant(t))
  {
    assert CubeRootIs(179, 5, RoundConstant(40));
    assert CubeRootIs(181, 5, RoundConstant(41));
    assert CubeRootIs(191, 5, RoundConstant(42));
    assert CubeRootIs(193, 5, RoundConstant(43));
    hide CubeRootIs, RoundConstant;
  }

  lemma RoundConstants44To47(t: nat)
    requires 44 <= t < 48
    ensures CubeRootIs(Prime(t), WholeCubeRoot(Prime(t)), RoundConstant(t))
  {
    assert CubeRootIs(197, 5, RoundConstant(44));
    assert CubeRootIs(199, 5, RoundConstant(45));
    assert CubeRootIs(211, 5, RoundConstant(46));
    assert CubeRootIs(223, 6, RoundConstant(47));
    hide CubeRootIs, RoundConstant;
  }

  lemma RoundConstants48To51(t: nat)
    requires 48 <= t < 52
    ensures CubeRootIs(Prime(t), WholeCubeRoot(Prime(t)), RoundConstant(t))
  {
    assert CubeRootIs(227, 6, RoundConstant(48));
    assert CubeRootIs(229, 6, RoundConstant(49));
    assert CubeRootIs(233, 6, RoundConstant(50));
    assert CubeRootIs(239, 6, RoundConstant(51));
    hide CubeRootIs, RoundConstant;
  }

  lemma RoundConstants52To55(t: nat)
    requires 52 <= t < 56
    ensures CubeRootIs(Prime(t), WholeCubeRoot(Prime(t)), RoundConstant(t))
  {
    assert CubeRootIs(241, 6, RoundConstant(52));
    assert CubeRootIs(251, 6, RoundConstant(53));
    assert CubeRootIs(257, 6, RoundConstant(54));
    assert CubeRootIs(263, 6, RoundConstant(55));
    hide CubeRootIs, RoundConstant;
  }

  lemma RoundConstants56To59(t: nat)
    requires 56 <= t < 60
    ensures CubeRootIs(Prime(t), WholeCubeRoot(Prime(t)), RoundConstant(t))
  {
    assert CubeRootIs(269, 6, RoundConstant(56));
    assert CubeRootIs(271, 6, RoundConstant(57));
    assert CubeRootIs(277, 6, RoundConstant(58));
    assert CubeRootIs(281, 6, RoundConstant(59));
    hide CubeRootIs, RoundConstant;
  }

  lemma RoundConstants60To63(t: nat)
    requires 60 <= t < 64
    ensures CubeRootIs(Prime(t), WholeCubeRoot(Prime(t)), RoundConstant(t))
  {
    assert CubeRootIs(283, 6, RoundConstant(60));
    assert CubeRootIs(293, 6, RoundConstant(61));
    assert CubeRootIs(307, 6, RoundConstant(62));
    assert CubeRootIs(311, 6, RoundConstant(63));
    hide CubeRootIs, RoundConstant;
  }

  /** The constant of each round is the fraction of the cube root of the prime of the same number. */
  lemma RoundConstantsAreCubeRoots(t: nat)
    requires t < 64
    ensures CubeRootIs(Prime(t), WholeCubeRoot(Prime(t)), RoundConstant(t))
  {
    hide CubeRootIs, RoundConstant, Prime, WholeCubeRoot;
    if t < 4 {
      RoundConstants0To3(t);
    } else if t < 8 {
      RoundConstants4To7(t);
    } else if t < 12 {
      RoundConstants8To11(t);
    } else if t < 16 {
      RoundConstants12To15(t);
    } else if t < 20 {
      RoundConstants16To19(t);
    } else if t < 24 {
      RoundConstants20To23(t);
    } else if t < 28 {
      RoundConstants24To27(t);
    } else if t < 32 {
      RoundConstants28To31(t);
    } else if t < 36 {
      RoundConstants32To35(t);
    } else if t < 40 {
      RoundConstants36To39(t);
    } else if t < 44 {
      RoundConstants40To43(t);
    } else if t < 48 {
      RoundConstants44To47(t);
    } else if t < 52 {
      RoundConstants48To51(t);
    } else if t < 56 {
      RoundConstants52To55(t);
    } else if t < 60 {
      RoundConstants56To59(t);
    } else {
      RoundConstants60To63(t);
    }
  }

  // ------------------------------------------------------ bytes and words (3.1, 5.1.1)

  lemma LastByte(high: nat, low: nat)
    requires low < 256
    ensures (high * 256 + low) / 256 == high && (high * 256 + low) % 256 == low
  {
  }

  lemma DividedTwice(n: nat)
    ensures n / 0x1_0000 == n / 256 / 256 && n / 0x100_0000 == n / 256 / 256 / 256
  {
  }

  /** Words are read and written with the most significant byte first. */
  lemma WordsAreBigEndian(b0: Byte, b1: Byte, b2: Byte, b3: Byte)
    ensures WordBytes(BigEndian(b0, b1, b2, b3)) == [b0, b1, b2, b3]
    ensures BigEndian(1, 2, 3, 4) == 0x01020304
  {
    var two := b0 * 256 + b1;
    var three := two * 256 + b2;
    assert BigEndian(b0, b1, b2, b3) == three * 256 + b3;
    LastByte(three, b3);
    LastByte(two, b2);
    LastByte(b0, b1);
    DividedTwice(three * 256 + b3);
  }

  /** The padding of a message of three bytes, such as the first example of the standard. */
  lemma PaddingOfThree()
    ensures Padding(3) == [0x80] + Zeros(52) + [0, 0, 0, 0, 0, 0, 0, 24]
  {
    hide LengthField, Zeros;
    LengthOfThree();
  }

  lemma LengthOfThree()
    ensures LengthField(3) == [0, 0, 0, 0, 0, 0, 0, 24]
  {
    hide LengthByte;
    forall i: nat | i < 8 ensures LengthByte(24, i) == if i < 7 then 0 else 24 { ByteOf24(i); }
  }

  lemma ByteOf24(i: nat)
    requires i < 8
    ensures LengthByte(24, i) == if i < 7 then 0 else 24
  {
    if i < 7 { ShortLength(7 - i); }
  }

  lemma ShortLength(n: nat)
    requires n > 0
    ensures 24 / Power256(n) == 0
  {
    PowersAreLarge(n);
    Smaller(24, Power256(n));
  }

  lemma Smaller(x: nat, y: nat)
    requires x < y
    ensures x / y == 0
  {
  }

  lemma {:induction false} PowersAreLarge(n: nat)
    requires n > 0
    ensures Power256(n) >= 256
  {
    if n > 1 { PowersAreLarge(n - 1); }
  }
}
