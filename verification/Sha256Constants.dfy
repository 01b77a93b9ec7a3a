/**
  Where the constants of SHA-256 come from, as sections 4.2.2 and 5.3.3 of FIPS 180-4 say: the first
  thirty-two bits of the fractional parts of the cube roots of the first sixty-four primes, and of
  the square roots of the first eight.
 */
module Sha256Constants {
  import opened ByteOrder
  import opened Sha256Spec

  // ----- primes, in order

  ghost predicate Prime(n: nat) {
    n >= 2 && forall d :: 2 <= d < n ==> n % d != 0
  }

  ghost function PrimesBelow(n: nat): nat {
    if n == 0 then 0 else PrimesBelow(n - 1) + if Prime(n - 1) then 1 else 0
  }

  /** The prime with exactly t smaller ones. */
  ghost predicate NthPrime(p: nat, t: nat) {
    Prime(p) && PrimesBelow(p) == t
  }

  predicate Passes(n: nat, d: nat)
    requires d > 0
  {
    n == d || n % d != 0
  }

  /** Trial division by the primes up to 17. */
  predicate Trial(n: nat) {
    && n >= 2 && Passes(n, 2) && Passes(n, 3) && Passes(n, 5) && Passes(n, 7)
    && Passes(n, 11) && Passes(n, 13) && Passes(n, 17)
  }

  lemma FactorOf(n: nat, d: nat) returns (e: nat)
    requires 2 <= d < n && n % d == 0
    ensures 2 <= e < n && n == d * e && n % e == 0
  {
    e := n / d;
    assert n == d * e;
    OtherFactor(n, d, e);
    DivisionUnique(n, e, d, 0);
  }

  lemma OtherFactor(n: nat, d: nat, e: nat)
    requires 2 <= d < n && n == d * e
    ensures 2 <= e < n && n == e * d && (d >= 19 && n < 361 ==> e <= 18)
  {
    assert e != 0 && e != 1;
    assert d * e == 2 * e + (d - 2) * e;
    assert d >= 19 && e >= 19 ==> d * e == 19 * 19 + 19 * (e - 19) + (d - 19) * e;
  }

  lemma DividesThrough(n: nat, d: nat, r: nat)
    requires d > 0 && r > 0 && n % d == 0 && d % r == 0
    ensures n % r == 0
  {
    var e, m := n / d, d / r;
    assert n == d * e && d == r * m;
    assert n == r * (m * e);
    DivisionUnique(n, r, m * e, 0);
  }

  lemma SmallFactor(n: nat, d: nat)
    requires 2 <= d <= 18 && d < n && n % d == 0
    ensures !Trial(n)
  {
    if d % 2 == 0 {
      DividesThrough(n, d, 2);
    } else if d % 3 == 0 {
      DividesThrough(n, d, 3);
    }
  }

  /** A number below 19 * 19 with a factor has one that is at most 18, and so one of the seven primes. */
  lemma TrialMeansPrime(n: nat)
    requires n < 361 && Trial(n)
    ensures Prime(n)
  {
    assert n >= 2;
    hide Trial;
    forall d | 2 <= d < n
      ensures n % d != 0
    {
      if n % d == 0 {
        var e := FactorOf(n, d);
        OtherFactor(n, d, e);
        SmallFactor(n, if d <= 18 then d else e);
      }
    }
  }

  lemma PrimeMeansTrial(n: nat)
    requires Prime(n)
    ensures Trial(n)
  {
  }

  /** No prime strictly between. */
  predicate Gap(p: nat, q: nat) {
    q <= p + 1 || (!Trial(q - 1) && Gap(p, q - 1))
  }

  lemma {:induction false} NoneInGap(p: nat, q: nat)
    requires p < q && Gap(p, q)
    ensures PrimesBelow(q) == PrimesBelow(p + 1)
  {
    if q > p + 1 {
      NoneInGap(p, q - 1);
      if Prime(q - 1) {
        PrimeMeansTrial(q - 1);
      }
    }
  }

  lemma NextPrime(p: nat, q: nat, t: nat)
    requires NthPrime(p, t) && p < q < 361 && Trial(q) && Gap(p, q)
    ensures NthPrime(q, t + 1)
  {
    TrialMeansPrime(q);
    NoneInGap(p, q);
  }

  lemma FirstPrime()
    ensures NthPrime(2, 0)
  {
    assert PrimesBelow(1) == 0 && PrimesBelow(2) == 0;
  }

  // ----- the first bits of roots

  function Square(n: nat): nat {
    n * n
  }

  function Cube(n: nat): nat {
    n * n * n
  }

  /** With c the whole part of the square root of p, k is its first thirty-two bits after the point. */
  ghost predicate SquareRootBits(p: nat, k: nat) {
    exists c: nat ::
      && Square(c) <= p < Square(c + 1)
      && Square(c * 0x1_0000_0000 + k) <= p * 0x1_0000_0000_0000_0000 < Square(c * 0x1_0000_0000 + k + 1)
  }

  ghost predicate CubeRootBits(p: nat, k: nat) {
    exists c: nat ::
      && Cube(c) <= p < Cube(c + 1)
      && Cube(c * 0x1_0000_0000 + k) <= p * 0x1_0000_0000_0000_0000_0000_0000 < Cube(c * 0x1_0000_0000 + k + 1)
  }

  ghost predicate FromCubeRoot(t: nat)
    requires t < 64
  {
    exists p :: NthPrime(p, t) && CubeRootBits(p, RoundConstant(t) as nat)
  }

  ghost predicate FromSquareRoot(t: nat)
    requires t < 8
  {
    exists p :: NthPrime(p, t) && SquareRootBits(p, Words(Initial)[t] as nat)
  }

  /** One entry of the table: w, with value k, for the prime p whose cube root has the whole part c. */
  lemma Entry(t: nat, p: nat, c: nat, w: word, k: nat)
    requires t < 64 && NthPrime(p, t) && RoundConstant(t) == w && w as nat == k
    requires Cube(c) <= p < Cube(c + 1)
    requires Cube(c * 0x1_0000_0000 + k) <= p * 0x1_0000_0000_0000_0000_0000_0000
    requires p * 0x1_0000_0000_0000_0000_0000_0000 < Cube(c * 0x1_0000_0000 + k + 1)
    ensures FromCubeRoot(t)
  {
    hide RoundConstant, NthPrime;
  }

  lemma InitialEntry(t: nat, p: nat, c: nat, w: word, k: nat)
    requires t < 8 && NthPrime(p, t) && Words(Initial)[t] == w && w as nat == k
    requires Square(c) <= p < Square(c + 1)
    requires Square(c * 0x1_0000_0000 + k) <= p * 0x1_0000_0000_0000_0000
    requires p * 0x1_0000_0000_0000_0000 < Square(c * 0x1_0000_0000 + k + 1)
    ensures FromSquareRoot(t)
  {
    hide NthPrime;
  }

  lemma Primes0()
    ensures NthPrime(2, 0) && NthPrime(3, 1) && NthPrime(5, 2) && NthPrime(7, 3)
  {
    hide NthPrime;
    assert Trial(3) && Gap(2, 3);
    assert Trial(5) && Gap(3, 5);
    assert Trial(7) && Gap(5, 7);
    hide Trial, Gap;
    FirstPrime();
    NextPrime(2, 3, 0);
    NextPrime(3, 5, 1);
    NextPrime(5, 7, 2);
  }

  lemma Primes4()
    requires NthPrime(7, 3)
    ensures NthPrime(11, 4) && NthPrime(13, 5) && NthPrime(17, 6) && NthPrime(19, 7)
  {
    hide NthPrime;
    assert Trial(11) && Gap(7, 11);
    assert Trial(13) && Gap(11, 13);
    assert Trial(17) && Gap(13, 17);
    assert Trial(19) && Gap(17, 19);
    hide Trial, Gap;
    NextPrime(7, 11, 3);
    NextPrime(11, 13, 4);
    NextPrime(13, 17, 5);
    NextPrime(17, 19, 6);
  }

  lemma Primes8()
    requires NthPrime(19, 7)
    ensures NthPrime(23, 8) && NthPrime(29, 9) && NthPrime(31, 10) && NthPrime(37, 11)
  {
    hide NthPrime;
    assert Trial(23) && Gap(19, 23);
    assert Trial(29) && Gap(23, 29);
    assert Trial(31) && Gap(29, 31);
    assert Trial(37) && Gap(31, 37);
    hide Trial, Gap;
    NextPrime(19, 23, 7);
    NextPrime(23, 29, 8);
    NextPrime(29, 31, 9);
    NextPrime(31, 37, 10);
  }

  lemma Primes12()
    requires NthPrime(37, 11)
    ensures NthPrime(41, 12) && NthPrime(43, 13) && NthPrime(47, 14) && NthPrime(53, 15)
  {
    hide NthPrime;
    assert Trial(41) && Gap(37, 41);
    assert Trial(43) && Gap(41, 43);
    assert Trial(47) && Gap(43, 47);
    assert Trial(53) && Gap(47, 53);
    hide Trial, Gap;
    NextPrime(37, 41, 11);
    NextPrime(41, 43, 12);
    NextPrime(43, 47, 13);
    NextPrime(47, 53, 14);
  }

  lemma Primes16()
    requires NthPrime(53, 15)
    ensures NthPrime(59, 16) && NthPrime(61, 17) && NthPrime(67, 18) && NthPrime(71, 19)
  {
    hide NthPrime;
    assert Trial(59) && Gap(53, 59);
    assert Trial(61) && Gap(59, 61);
    assert Trial(67) && Gap(61, 67);
    assert Trial(71) && Gap(67, 71);
    hide Trial, Gap;
    NextPrime(53, 59, 15);
    NextPrime(59, 61, 16);
    NextPrime(61, 67, 17);
    NextPrime(67, 71, 18);
  }

  lemma Primes20()
    requires NthPrime(71, 19)
    ensures NthPrime(73, 20) && NthPrime(79, 21) && NthPrime(83, 22) && NthPrime(89, 23)
  {
    hide NthPrime;
    assert Trial(73) && Gap(71, 73);
    assert Trial(79) && Gap(73, 79);
    assert Trial(83) && Gap(79, 83);
    assert Trial(89) && Gap(83, 89);
    hide Trial, Gap;
    NextPrime(71, 73, 19);
    NextPrime(73, 79, 20);
    NextPrime(79, 83, 21);
    NextPrime(83, 89, 22);
  }

  lemma Primes24()
    requires NthPrime(89, 23)
    ensures NthPrime(97, 24) && NthPrime(101, 25) && NthPrime(103, 26) && NthPrime(107, 27)
  {
    hide NthPrime;
    assert Trial(97) && Gap(89, 97);
    assert Trial(101) && Gap(97, 101);
    assert Trial(103) && Gap(101, 103);
    assert Trial(107) && Gap(103, 107);
    hide Trial, Gap;
    NextPrime(89, 97, 23);
    NextPrime(97, 101, 24);
    NextPrime(101, 103, 25);
    NextPrime(103, 107, 26);
  }

  lemma Primes28()
    requires NthPrime(107, 27)
    ensures NthPrime(109, 28) && NthPrime(113, 29) && NthPrime(127, 30) && NthPrime(131, 31)
  {
    hide NthPrime;
    assert Trial(109) && Gap(107, 109);
    assert Trial(113) && Gap(109, 113);
    assert Trial(127) && Gap(113, 127);
    assert Trial(131) && Gap(127, 131);
    hide Trial, Gap;
    NextPrime(107, 109, 27);
    NextPrime(109, 113, 28);
    NextPrime(113, 127, 29);
    NextPrime(127, 131, 30);
  }

  lemma Primes32()
    requires NthPrime(131, 31)
    ensures NthPrime(137, 32) && NthPrime(139, 33) && NthPrime(149, 34) && NthPrime(151, 35)
  {
    hide NthPrime;
    assert Trial(137) && Gap(131, 137);
    assert Trial(139) && Gap(137, 139);
    assert Trial(149) && Gap(139, 149);
    assert Trial(151) && Gap(149, 151);
    hide Trial, Gap;
    NextPrime(131, 137, 31);
    NextPrime(137, 139, 32);
    NextPrime(139, 149, 33);
    NextPrime(149, 151, 34);
  }

  lemma Primes36()
    requires NthPrime(151, 35)
    ensures NthPrime(157, 36) && NthPrime(163, 37) && NthPrime(167, 38) && NthPrime(173, 39)
  {
    hide NthPrime;
    assert Trial(157) && Gap(151, 157);
    assert Trial(163) && Gap(157, 163);
    assert Trial(167) && Gap(163, 167);
    assert Trial(173) && Gap(167, 173);
    hide Trial, Gap;
    NextPrime(151, 157, 35);
    NextPrime(157, 163, 36);
    NextPrime(163, 167, 37);
    NextPrime(167, 173, 38);
  }

  lemma Primes40()
    requires NthPrime(173, 39)
    ensures NthPrime(179, 40) && NthPrime(181, 41) && NthPrime(191, 42) && NthPrime(193, 43)
  {
    hide NthPrime;
    assert Trial(179) && Gap(173, 179);
    assert Trial(181) && Gap(179, 181);
    assert Trial(191) && Gap(181, 191);
    assert Trial(193) && Gap(191, 193);
    hide Trial, Gap;
    NextPrime(173, 179, 39);
    NextPrime(179, 181, 40);
    NextPrime(181, 191, 41);
    NextPrime(191, 193, 42);
  }

  lemma Primes44()
    requires NthPrime(193, 43)
    ensures NthPrime(197, 44) && NthPrime(199, 45) && NthPrime(211, 46) && NthPrime(223, 47)
  {
    hide NthPrime;
    assert Trial(197) && Gap(193, 197);
    assert Trial(199) && Gap(197, 199);
    assert Trial(211) && Gap(199, 211);
    assert Trial(223) && Gap(211, 223);
    hide Trial, Gap;
    NextPrime(193, 197, 43);
    NextPrime(197, 199, 44);
    NextPrime(199, 211, 45);
    NextPrime(211, 223, 46);
  }

  lemma Primes48()
    requires NthPrime(223, 47)
    ensures NthPrime(227, 48) && NthPrime(229, 49) && NthPrime(233, 50) && NthPrime(239, 51)
  {
    hide NthPrime;
    assert Trial(227) && Gap(223, 227);
    assert Trial(229) && Gap(227, 229);
    assert Trial(233) && Gap(229, 233);
    assert Trial(239) && Gap(233, 239);
    hide Trial, Gap;
    NextPrime(223, 227, 47);
    NextPrime(227, 229, 48);
    NextPrime(229, 233, 49);
    NextPrime(233, 239, 50);
  }

  lemma Primes52()
    requires NthPrime(239, 51)
    ensures NthPrime(241, 52) && NthPrime(251, 53) && NthPrime(257, 54) && NthPrime(263, 55)
  {
    hide NthPrime;
    assert Trial(241) && Gap(239, 241);
    assert Trial(251) && Gap(241, 251);
    assert Trial(257) && Gap(251, 257);
    assert Trial(263) && Gap(257, 263);
    hide Trial, Gap;
    NextPrime(239, 241, 51);
    NextPrime(241, 251, 52);
    NextPrime(251, 257, 53);
    NextPrime(257, 263, 54);
  }

  lemma Primes56()
    requires NthPrime(263, 55)
    ensures NthPrime(269, 56) && NthPrime(271, 57) && NthPrime(277, 58) && NthPrime(281, 59)
  {
    hide NthPrime;
    assert Trial(269) && Gap(263, 269);
    assert Trial(271) && Gap(269, 271);
    assert Trial(277) && Gap(271, 277);
    assert Trial(281) && Gap(277, 281);
    hide Trial, Gap;
    NextPrime(263, 269, 55);
    NextPrime(269, 271, 56);
    NextPrime(271, 277, 57);
    NextPrime(277, 281, 58);
  }

  lemma Primes60()
    requires NthPrime(281, 59)
    ensures NthPrime(283, 60) && NthPrime(293, 61) && NthPrime(307, 62) && NthPrime(311, 63)
  {
    hide NthPrime;
    assert Trial(283) && Gap(281, 283);
    assert Trial(293) && Gap(283, 293);
    assert Trial(307) && Gap(293, 307);
    assert Trial(311) && Gap(307, 311);
    hide Trial, Gap;
    NextPrime(281, 283, 59);
    NextPrime(283, 293, 60);
    NextPrime(293, 307, 61);
    NextPrime(307, 311, 62);
  }

  lemma Row0()
    requires NthPrime(2, 0) && NthPrime(3, 1) && NthPrime(5, 2) && NthPrime(7, 3)
    requires NthPrime(11, 4) && NthPrime(13, 5) && NthPrime(17, 6) && NthPrime(19, 7)
    ensures forall t :: 0 <= t < 8 ==> FromCubeRoot(t)
  {
    hide NthPrime, FromCubeRoot;
    Entry(0, 2, 1, 0x428a2f98, 0x428a2f98);
    Entry(1, 3, 1, 0x71374491, 0x71374491);
    Entry(2, 5, 1, 0xb5c0fbcf, 0xb5c0fbcf);
    Entry(3, 7, 1, 0xe9b5dba5, 0xe9b5dba5);
    Entry(4, 11, 2, 0x3956c25b, 0x3956c25b);
    Entry(5, 13, 2, 0x59f111f1, 0x59f111f1);
    Entry(6, 17, 2, 0x923f82a4, 0x923f82a4);
    Entry(7, 19, 2, 0xab1c5ed5, 0xab1c5ed5);
  }

  lemma Row1()
    requires NthPrime(23, 8) && NthPrime(29, 9) && NthPrime(31, 10) && NthPrime(37, 11)
    requires NthPrime(41, 12) && NthPrime(43, 13) && NthPrime(47, 14) && NthPrime(53, 15)
    ensures forall t :: 8 <= t < 16 ==> FromCubeRoot(t)
  {
    hide NthPrime, FromCubeRoot;
    Entry(8, 23, 2, 0xd807aa98, 0xd807aa98);
    Entry(9, 29, 3, 0x12835b01, 0x12835b01);
    Entry(10, 31, 3, 0x243185be, 0x243185be);
    Entry(11, 37, 3, 0x550c7dc3, 0x550c7dc3);
    Entry(12, 41, 3, 0x72be5d74, 0x72be5d74);
    Entry(13, 43, 3, 0x80deb1fe, 0x80deb1fe);
    Entry(14, 47, 3, 0x9bdc06a7, 0x9bdc06a7);
    Entry(15, 53, 3, 0xc19bf174, 0xc19bf174);
  }

  lemma Row2()
    requires NthPrime(59, 16) && NthPrime(61, 17) && NthPrime(67, 18) && NthPrime(71, 19)
    requires NthPrime(73, 20) && NthPrime(79, 21) && NthPrime(83, 22) && NthPrime(89, 23)
    ensures forall t :: 16 <= t < 24 ==> FromCubeRoot(t)
  {
    hide NthPrime, FromCubeRoot;
    Entry(16, 59, 3, 0xe49b69c1, 0xe49b69c1);
    Entry(17, 61, 3, 0xefbe4786, 0xefbe4786);
    Entry(18, 67, 4, 0x0fc19dc6, 0x0fc19dc6);
    Entry(19, 71, 4, 0x240ca1cc, 0x240ca1cc);
    Entry(20, 73, 4, 0x2de92c6f, 0x2de92c6f);
    Entry(21, 79, 4, 0x4a7484aa, 0x4a7484aa);
    Entry(22, 83, 4, 0x5cb0a9dc, 0x5cb0a9dc);
    Entry(23, 89, 4, 0x76f988da, 0x76f988da);
  }

  lemma Row3()
    requires NthPrime(97, 24) && NthPrime(101, 25) && NthPrime(103, 26) && NthPrime(107, 27)
    requires NthPrime(109, 28) && NthPrime(113, 29) && NthPrime(127, 30) && NthPrime(131, 31)
    ensures forall t :: 24 <= t < 32 ==> FromCubeRoot(t)
  {
    hide NthPrime, FromCubeRoot;
    Entry(24, 97, 4, 0x983e5152, 0x983e5152);
    Entry(25, 101, 4, 0xa831c66d, 0xa831c66d);
    Entry(26, 103, 4, 0xb00327c8, 0xb00327c8);
    Entry(27, 107, 4, 0xbf597fc7, 0xbf597fc7);
    Entry(28, 109, 4, 0xc6e00bf3, 0xc6e00bf3);
    Entry(29, 113, 4, 0xd5a79147, 0xd5a79147);
    Entry(30, 127, 5, 0x06ca6351, 0x06ca6351);
    Entry(31, 131, 5, 0x14292967, 0x14292967);
  }

  lemma Row4()
    requires NthPrime(137, 32) && NthPrime(139, 33) && NthPrime(149, 34) && NthPrime(151, 35)
    requires NthPrime(157, 36) && NthPrime(163, 37) && NthPrime(167, 38) && NthPrime(173, 39)
    ensures forall t :: 32 <= t < 40 ==> FromCubeRoot(t)
  {
    hide NthPrime, FromCubeRoot;
    Entry(32, 137, 5, 0x27b70a85, 0x27b70a85);
    Entry(33, 139, 5, 0x2e1b2138, 0x2e1b2138);
    Entry(34, 149, 5, 0x4d2c6dfc, 0x4d2c6dfc);
    Entry(35, 151, 5, 0x53380d13, 0x53380d13);
    Entry(36, 157, 5, 0x650a7354, 0x650a7354);
    Entry(37, 163, 5, 0x766a0abb, 0x766a0abb);
    Entry(38, 167, 5, 0x81c2c92e, 0x81c2c92e);
    Entry(39, 173, 5, 0x92722c85, 0x92722c85);
  }

  lemma Row5()
    requires NthPrime(179, 40) && NthPrime(181, 41) && NthPrime(191, 42) && NthPrime(193, 43)
    requires NthPrime(197, 44) && NthPrime(199, 45) && NthPrime(211, 46) && NthPrime(223, 47)
    ensures forall t :: 40 <= t < 48 ==> FromCubeRoot(t)
  {
    hide NthPrime, FromCubeRoot;
    Entry(40, 179, 5, 0xa2bfe8a1, 0xa2bfe8a1);
    Entry(41, 181, 5, 0xa81a664b, 0xa81a664b);
    Entry(42, 191, 5, 0xc24b8b70, 0xc24b8b70);
    Entry(43, 193, 5, 0xc76c51a3, 0xc76c51a3);
    Entry(44, 197, 5, 0xd192e819, 0xd192e819);
    Entry(45, 199, 5, 0xd6990624, 0xd6990624);
    Entry(46, 211, 5, 0xf40e3585, 0xf40e3585);
    Entry(47, 223, 6, 0x106aa070, 0x106aa070);
  }

  lemma Row6()
    requires NthPrime(227, 48) && NthPrime(229, 49) && NthPrime(233, 50) && NthPrime(239, 51)
    requires NthPrime(241, 52) && NthPrime(251, 53) && NthPrime(257, 54) && NthPrime(263, 55)
    ensures forall t :: 48 <= t < 56 ==> FromCubeRoot(t)
  {
    hide NthPrime, FromCubeRoot;
    Entry(48, 227, 6, 0x19a4c116, 0x19a4c116);
    Entry(49, 229, 6, 0x1e376c08, 0x1e376c08);
    Entry(50, 233, 6, 0x2748774c, 0x2748774c);
    Entry(51, 239, 6, 0x34b0bcb5, 0x34b0bcb5);
    Entry(52, 241, 6, 0x391c0cb3, 0x391c0cb3);
    Entry(53, 251, 6, 0x4ed8aa4a, 0x4ed8aa4a);
    Entry(54, 257, 6, 0x5b9cca4f, 0x5b9cca4f);
    Entry(55, 263, 6, 0x682e6ff3, 0x682e6ff3);
  }

  lemma Row7()
    requires NthPrime(269, 56) && NthPrime(271, 57) && NthPrime(277, 58) && NthPrime(281, 59)
    requires NthPrime(283, 60) && NthPrime(293, 61) && NthPrime(307, 62) && NthPrime(311, 63)
    ensures forall t :: 56 <= t < 64 ==> FromCubeRoot(t)
  {
    hide NthPrime, FromCubeRoot;
    Entry(56, 269, 6, 0x748f82ee, 0x748f82ee);
    Entry(57, 271, 6, 0x78a5636f, 0x78a5636f);
    Entry(58, 277, 6, 0x84c87814, 0x84c87814);
    Entry(59, 281, 6, 0x8cc70208, 0x8cc70208);
    Entry(60, 283, 6, 0x90befffa, 0x90befffa);
    Entry(61, 293, 6, 0xa4506ceb, 0xa4506ceb);
    Entry(62, 307, 6, 0xbef9a3f7, 0xbef9a3f7);
    Entry(63, 311, 6, 0xc67178f2, 0xc67178f2);
  }

  lemma AllRows()
    ensures forall t :: 0 <= t < 64 ==> FromCubeRoot(t)
  {
    hide NthPrime, FromCubeRoot;
    Primes0();
    Primes4();
    Row0();
    Primes8();
    Primes12();
    Row1();
    Primes16();
    Primes20();
    Row2();
    Primes24();
    Primes28();
    Row3();
    Primes32();
    Primes36();
    Row4();
    Primes40();
    Primes44();
    Row5();
    Primes48();
    Primes52();
    Row6();
    Primes56();
    Primes60();
    Row7();
  }

  /** Every round constant is what the standard says: from the cube root of the prime of its rank. */
  lemma RoundConstantsAreRoots(t: nat)
    requires t < 64
    ensures exists p :: NthPrime(p, t) && CubeRootBits(p, RoundConstant(t) as nat)
  {
    AllRows();
    assert FromCubeRoot(t);
    hide NthPrime, CubeRootBits, RoundConstant;
  }

  lemma InitialRow()
    ensures forall t :: 0 <= t < 8 ==> FromSquareRoot(t)
  {
    hide NthPrime, FromSquareRoot;
    Primes0();
    Primes4();
    InitialEntry(0, 2, 1, 0x6a09e667, 0x6a09e667);
    InitialEntry(1, 3, 1, 0xbb67ae85, 0xbb67ae85);
    InitialEntry(2, 5, 2, 0x3c6ef372, 0x3c6ef372);
    InitialEntry(3, 7, 2, 0xa54ff53a, 0xa54ff53a);
    InitialEntry(4, 11, 3, 0x510e527f, 0x510e527f);
    InitialEntry(5, 13, 3, 0x9b05688c, 0x9b05688c);
    InitialEntry(6, 17, 4, 0x1f83d9ab, 0x1f83d9ab);
    InitialEntry(7, 19, 4, 0x5be0cd19, 0x5be0cd19);
  }

  /** And every word of the initial hash value, from the square root. */
  lemma InitialWordsAreRoots(t: nat)
    requires t < 8
    ensures exists p :: NthPrime(p, t) && SquareRootBits(p, Words(Initial)[t] as nat)
  {
    InitialRow();
    assert FromSquareRoot(t);
    hide NthPrime, SquareRootBits;
  }

  // ----- the two choosing functions, under any mask

  /** Where x has ones Ch takes the bits of y, and where it has zeros those of z. */
  lemma ChChooses(x: word, y: word, z: word, mask: word)
    ensures x & mask == mask ==> Ch(x, y, z) & mask == y & mask
    ensures x & mask == 0 ==> Ch(x, y, z) & mask == z & mask
  {
  }

  /** Where two of the three agree, Maj is what they agree on. */
  lemma MajAgrees(x: word, y: word, z: word, mask: word)
    ensures x & mask == y & mask ==> Maj(x, y, z) & mask == x & mask
    ensures x & mask == z & mask ==> Maj(x, y, z) & mask == x & mask
    ensures y & mask == z & mask ==> Maj(x, y, z) & mask == y & mask
  {
    MajTurns(x, y, z);
    FirstTwoAgree(x, y, z, mask);
    FirstTwoAgree(z, x, y, mask);
    FirstTwoAgree(y, z, x, mask);
    hide Maj;
  }

  lemma MajTurns(x: word, y: word, z: word)
    ensures Maj(x, y, z) == Maj(y, z, x) == Maj(z, x, y)
  {
  }

  lemma FirstTwoAgree(x: word, y: word, z: word, mask: word)
    ensures x & mask == y & mask ==> Maj(x, y, z) & mask == x & mask
  {
    var u, v := x & mask, z & mask;
    assert ((x & y) ^ (x & z) ^ (y & z)) & mask == (u & (y & mask)) ^ (u & v) ^ ((y & mask) & v);
    assert (u & u) ^ (u & v) ^ (u & v) == u;
  }
}
