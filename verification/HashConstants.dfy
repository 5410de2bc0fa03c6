/**
 * Where the constants of SHA-256 come from: the cube roots of the first 64 primes and the square roots of the
 * first eight (sections 4.2.2 and 5.3.3 of FIPS 180-4).
 */
module HashConstants {
  import opened Sha256
  import opened Words

  // ----- primes -----

  ghost predicate IsPrime(n: nat) {
    n >= 2 && forall d :: 2 <= d < n ==> n % d != 0
  }

  /** `q` is the prime that follows `p`. */
  ghost predicate IsNextPrime(p: nat, q: nat) {
    p < q && IsPrime(q) && forall n :: p < n < q ==> !IsPrime(n)
  }

  /** The primes from the first one on, without a gap. */
  ghost predicate AreFirstPrimes(list: seq<nat>) {
    && list != [] && list[0] == 2
    && forall t: nat :: 1 <= t < |list| ==> IsNextPrime(list[t - 1], list[t])
  }

  const PRIMES: seq<nat> := [
    2, 3, 5, 7, 11, 13, 17, 19, 23, 29, 31, 37, 41, 43, 47, 53
  ] + [
    59, 61, 67, 71, 73, 79, 83, 89, 97, 101, 103, 107, 109, 113, 127, 131
  ] + [
    137, 139, 149, 151, 157, 163, 167, 173, 179, 181, 191, 193, 197, 199, 211, 223
  ] + [
    227, 229, 233, 239, 241, 251, 257, 263, 269, 271, 277, 281, 283, 293, 307, 311
  ]

  /** One of the primes below 18 divides `n`. */
  predicate HasSmallDivisor(n: nat) {
    n % 2 == 0 || n % 3 == 0 || n % 5 == 0 || n % 7 == 0 || n % 11 == 0 || n % 13 == 0 || n % 17 == 0
  }

  lemma Divides(p: nat, n: nat)
    requires p == 2 || p == 3 || p == 5 || p == 7 || p == 11 || p == 13 || p == 17
    requires n % p == 0
    ensures HasSmallDivisor(n)
  {
  }

  lemma Times2(m: nat)
    ensures HasSmallDivisor(2 * m)
  {
    hide HasSmallDivisor;
    Divides(2, 2 * m);
  }

  lemma Times3(m: nat)
    ensures HasSmallDivisor(3 * m)
  {
    hide HasSmallDivisor;
    Divides(3, 3 * m);
  }

  lemma Times5(m: nat)
    ensures HasSmallDivisor(5 * m)
  {
    hide HasSmallDivisor;
    Divides(5, 5 * m);
  }

  lemma Times7(m: nat)
    ensures HasSmallDivisor(7 * m)
  {
    hide HasSmallDivisor;
    Divides(7, 7 * m);
  }

  lemma Times11(m: nat)
    ensures HasSmallDivisor(11 * m)
  {
    hide HasSmallDivisor;
    Divides(11, 11 * m);
  }

  lemma Times13(m: nat)
    ensures HasSmallDivisor(13 * m)
  {
    hide HasSmallDivisor;
    Divides(13, 13 * m);
  }

  lemma Times17(m: nat)
    ensures HasSmallDivisor(17 * m)
  {
    hide HasSmallDivisor;
    Divides(17, 17 * m);
  }

  lemma SmallFactor(d: nat, q: nat)
    requires 2 <= q < 18
    ensures HasSmallDivisor(d * q)
  {
    hide HasSmallDivisor;
    if q == 2 {
      Times2(d);
      assert d * q == 2 * d;
    } else if q == 3 {
      Times3(d);
      assert d * q == 3 * d;
    } else if q == 4 {
      Times2(2 * d);
      assert d * q == 2 * (2 * d);
    } else if q == 5 {
      Times5(d);
      assert d * q == 5 * d;
    } else if q == 6 {
      Times2(3 * d);
      assert d * q == 2 * (3 * d);
    } else if q == 7 {
      Times7(d);
      assert d * q == 7 * d;
    } else if q == 8 {
      Times2(4 * d);
      assert d * q == 2 * (4 * d);
    } else if q == 9 {
      Times3(3 * d);
      assert d * q == 3 * (3 * d);
    } else if q == 10 {
      Times2(5 * d);
      assert d * q == 2 * (5 * d);
    } else if q == 11 {
      Times11(d);
      assert d * q == 11 * d;
    } else if q == 12 {
      Times2(6 * d);
      assert d * q == 2 * (6 * d);
    } else if q == 13 {
      Times13(d);
      assert d * q == 13 * d;
    } else if q == 14 {
      Times2(7 * d);
      assert d * q == 2 * (7 * d);
    } else if q == 15 {
      Times3(5 * d);
      assert d * q == 3 * (5 * d);
    } else if q == 16 {
      Times2(8 * d);
      assert d * q == 2 * (8 * d);
    } else {
      Times17(d);
      assert d * q == 17 * d;
    }
  }

  lemma ProductBounds(d: nat, q: nat)
    ensures q < 2 ==> d * q <= d
    ensures d >= 18 && q >= 18 ==> d * q >= 324
  {
  }

  lemma Factors(d: nat, q: nat)
    requires 2 <= d < d * q < 324
    ensures HasSmallDivisor(d * q)
  {
    hide HasSmallDivisor;
    ProductBounds(d, q);
    if q < 18 { SmallFactor(d, q); } else { SmallFactor(q, d); }
  }

  lemma Quotient(n: nat, d: nat) returns (q: nat)
    requires d > 0 && n % d == 0
    ensures n == d * q
  {
    q := n / d;
  }

  /** Between 18 and 18 * 18 the primes are the numbers without small divisor. */
  lemma PrimeIff(n: nat)
    requires 18 <= n < 324
    ensures IsPrime(n) <==> !HasSmallDivisor(n)
  {
    if !HasSmallDivisor(n) {
      forall d | 2 <= d < n ensures n % d != 0 {
        hide HasSmallDivisor;
        if n % d == 0 {
          var q := Quotient(n, d);
          Factors(d, q);
        }
      }
    }
  }

  /** Every number from `n` on and below `end` has a small divisor. */
  predicate AllDivide(n: nat, end: nat)
    decreases end - n
  {
    n >= end || (HasSmallDivisor(n) && AllDivide(n + 1, end))
  }

  lemma {:induction false} AllDivideAt(n: nat, end: nat, k: nat)
    requires AllDivide(n, end) && n <= k < end
    ensures HasSmallDivisor(k)
    decreases end - n
  {
    if n < k { AllDivideAt(n + 1, end, k); }
  }

  lemma NextPrime(p: nat, q: nat)
    requires 18 <= p + 1 < q < 324 && !HasSmallDivisor(q) && AllDivide(p + 1, q)
    ensures IsNextPrime(p, q)
  {
    hide IsPrime, HasSmallDivisor, AllDivide;
    PrimeIff(q);
    forall n | p < n < q ensures !IsPrime(n) {
      AllDivideAt(p + 1, q, n);
      PrimeIff(n);
    }
  }

  lemma FirstPrimes()
    ensures IsNextPrime(1, 2)
    ensures IsNextPrime(2, 3)
    ensures IsNextPrime(3, 5)
    ensures IsNextPrime(5, 7)
    ensures IsNextPrime(7, 11)
    ensures IsNextPrime(11, 13)
    ensures IsNextPrime(13, 17)
  {
    assert 4 % 2 == 0 && 6 % 2 == 0 && 8 % 2 == 0 && 10 % 2 == 0 && 12 % 2 == 0 && 14 % 2 == 0 && 16 % 2 == 0;
    assert 9 % 3 == 0 && 15 % 3 == 0;
  }

  lemma PrimesFrom17()
    ensures IsNextPrime(17, 19)
    ensures IsNextPrime(19, 23)
    ensures IsNextPrime(23, 29)
    ensures IsNextPrime(29, 31)
    ensures IsNextPrime(31, 37)
    ensures IsNextPrime(37, 41)
    ensures IsNextPrime(41, 43)
    ensures IsNextPrime(43, 47)
  {
    hide IsNextPrime;
    assert !HasSmallDivisor(19) && AllDivide(18, 19);
    NextPrime(17, 19);
    assert !HasSmallDivisor(23) && AllDivide(20, 23);
    NextPrime(19, 23);
    assert !HasSmallDivisor(29) && AllDivide(24, 29);
    NextPrime(23, 29);
    assert !HasSmallDivisor(31) && AllDivide(30, 31);
    NextPrime(29, 31);
    assert !HasSmallDivisor(37) && AllDivide(32, 37);
    NextPrime(31, 37);
    assert !HasSmallDivisor(41) && AllDivide(38, 41);
    NextPrime(37, 41);
    assert !HasSmallDivisor(43) && AllDivide(42, 43);
    NextPrime(41, 43);
    assert !HasSmallDivisor(47) && AllDivide(44, 47);
    NextPrime(43, 47);
  }

  lemma PrimesFrom47()
    ensures IsNextPrime(47, 53)
    ensures IsNextPrime(53, 59)
    ensures IsNextPrime(59, 61)
    ensures IsNextPrime(61, 67)
    ensures IsNextPrime(67, 71)
    ensures IsNextPrime(71, 73)
    ensures IsNextPrime(73, 79)
    ensures IsNextPrime(79, 83)
  {
    hide IsNextPrime;
    assert !HasSmallDivisor(53) && AllDivide(48, 53);
    NextPrime(47, 53);
    assert !HasSmallDivisor(59) && AllDivide(54, 59);
    NextPrime(53, 59);
    assert !HasSmallDivisor(61) && AllDivide(60, 61);
    NextPrime(59, 61);
    assert !HasSmallDivisor(67) && AllDivide(62, 67);
    NextPrime(61, 67);
    assert !HasSmallDivisor(71) && AllDivide(68, 71);
    NextPrime(67, 71);
    assert !HasSmallDivisor(73) && AllDivide(72, 73);
    NextPrime(71, 73);
    assert !HasSmallDivisor(79) && AllDivide(74, 79);
    NextPrime(73, 79);
    assert !HasSmallDivisor(83) && AllDivide(80, 83);
    NextPrime(79, 83);
  }

  lemma PrimesFrom83()
    ensures IsNextPrime(83, 89)
    ensures IsNextPrime(89, 97)
    ensures IsNextPrime(97, 101)
    ensures IsNextPrime(101, 103)
    ensures IsNextPrime(103, 107)
    ensures IsNextPrime(107, 109)
    ensures IsNextPrime(109, 113)
    ensures IsNextPrime(113, 127)
  {
    hide IsNextPrime;
    assert !HasSmallDivisor(89) && AllDivide(84, 89);
    NextPrime(83, 89);
    assert !HasSmallDivisor(97) && AllDivide(90, 97);
    NextPrime(89, 97);
    assert !HasSmallDivisor(101) && AllDivide(98, 101);
    NextPrime(97, 101);
    assert !HasSmallDivisor(103) && AllDivide(102, 103);
    NextPrime(101, 103);
    assert !HasSmallDivisor(107) && AllDivide(104, 107);
    NextPrime(103, 107);
    assert !HasSmallDivisor(109) && AllDivide(108, 109);
    NextPrime(107, 109);
    assert !HasSmallDivisor(113) && AllDivide(110, 113);
    NextPrime(109, 113);
    assert !HasSmallDivisor(127) && AllDivide(114, 127);
    NextPrime(113, 127);
  }

  lemma PrimesFrom127()
    ensures IsNextPrime(127, 131)
    ensures IsNextPrime(131, 137)
    ensures IsNextPrime(137, 139)
    ensures IsNextPrime(139, 149)
    ensures IsNextPrime(149, 151)
    ensures IsNextPrime(151, 157)
    ensures IsNextPrime(157, 163)
    ensures IsNextPrime(163, 167)
  {
    hide IsNextPrime;
    assert !HasSmallDivisor(131) && AllDivide(128, 131);
    NextPrime(127, 131);
    assert !HasSmallDivisor(137) && AllDivide(132, 137);
    NextPrime(131, 137);
    assert !HasSmallDivisor(139) && AllDivide(138, 139);
    NextPrime(137, 139);
    assert !HasSmallDivisor(149) && AllDivide(140, 149);
    NextPrime(139, 149);
    assert !HasSmallDivisor(151) && AllDivide(150, 151);
    NextPrime(149, 151);
    assert !HasSmallDivisor(157) && AllDivide(152, 157);
    NextPrime(151, 157);
    assert !HasSmallDivisor(163) && AllDivide(158, 163);
    NextPrime(157, 163);
    assert !HasSmallDivisor(167) && AllDivide(164, 167);
    NextPrime(163, 167);
  }

  lemma PrimesFrom167()
    ensures IsNextPrime(167, 173)
    ensures IsNextPrime(173, 179)
    ensures IsNextPrime(179, 181)
    ensures IsNextPrime(181, 191)
    ensures IsNextPrime(191, 193)
    ensures IsNextPrime(193, 197)
    ensures IsNextPrime(197, 199)
    ensures IsNextPrime(199, 211)
  {
    hide IsNextPrime;
    assert !HasSmallDivisor(173) && AllDivide(168, 173);
    NextPrime(167, 173);
    assert !HasSmallDivisor(179) && AllDivide(174, 179);
    NextPrime(173, 179);
    assert !HasSmallDivisor(181) && AllDivide(180, 181);
    NextPrime(179, 181);
    assert !HasSmallDivisor(191) && AllDivide(182, 191);
    NextPrime(181, 191);
    assert !HasSmallDivisor(193) && AllDivide(192, 193);
    NextPrime(191, 193);
    assert !HasSmallDivisor(197) && AllDivide(194, 197);
    NextPrime(193, 197);
    assert !HasSmallDivisor(199) && AllDivide(198, 199);
    NextPrime(197, 199);
    assert !HasSmallDivisor(211) && AllDivide(200, 211);
    NextPrime(199, 211);
  }

  lemma PrimesFrom211()
    ensures IsNextPrime(211, 223)
    ensures IsNextPrime(223, 227)
    ensures IsNextPrime(227, 229)
    ensures IsNextPrime(229, 233)
    ensures IsNextPrime(233, 239)
    ensures IsNextPrime(239, 241)
    ensures IsNextPrime(241, 251)
    ensures IsNextPrime(251, 257)
  {
    hide IsNextPrime;
    assert !HasSmallDivisor(223) && AllDivide(212, 223);
    NextPrime(211, 223);
    assert !HasSmallDivisor(227) && AllDivide(224, 227);
    NextPrime(223, 227);
    assert !HasSmallDivisor(229) && AllDivide(228, 229);
    NextPrime(227, 229);
    assert !HasSmallDivisor(233) && AllDivide(230, 233);
    NextPrime(229, 233);
    assert !HasSmallDivisor(239) && AllDivide(234, 239);
    NextPrime(233, 239);
    assert !HasSmallDivisor(241) && AllDivide(240, 241);
    NextPrime(239, 241);
    assert !HasSmallDivisor(251) && AllDivide(242, 251);
    NextPrime(241, 251);
    assert !HasSmallDivisor(257) && AllDivide(252, 257);
    NextPrime(251, 257);
  }

  lemma PrimesFrom257()
    ensures IsNextPrime(257, 263)
    ensures IsNextPrime(263, 269)
    ensures IsNextPrime(269, 271)
    ensures IsNextPrime(271, 277)
    ensures IsNextPrime(277, 281)
    ensures IsNextPrime(281, 283)
    ensures IsNextPrime(283, 293)
    ensures IsNextPrime(293, 307)
  {
    hide IsNextPrime;
    assert !HasSmallDivisor(263) && AllDivide(258, 263);
    NextPrime(257, 263);
    assert !HasSmallDivisor(269) && AllDivide(264, 269);
    NextPrime(263, 269);
    assert !HasSmallDivisor(271) && AllDivide(270, 271);
    NextPrime(269, 271);
    assert !HasSmallDivisor(277) && AllDivide(272, 277);
    NextPrime(271, 277);
    assert !HasSmallDivisor(281) && AllDivide(278, 281);
    NextPrime(277, 281);
    assert !HasSmallDivisor(283) && AllDivide(282, 283);
    NextPrime(281, 283);
    assert !HasSmallDivisor(293) && AllDivide(284, 293);
    NextPrime(283, 293);
    assert !HasSmallDivisor(307) && AllDivide(294, 307);
    NextPrime(293, 307);
  }

  lemma PrimesFrom307()
    ensures IsNextPrime(307, 311)
  {
    hide IsNextPrime;
    assert !HasSmallDivisor(311) && AllDivide(308, 311);
    NextPrime(307, 311);
  }

  lemma Table0()
    ensures |K| == |PRIMES| == 64
    ensures PRIMES[0] == 2 && PRIMES[1] == 3 && PRIMES[2] == 5 && PRIMES[3] == 7
    ensures K[0] == 0x428a2f98 && K[1] == 0x71374491 && K[2] == 0xb5c0fbcf && K[3] == 0xe9b5dba5
    ensures PRIMES[4] == 11 && PRIMES[5] == 13 && PRIMES[6] == 17 && PRIMES[7] == 19
    ensures K[4] == 0x3956c25b && K[5] == 0x59f111f1 && K[6] == 0x923f82a4 && K[7] == 0xab1c5ed5
  {
  }

  lemma Table8()
    ensures |K| == |PRIMES| == 64
    ensures PRIMES[8] == 23 && PRIMES[9] == 29 && PRIMES[10] == 31 && PRIMES[11] == 37
    ensures K[8] == 0xd807aa98 && K[9] == 0x12835b01 && K[10] == 0x243185be && K[11] == 0x550c7dc3
    ensures PRIMES[12] == 41 && PRIMES[13] == 43 && PRIMES[14] == 47 && PRIMES[15] == 53
    ensures K[12] == 0x72be5d74 && K[13] == 0x80deb1fe && K[14] == 0x9bdc06a7 && K[15] == 0xc19bf174
  {
  }

  lemma Table16()
    ensures |K| == |PRIMES| == 64
    ensures PRIMES[16] == 59 && PRIMES[17] == 61 && PRIMES[18] == 67 && PRIMES[19] == 71
    ensures K[16] == 0xe49b69c1 && K[17] == 0xefbe4786 && K[18] == 0x0fc19dc6 && K[19] == 0x240ca1cc
    ensures PRIMES[20] == 73 && PRIMES[21] == 79 && PRIMES[22] == 83 && PRIMES[23] == 89
    ensures K[20] == 0x2de92c6f && K[21] == 0x4a7484aa && K[22] == 0x5cb0a9dc && K[23] == 0x76f988da
  {
  }

  lemma Table24()
    ensures |K| == |PRIMES| == 64
    ensures PRIMES[24] == 97 && PRIMES[25] == 101 && PRIMES[26] == 103 && PRIMES[27] == 107
    ensures K[24] == 0x983e5152 && K[25] == 0xa831c66d && K[26] == 0xb00327c8 && K[27] == 0xbf597fc7
    ensures PRIMES[28] == 109 && PRIMES[29] == 113 && PRIMES[30] == 127 && PRIMES[31] == 131
    ensures K[28] == 0xc6e00bf3 && K[29] == 0xd5a79147 && K[30] == 0x06ca6351 && K[31] == 0x14292967
  {
  }

  lemma Table32()
    ensures |K| == |PRIMES| == 64
    ensures PRIMES[32] == 137 && PRIMES[33] == 139 && PRIMES[34] == 149 && PRIMES[35] == 151
    ensures K[32] == 0x27b70a85 && K[33] == 0x2e1b2138 && K[34] == 0x4d2c6dfc && K[35] == 0x53380d13
    ensures PRIMES[36] == 157 && PRIMES[37] == 163 && PRIMES[38] == 167 && PRIMES[39] == 173
    ensures K[36] == 0x650a7354 && K[37] == 0x766a0abb && K[38] == 0x81c2c92e && K[39] == 0x92722c85
  {
  }

  lemma Table40()
    ensures |K| == |PRIMES| == 64
    ensures PRIMES[40] == 179 && PRIMES[41] == 181 && PRIMES[42] == 191 && PRIMES[43] == 193
    ensures K[40] == 0xa2bfe8a1 && K[41] == 0xa81a664b && K[42] == 0xc24b8b70 && K[43] == 0xc76c51a3
    ensures PRIMES[44] == 197 && PRIMES[45] == 199 && PRIMES[46] == 211 && PRIMES[47] == 223
    ensures K[44] == 0xd192e819 && K[45] == 0xd6990624 && K[46] == 0xf40e3585 && K[47] == 0x106aa070
  {
  }

  lemma Table48()
    ensures |K| == |PRIMES| == 64
    ensures PRIMES[48] == 227 && PRIMES[49] == 229 && PRIMES[50] == 233 && PRIMES[51] == 239
    ensures K[48] == 0x19a4c116 && K[49] == 0x1e376c08 && K[50] == 0x2748774c && K[51] == 0x34b0bcb5
    ensures PRIMES[52] == 241 && PRIMES[53] == 251 && PRIMES[54] == 257 && PRIMES[55] == 263
    ensures K[52] == 0x391c0cb3 && K[53] == 0x4ed8aa4a && K[54] == 0x5b9cca4f && K[55] == 0x682e6ff3
  {
  }

  lemma Table56()
    ensures |K| == |PRIMES| == 64
    ensures PRIMES[56] == 269 && PRIMES[57] == 271 && PRIMES[58] == 277 && PRIMES[59] == 281
    ensures K[56] == 0x748f82ee && K[57] == 0x78a5636f && K[58] == 0x84c87814 && K[59] == 0x8cc70208
    ensures PRIMES[60] == 283 && PRIMES[61] == 293 && PRIMES[62] == 307 && PRIMES[63] == 311
    ensures K[60] == 0x90befffa && K[61] == 0xa4506ceb && K[62] == 0xbef9a3f7 && K[63] == 0xc67178f2
  {
  }

  lemma OrderFrom0()
    ensures forall t: nat :: 1 <= t < 16 ==> IsNextPrime(PRIMES[t - 1], PRIMES[t])
  {
    hide IsNextPrime;
    Table0();
    Table8();
    FirstPrimes();
    PrimesFrom17();
    PrimesFrom47();
    forall t: nat | 1 <= t < 16 ensures IsNextPrime(PRIMES[t - 1], PRIMES[t]) {
      if t == 1 { assert IsNextPrime(PRIMES[0], PRIMES[1]); }
      if t == 2 { assert IsNextPrime(PRIMES[1], PRIMES[2]); }
      if t == 3 { assert IsNextPrime(PRIMES[2], PRIMES[3]); }
      if t == 4 { assert IsNextPrime(PRIMES[3], PRIMES[4]); }
      if t == 5 { assert IsNextPrime(PRIMES[4], PRIMES[5]); }
      if t == 6 { assert IsNextPrime(PRIMES[5], PRIMES[6]); }
      if t == 7 { assert IsNextPrime(PRIMES[6], PRIMES[7]); }
      if t == 8 { assert IsNextPrime(PRIMES[7], PRIMES[8]); }
      if t == 9 { assert IsNextPrime(PRIMES[8], PRIMES[9]); }
      if t == 10 { assert IsNextPrime(PRIMES[9], PRIMES[10]); }
      if t == 11 { assert IsNextPrime(PRIMES[10], PRIMES[11]); }
      if t == 12 { assert IsNextPrime(PRIMES[11], PRIMES[12]); }
      if t == 13 { assert IsNextPrime(PRIMES[12], PRIMES[13]); }
      if t == 14 { assert IsNextPrime(PRIMES[13], PRIMES[14]); }
      if t == 15 { assert IsNextPrime(PRIMES[14], PRIMES[15]); }
    }
  }

  lemma OrderFrom16()
    ensures forall t: nat :: 16 <= t < 32 ==> IsNextPrime(PRIMES[t - 1], PRIMES[t])
  {
    hide IsNextPrime;
    Table8();
    Table16();
    Table24();
    PrimesFrom47();
    PrimesFrom83();
    PrimesFrom127();
    forall t: nat | 16 <= t < 32 ensures IsNextPrime(PRIMES[t - 1], PRIMES[t]) {
      if t == 16 { assert IsNextPrime(PRIMES[15], PRIMES[16]); }
      if t == 17 { assert IsNextPrime(PRIMES[16], PRIMES[17]); }
      if t == 18 { assert IsNextPrime(PRIMES[17], PRIMES[18]); }
      if t == 19 { assert IsNextPrime(PRIMES[18], PRIMES[19]); }
      if t == 20 { assert IsNextPrime(PRIMES[19], PRIMES[20]); }
      if t == 21 { assert IsNextPrime(PRIMES[20], PRIMES[21]); }
      if t == 22 { assert IsNextPrime(PRIMES[21], PRIMES[22]); }
      if t == 23 { assert IsNextPrime(PRIMES[22], PRIMES[23]); }
      if t == 24 { assert IsNextPrime(PRIMES[23], PRIMES[24]); }
      if t == 25 { assert IsNextPrime(PRIMES[24], PRIMES[25]); }
      if t == 26 { assert IsNextPrime(PRIMES[25], PRIMES[26]); }
      if t == 27 { assert IsNextPrime(PRIMES[26], PRIMES[27]); }
      if t == 28 { assert IsNextPrime(PRIMES[27], PRIMES[28]); }
      if t == 29 { assert IsNextPrime(PRIMES[28], PRIMES[29]); }
      if t == 30 { assert IsNextPrime(PRIMES[29], PRIMES[30]); }
      if t == 31 { assert IsNextPrime(PRIMES[30], PRIMES[31]); }
    }
  }

  lemma OrderFrom32()
    ensures forall t: nat :: 32 <= t < 48 ==> IsNextPrime(PRIMES[t - 1], PRIMES[t])
  {
    hide IsNextPrime;
    Table24();
    Table32();
    Table40();
    PrimesFrom127();
    PrimesFrom167();
    PrimesFrom211();
    forall t: nat | 32 <= t < 48 ensures IsNextPrime(PRIMES[t - 1], PRIMES[t]) {
      if t == 32 { assert IsNextPrime(PRIMES[31], PRIMES[32]); }
      if t == 33 { assert IsNextPrime(PRIMES[32], PRIMES[33]); }
      if t == 34 { assert IsNextPrime(PRIMES[33], PRIMES[34]); }
      if t == 35 { assert IsNextPrime(PRIMES[34], PRIMES[35]); }
      if t == 36 { assert IsNextPrime(PRIMES[35], PRIMES[36]); }
      if t == 37 { assert IsNextPrime(PRIMES[36], PRIMES[37]); }
      if t == 38 { assert IsNextPrime(PRIMES[37], PRIMES[38]); }
      if t == 39 { assert IsNextPrime(PRIMES[38], PRIMES[39]); }
      if t == 40 { assert IsNextPrime(PRIMES[39], PRIMES[40]); }
      if t == 41 { assert IsNextPrime(PRIMES[40], PRIMES[41]); }
      if t == 42 { assert IsNextPrime(PRIMES[41], PRIMES[42]); }
      if t == 43 { assert IsNextPrime(PRIMES[42], PRIMES[43]); }
      if t == 44 { assert IsNextPrime(PRIMES[43], PRIMES[44]); }
      if t == 45 { assert IsNextPrime(PRIMES[44], PRIMES[45]); }
      if t == 46 { assert IsNextPrime(PRIMES[45], PRIMES[46]); }
      if t == 47 { assert IsNextPrime(PRIMES[46], PRIMES[47]); }
    }
  }

  lemma OrderFrom48()
    ensures forall t: nat :: 48 <= t < 64 ==> IsNextPrime(PRIMES[t - 1], PRIMES[t])
  {
    hide IsNextPrime;
    Table40();
    Table48();
    Table56();
    PrimesFrom211();
    PrimesFrom257();
    PrimesFrom307();
    forall t: nat | 48 <= t < 64 ensures IsNextPrime(PRIMES[t - 1], PRIMES[t]) {
      if t == 48 { assert IsNextPrime(PRIMES[47], PRIMES[48]); }
      if t == 49 { assert IsNextPrime(PRIMES[48], PRIMES[49]); }
      if t == 50 { assert IsNextPrime(PRIMES[49], PRIMES[50]); }
      if t == 51 { assert IsNextPrime(PRIMES[50], PRIMES[51]); }
      if t == 52 { assert IsNextPrime(PRIMES[51], PRIMES[52]); }
      if t == 53 { assert IsNextPrime(PRIMES[52], PRIMES[53]); }
      if t == 54 { assert IsNextPrime(PRIMES[53], PRIMES[54]); }
      if t == 55 { assert IsNextPrime(PRIMES[54], PRIMES[55]); }
      if t == 56 { assert IsNextPrime(PRIMES[55], PRIMES[56]); }
      if t == 57 { assert IsNextPrime(PRIMES[56], PRIMES[57]); }
      if t == 58 { assert IsNextPrime(PRIMES[57], PRIMES[58]); }
      if t == 59 { assert IsNextPrime(PRIMES[58], PRIMES[59]); }
      if t == 60 { assert IsNextPrime(PRIMES[59], PRIMES[60]); }
      if t == 61 { assert IsNextPrime(PRIMES[60], PRIMES[61]); }
      if t == 62 { assert IsNextPrime(PRIMES[61], PRIMES[62]); }
      if t == 63 { assert IsNextPrime(PRIMES[62], PRIMES[63]); }
    }
  }

  lemma PrimesInOrder()
    ensures |PRIMES| == 64 && AreFirstPrimes(PRIMES)
  {
    hide IsNextPrime;
    Table0();
    OrderFrom0();
    OrderFrom16();
    OrderFrom32();
    OrderFrom48();
  }

  // ----- roots -----

  function Square(x: nat): nat { x * x }

  function Cube(x: nat): nat { x * x * x }

  /** `k` is the first 32 bits of the fractional part of the cube root of `p`. */
  ghost predicate FromCubeRoot(k: Word, p: nat) {
    exists c: nat :: Cube(c * TWO_32 + k) <= p * 0x1_0000_0000_0000_0000_0000_0000 < Cube(c * TWO_32 + k + 1)
  }

  /** The same for the square root. */
  ghost predicate FromSquareRoot(h: Word, p: nat) {
    exists c: nat :: Square(c * TWO_32 + h) <= p * 0x1_0000_0000_0000_0000 < Square(c * TWO_32 + h + 1)
  }

  lemma CubeRoot(c: nat, k: Word, p: nat)
    requires Cube(c * TWO_32 + k) <= p * 0x1_0000_0000_0000_0000_0000_0000 < Cube(c * TWO_32 + k + 1)
    ensures FromCubeRoot(k, p)
  {
  }

  lemma SquareRoot(c: nat, h: Word, p: nat)
    requires Square(c * TWO_32 + h) <= p * 0x1_0000_0000_0000_0000 < Square(c * TWO_32 + h + 1)
    ensures FromSquareRoot(h, p)
  {
  }

  lemma RootsFrom2()
    ensures FromCubeRoot(0x428a2f98, 2)
    ensures FromCubeRoot(0x71374491, 3)
    ensures FromCubeRoot(0xb5c0fbcf, 5)
    ensures FromCubeRoot(0xe9b5dba5, 7)
    ensures FromCubeRoot(0x3956c25b, 11)
    ensures FromCubeRoot(0x59f111f1, 13)
    ensures FromCubeRoot(0x923f82a4, 17)
    ensures FromCubeRoot(0xab1c5ed5, 19)
  {
    hide FromCubeRoot;
    CubeRoot(1, 0x428a2f98, 2);
    CubeRoot(1, 0x71374491, 3);
    CubeRoot(1, 0xb5c0fbcf, 5);
    CubeRoot(1, 0xe9b5dba5, 7);
    CubeRoot(2, 0x3956c25b, 11);
    CubeRoot(2, 0x59f111f1, 13);
    CubeRoot(2, 0x923f82a4, 17);
    CubeRoot(2, 0xab1c5ed5, 19);
  }

  lemma RootsFrom23()
    ensures FromCubeRoot(0xd807aa98, 23)
    ensures FromCubeRoot(0x12835b01, 29)
    ensures FromCubeRoot(0x243185be, 31)
    ensures FromCubeRoot(0x550c7dc3, 37)
    ensures FromCubeRoot(0x72be5d74, 41)
    ensures FromCubeRoot(0x80deb1fe, 43)
    ensures FromCubeRoot(0x9bdc06a7, 47)
    ensures FromCubeRoot(0xc19bf174, 53)
  {
    hide FromCubeRoot;
    CubeRoot(2, 0xd807aa98, 23);
    CubeRoot(3, 0x12835b01, 29);
    CubeRoot(3, 0x243185be, 31);
    CubeRoot(3, 0x550c7dc3, 37);
    CubeRoot(3, 0x72be5d74, 41);
    CubeRoot(3, 0x80deb1fe, 43);
    CubeRoot(3, 0x9bdc06a7, 47);
    CubeRoot(3, 0xc19bf174, 53);
  }

  lemma RootsFrom59()
    ensures FromCubeRoot(0xe49b69c1, 59)
    ensures FromCubeRoot(0xefbe4786, 61)
    ensures FromCubeRoot(0x0fc19dc6, 67)
    ensures FromCubeRoot(0x240ca1cc, 71)
    ensures FromCubeRoot(0x2de92c6f, 73)
    ensures FromCubeRoot(0x4a7484aa, 79)
    ensures FromCubeRoot(0x5cb0a9dc, 83)
    ensures FromCubeRoot(0x76f988da, 89)
  {
    hide FromCubeRoot;
    CubeRoot(3, 0xe49b69c1, 59);
    CubeRoot(3, 0xefbe4786, 61);
    CubeRoot(4, 0x0fc19dc6, 67);
    CubeRoot(4, 0x240ca1cc, 71);
    CubeRoot(4, 0x2de92c6f, 73);
    CubeRoot(4, 0x4a7484aa, 79);
    CubeRoot(4, 0x5cb0a9dc, 83);
    CubeRoot(4, 0x76f988da, 89);
  }

  lemma RootsFrom97()
    ensures FromCubeRoot(0x983e5152, 97)
    ensures FromCubeRoot(0xa831c66d, 101)
    ensures FromCubeRoot(0xb00327c8, 103)
    ensures FromCubeRoot(0xbf597fc7, 107)
    ensures FromCubeRoot(0xc6e00bf3, 109)
    ensures FromCubeRoot(0xd5a79147, 113)
    ensures FromCubeRoot(0x06ca6351, 127)
    ensures FromCubeRoot(0x14292967, 131)
  {
    hide FromCubeRoot;
    CubeRoot(4, 0x983e5152, 97);
    CubeRoot(4, 0xa831c66d, 101);
    CubeRoot(4, 0xb00327c8, 103);
    CubeRoot(4, 0xbf597fc7, 107);
    CubeRoot(4, 0xc6e00bf3, 109);
    CubeRoot(4, 0xd5a79147, 113);
    CubeRoot(5, 0x06ca6351, 127);
    CubeRoot(5, 0x14292967, 131);
  }

  lemma RootsFrom137()
    ensures FromCubeRoot(0x27b70a85, 137)
    ensures FromCubeRoot(0x2e1b2138, 139)
    ensures FromCubeRoot(0x4d2c6dfc, 149)
    ensures FromCubeRoot(0x53380d13, 151)
    ensures FromCubeRoot(0x650a7354, 157)
    ensures FromCubeRoot(0x766a0abb, 163)
    ensures FromCubeRoot(0x81c2c92e, 167)
    ensures FromCubeRoot(0x92722c85, 173)
  {
    hide FromCubeRoot;
    CubeRoot(5, 0x27b70a85, 137);
    CubeRoot(5, 0x2e1b2138, 139);
    CubeRoot(5, 0x4d2c6dfc, 149);
    CubeRoot(5, 0x53380d13, 151);
    CubeRoot(5, 0x650a7354, 157);
    CubeRoot(5, 0x766a0abb, 163);
    CubeRoot(5, 0x81c2c92e, 167);
    CubeRoot(5, 0x92722c85, 173);
  }

  lemma RootsFrom179()
    ensures FromCubeRoot(0xa2bfe8a1, 179)
    ensures FromCubeRoot(0xa81a664b, 181)
    ensures FromCubeRoot(0xc24b8b70, 191)
    ensures FromCubeRoot(0xc76c51a3, 193)
    ensures FromCubeRoot(0xd192e819, 197)
    ensures FromCubeRoot(0xd6990624, 199)
    ensures FromCubeRoot(0xf40e3585, 211)
    ensures FromCubeRoot(0x106aa070, 223)
  {
    hide FromCubeRoot;
    CubeRoot(5, 0xa2bfe8a1, 179);
    CubeRoot(5, 0xa81a664b, 181);
    CubeRoot(5, 0xc24b8b70, 191);
    CubeRoot(5, 0xc76c51a3, 193);
    CubeRoot(5, 0xd192e819, 197);
    CubeRoot(5, 0xd6990624, 199);
    CubeRoot(5, 0xf40e3585, 211);
    CubeRoot(6, 0x106aa070, 223);
  }

  lemma RootsFrom227()
    ensures FromCubeRoot(0x19a4c116, 227)
    ensures FromCubeRoot(0x1e376c08, 229)
    ensures FromCubeRoot(0x2748774c, 233)
    ensures FromCubeRoot(0x34b0bcb5, 239)
    ensures FromCubeRoot(0x391c0cb3, 241)
    ensures FromCubeRoot(0x4ed8aa4a, 251)
    ensures FromCubeRoot(0x5b9cca4f, 257)
    ensures FromCubeRoot(0x682e6ff3, 263)
  {
    hide FromCubeRoot;
    CubeRoot(6, 0x19a4c116, 227);
    CubeRoot(6, 0x1e376c08, 229);
    CubeRoot(6, 0x2748774c, 233);
    CubeRoot(6, 0x34b0bcb5, 239);
    CubeRoot(6, 0x391c0cb3, 241);
    CubeRoot(6, 0x4ed8aa4a, 251);
    CubeRoot(6, 0x5b9cca4f, 257);
    CubeRoot(6, 0x682e6ff3, 263);
  }

  lemma RootsFrom269()
    ensures FromCubeRoot(0x748f82ee, 269)
    ensures FromCubeRoot(0x78a5636f, 271)
    ensures FromCubeRoot(0x84c87814, 277)
    ensures FromCubeRoot(0x8cc70208, 281)
    ensures FromCubeRoot(0x90befffa, 283)
    ensures FromCubeRoot(0xa4506ceb, 293)
    ensures FromCubeRoot(0xbef9a3f7, 307)
    ensures FromCubeRoot(0xc67178f2, 311)
  {
    hide FromCubeRoot;
    CubeRoot(6, 0x748f82ee, 269);
    CubeRoot(6, 0x78a5636f, 271);
    CubeRoot(6, 0x84c87814, 277);
    CubeRoot(6, 0x8cc70208, 281);
    CubeRoot(6, 0x90befffa, 283);
    CubeRoot(6, 0xa4506ceb, 293);
    CubeRoot(6, 0xbef9a3f7, 307);
    CubeRoot(6, 0xc67178f2, 311);
  }

  /** The 64 constants of the rounds come from the first 64 primes. */
  lemma RoundConstants()
    ensures |K| == |PRIMES| == 64 && AreFirstPrimes(PRIMES)
    ensures forall t: nat :: t < 64 ==> FromCubeRoot(K[t], PRIMES[t])
  {
    hide FromCubeRoot, AreFirstPrimes;
    Table0();
    Table8();
    Table16();
    Table24();
    Table32();
    Table40();
    Table48();
    Table56();
    PrimesInOrder();
    RootsFrom2();
    RootsFrom23();
    RootsFrom59();
    RootsFrom97();
    RootsFrom137();
    RootsFrom179();
    RootsFrom227();
    RootsFrom269();
    forall t: nat | t < 64 ensures FromCubeRoot(K[t], PRIMES[t]) {
      assert 0 <= t < 8 ==> (t == 0 || t == 1 || t == 2 || t == 3 || t == 4 || t == 5 || t == 6 || t == 7);
      assert 8 <= t < 16 ==> (t == 8 || t == 9 || t == 10 || t == 11 || t == 12 || t == 13 || t == 14 || t == 15);
      assert 16 <= t < 24 ==> (t == 16 || t == 17 || t == 18 || t == 19 || t == 20 || t == 21 || t == 22 || t == 23);
      assert 24 <= t < 32 ==> (t == 24 || t == 25 || t == 26 || t == 27 || t == 28 || t == 29 || t == 30 || t == 31);
      assert 32 <= t < 40 ==> (t == 32 || t == 33 || t == 34 || t == 35 || t == 36 || t == 37 || t == 38 || t == 39);
      assert 40 <= t < 48 ==> (t == 40 || t == 41 || t == 42 || t == 43 || t == 44 || t == 45 || t == 46 || t == 47);
      assert 48 <= t < 56 ==> (t == 48 || t == 49 || t == 50 || t == 51 || t == 52 || t == 53 || t == 54 || t == 55);
      assert 56 <= t < 64 ==> (t == 56 || t == 57 || t == 58 || t == 59 || t == 60 || t == 61 || t == 62 || t == 63);
    }
  }

  /** The eight words of the initial hash value come from the first eight primes. */
  lemma InitialWords()
    ensures FromSquareRoot(INITIAL.a, 2)
    ensures FromSquareRoot(INITIAL.b, 3)
    ensures FromSquareRoot(INITIAL.c, 5)
    ensures FromSquareRoot(INITIAL.d, 7)
    ensures FromSquareRoot(INITIAL.e, 11)
    ensures FromSquareRoot(INITIAL.f, 13)
    ensures FromSquareRoot(INITIAL.g, 17)
    ensures FromSquareRoot(INITIAL.h, 19)
  {
    hide FromSquareRoot;
    SquareRoot(1, 0x6A09E667, 2);
    SquareRoot(1, 0xBB67AE85, 3);
    SquareRoot(2, 0x3C6EF372, 5);
    SquareRoot(2, 0xA54FF53A, 7);
    SquareRoot(3, 0x510E527F, 11);
    SquareRoot(3, 0x9B05688C, 13);
    SquareRoot(4, 0x1F83D9AB, 17);
    SquareRoot(4, 0x5BE0CD19, 19);
  }
}
