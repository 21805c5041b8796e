/** Where the constants of SHA-256 come from: the first 32 bits of the fractional parts of the square roots of the first
    eight primes (section 5.3.3 of FIPS 180-4) and of the cube roots of the first sixty-four (section 4.2.2). */
module Sha256Constants {
  import opened Common
  import opened Sha256Spec

  const TWO_32: nat := 0x1_0000_0000
  const TWO_96: nat := 0x1_0000_0000_0000_0000_0000_0000

  // ---- the first primes ------------------------------------------------------------------------------------

  ghost predicate IsPrime(n: nat) { n >= 2 && forall d :: 2 <= d < n ==> n % d != 0 }

  // No prime up to 17 divides n, but itself.
  predicate Sieved(n: nat) {
    && (n == 2 || n % 2 != 0) && (n == 3 || n % 3 != 0) && (n == 5 || n % 5 != 0) && (n == 7 || n % 7 != 0)
    && (n == 11 || n % 11 != 0) && (n == 13 || n % 13 != 0) && (n == 17 || n % 17 != 0)
  }

  // Below 19 * 18 that tells the primes.
  lemma SievedIsPrime(n: nat)
    requires 2 <= n < 324
    ensures IsPrime(n) <==> Sieved(n)
  {
    if Sieved(n) {
      forall d | 2 <= d < n
        ensures n % d != 0
      {
        if n % d == 0 {
          SmallDivisor(n, d);
        }
      }
    }
  }

  // A divisor, or what it leaves, is at most 17, and a number up to 17 is divided by a prime up to 17.
  lemma SmallDivisor(n: nat, d: nat)
    requires 2 <= d < n < 324 && n % d == 0
    ensures !Sieved(n)
  {
    var q := n / d;
    assert n == d * q;
    if q >= 18 && d >= 18 {
      Products(18, 18, d, q);
    } else {
      assert q >= 2;
      if d <= 17 {
        DividedBySmall(n, d, q);
      } else {
        DividedBySmall(n, q, d);
      }
    }
  }

  lemma Products(a: nat, b: nat, x: nat, y: nat)
    requires a <= x && b <= y
    ensures a * b <= x * y
  {
    MulLe(a, x, b);
    MulLe(b, y, x);
  }

  lemma DividedBySmall(n: nat, d: nat, q: nat)
    requires 2 <= d <= 17 && q >= 2 && n == d * q
    ensures !Sieved(n)
  {
    var p := SmallFactor(d);
    var m := d / p;
    assert n == p * (m * q) by { assert d == p * m; }
    assert m * q >= 2 by { Products(1, 2, m, q); }
    MultipleOf(n, p, m * q);
  }

  lemma MultipleOf(n: nat, p: nat, m: nat)
    requires p >= 1 && m >= 2 && n == p * m
    ensures n % p == 0 && n != p
  {
    DivUnique(n, p, m, 0);
    Products(p, 2, p, m);
  }

  function SmallFactor(d: nat): (p: nat)
    requires 2 <= d <= 17
    ensures p in {2, 3, 5, 7, 11, 13, 17} && d % p == 0
  {
    if d % 2 == 0 then 2 else if d % 3 == 0 then 3 else if d % 5 == 0 then 5 else d
  }

  // The primes up to n, in order.
  ghost function PrimesUpTo(n: nat): seq<nat> {
    if n == 0 then [] else if IsPrime(n) then PrimesUpTo(n - 1) + [n] else PrimesUpTo(n - 1)
  }

  // The sieve leaves nothing between p and q.
  predicate NoneBetween(p: nat, q: nat)
    requires p < q
    decreases q - p
  {
    p + 1 == q || (!Sieved(p + 1) && NoneBetween(p + 1, q))
  }

  lemma {:induction false} NoPrimes(p: nat, q: nat)
    requires 1 <= p < q < 324 && NoneBetween(p, q)
    ensures PrimesUpTo(q - 1) == PrimesUpTo(p)
    decreases q - p
  {
    hide Sieved, IsPrime;
    if p + 1 < q {
      SievedIsPrime(p + 1);
      NoPrimes(p + 1, q);
    }
  }

  // q is the prime after p.
  lemma NextPrime(p: nat, q: nat)
    requires 1 <= p < q < 324 && NoneBetween(p, q) && Sieved(q)
    ensures PrimesUpTo(q) == PrimesUpTo(p) + [q]
  {
    hide Sieved, IsPrime;
    NoPrimes(p, q);
    SievedIsPrime(q);
  }

  const PRIMES: seq<nat> := P0 + P1 + P2 + P3 + P4 + P5 + P6 + P7

  const P0: seq<nat> := [2, 3, 5, 7, 11, 13, 17, 19]
  const P1: seq<nat> := [23, 29, 31, 37, 41, 43, 47, 53]
  const P2: seq<nat> := [59, 61, 67, 71, 73, 79, 83, 89]
  const P3: seq<nat> := [97, 101, 103, 107, 109, 113, 127, 131]
  const P4: seq<nat> := [137, 139, 149, 151, 157, 163, 167, 173]
  const P5: seq<nat> := [179, 181, 191, 193, 197, 199, 211, 223]
  const P6: seq<nat> := [227, 229, 233, 239, 241, 251, 257, 263]
  const P7: seq<nat> := [269, 271, 277, 281, 283, 293, 307, 311]

  lemma NoneUpToOne()
    ensures PrimesUpTo(1) == []
  {
  }

  // The rows are the first sixty-four primes.
  lemma FirstPrimes()
    ensures PRIMES == PrimesUpTo(311)
  {
    hide PrimesUpTo;
    Row0();
    Row1();
    Row2();
    Row3();
    Row4();
    Row5();
    Row6();
    Row7();
  }

  lemma Row0()
    ensures PrimesUpTo(19) == P0
  {
    hide PrimesUpTo, IsPrime;
    NoneUpToOne();
    NextPrime(1, 2);
    NextPrime(2, 3);
    NextPrime(3, 5);
    NextPrime(5, 7);
    NextPrime(7, 11);
    NextPrime(11, 13);
    NextPrime(13, 17);
    NextPrime(17, 19);
  }

  lemma Row1()
    ensures PrimesUpTo(53) == PrimesUpTo(19) + P1
  {
    hide PrimesUpTo, IsPrime;
    NextPrime(19, 23);
    NextPrime(23, 29);
    NextPrime(29, 31);
    NextPrime(31, 37);
    NextPrime(37, 41);
    NextPrime(41, 43);
    NextPrime(43, 47);
    NextPrime(47, 53);
  }

  lemma Row2()
    ensures PrimesUpTo(89) == PrimesUpTo(53) + P2
  {
    hide PrimesUpTo, IsPrime;
    NextPrime(53, 59);
    NextPrime(59, 61);
    NextPrime(61, 67);
    NextPrime(67, 71);
    NextPrime(71, 73);
    NextPrime(73, 79);
    NextPrime(79, 83);
    NextPrime(83, 89);
  }

  lemma Row3()
    ensures PrimesUpTo(131) == PrimesUpTo(89) + P3
  {
    hide PrimesUpTo, IsPrime;
    NextPrime(89, 97);
    NextPrime(97, 101);
    NextPrime(101, 103);
    NextPrime(103, 107);
    NextPrime(107, 109);
    NextPrime(109, 113);
    NextPrime(113, 127);
    NextPrime(127, 131);
  }

  lemma Row4()
    ensures PrimesUpTo(173) == PrimesUpTo(131) + P4
  {
    hide PrimesUpTo, IsPrime;
    NextPrime(131, 137);
    NextPrime(137, 139);
    NextPrime(139, 149);
    NextPrime(149, 151);
    NextPrime(151, 157);
    NextPrime(157, 163);
    NextPrime(163, 167);
    NextPrime(167, 173);
  }

  lemma Row5()
    ensures PrimesUpTo(223) == PrimesUpTo(173) + P5
  {
    hide PrimesUpTo, IsPrime;
    NextPrime(173, 179);
    NextPrime(179, 181);
    NextPrime(181, 191);
    NextPrime(191, 193);
    NextPrime(193, 197);
    NextPrime(197, 199);
    NextPrime(199, 211);
    NextPrime(211, 223);
  }

  lemma Row6()
    ensures PrimesUpTo(263) == PrimesUpTo(223) + P6
  {
    hide PrimesUpTo, IsPrime;
    NextPrime(223, 227);
    NextPrime(227, 229);
    NextPrime(229, 233);
    NextPrime(233, 239);
    NextPrime(239, 241);
    NextPrime(241, 251);
    NextPrime(251, 257);
    NextPrime(257, 263);
  }

  lemma Row7()
    ensures PrimesUpTo(311) == PrimesUpTo(263) + P7
  {
    hide PrimesUpTo, IsPrime;
    NextPrime(263, 269);
    NextPrime(269, 271);
    NextPrime(271, 277);
    NextPrime(277, 281);
    NextPrime(281, 283);
    NextPrime(283, 293);
    NextPrime(293, 307);
    NextPrime(307, 311);
  }

  // ---- roots -----------------------------------------------------------------------------------------------

  // c is the root of p, its first 32 fractional bits included; k holds those bits.
  predicate SquareRoot(p: nat, c: nat, k: Word) {
    c * c <= p * TWO_64 < (c + 1) * (c + 1) && k as int == c % TWO_32
  }

  predicate CubeRoot(p: nat, c: nat, k: Word) {
    c * c * c <= p * TWO_96 < (c + 1) * (c + 1) * (c + 1) && k as int == c % TWO_32
  }

  ghost predicate OfSquareRoot(p: nat, k: Word) { exists c :: SquareRoot(p, c, k) }
  ghost predicate OfCubeRoot(p: nat, k: Word) { exists c :: CubeRoot(p, c, k) }

  // Section 5.3.3
  lemma InitialIsSquareRoots(i: nat)
    requires i < 8
    ensures OfSquareRoot(PRIMES[i], INITIAL[i])
  {
    assert PRIMES[i] == P0[i];
    if i == 0 {
      assert P0[i] == 2 && INITIAL[i] == 0x6a09e667;
      assert SquareRoot(2, 0x16a09e667, 0x6a09e667);
    } else if i == 1 {
      assert P0[i] == 3 && INITIAL[i] == 0xbb67ae85;
      assert SquareRoot(3, 0x1bb67ae85, 0xbb67ae85);
    } else if i == 2 {
      assert P0[i] == 5 && INITIAL[i] == 0x3c6ef372;
      assert SquareRoot(5, 0x23c6ef372, 0x3c6ef372);
    } else if i == 3 {
      assert P0[i] == 7 && INITIAL[i] == 0xa54ff53a;
      assert SquareRoot(7, 0x2a54ff53a, 0xa54ff53a);
    } else if i == 4 {
      assert P0[i] == 11 && INITIAL[i] == 0x510e527f;
      assert SquareRoot(11, 0x3510e527f, 0x510e527f);
    } else if i == 5 {
      assert P0[i] == 13 && INITIAL[i] == 0x9b05688c;
      assert SquareRoot(13, 0x39b05688c, 0x9b05688c);
    } else if i == 6 {
      assert P0[i] == 17 && INITIAL[i] == 0x1f83d9ab;
      assert SquareRoot(17, 0x41f83d9ab, 0x1f83d9ab);
    } else {
      assert P0[i] == 19 && INITIAL[i] == 0x5be0cd19;
      assert SquareRoot(19, 0x45be0cd19, 0x5be0cd19);
    }
  }

  // Where in eight rows of eight a place lies.
  lemma EightRows<T>(a: seq<T>, b: seq<T>, c: seq<T>, d: seq<T>, e: seq<T>, f: seq<T>, g: seq<T>, h: seq<T>, t: nat)
    requires |a| == |b| == |c| == |d| == |e| == |f| == |g| == |h| == 8 && t < 64
    ensures |a + b + c + d + e + f + g + h| == 64
    ensures (a + b + c + d + e + f + g + h)[t]
         == if t < 8 then a[t] else if t < 16 then b[t - 8] else if t < 24 then c[t - 16] else if t < 32 then d[t - 24]
            else if t < 40 then e[t - 32] else if t < 48 then f[t - 40] else if t < 56 then g[t - 48] else h[t - 56]
  {
  }

  // Section 4.2.2
  lemma RoundConstantsAreCubeRoots(t: nat)
    requires t < 64
    ensures OfCubeRoot(PRIMES[t], K[t])
  {
    hide OfCubeRoot, CubeRoot;
    EightRows(P0, P1, P2, P3, P4, P5, P6, P7, t);
    EightRows(K0, K1, K2, K3, K4, K5, K6, K7, t);
    if t < 8 {
      Roots0(t);
    } else if t < 16 {
      Roots1(t - 8);
    } else if t < 24 {
      Roots2(t - 16);
    } else if t < 32 {
      Roots3(t - 24);
    } else if t < 40 {
      Roots4(t - 32);
    } else if t < 48 {
      Roots5(t - 40);
    } else if t < 56 {
      Roots6(t - 48);
    } else {
      Roots7(t - 56);
    }
  }

  lemma Roots0(i: nat)
    requires i < 8
    ensures OfCubeRoot(P0[i], K0[i])
  {
    if i == 0 {
      assert P0[i] == 2 && K0[i] == 0x428a2f98;
      assert CubeRoot(2, 0x1428a2f98, 0x428a2f98);
    } else if i == 1 {
      assert P0[i] == 3 && K0[i] == 0x71374491;
      assert CubeRoot(3, 0x171374491, 0x71374491);
    } else if i == 2 {
      assert P0[i] == 5 && K0[i] == 0xb5c0fbcf;
      assert CubeRoot(5, 0x1b5c0fbcf, 0xb5c0fbcf);
    } else if i == 3 {
      assert P0[i] == 7 && K0[i] == 0xe9b5dba5;
      assert CubeRoot(7, 0x1e9b5dba5, 0xe9b5dba5);
    } else if i == 4 {
      assert P0[i] == 11 && K0[i] == 0x3956c25b;
      assert CubeRoot(11, 0x23956c25b, 0x3956c25b);
    } else if i == 5 {
      assert P0[i] == 13 && K0[i] == 0x59f111f1;
      assert CubeRoot(13, 0x259f111f1, 0x59f111f1);
    } else if i == 6 {
      assert P0[i] == 17 && K0[i] == 0x923f82a4;
      assert CubeRoot(17, 0x2923f82a4, 0x923f82a4);
    } else {
      assert P0[i] == 19 && K0[i] == 0xab1c5ed5;
      assert CubeRoot(19, 0x2ab1c5ed5, 0xab1c5ed5);
    }
  }

  lemma Roots1(i: nat)
    requires i < 8
    ensures OfCubeRoot(P1[i], K1[i])
  {
    if i == 0 {
      assert P1[i] == 23 && K1[i] == 0xd807aa98;
      assert CubeRoot(23, 0x2d807aa98, 0xd807aa98);
    } else if i == 1 {
      assert P1[i] == 29 && K1[i] == 0x12835b01;
      assert CubeRoot(29, 0x312835b01, 0x12835b01);
    } else if i == 2 {
      assert P1[i] == 31 && K1[i] == 0x243185be;
      assert CubeRoot(31, 0x3243185be, 0x243185be);
    } else if i == 3 {
      assert P1[i] == 37 && K1[i] == 0x550c7dc3;
      assert CubeRoot(37, 0x3550c7dc3, 0x550c7dc3);
    } else if i == 4 {
      assert P1[i] == 41 && K1[i] == 0x72be5d74;
      assert CubeRoot(41, 0x372be5d74, 0x72be5d74);
    } else if i == 5 {
      assert P1[i] == 43 && K1[i] == 0x80deb1fe;
      assert CubeRoot(43, 0x380deb1fe, 0x80deb1fe);
    } else if i == 6 {
      assert P1[i] == 47 && K1[i] == 0x9bdc06a7;
      assert CubeRoot(47, 0x39bdc06a7, 0x9bdc06a7);
    } else {
      assert P1[i] == 53 && K1[i] == 0xc19bf174;
      assert CubeRoot(53, 0x3c19bf174, 0xc19bf174);
    }
  }

  lemma Roots2(i: nat)
    requires i < 8
    ensures OfCubeRoot(P2[i], K2[i])
  {
    if i == 0 {
      assert P2[i] == 59 && K2[i] == 0xe49b69c1;
      assert CubeRoot(59, 0x3e49b69c1, 0xe49b69c1);
    } else if i == 1 {
      assert P2[i] == 61 && K2[i] == 0xefbe4786;
      assert CubeRoot(61, 0x3efbe4786, 0xefbe4786);
    } else if i == 2 {
      assert P2[i] == 67 && K2[i] == 0x0fc19dc6;
      assert CubeRoot(67, 0x40fc19dc6, 0x0fc19dc6);
    } else if i == 3 {
      assert P2[i] == 71 && K2[i] == 0x240ca1cc;
      assert CubeRoot(71, 0x4240ca1cc, 0x240ca1cc);
    } else if i == 4 {
      assert P2[i] == 73 && K2[i] == 0x2de92c6f;
      assert CubeRoot(73, 0x42de92c6f, 0x2de92c6f);
    } else if i == 5 {
      assert P2[i] == 79 && K2[i] == 0x4a7484aa;
      assert CubeRoot(79, 0x44a7484aa, 0x4a7484aa);
    } else if i == 6 {
      assert P2[i] == 83 && K2[i] == 0x5cb0a9dc;
      assert CubeRoot(83, 0x45cb0a9dc, 0x5cb0a9dc);
    } else {
      assert P2[i] == 89 && K2[i] == 0x76f988da;
      assert CubeRoot(89, 0x476f988da, 0x76f988da);
    }
  }

  lemma Roots3(i: nat)
    requires i < 8
    ensures OfCubeRoot(P3[i], K3[i])
  {
    if i == 0 {
      assert P3[i] == 97 && K3[i] == 0x983e5152;
      assert CubeRoot(97, 0x4983e5152, 0x983e5152);
    } else if i == 1 {
      assert P3[i] == 101 && K3[i] == 0xa831c66d;
      assert CubeRoot(101, 0x4a831c66d, 0xa831c66d);
    } else if i == 2 {
      assert P3[i] == 103 && K3[i] == 0xb00327c8;
      assert CubeRoot(103, 0x4b00327c8, 0xb00327c8);
    } else if i == 3 {
      assert P3[i] == 107 && K3[i] == 0xbf597fc7;
      assert CubeRoot(107, 0x4bf597fc7, 0xbf597fc7);
    } else if i == 4 {
      assert P3[i] == 109 && K3[i] == 0xc6e00bf3;
      assert CubeRoot(109, 0x4c6e00bf3, 0xc6e00bf3);
    } else if i == 5 {
      assert P3[i] == 113 && K3[i] == 0xd5a79147;
      assert CubeRoot(113, 0x4d5a79147, 0xd5a79147);
    } else if i == 6 {
      assert P3[i] == 127 && K3[i] == 0x06ca6351;
      assert CubeRoot(127, 0x506ca6351, 0x06ca6351);
    } else {
      assert P3[i] == 131 && K3[i] == 0x14292967;
      assert CubeRoot(131, 0x514292967, 0x14292967);
    }
  }

  lemma Roots4(i: nat)
    requires i < 8
    ensures OfCubeRoot(P4[i], K4[i])
  {
    if i == 0 {
      assert P4[i] == 137 && K4[i] == 0x27b70a85;
      assert CubeRoot(137, 0x527b70a85, 0x27b70a85);
    } else if i == 1 {
      assert P4[i] == 139 && K4[i] == 0x2e1b2138;
      assert CubeRoot(139, 0x52e1b2138, 0x2e1b2138);
    } else if i == 2 {
      assert P4[i] == 149 && K4[i] == 0x4d2c6dfc;
      assert CubeRoot(149, 0x54d2c6dfc, 0x4d2c6dfc);
    } else if i == 3 {
      assert P4[i] == 151 && K4[i] == 0x53380d13;
      assert CubeRoot(151, 0x553380d13, 0x53380d13);
    } else if i == 4 {
      assert P4[i] == 157 && K4[i] == 0x650a7354;
      assert CubeRoot(157, 0x5650a7354, 0x650a7354);
    } else if i == 5 {
      assert P4[i] == 163 && K4[i] == 0x766a0abb;
      assert CubeRoot(163, 0x5766a0abb, 0x766a0abb);
    } else if i == 6 {
      assert P4[i] == 167 && K4[i] == 0x81c2c92e;
      assert CubeRoot(167, 0x581c2c92e, 0x81c2c92e);
    } else {
      assert P4[i] == 173 && K4[i] == 0x92722c85;
      assert CubeRoot(173, 0x592722c85, 0x92722c85);
    }
  }

  lemma Roots5(i: nat)
    requires i < 8
    ensures OfCubeRoot(P5[i], K5[i])
  {
    if i == 0 {
      assert P5[i] == 179 && K5[i] == 0xa2bfe8a1;
      assert CubeRoot(179, 0x5a2bfe8a1, 0xa2bfe8a1);
    } else if i == 1 {
      assert P5[i] == 181 && K5[i] == 0xa81a664b;
      assert CubeRoot(181, 0x5a81a664b, 0xa81a664b);
    } else if i == 2 {
      assert P5[i] == 191 && K5[i] == 0xc24b8b70;
      assert CubeRoot(191, 0x5c24b8b70, 0xc24b8b70);
    } else if i == 3 {
      assert P5[i] == 193 && K5[i] == 0xc76c51a3;
      assert CubeRoot(193, 0x5c76c51a3, 0xc76c51a3);
    } else if i == 4 {
      assert P5[i] == 197 && K5[i] == 0xd192e819;
      assert CubeRoot(197, 0x5d192e819, 0xd192e819);
    } else if i == 5 {
      assert P5[i] == 199 && K5[i] == 0xd6990624;
      assert CubeRoot(199, 0x5d6990624, 0xd6990624);
    } else if i == 6 {
      assert P5[i] == 211 && K5[i] == 0xf40e3585;
      assert CubeRoot(211, 0x5f40e3585, 0xf40e3585);
    } else {
      assert P5[i] == 223 && K5[i] == 0x106aa070;
      assert CubeRoot(223, 0x6106aa070, 0x106aa070);
    }
  }

  lemma Roots6(i: nat)
    requires i < 8
    ensures OfCubeRoot(P6[i], K6[i])
  {
    if i == 0 {
      assert P6[i] == 227 && K6[i] == 0x19a4c116;
      assert CubeRoot(227, 0x619a4c116, 0x19a4c116);
    } else if i == 1 {
      assert P6[i] == 229 && K6[i] == 0x1e376c08;
      assert CubeRoot(229, 0x61e376c08, 0x1e376c08);
    } else if i == 2 {
      assert P6[i] == 233 && K6[i] == 0x2748774c;
      assert CubeRoot(233, 0x62748774c, 0x2748774c);
    } else if i == 3 {
      assert P6[i] == 239 && K6[i] == 0x34b0bcb5;
      assert CubeRoot(239, 0x634b0bcb5, 0x34b0bcb5);
    } else if i == 4 {
      assert P6[i] == 241 && K6[i] == 0x391c0cb3;
      assert CubeRoot(241, 0x6391c0cb3, 0x391c0cb3);
    } else if i == 5 {
      assert P6[i] == 251 && K6[i] == 0x4ed8aa4a;
      assert CubeRoot(251, 0x64ed8aa4a, 0x4ed8aa4a);
    } else if i == 6 {
      assert P6[i] == 257 && K6[i] == 0x5b9cca4f;
      assert CubeRoot(257, 0x65b9cca4f, 0x5b9cca4f);
    } else {
      assert P6[i] == 263 && K6[i] == 0x682e6ff3;
      assert CubeRoot(263, 0x6682e6ff3, 0x682e6ff3);
    }
  }

  lemma Roots7(i: nat)
    requires i < 8
    ensures OfCubeRoot(P7[i], K7[i])
  {
    if i == 0 {
      assert P7[i] == 269 && K7[i] == 0x748f82ee;
      assert CubeRoot(269, 0x6748f82ee, 0x748f82ee);
    } else if i == 1 {
      assert P7[i] == 271 && K7[i] == 0x78a5636f;
      assert CubeRoot(271, 0x678a5636f, 0x78a5636f);
    } else if i == 2 {
      assert P7[i] == 277 && K7[i] == 0x84c87814;
      assert CubeRoot(277, 0x684c87814, 0x84c87814);
    } else if i == 3 {
      assert P7[i] == 281 && K7[i] == 0x8cc70208;
      assert CubeRoot(281, 0x68cc70208, 0x8cc70208);
    } else if i == 4 {
      assert P7[i] == 283 && K7[i] == 0x90befffa;
      assert CubeRoot(283, 0x690befffa, 0x90befffa);
    } else if i == 5 {
      assert P7[i] == 293 && K7[i] == 0xa4506ceb;
      assert CubeRoot(293, 0x6a4506ceb, 0xa4506ceb);
    } else if i == 6 {
      assert P7[i] == 307 && K7[i] == 0xbef9a3f7;
      assert CubeRoot(307, 0x6bef9a3f7, 0xbef9a3f7);
    } else {
      assert P7[i] == 311 && K7[i] == 0xc67178f2;
      assert CubeRoot(311, 0x6c67178f2, 0xc67178f2);
    }
  }
}
