/** What the constants of FIPS 180-4 are: the first binary digits of roots of the first prime numbers. */
module Sha256Constants {
  import opened Fips180

  // ---- Sections 4.2.2 and 5.3.3: the constants are digits of roots of primes.

  const PRIMES: seq<nat> := PRIMES0 + PRIMES1 + PRIMES2 + PRIMES3

  const PRIMES0: seq<nat> := [2, 3, 5, 7, 11, 13, 17, 19, 23, 29, 31, 37, 41, 43, 47, 53]

  const PRIMES1: seq<nat> := [59, 61, 67, 71, 73, 79, 83, 89, 97, 101, 103, 107, 109, 113, 127, 131]

  const PRIMES2: seq<nat> := [137, 139, 149, 151, 157, 163, 167, 173, 179, 181, 191, 193, 197, 199, 211, 223]

  const PRIMES3: seq<nat> := [227, 229, 233, 239, 241, 251, 257, 263, 269, 271, 277, 281, 283, 293, 307, 311]

  predicate Divides(d: nat, n: nat)
    requires d > 0
  {
    n % d == 0
  }

  ghost predicate IsPrime(n: nat) {
    n >= 2 && forall d: nat :: 2 <= d < n ==> !Divides(d, n)
  }

  /** No prime number below 18 divides `n`, unless it is `n`. */
  predicate Passes(n: nat) {
    && (n == 2 || n % 2 != 0) && (n == 3 || n % 3 != 0) && (n == 5 || n % 5 != 0) && (n == 7 || n % 7 != 0)
    && (n == 11 || n % 11 != 0) && (n == 13 || n % 13 != 0) && (n == 17 || n % 17 != 0)
  }

  lemma Multiple2(n: nat, k: nat)
    requires k >= 2 && n == 2 * k
    ensures !Passes(n)
  {
    assert n % 2 == 0;
  }

  lemma Multiple3(n: nat, k: nat)
    requires k >= 2 && n == 3 * k
    ensures !Passes(n)
  {
    assert n % 3 == 0;
  }

  lemma Multiple5(n: nat, k: nat)
    requires k >= 2 && n == 5 * k
    ensures !Passes(n)
  {
    assert n % 5 == 0;
  }

  lemma Multiple7(n: nat, k: nat)
    requires k >= 2 && n == 7 * k
    ensures !Passes(n)
  {
    assert n % 7 == 0;
  }

  lemma Multiple11(n: nat, k: nat)
    requires k >= 2 && n == 11 * k
    ensures !Passes(n)
  {
    assert n % 11 == 0;
  }

  lemma Multiple13(n: nat, k: nat)
    requires k >= 2 && n == 13 * k
    ensures !Passes(n)
  {
    assert n % 13 == 0;
  }

  lemma Multiple17(n: nat, k: nat)
    requires k >= 2 && n == 17 * k
    ensures !Passes(n)
  {
    assert n % 17 == 0;
  }

  lemma FactorFails(n: nat, f: nat, e: nat)
    requires 2 <= f <= 17 && e >= 2 && n == f * e
    ensures !Passes(n)
  {
    hide Passes;
    if f == 2 {
      Multiple2(n, e);
    } else if f == 3 {
      Multiple3(n, e);
    } else if f == 4 {
      Multiple2(n, 2 * e);
    } else if f == 5 {
      Multiple5(n, e);
    } else if f == 6 {
      Multiple2(n, 3 * e);
    } else if f == 7 {
      Multiple7(n, e);
    } else if f == 8 {
      Multiple2(n, 4 * e);
    } else if f == 9 {
      Multiple3(n, 3 * e);
    } else if f == 10 {
      Multiple2(n, 5 * e);
    } else if f == 11 {
      Multiple11(n, e);
    } else if f == 12 {
      Multiple2(n, 6 * e);
    } else if f == 13 {
      Multiple13(n, e);
    } else if f == 14 {
      Multiple2(n, 7 * e);
    } else if f == 15 {
      Multiple3(n, 5 * e);
    } else if f == 16 {
      Multiple2(n, 8 * e);
    } else if f == 17 {
      Multiple17(n, e);
    }
  }

  lemma SmallFactor(n: nat, d: nat, e: nat)
    requires 2 <= d < n < 324 && n == d * e
    ensures e >= 2 && (d <= 17 || e <= 17)
  {
  }

  lemma PrimePasses(n: nat)
    requires IsPrime(n)
    ensures Passes(n)
  {
    assert n > 2 ==> !Divides(2, n);
    assert n > 3 ==> !Divides(3, n);
    assert n > 5 ==> !Divides(5, n);
    assert n > 7 ==> !Divides(7, n);
    assert n > 11 ==> !Divides(11, n);
    assert n > 13 ==> !Divides(13, n);
    assert n > 17 ==> !Divides(17, n);
  }

  lemma CompositeFails(n: nat, d: nat)
    requires 2 <= d < n < 324 && Divides(d, n)
    ensures !Passes(n)
  {
    hide Passes;
    var e := n / d;
    assert n == d * e;
    SmallFactor(n, d, e);
    if d <= 17 {
      FactorFails(n, d, e);
    } else {
      FactorFails(n, e, d);
    }
  }

  /** Below 18 squared, the numbers that pass are the prime numbers. */
  lemma PassingIsPrime(n: nat)
    requires 2 <= n < 324
    ensures Passes(n) <==> IsPrime(n)
  {
    hide Passes, Divides;
    if IsPrime(n) {
      PrimePasses(n);
    } else {
      var d: nat :| 2 <= d < n && Divides(d, n);
      CompositeFails(n, d);
    }
  }

  /** None of the `k` numbers from `n` on passes. */
  predicate NonePass(n: nat, k: nat)
    decreases k
  {
    k == 0 || (!Passes(n) && NonePass(n + 1, k - 1))
  }

  /** `p` and `q` pass, and no number between them. */
  predicate Consecutive(p: nat, q: nat) {
    2 <= p < q && Passes(p) && Passes(q) && NonePass(p + 1, q - p - 1)
  }

  lemma {:induction false} NonePassBetween(n: nat, k: nat, m: nat)
    requires NonePass(n, k) && n <= m < n + k
    ensures !Passes(m)
    decreases k
  {
    hide Passes;
    if n < m { NonePassBetween(n + 1, k - 1, m); }
  }

  lemma Run0()
    ensures Consecutive(2, 3) && Consecutive(3, 5) && Consecutive(5, 7) && Consecutive(7, 11)
  {
  }

  lemma Run1()
    ensures Consecutive(11, 13) && Consecutive(13, 17) && Consecutive(17, 19) && Consecutive(19, 23)
  {
  }

  lemma Run2()
    ensures Consecutive(23, 29) && Consecutive(29, 31) && Consecutive(31, 37) && Consecutive(37, 41)
  {
  }

  lemma Run3()
    ensures Consecutive(41, 43) && Consecutive(43, 47) && Consecutive(47, 53) && Consecutive(53, 59)
  {
  }

  lemma Run4()
    ensures Consecutive(59, 61) && Consecutive(61, 67) && Consecutive(67, 71) && Consecutive(71, 73)
  {
  }

  lemma Run5()
    ensures Consecutive(73, 79) && Consecutive(79, 83) && Consecutive(83, 89) && Consecutive(89, 97)
  {
  }

  lemma Run6()
    ensures Consecutive(97, 101) && Consecutive(101, 103) && Consecutive(103, 107) && Consecutive(107, 109)
  {
  }

  lemma Run7()
    ensures Consecutive(109, 113) && Consecutive(113, 127) && Consecutive(127, 131) && Consecutive(131, 137)
  {
  }

  lemma Run8()
    ensures Consecutive(137, 139) && Consecutive(139, 149) && Consecutive(149, 151) && Consecutive(151, 157)
  {
  }

  lemma Run9()
    ensures Consecutive(157, 163) && Consecutive(163, 167) && Consecutive(167, 173) && Consecutive(173, 179)
  {
  }

  lemma Run10()
    ensures Consecutive(179, 181) && Consecutive(181, 191) && Consecutive(191, 193) && Consecutive(193, 197)
  {
  }

  lemma Run11()
    ensures Consecutive(197, 199) && Consecutive(199, 211) && Consecutive(211, 223) && Consecutive(223, 227)
  {
  }

  lemma Run12()
    ensures Consecutive(227, 229) && Consecutive(229, 233) && Consecutive(233, 239) && Consecutive(239, 241)
  {
  }

  lemma Run13()
    ensures Consecutive(241, 251) && Consecutive(251, 257) && Consecutive(257, 263) && Consecutive(263, 269)
  {
  }

  lemma Run14()
    ensures Consecutive(269, 271) && Consecutive(271, 277) && Consecutive(277, 281) && Consecutive(281, 283)
  {
  }

  lemma Run15()
    ensures Consecutive(283, 293) && Consecutive(293, 307) && Consecutive(307, 311)
  {
  }

  lemma Gaps0(i: nat)
    requires i < 15
    ensures Consecutive(PRIMES0[i], PRIMES0[i + 1])
  {
    hide Consecutive;
    if i < 4 {
      Run0();
    } else if i < 8 {
      Run1();
    } else if i < 12 {
      Run2();
    } else {
      Run3();
    }
  }

  lemma Gaps1(i: nat)
    requires i < 15
    ensures Consecutive(PRIMES1[i], PRIMES1[i + 1])
  {
    hide Consecutive;
    if i < 4 {
      Run4();
    } else if i < 8 {
      Run5();
    } else if i < 12 {
      Run6();
    } else {
      Run7();
    }
  }

  lemma Gaps2(i: nat)
    requires i < 15
    ensures Consecutive(PRIMES2[i], PRIMES2[i + 1])
  {
    hide Consecutive;
    if i < 4 {
      Run8();
    } else if i < 8 {
      Run9();
    } else if i < 12 {
      Run10();
    } else {
      Run11();
    }
  }

  lemma Gaps3(i: nat)
    requires i < 15
    ensures Consecutive(PRIMES3[i], PRIMES3[i + 1])
  {
    hide Consecutive;
    if i < 4 {
      Run12();
    } else if i < 8 {
      Run13();
    } else if i < 12 {
      Run14();
    } else {
      Run15();
    }
  }

  lemma GapsBetween()
    ensures Consecutive(PRIMES0[15], PRIMES1[0]) && Consecutive(PRIMES1[15], PRIMES2[0])
    ensures Consecutive(PRIMES2[15], PRIMES3[0]) && PRIMES0[0] == 2 && PRIMES3[15] == 311
  {
    hide Consecutive;
    Run3();
    Run7();
    Run11();
  }

  lemma Gaps(i: nat)
    requires i < 63
    ensures |PRIMES| == 64 && Consecutive(PRIMES[i], PRIMES[i + 1])
  {
    hide *;
    PrimesInParts(i);
    PrimesInParts(i + 1);
    GapsBetween();
    if i < 15 {
      Gaps0(i);
    } else if 16 <= i < 31 {
      Gaps1(i - 16);
    } else if 32 <= i < 47 {
      Gaps2(i - 32);
    } else if 48 <= i {
      Gaps3(i - 48);
    }
  }

  lemma ConsecutiveRise(p: nat, q: nat)
    requires Consecutive(p, q)
    ensures p < q && Passes(p) && Passes(q)
  {
  }

  lemma NoneBetween(p: nat, q: nat, n: nat)
    requires Consecutive(p, q) && p < n && Passes(n)
    ensures q <= n
  {
    if n < q { NonePassBetween(p + 1, q - p - 1, n); }
  }

  lemma {:induction false} PrimesIncrease(i: nat, j: nat)
    requires |PRIMES| == 64 && i < j < 64
    ensures PRIMES[i] < PRIMES[j] && Passes(PRIMES[i]) && Passes(PRIMES[j])
    decreases j - i
  {
    hide *;
    Gaps(i);
    ConsecutiveRise(PRIMES[i], PRIMES[i + 1]);
    if i + 1 < j { PrimesIncrease(i + 1, j); }
  }

  /** A number that passes is reached going up the list. */
  lemma {:induction false} PassingIsListed(n: nat, i: nat)
    requires |PRIMES| == 64 && i < 64 && PRIMES[i] <= n <= 311 && PRIMES[63] == 311 && Passes(n)
    ensures n in PRIMES
    decreases 63 - i
  {
    hide *;
    if n != PRIMES[i] {
      assert i < 63;
      Gaps(i);
      NoneBetween(PRIMES[i], PRIMES[i + 1], n);
      PassingIsListed(n, i + 1);
    }
  }

  /** `PRIMES` are the prime numbers up to 311, in order. */
  lemma PrimesAreFirst()
    ensures forall n: nat :: n in PRIMES <==> IsPrime(n) && n <= 311
    ensures |PRIMES| == 64 && forall i, j :: 0 <= i < j < 64 ==> PRIMES[i] < PRIMES[j]
  {
    hide *;
    PrimesInParts(0);
    PrimesInParts(63);
    GapsBetween();
    forall i, j | 0 <= i < j < 64
      ensures PRIMES[i] < PRIMES[j]
    {
      PrimesIncrease(i, j);
    }
    forall n: nat
      ensures n in PRIMES <==> IsPrime(n) && n <= 311
    {
      TooSmall(n);
      if 2 <= n <= 311 {
        PassingIsPrime(n);
        if Passes(n) { PassingIsListed(n, 0); }
      }
      if i :| 0 <= i < 64 && PRIMES[i] == n { ListedPasses(i); }
    }
  }

  lemma ListedPasses(i: nat)
    requires |PRIMES| == 64 && i < 64
    ensures Passes(PRIMES[i]) && 2 <= PRIMES[i] <= 311
  {
    hide *;
    PrimesInParts(0);
    PrimesInParts(63);
    GapsBetween();
    if i > 0 { PrimesIncrease(0, i); }
    if i < 63 { PrimesIncrease(i, 63); }
  }

  lemma TooSmall(n: nat)
    ensures IsPrime(n) ==> n >= 2
  {
  }

  /** `x` is the root of `p` with 32 binary digits after the point, cut off. */
  predicate IsCubeRoot(p: nat, x: nat) {
    x * x * x <= p * 0x1_0000_0000_0000_0000_0000_0000 < (x + 1) * (x + 1) * (x + 1)
  }

  predicate IsSquareRoot(p: nat, x: nat) {
    x * x <= p * 0x1_0000_0000_0000_0000 < (x + 1) * (x + 1)
  }

  /** The whole part of the cube root of a number below 343. */
  function Whole(p: nat): nat {
    if p < 8 then 1 else if p < 27 then 2 else if p < 64 then 3 else if p < 125 then 4 else if p < 216 then 5 else 6
  }

  lemma Cubes0(t: nat)
    requires t < 16
    ensures IsCubeRoot(PRIMES0[t], Whole(PRIMES0[t]) * 0x1_0000_0000 + K0[t])
  {
  }

  lemma Cubes1(t: nat)
    requires t < 16
    ensures IsCubeRoot(PRIMES1[t], Whole(PRIMES1[t]) * 0x1_0000_0000 + K1[t])
  {
  }

  lemma Cubes2(t: nat)
    requires t < 16
    ensures IsCubeRoot(PRIMES2[t], Whole(PRIMES2[t]) * 0x1_0000_0000 + K2[t])
  {
  }

  lemma Cubes3(t: nat)
    requires t < 16
    ensures IsCubeRoot(PRIMES3[t], Whole(PRIMES3[t]) * 0x1_0000_0000 + K3[t])
  {
  }

  lemma InParts<T>(a: seq<T>, b: seq<T>, c: seq<T>, d: seq<T>, t: nat)
    requires |a| == |b| == |c| == |d| == 16 && t < 64
    ensures var s := a + b + c + d;
            |s| == 64
            && s[t] == if t < 16 then a[t] else if t < 32 then b[t - 16] else if t < 48 then c[t - 32] else d[t - 48]
  {
  }

  lemma KInParts(t: nat)
    requires t < 64
    ensures |K| == 64
    ensures K[t] == if t < 16 then K0[t] else if t < 32 then K1[t - 16] else if t < 48 then K2[t - 32] else K3[t - 48]
  {
    InParts(K0, K1, K2, K3, t);
  }

  lemma PrimesInParts(t: nat)
    requires t < 64
    ensures |PRIMES| == 64
    ensures PRIMES[t] ==
            if t < 16 then PRIMES0[t] else if t < 32 then PRIMES1[t - 16]
            else if t < 48 then PRIMES2[t - 32] else PRIMES3[t - 48]
  {
    InParts(PRIMES0, PRIMES1, PRIMES2, PRIMES3, t);
  }

  /** `K[t]` is the first 32 bits of the fraction of the cube root of the prime number `t`. */
  lemma KIsCubeRoot(t: nat)
    requires t < 64
    ensures |K| == |PRIMES| == 64 && exists c: nat :: IsCubeRoot(PRIMES[t], c * 0x1_0000_0000 + K[t])
  {
    hide *;
    KInParts(t);
    PrimesInParts(t);
    if t < 16 {
      Cubes0(t);
    } else if t < 32 {
      Cubes1(t - 16);
    } else if t < 48 {
      Cubes2(t - 32);
    } else {
      Cubes3(t - 48);
    }
  }

  /** The words of `H0` are the first 32 bits of the fractions of the square roots of the first eight primes. */
  lemma H0IsSquareRoots()
    ensures IsSquareRoot(PRIMES0[0], 1 * 0x1_0000_0000 + H0.a) && IsSquareRoot(PRIMES0[1], 1 * 0x1_0000_0000 + H0.b)
    ensures IsSquareRoot(PRIMES0[2], 2 * 0x1_0000_0000 + H0.c) && IsSquareRoot(PRIMES0[3], 2 * 0x1_0000_0000 + H0.d)
    ensures IsSquareRoot(PRIMES0[4], 3 * 0x1_0000_0000 + H0.e) && IsSquareRoot(PRIMES0[5], 3 * 0x1_0000_0000 + H0.f)
    ensures IsSquareRoot(PRIMES0[6], 4 * 0x1_0000_0000 + H0.g) && IsSquareRoot(PRIMES0[7], 4 * 0x1_0000_0000 + H0.h)
  {
  }
}
