/** What the constants of SHA-256 are (FIPS 180-4, sections 4.2.2 and 5.3.3). */
module Sha256Constants {
  import opened Sha256Standard

  /** The first sixty-four prime numbers, in eight rows. */
  const PRIMES: seq<seq<nat>> := [
    [2, 3, 5, 7, 11, 13, 17, 19],
    [23, 29, 31, 37, 41, 43, 47, 53],
    [59, 61, 67, 71, 73, 79, 83, 89],
    [97, 101, 103, 107, 109, 113, 127, 131],
    [137, 139, 149, 151, 157, 163, 167, 173],
    [179, 181, 191, 193, 197, 199, 211, 223],
    [227, 229, 233, 239, 241, 251, 257, 263],
    [269, 271, 277, 281, 283, 293, 307, 311]]

  const UNIT: nat := 0x1_0000_0000

  /** `k` holds the first 32 bits of the fractional part of the cube root of `p`. */
  ghost predicate IsCubeRootFraction(p: nat, k: Word) {
    exists whole: nat :: IsCubeRoot(p, whole * UNIT + k as nat)
  }

  /** `r` is the cube root of `p` in units of 2 to the power -32, rounded down. */
  predicate IsCubeRoot(p: nat, r: nat) {
    r * r * r <= p * (UNIT * UNIT * UNIT) < (r + 1) * (r + 1) * (r + 1)
  }

  /** `k` holds the first 32 bits of the fractional part of the square root of `p`. */
  ghost predicate IsSquareRootFraction(p: nat, k: Word) {
    exists whole: nat :: IsSquareRoot(p, whole * UNIT + k as nat)
  }

  predicate IsSquareRoot(p: nat, r: nat) {
    r * r <= p * (UNIT * UNIT) < (r + 1) * (r + 1)
  }

  function WholeCubeRoot(p: nat): nat {
    if p < 8 then 1 else if p < 27 then 2 else if p < 64 then 3 else if p < 125 then 4 else if p < 216 then 5 else 6
  }

  function WholeSquareRoot(p: nat): nat {
    if p < 4 then 1 else if p < 9 then 2 else if p < 16 then 3 else 4
  }

  predicate RowHolds(i: nat, j: nat)
    requires i < 8 && j < 8
  {
    IsCubeRoot(PRIMES[i][j], WholeCubeRoot(PRIMES[i][j]) * UNIT + ROUND_CONSTANTS[i][j] as nat)
  }

  lemma Roots0()
    ensures IsCubeRoot(2, 1 * UNIT + 0x428a2f98)
    ensures IsCubeRoot(3, 1 * UNIT + 0x71374491)
    ensures IsCubeRoot(5, 1 * UNIT + 0xb5c0fbcf)
    ensures IsCubeRoot(7, 1 * UNIT + 0xe9b5dba5)
    ensures IsCubeRoot(11, 2 * UNIT + 0x3956c25b)
    ensures IsCubeRoot(13, 2 * UNIT + 0x59f111f1)
    ensures IsCubeRoot(17, 2 * UNIT + 0x923f82a4)
    ensures IsCubeRoot(19, 2 * UNIT + 0xab1c5ed5)
  {}

  lemma Row0(j: nat)
    requires j < 8
    ensures RowHolds(0, j)
  {
    hide IsCubeRoot;
    Roots0();
    if j == 0 {} else if j == 1 {} else if j == 2 {} else if j == 3 {}
    else if j == 4 {} else if j == 5 {} else if j == 6 {} else {}
  }

  lemma Roots1()
    ensures IsCubeRoot(23, 2 * UNIT + 0xd807aa98)
    ensures IsCubeRoot(29, 3 * UNIT + 0x12835b01)
    ensures IsCubeRoot(31, 3 * UNIT + 0x243185be)
    ensures IsCubeRoot(37, 3 * UNIT + 0x550c7dc3)
    ensures IsCubeRoot(41, 3 * UNIT + 0x72be5d74)
    ensures IsCubeRoot(43, 3 * UNIT + 0x80deb1fe)
    ensures IsCubeRoot(47, 3 * UNIT + 0x9bdc06a7)
    ensures IsCubeRoot(53, 3 * UNIT + 0xc19bf174)
  {}

  lemma Row1(j: nat)
    requires j < 8
    ensures RowHolds(1, j)
  {
    hide IsCubeRoot;
    Roots1();
    if j == 0 {} else if j == 1 {} else if j == 2 {} else if j == 3 {}
    else if j == 4 {} else if j == 5 {} else if j == 6 {} else {}
  }

  lemma Roots2()
    ensures IsCubeRoot(59, 3 * UNIT + 0xe49b69c1)
    ensures IsCubeRoot(61, 3 * UNIT + 0xefbe4786)
    ensures IsCubeRoot(67, 4 * UNIT + 0x0fc19dc6)
    ensures IsCubeRoot(71, 4 * UNIT + 0x240ca1cc)
    ensures IsCubeRoot(73, 4 * UNIT + 0x2de92c6f)
    ensures IsCubeRoot(79, 4 * UNIT + 0x4a7484aa)
    ensures IsCubeRoot(83, 4 * UNIT + 0x5cb0a9dc)
    ensures IsCubeRoot(89, 4 * UNIT + 0x76f988da)
  {}

  lemma Row2(j: nat)
    requires j < 8
    ensures RowHolds(2, j)
  {
    hide IsCubeRoot;
    Roots2();
    if j == 0 {} else if j == 1 {} else if j == 2 {} else if j == 3 {}
    else if j == 4 {} else if j == 5 {} else if j == 6 {} else {}
  }

  lemma Roots3()
    ensures IsCubeRoot(97, 4 * UNIT + 0x983e5152)
    ensures IsCubeRoot(101, 4 * UNIT + 0xa831c66d)
    ensures IsCubeRoot(103, 4 * UNIT + 0xb00327c8)
    ensures IsCubeRoot(107, 4 * UNIT + 0xbf597fc7)
    ensures IsCubeRoot(109, 4 * UNIT + 0xc6e00bf3)
    ensures IsCubeRoot(113, 4 * UNIT + 0xd5a79147)
    ensures IsCubeRoot(127, 5 * UNIT + 0x06ca6351)
    ensures IsCubeRoot(131, 5 * UNIT + 0x14292967)
  {}

  lemma Row3(j: nat)
    requires j < 8
    ensures RowHolds(3, j)
  {
    hide IsCubeRoot;
    Roots3();
    if j == 0 {} else if j == 1 {} else if j == 2 {} else if j == 3 {}
    else if j == 4 {} else if j == 5 {} else if j == 6 {} else {}
  }

  lemma Roots4()
    ensures IsCubeRoot(137, 5 * UNIT + 0x27b70a85)
    ensures IsCubeRoot(139, 5 * UNIT + 0x2e1b2138)
    ensures IsCubeRoot(149, 5 * UNIT + 0x4d2c6dfc)
    ensures IsCubeRoot(151, 5 * UNIT + 0x53380d13)
    ensures IsCubeRoot(157, 5 * UNIT + 0x650a7354)
    ensures IsCubeRoot(163, 5 * UNIT + 0x766a0abb)
    ensures IsCubeRoot(167, 5 * UNIT + 0x81c2c92e)
    ensures IsCubeRoot(173, 5 * UNIT + 0x92722c85)
  {}

  lemma Row4(j: nat)
    requires j < 8
    ensures RowHolds(4, j)
  {
    hide IsCubeRoot;
    Roots4();
    if j == 0 {} else if j == 1 {} else if j == 2 {} else if j == 3 {}
    else if j == 4 {} else if j == 5 {} else if j == 6 {} else {}
  }

  lemma Roots5()
    ensures IsCubeRoot(179, 5 * UNIT + 0xa2bfe8a1)
    ensures IsCubeRoot(181, 5 * UNIT + 0xa81a664b)
    ensures IsCubeRoot(191, 5 * UNIT + 0xc24b8b70)
    ensures IsCubeRoot(193, 5 * UNIT + 0xc76c51a3)
    ensures IsCubeRoot(197, 5 * UNIT + 0xd192e819)
    ensures IsCubeRoot(199, 5 * UNIT + 0xd6990624)
    ensures IsCubeRoot(211, 5 * UNIT + 0xf40e3585)
    ensures IsCubeRoot(223, 6 * UNIT + 0x106aa070)
  {}

  lemma Row5(j: nat)
    requires j < 8
    ensures RowHolds(5, j)
  {
    hide IsCubeRoot;
    Roots5();
    if j == 0 {} else if j == 1 {} else if j == 2 {} else if j == 3 {}
    else if j == 4 {} else if j == 5 {} else if j == 6 {} else {}
  }

  lemma Roots6()
    ensures IsCubeRoot(227, 6 * UNIT + 0x19a4c116)
    ensures IsCubeRoot(229, 6 * UNIT + 0x1e376c08)
    ensures IsCubeRoot(233, 6 * UNIT + 0x2748774c)
    ensures IsCubeRoot(239, 6 * UNIT + 0x34b0bcb5)
    ensures IsCubeRoot(241, 6 * UNIT + 0x391c0cb3)
    ensures IsCubeRoot(251, 6 * UNIT + 0x4ed8aa4a)
    ensures IsCubeRoot(257, 6 * UNIT + 0x5b9cca4f)
    ensures IsCubeRoot(263, 6 * UNIT + 0x682e6ff3)
  {}

  lemma Row6(j: nat)
    requires j < 8
    ensures RowHolds(6, j)
  {
    hide IsCubeRoot;
    Roots6();
    if j == 0 {} else if j == 1 {} else if j == 2 {} else if j == 3 {}
    else if j == 4 {} else if j == 5 {} else if j == 6 {} else {}
  }

  lemma Roots7()
    ensures IsCubeRoot(269, 6 * UNIT + 0x748f82ee)
    ensures IsCubeRoot(271, 6 * UNIT + 0x78a5636f)
    ensures IsCubeRoot(277, 6 * UNIT + 0x84c87814)
    ensures IsCubeRoot(281, 6 * UNIT + 0x8cc70208)
    ensures IsCubeRoot(283, 6 * UNIT + 0x90befffa)
    ensures IsCubeRoot(293, 6 * UNIT + 0xa4506ceb)
    ensures IsCubeRoot(307, 6 * UNIT + 0xbef9a3f7)
    ensures IsCubeRoot(311, 6 * UNIT + 0xc67178f2)
  {}

  lemma Row7(j: nat)
    requires j < 8
    ensures RowHolds(7, j)
  {
    hide IsCubeRoot;
    Roots7();
    if j == 0 {} else if j == 1 {} else if j == 2 {} else if j == 3 {}
    else if j == 4 {} else if j == 5 {} else if j == 6 {} else {}
  }

  /** The round constants are the first 32 bits of the fractional parts of the cube roots
      of the first sixty-four primes. */
  lemma RoundConstantsAreCubeRoots(t: nat)
    requires t < 64
    ensures IsCubeRootFraction(PRIMES[t / 8][t % 8], RoundConstant(t))
  {
    hide IsCubeRoot;
    var i, j := t / 8, t % 8;
    if i == 0 { Row0(j); } else if i == 1 { Row1(j); } else if i == 2 { Row2(j); } else if i == 3 { Row3(j); }
    else if i == 4 { Row4(j); } else if i == 5 { Row5(j); } else if i == 6 { Row6(j); } else { Row7(j); }
    assert RowHolds(i, j);
  }

  /** The initial hash value is made of the square roots of the first eight. */
  lemma InitialStateIsSquareRoots(i: nat)
    requires i < 8
    ensures IsSquareRootFraction(PRIMES[0][i], INITIAL_STATE[i])
  {
    var p, whole := PRIMES[0][i], WholeSquareRoot(PRIMES[0][i]);
    assert IsSquareRoot(p, whole * UNIT + INITIAL_STATE[i] as nat) by {
      if i == 0 {} else if i == 1 {} else if i == 2 {} else if i == 3 {}
      else if i == 4 {} else if i == 5 {} else if i == 6 {} else {}
    }
  }

  /** The fraction determines the constant: no other word has this property. */
  lemma CubeRootFractionIsUnique(p: nat, k: Word, l: Word)
    requires IsCubeRootFraction(p, k) && IsCubeRootFraction(p, l)
    ensures k == l
  {
    hide IsCubeRoot;
    var m: nat :| IsCubeRoot(p, m * UNIT + k as nat);
    var n: nat :| IsCubeRoot(p, n * UNIT + l as nat);
    CubeRootIsUnique(p, m * UNIT + k as nat, n * UNIT + l as nat);
    SameFraction(m, k, n, l);
  }

  lemma SameFraction(m: nat, k: Word, n: nat, l: Word)
    requires m * UNIT + k as nat == n * UNIT + l as nat
    ensures k == l
  {}

  lemma CubeRootIsUnique(p: nat, r: nat, s: nat)
    requires IsCubeRoot(p, r) && IsCubeRoot(p, s)
    ensures r == s
  {
    if r < s {
      CubesGrow(r + 1, s);
    } else if s < r {
      CubesGrow(s + 1, r);
    }
  }

  lemma CubesGrow(r: nat, s: nat)
    requires r <= s
    ensures r * r * r <= s * s * s
  {
    assert r * r <= s * s;
    assert r * r * r <= s * s * r <= s * s * s;
  }
}
