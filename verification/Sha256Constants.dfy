/** Where the constants of the standard come from: sections 4.2.2 and 5.3.3 of FIPS 180-4. */
module Sha256Constants {
  import opened Sha256Spec

  // The first sixty-four primes.
  const P0: seq<nat> := [2, 3, 5, 7, 11, 13, 17, 19]
  const P1: seq<nat> := [23, 29, 31, 37, 41, 43, 47, 53]
  const P2: seq<nat> := [59, 61, 67, 71, 73, 79, 83, 89]
  const P3: seq<nat> := [97, 101, 103, 107, 109, 113, 127, 131]
  const P4: seq<nat> := [137, 139, 149, 151, 157, 163, 167, 173]
  const P5: seq<nat> := [179, 181, 191, 193, 197, 199, 211, 223]
  const P6: seq<nat> := [227, 229, 233, 239, 241, 251, 257, 263]
  const P7: seq<nat> := [269, 271, 277, 281, 283, 293, 307, 311]

  function Prime(t: nat): nat
    requires t < 64
  {
    match t / 8
    case 0 => P0[t % 8]
    case 1 => P1[t % 8]
    case 2 => P2[t % 8]
    case 3 => P3[t % 8]
    case 4 => P4[t % 8]
    case 5 => P5[t % 8]
    case 6 => P6[t % 8]
    case 7 => P7[t % 8]
  }

  const TWO_TO_THE_32: int := 0x1_0000_0000

  /** The integer part of the cube root, for numbers below 343. */
  function CubeRootFloor(p: nat): nat {
    if p < 8 then 1 else if p < 27 then 2 else if p < 64 then 3 else if p < 125 then 4 else if p < 216 then 5 else 6
  }

  /** k is the first thirty-two bits of the fractional part of the cube root of p. */
  predicate CubeRootBits(p: nat, k: int) {
    var x := CubeRootFloor(p) * TWO_TO_THE_32 + k;
    x * x * x <= p * TWO_TO_THE_32 * TWO_TO_THE_32 * TWO_TO_THE_32 < (x + 1) * (x + 1) * (x + 1)
  }

  /** k is the first thirty-two bits of the fractional part of the square root of p, whose integer part is s. */
  predicate SquareRootBits(p: nat, s: nat, k: int) {
    var x := s * TWO_TO_THE_32 + k;
    x * x <= p * TWO_TO_THE_32 * TWO_TO_THE_32 < (x + 1) * (x + 1)
  }

  lemma Row0()
    ensures forall i :: 0 <= i < 8 ==> CubeRootBits(P0[i], K0[i] as int)
  {
  }

  lemma Row1()
    ensures forall i :: 0 <= i < 8 ==> CubeRootBits(P1[i], K1[i] as int)
  {
  }

  lemma Row2()
    ensures forall i :: 0 <= i < 8 ==> CubeRootBits(P2[i], K2[i] as int)
  {
  }

  lemma Row3()
    ensures forall i :: 0 <= i < 8 ==> CubeRootBits(P3[i], K3[i] as int)
  {
  }

  lemma Row4()
    ensures forall i :: 0 <= i < 8 ==> CubeRootBits(P4[i], K4[i] as int)
  {
  }

  lemma Row5()
    ensures forall i :: 0 <= i < 8 ==> CubeRootBits(P5[i], K5[i] as int)
  {
  }

  lemma Row6()
    ensures forall i :: 0 <= i < 8 ==> CubeRootBits(P6[i], K6[i] as int)
  {
  }

  lemma Row7()
    ensures forall i :: 0 <= i < 8 ==> CubeRootBits(P7[i], K7[i] as int)
  {
  }

  lemma RoundConstantsAreCubeRoots(t: nat)
    requires t < 64
    ensures CubeRootBits(Prime(t), RoundConstant(t) as int)
  {
    hide CubeRootBits;
    match t / 8
    case 0 => Row0();
    case 1 => Row1();
    case 2 => Row2();
    case 3 => Row3();
    case 4 => Row4();
    case 5 => Row5();
    case 6 => Row6();
    case 7 => Row7();
  }

  lemma InitialWordsAreSquareRoots()
    ensures SquareRootBits(2, 1, INITIAL.a as int) && SquareRootBits(3, 1, INITIAL.b as int)
    ensures SquareRootBits(5, 2, INITIAL.c as int) && SquareRootBits(7, 2, INITIAL.d as int)
    ensures SquareRootBits(11, 3, INITIAL.e as int) && SquareRootBits(13, 3, INITIAL.f as int)
    ensures SquareRootBits(17, 4, INITIAL.g as int) && SquareRootBits(19, 4, INITIAL.h as int)
  {
  }
}
