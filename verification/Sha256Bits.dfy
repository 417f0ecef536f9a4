/** What the logical functions of section 4.1.2 of FIPS 180-4 compute. */
module Sha256Bits {
  import opened Sha256Spec

  /** Ch takes y's bits where x has ones and z's where it has zeros. */
  lemma ChChooses(x: word, y: word, z: word)
    ensures Ch(x, y, z) & x == y & x
    ensures Ch(x, y, z) & !x == z & !x
  {
  }

  /** Maj is the majority in every bit: wherever two of the three agree, it is what they agree on. */
  lemma MajWhereFirstTwoAgree(x: word, y: word, z: word)
    ensures Maj(x, y, z) & !(x ^ y) == x & !(x ^ y)
  {
  }

  lemma MajWhereOuterTwoAgree(x: word, y: word, z: word)
    ensures Maj(x, y, z) & !(x ^ z) == x & !(x ^ z)
  {
  }

  lemma MajWhereLastTwoAgree(x: word, y: word, z: word)
    ensures Maj(x, y, z) & !(y ^ z) == y & !(y ^ z)
  {
  }

  // The four sigma functions as shifts.

  lemma RotR2(x: word)
    ensures RotR(x, 2) == (x >> 2) | (x << 30)
  {
  }

  lemma RotR6(x: word)
    ensures RotR(x, 6) == (x >> 6) | (x << 26)
  {
  }

  lemma RotR7(x: word)
    ensures RotR(x, 7) == (x >> 7) | (x << 25)
  {
  }

  lemma RotR11(x: word)
    ensures RotR(x, 11) == (x >> 11) | (x << 21)
  {
  }

  lemma RotR13(x: word)
    ensures RotR(x, 13) == (x >> 13) | (x << 19)
  {
  }

  lemma RotR17(x: word)
    ensures RotR(x, 17) == (x >> 17) | (x << 15)
  {
  }

  lemma RotR18(x: word)
    ensures RotR(x, 18) == (x >> 18) | (x << 14)
  {
  }

  lemma RotR19(x: word)
    ensures RotR(x, 19) == (x >> 19) | (x << 13)
  {
  }

  lemma RotR22(x: word)
    ensures RotR(x, 22) == (x >> 22) | (x << 10)
  {
  }

  lemma RotR25(x: word)
    ensures RotR(x, 25) == (x >> 25) | (x << 7)
  {
  }

  lemma BigSigma0Shifts(x: word)
    ensures BigSigma0(x) == Xor3((x >> 2) | (x << 30), (x >> 13) | (x << 19), (x >> 22) | (x << 10))
  {
    hide Xor3, RotR;
    RotR2(x);
    RotR13(x);
    RotR22(x);
  }

  lemma BigSigma1Shifts(x: word)
    ensures BigSigma1(x) == Xor3((x >> 6) | (x << 26), (x >> 11) | (x << 21), (x >> 25) | (x << 7))
  {
    hide Xor3, RotR;
    RotR6(x);
    RotR11(x);
    RotR25(x);
  }

  lemma SmallSigma0Shifts(x: word)
    ensures SmallSigma0(x) == Xor3((x >> 7) | (x << 25), (x >> 18) | (x << 14), x >> 3)
  {
    hide Xor3, RotR;
    RotR7(x);
    RotR18(x);
  }

  lemma SmallSigma1Shifts(x: word)
    ensures SmallSigma1(x) == Xor3((x >> 17) | (x << 15), (x >> 19) | (x << 13), x >> 10)
  {
    hide Xor3, RotR;
    RotR17(x);
    RotR19(x);
  }

  /** Which bits one bit becomes: 0 to 30, 19 and 10; 0 to 26, 21 and 7; 10 to 3, 24 and 7; 10 to 25, 23 and 0. */
  lemma SigmasOfOneBit()
    ensures BigSigma0(0x1) == 0x4008_0400 && BigSigma1(0x1) == 0x0420_0080
    ensures SmallSigma0(0x400) == 0x0100_0088 && SmallSigma1(0x400) == 0x0280_0001
  {
    BigSigma0Shifts(0x1);
    BigSigma1Shifts(0x1);
    SmallSigma0Shifts(0x400);
    SmallSigma1Shifts(0x400);
    hide BigSigma0, BigSigma1, SmallSigma0, SmallSigma1;
  }
}
