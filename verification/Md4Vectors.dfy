/** What the steps of MD4 compute, apart from how Md4 writes them: the functions of section 3.4 of RFC 1320 bit by
    bit, the constants as square roots, and two digests of section A.5 in literals. */
module Md4Vectors {
  import opened Md4

  // ----- The functions of the rounds, on any set of bits ----------------------------------------

  /** F: where x has ones the bits of y, where it has zeros those of z; `m` is any choice of bits. */
  lemma FSelects(x: bv32, y: bv32, z: bv32, m: bv32)
    ensures x & m == m ==> F(x, y, z) & m == y & m
    ensures x & m == 0 ==> F(x, y, z) & m == z & m
  {
  }

  /** G: the majority, what two of the three agree on. */
  lemma GIsMajority(x: bv32, y: bv32, z: bv32, m: bv32)
    ensures x & m == y & m ==> G(x, y, z) & m == x & m
    ensures x & m == z & m ==> G(x, y, z) & m == x & m
    ensures y & m == z & m ==> G(x, y, z) & m == y & m
  {
    hide G;
    TwoAgree(x, y, z, m);
    TwoAgree(x, z, y, m);
    TwoAgree(y, z, x, m);
    GInAnyOrder(x, y, z);
  }

  lemma TwoAgree(x: bv32, y: bv32, z: bv32, m: bv32)
    ensures x & m == y & m ==> G(x, y, z) & m == x & m
  {
  }

  lemma GInAnyOrder(x: bv32, y: bv32, z: bv32)
    ensures G(x, y, z) == G(x, z, y) == G(y, z, x)
  {
  }

  /** H: the parity, z where x and y agree and its complement where they do not. */
  lemma HIsParity(x: bv32, y: bv32, z: bv32, m: bv32)
    ensures x & m == y & m ==> H(x, y, z) & m == z & m
    ensures x & m == !y & m ==> H(x, y, z) & m == !z & m
  {
  }

  lemma Sum1(a: bv32, b: bv32, c: bv32, d: bv32, m: bv32, s: bv6)
    requires 0 < s < 32
    ensures Op1(a, b, c, d, m, s) == Lshift(a + F(b, c, d) + m, s)
  {
    hide F, Lshift;
  }

  /** A step of round 1 is the sum of register, function and word, rotated. */
  lemma Step1By3(a: bv32, b: bv32, c: bv32, d: bv32, m: bv32)
    ensures Op1(a, b, c, d, m, 3) == (a + F(b, c, d) + m).RotateLeft(3)
  {
    hide *;
    Sum1(a, b, c, d, m, 3);
    LshiftIsRotation(a + F(b, c, d) + m);
  }

  lemma Step1By7(a: bv32, b: bv32, c: bv32, d: bv32, m: bv32)
    ensures Op1(a, b, c, d, m, 7) == (a + F(b, c, d) + m).RotateLeft(7)
  {
    hide *;
    Sum1(a, b, c, d, m, 7);
    LshiftIsRotation(a + F(b, c, d) + m);
  }

  lemma Step1By11(a: bv32, b: bv32, c: bv32, d: bv32, m: bv32)
    ensures Op1(a, b, c, d, m, 11) == (a + F(b, c, d) + m).RotateLeft(11)
  {
    hide *;
    Sum1(a, b, c, d, m, 11);
    LshiftIsRotation(a + F(b, c, d) + m);
  }

  lemma Step1By19(a: bv32, b: bv32, c: bv32, d: bv32, m: bv32)
    ensures Op1(a, b, c, d, m, 19) == (a + F(b, c, d) + m).RotateLeft(19)
  {
    hide *;
    Sum1(a, b, c, d, m, 19);
    LshiftIsRotation(a + F(b, c, d) + m);
  }

  lemma Sum2(a: bv32, b: bv32, c: bv32, d: bv32, m: bv32, s: bv6)
    requires 0 < s < 32
    ensures Op2(a, b, c, d, m, s) == Lshift(a + G(b, c, d) + m + 1518500249, s)
  {
    hide G, Lshift;
  }

  /** A step of round 2 adds the integer part of 2^30 times the square root of 2. */
  lemma Step2By3(a: bv32, b: bv32, c: bv32, d: bv32, m: bv32)
    ensures Op2(a, b, c, d, m, 3) == (a + G(b, c, d) + m + 1518500249).RotateLeft(3)
  {
    hide *;
    Sum2(a, b, c, d, m, 3);
    LshiftIsRotation(a + G(b, c, d) + m + 1518500249);
  }

  lemma Step2By5(a: bv32, b: bv32, c: bv32, d: bv32, m: bv32)
    ensures Op2(a, b, c, d, m, 5) == (a + G(b, c, d) + m + 1518500249).RotateLeft(5)
  {
    hide *;
    Sum2(a, b, c, d, m, 5);
    LshiftIsRotation(a + G(b, c, d) + m + 1518500249);
  }

  lemma Step2By9(a: bv32, b: bv32, c: bv32, d: bv32, m: bv32)
    ensures Op2(a, b, c, d, m, 9) == (a + G(b, c, d) + m + 1518500249).RotateLeft(9)
  {
    hide *;
    Sum2(a, b, c, d, m, 9);
    LshiftIsRotation(a + G(b, c, d) + m + 1518500249);
  }

  lemma Step2By13(a: bv32, b: bv32, c: bv32, d: bv32, m: bv32)
    ensures Op2(a, b, c, d, m, 13) == (a + G(b, c, d) + m + 1518500249).RotateLeft(13)
  {
    hide *;
    Sum2(a, b, c, d, m, 13);
    LshiftIsRotation(a + G(b, c, d) + m + 1518500249);
  }

  /** The constant of round 2 is that integer part. */
  lemma RootOfTwo()
    ensures var k := 1518500249; k * k <= 0x2000_0000_0000_0000 < (k + 1) * (k + 1)
  {
  }

  lemma Sum3(a: bv32, b: bv32, c: bv32, d: bv32, m: bv32, s: bv6)
    requires 0 < s < 32
    ensures Op3(a, b, c, d, m, s) == Lshift(a + H(b, c, d) + m + 1859775393, s)
  {
    hide H, Lshift;
  }

  /** A step of round 3 adds the integer part of 2^30 times the square root of 3. */
  lemma Step3By3(a: bv32, b: bv32, c: bv32, d: bv32, m: bv32)
    ensures Op3(a, b, c, d, m, 3) == (a + H(b, c, d) + m + 1859775393).RotateLeft(3)
  {
    hide *;
    Sum3(a, b, c, d, m, 3);
    LshiftIsRotation(a + H(b, c, d) + m + 1859775393);
  }

  lemma Step3By9(a: bv32, b: bv32, c: bv32, d: bv32, m: bv32)
    ensures Op3(a, b, c, d, m, 9) == (a + H(b, c, d) + m + 1859775393).RotateLeft(9)
  {
    hide *;
    Sum3(a, b, c, d, m, 9);
    LshiftIsRotation(a + H(b, c, d) + m + 1859775393);
  }

  lemma Step3By11(a: bv32, b: bv32, c: bv32, d: bv32, m: bv32)
    ensures Op3(a, b, c, d, m, 11) == (a + H(b, c, d) + m + 1859775393).RotateLeft(11)
  {
    hide *;
    Sum3(a, b, c, d, m, 11);
    LshiftIsRotation(a + H(b, c, d) + m + 1859775393);
  }

  lemma Step3By15(a: bv32, b: bv32, c: bv32, d: bv32, m: bv32)
    ensures Op3(a, b, c, d, m, 15) == (a + H(b, c, d) + m + 1859775393).RotateLeft(15)
  {
    hide *;
    Sum3(a, b, c, d, m, 15);
    LshiftIsRotation(a + H(b, c, d) + m + 1859775393);
  }

  /** The constant of round 3 is that integer part. */
  lemma RootOfThree()
    ensures var k := 1859775393; k * k <= 0x3000_0000_0000_0000 < (k + 1) * (k + 1)
  {
  }

  // ----- Two digests of section A.5 -------------------------------------------------------------

  lemma Round1Step(x: seq<bv32>, r: Regs, j: nat)
    requires |x| == 16 && 0 < j <= 4
    ensures var i := 4 * (j - 1);
            Round1(x, r, j) == Group1(Round1(x, r, j - 1), x[i], x[i + 1], x[i + 2], x[i + 3])
  {
    hide Group1;
  }

  lemma Round2Step(x: seq<bv32>, r: Regs, j: nat)
    requires |x| == 16 && 0 < j <= 4
    ensures var i := j - 1;
            Round2(x, r, j) == Group2(Round2(x, r, j - 1), x[i], x[i + 4], x[i + 8], x[i + 12])
  {
    hide Group2;
  }

  lemma Round3Step(x: seq<bv32>, r: Regs, j: nat)
    requires |x| == 16 && 0 < j <= 4
    ensures var i := (j - 1) % 2 * 2 + (j - 1) / 2;
            Round3(x, r, j) == Group3(Round3(x, r, j - 1), x[i], x[i + 8], x[i + 4], x[i + 12])
  {
    hide Group3;
  }

  lemma Round1Is(x: seq<bv32>, r: Regs)
    requires |x| == 16
    ensures Round1(x, r, 4) ==
            Group1(Group1(Group1(Group1(r, x[0], x[1], x[2], x[3]), x[4], x[5], x[6], x[7]),
                          x[8], x[9], x[10], x[11]), x[12], x[13], x[14], x[15])
  {
    hide Group1;
    assert Round1(x, r, 0) == r;
    Round1Step(x, r, 1);
    Round1Step(x, r, 2);
    Round1Step(x, r, 3);
    Round1Step(x, r, 4);
    hide Round1;
  }

  lemma Round2Is(x: seq<bv32>, r: Regs)
    requires |x| == 16
    ensures Round2(x, r, 4) ==
            Group2(Group2(Group2(Group2(r, x[0], x[4], x[8], x[12]), x[1], x[5], x[9], x[13]),
                          x[2], x[6], x[10], x[14]), x[3], x[7], x[11], x[15])
  {
    hide Group2;
    assert Round2(x, r, 0) == r;
    Round2Step(x, r, 1);
    Round2Step(x, r, 2);
    Round2Step(x, r, 3);
    Round2Step(x, r, 4);
    hide Round2;
  }

  lemma Round3Is(x: seq<bv32>, r: Regs)
    requires |x| == 16
    ensures Round3(x, r, 4) ==
            Group3(Group3(Group3(Group3(r, x[0], x[8], x[4], x[12]), x[2], x[10], x[6], x[14]),
                          x[1], x[9], x[5], x[13]), x[3], x[11], x[7], x[15])
  {
    hide Group3;
    assert Round3(x, r, 0) == r;
    Round3Step(x, r, 1);
    Round3Step(x, r, 2);
    Round3Step(x, r, 3);
    Round3Step(x, r, 4);
    hide Round3;
  }

  const ABC: seq<bv32> := [
    0x80636261, 0x0, 0x0, 0x0,
    0x0, 0x0, 0x0, 0x0,
    0x0, 0x0, 0x0, 0x0,
    0x0, 0x0, 0x18, 0x0
  ]

  lemma AbcGroup11()
    ensures Group1(Regs(0x67452301, 0xefcdab89, 0x98badcfe, 0x10325476), 0x80636261, 0x0, 0x0, 0x0) ==
            Regs(0x031b1304, 0xf66d8f45, 0xd38454e4, 0xee123855)
  {
  }

  lemma AbcGroup12()
    ensures Group1(Regs(0x031b1304, 0xf66d8f45, 0xd38454e4, 0xee123855), 0x0, 0x0, 0x0, 0x0) ==
            Regs(0xe98a3ac6, 0x613b2bc8, 0x97854e65, 0x0f435cf0)
  {
  }

  lemma AbcGroup13()
    ensures Group1(Regs(0xe98a3ac6, 0x613b2bc8, 0x97854e65, 0x0f435cf0), 0x0, 0x0, 0x0, 0x0) ==
            Regs(0xc65cc9b7, 0xa7d13acb, 0x15d2eef5, 0x6e365830)
  {
  }

  lemma AbcGroup14()
    ensures Group1(Regs(0xc65cc9b7, 0xa7d13acb, 0x15d2eef5, 0x6e365830), 0x0, 0x0, 0x18, 0x0) ==
            Regs(0xa299a540, 0xda717395, 0x24baadcb, 0x04e19293)
  {
  }

  lemma AbcGroup21()
    ensures Group2(Regs(0xa299a540, 0xda717395, 0x24baadcb, 0x04e19293), 0x80636261, 0x0, 0x0, 0x0) ==
            Regs(0x1389a66c, 0x228b5116, 0xdd3d21a5, 0x43b67f2e)
  {
  }

  lemma AbcGroup22()
    ensures Group2(Regs(0x1389a66c, 0x228b5116, 0xdd3d21a5, 0x43b67f2e), 0x0, 0x0, 0x0, 0x0) ==
            Regs(0x8e5c895d, 0x4ec68171, 0xbd68a784, 0x8abf3b85)
  {
  }

  lemma AbcGroup23()
    ensures Group2(Regs(0x8e5c895d, 0x4ec68171, 0xbd68a784, 0x8abf3b85), 0x0, 0x0, 0x0, 0x18) ==
            Regs(0xbe6d33db, 0x0323e3b7, 0x74661d2d, 0x75cb1df4)
  {
  }

  lemma AbcGroup24()
    ensures Group2(Regs(0xbe6d33db, 0x0323e3b7, 0x74661d2d, 0x75cb1df4), 0x0, 0x0, 0x0, 0x0) ==
            Regs(0x7296594c, 0x8e531b8f, 0x3dd42422, 0x4e7e1748)
  {
  }

  lemma AbcGroup31()
    ensures Group3(Regs(0x7296594c, 0x8e531b8f, 0x3dd42422, 0x4e7e1748), 0x80636261, 0x0, 0x0, 0x0) ==
            Regs(0xfe66819a, 0xfd9fcfeb, 0x2f4e3583, 0x73824016)
  {
  }

  lemma AbcGroup32()
    ensures Group3(Regs(0xfe66819a, 0xfd9fcfeb, 0x2f4e3583, 0x73824016), 0x0, 0x0, 0x0, 0x18) ==
            Regs(0x74a13dc8, 0x71a2ad97, 0x03f2b578, 0x99e6af11)
  {
  }

  lemma AbcGroup33()
    ensures Group3(Regs(0x74a13dc8, 0x71a2ad97, 0x03f2b578, 0x99e6af11), 0x0, 0x0, 0x0, 0x0) ==
            Regs(0x798f0b3e, 0xacbf46ad, 0xea0ccd51, 0x3f5d0629)
  {
  }

  lemma AbcGroup34()
    ensures Group3(Regs(0x798f0b3e, 0xacbf46ad, 0xea0ccd51, 0x3f5d0629), 0x0, 0x0, 0x0, 0x0) ==
            Regs(0x12bc25a3, 0x630a7626, 0x4f4fe461, 0x8d405204)
  {
  }

  lemma AbcRound1()
    ensures Round1(ABC, Regs(0x67452301, 0xefcdab89, 0x98badcfe, 0x10325476), 4) ==
            Regs(0xa299a540, 0xda717395, 0x24baadcb, 0x04e19293)
  {
    hide Group1, Round1;
    Round1Is(ABC, Regs(0x67452301, 0xefcdab89, 0x98badcfe, 0x10325476));
    AbcGroup11();
    AbcGroup12();
    AbcGroup13();
    AbcGroup14();
  }

  lemma AbcRound2()
    ensures Round2(ABC, Regs(0xa299a540, 0xda717395, 0x24baadcb, 0x04e19293), 4) ==
            Regs(0x7296594c, 0x8e531b8f, 0x3dd42422, 0x4e7e1748)
  {
    hide Group2, Round2;
    Round2Is(ABC, Regs(0xa299a540, 0xda717395, 0x24baadcb, 0x04e19293));
    AbcGroup21();
    AbcGroup22();
    AbcGroup23();
    AbcGroup24();
  }

  lemma AbcRound3()
    ensures Round3(ABC, Regs(0x7296594c, 0x8e531b8f, 0x3dd42422, 0x4e7e1748), 4) ==
            Regs(0x12bc25a3, 0x630a7626, 0x4f4fe461, 0x8d405204)
  {
    hide Group3, Round3;
    Round3Is(ABC, Regs(0x7296594c, 0x8e531b8f, 0x3dd42422, 0x4e7e1748));
    AbcGroup31();
    AbcGroup32();
    AbcGroup33();
    AbcGroup34();
  }

  lemma AbcCompressed()
    ensures Compress(Regs(0x67452301, 0xefcdab89, 0x98badcfe, 0x10325476), ABC) ==
            Regs(0x7a0148a4, 0x52d821af, 0xe80ac15f, 0x9d72a67a)
  {
    hide Round1, Round2, Round3, Compress;
    CompressIs(ABC, Regs(0x67452301, 0xefcdab89, 0x98badcfe, 0x10325476));
    AbcRound1();
    AbcRound2();
    AbcRound3();
  }

  // ----- From a message to its digest -----------------------------------------------------------

  lemma WordsAre(block: seq<bv8>, x: seq<bv32>)
    requires |block| == 64 && |x| == 16
    requires forall i :: 0 <= i < 16 ==>
               Word(block[4 * i], block[4 * i + 1], block[4 * i + 2], block[4 * i + 3]) == x[i]
    ensures Words(block) == x
  {
    hide Word;
  }

  lemma AbcLowWord()
    ensures LowWord(3) == 24
  {
    assert 8 * 3 % MASK32 == 24;
  }

  lemma AbcHighWord()
    ensures HighWord(3) == 0
  {
    assert 8 * 3 / MASK32 % MASK32 == 0;
  }

  lemma ShortBytes()
    ensures Bytes(24) == [24, 0, 0, 0] && Bytes(0) == [0, 0, 0, 0]
  {
  }

  lemma AbcLength()
    ensures Bytes(LowWord(3)) == [24, 0, 0, 0] && Bytes(HighWord(3)) == [0, 0, 0, 0] && ZeroCount(3) == 52
  {
    hide LowWord, HighWord, Bytes;
    AbcLowWord();
    AbcHighWord();
    ShortBytes();
  }

  lemma AbcPadding() returns (s: seq<bv8>)
    ensures s == [0x61, 0x62, 0x63] + RfcPadding(3) && |s| == 64
    ensures s[0] == 0x61 && s[1] == 0x62 && s[2] == 0x63 && s[3] == 0x80 && s[56] == 24
    ensures forall i :: 4 <= i < 64 && i != 56 ==> s[i] == 0
  {
    AbcLength();
    var z := Zeros(52);
    assert RfcPadding(3) == [0x80] + z + [24, 0, 0, 0] + [0, 0, 0, 0];
    hide RfcPadding, Zeros, LowWord, HighWord, Bytes;
    s := [0x61, 0x62, 0x63] + RfcPadding(3);
  }

  lemma AbcWordValues()
    ensures Word(0x61, 0x62, 0x63, 0x80) == 0x80636261 && Word(24, 0, 0, 0) == 24 && Word(0, 0, 0, 0) == 0
  {
  }

  lemma AbcWords(s: seq<bv8>)
    requires |s| == 64 && s[0] == 0x61 && s[1] == 0x62 && s[2] == 0x63 && s[3] == 0x80 && s[56] == 24
    requires forall i :: 4 <= i < 64 && i != 56 ==> s[i] == 0
    ensures Words(s) == ABC
  {
    AbcWordValues();
    hide Word, Words;
    assert ABC[0] == 0x80636261 && ABC[14] == 24 && forall i :: 0 < i < 16 && i != 14 ==> ABC[i] == 0;
    WordsAre(s, ABC);
  }

  lemma AbcOutput()
    ensures Output(Regs(0x7a0148a4, 0x52d821af, 0xe80ac15f, 0x9d72a67a)) ==
            [0xa4, 0x48, 0x01, 0x7a, 0xaf, 0x21, 0xd8, 0x52, 0x5f, 0xc1, 0x0a, 0xe8, 0x7a, 0xa6, 0x72, 0x9d]
  {
  }

  /** RFC 1320, section A.5: the digest of "abc". */
  lemma DigestOfAbc()
    ensures Rfc1320([0x61, 0x62, 0x63]) ==
            [0xa4, 0x48, 0x01, 0x7a, 0xaf, 0x21, 0xd8, 0x52, 0x5f, 0xc1, 0x0a, 0xe8, 0x7a, 0xa6, 0x72, 0x9d]
  {
    var s := AbcPadding();
    AbcWords(s);
    hide Blocks, Compress, Words, RfcPadding, Output;
    AbcCompressed();
    OneBlock(INITIAL, s);
    AbcOutput();
  }
}
