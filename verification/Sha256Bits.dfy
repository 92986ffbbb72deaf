/** What the functions of section 4.1.2 of FIPS 180-4 do to single bits. */
module Sha256Bits {
  import opened Fips180

  /** `Ch` takes the bits of `v` where `u` has a 1, and those of `w` elsewhere. */
  lemma ChChooses(u: bv32, v: bv32, w: bv32)
    ensures ChBits(u, v, w) & u == v & u && ChBits(u, v, w) & !u == w & !u
  {
  }

  /** `Maj` is the word that two of the three agree on. */
  lemma MajIsMajority(u: bv32, w: bv32)
    ensures MajBits(u, u, w) == MajBits(u, w, u) == MajBits(w, u, u) == u
  {
  }

  /** Bit by bit, too: where two of the words agree, `Maj` agrees with them. */
  lemma MajAgrees(u: bv32, v: bv32, w: bv32)
    ensures MajBits(u, v, w) & !(u ^ v) == u & !(u ^ v)
  {
  }

  /** The three words count alike. */
  lemma MajIsSymmetric(u: bv32, v: bv32, w: bv32)
    ensures MajBits(u, v, w) == MajBits(v, u, w) == MajBits(u, w, v)
  {
  }

  /** Bit `i` of `u` is 1; bits are counted from the right, and their numbers wrap round at 32, as a rotation does. */
  predicate Bit(u: bv32, i: bv5) {
    (u >> i) & 1 == 1
  }

  /** The exclusive-or of three bits. */
  predicate Odd(x: bool, y: bool, z: bool) {
    (x != y) != z
  }

  lemma BitRotated2(u: bv32, i: bv5)
    ensures Bit(Rotr(u, 2), i) == Bit(u, i + 2)
  {
  }

  lemma BitRotated6(u: bv32, i: bv5)
    ensures Bit(Rotr(u, 6), i) == Bit(u, i + 6)
  {
  }

  lemma BitRotated7(u: bv32, i: bv5)
    ensures Bit(Rotr(u, 7), i) == Bit(u, i + 7)
  {
  }

  lemma BitRotated11(u: bv32, i: bv5)
    ensures Bit(Rotr(u, 11), i) == Bit(u, i + 11)
  {
  }

  lemma BitRotated13(u: bv32, i: bv5)
    ensures Bit(Rotr(u, 13), i) == Bit(u, i + 13)
  {
  }

  lemma BitRotated17(u: bv32, i: bv5)
    ensures Bit(Rotr(u, 17), i) == Bit(u, i + 17)
  {
  }

  lemma BitRotated18(u: bv32, i: bv5)
    ensures Bit(Rotr(u, 18), i) == Bit(u, i + 18)
  {
  }

  lemma BitRotated19(u: bv32, i: bv5)
    ensures Bit(Rotr(u, 19), i) == Bit(u, i + 19)
  {
  }

  lemma BitRotated22(u: bv32, i: bv5)
    ensures Bit(Rotr(u, 22), i) == Bit(u, i + 22)
  {
  }

  lemma BitRotated25(u: bv32, i: bv5)
    ensures Bit(Rotr(u, 25), i) == Bit(u, i + 25)
  {
  }

  lemma BitsShifted(u: bv32, i: bv5)
    ensures Bit(u >> 3, i) == (i < 29 && Bit(u, i + 3))
    ensures Bit(u >> 10, i) == (i < 22 && Bit(u, i + 10))
  {
  }

  lemma BitOfXor(s: bv32, x: bv32, y: bv32, z: bv32, i: bv5)
    requires s == x ^ y ^ z
    ensures Bit(s, i) == Odd(Bit(x, i), Bit(y, i), Bit(z, i))
  {
  }

  /** Bit `i` of `BigSigma0` is the exclusive-or of three bits of its argument. */
  lemma BigSigma0Bit(u: bv32, i: bv5)
    ensures Bit(BigSigma0Bits(u), i) == Odd(Bit(u, i + 2), Bit(u, i + 13), Bit(u, i + 22))
  {
    hide *;
    BitRotated2(u, i);
    BitRotated13(u, i);
    BitRotated22(u, i);
    var x, y, z := BigSigma0Parts(u, i);
    BitOfXor(BigSigma0Bits(u), x, y, z, i);
  }

  lemma BigSigma0Parts(u: bv32, i: bv5) returns (x: bv32, y: bv32, z: bv32)
    ensures x == Rotr(u, 2) && y == Rotr(u, 13) && z == Rotr(u, 22)
    ensures BigSigma0Bits(u) == x ^ y ^ z
  {
    hide Rotr;
    x, y, z := Rotr(u, 2), Rotr(u, 13), Rotr(u, 22);
  }

  /** Bit `i` of `BigSigma1` is the exclusive-or of three bits of its argument. */
  lemma BigSigma1Bit(u: bv32, i: bv5)
    ensures Bit(BigSigma1Bits(u), i) == Odd(Bit(u, i + 6), Bit(u, i + 11), Bit(u, i + 25))
  {
    hide *;
    BitRotated6(u, i);
    BitRotated11(u, i);
    BitRotated25(u, i);
    var x, y, z := BigSigma1Parts(u, i);
    BitOfXor(BigSigma1Bits(u), x, y, z, i);
  }

  lemma BigSigma1Parts(u: bv32, i: bv5) returns (x: bv32, y: bv32, z: bv32)
    ensures x == Rotr(u, 6) && y == Rotr(u, 11) && z == Rotr(u, 25)
    ensures BigSigma1Bits(u) == x ^ y ^ z
  {
    hide Rotr;
    x, y, z := Rotr(u, 6), Rotr(u, 11), Rotr(u, 25);
  }

  /** Bit `i` of `SmallSigma0` is the exclusive-or of three bits of its argument. */
  lemma SmallSigma0Bit(u: bv32, i: bv5)
    ensures Bit(SmallSigma0Bits(u), i) == Odd(Bit(u, i + 7), Bit(u, i + 18), (i < 29 && Bit(u, i + 3)))
  {
    hide *;
    BitRotated7(u, i);
    BitRotated18(u, i);
    var x, y, z := SmallSigma0Parts(u, i);
    BitOfXor(SmallSigma0Bits(u), x, y, z, i);
  }

  lemma SmallSigma0Parts(u: bv32, i: bv5) returns (x: bv32, y: bv32, z: bv32)
    ensures x == Rotr(u, 7) && y == Rotr(u, 18) && Bit(z, i) == (i < 29 && Bit(u, i + 3))
    ensures SmallSigma0Bits(u) == x ^ y ^ z
  {
    hide Rotr, Bit;
    BitsShifted(u, i);
    x, y, z := Rotr(u, 7), Rotr(u, 18), u >> 3;
  }

  /** Bit `i` of `SmallSigma1` is the exclusive-or of three bits of its argument. */
  lemma SmallSigma1Bit(u: bv32, i: bv5)
    ensures Bit(SmallSigma1Bits(u), i) == Odd(Bit(u, i + 17), Bit(u, i + 19), (i < 22 && Bit(u, i + 10)))
  {
    hide *;
    BitRotated17(u, i);
    BitRotated19(u, i);
    var x, y, z := SmallSigma1Parts(u, i);
    BitOfXor(SmallSigma1Bits(u), x, y, z, i);
  }

  lemma SmallSigma1Parts(u: bv32, i: bv5) returns (x: bv32, y: bv32, z: bv32)
    ensures x == Rotr(u, 17) && y == Rotr(u, 19) && Bit(z, i) == (i < 22 && Bit(u, i + 10))
    ensures SmallSigma1Bits(u) == x ^ y ^ z
  {
    hide Rotr, Bit;
    BitsShifted(u, i);
    x, y, z := Rotr(u, 17), Rotr(u, 19), u >> 10;
  }

  lemma BitsOfWord(u: bv32)
    ensures (u as nat) as bv32 == u
  {
  }

  /** The functions on words are those on their bits. */
  lemma OnWords(x: Word, y: Word, z: Word)
    ensures Ch(x, y, z) as bv32 == ChBits(x as bv32, y as bv32, z as bv32)
    ensures Maj(x, y, z) as bv32 == MajBits(x as bv32, y as bv32, z as bv32)
    ensures BigSigma0(x) as bv32 == BigSigma0Bits(x as bv32) && BigSigma1(x) as bv32 == BigSigma1Bits(x as bv32)
    ensures SmallSigma0(x) as bv32 == SmallSigma0Bits(x as bv32) && SmallSigma1(x) as bv32 == SmallSigma1Bits(x as bv32)
  {
    hide ChBits, MajBits, BigSigma0Bits, BigSigma1Bits, SmallSigma0Bits, SmallSigma1Bits;
    BitsOfWord(ChBits(x as bv32, y as bv32, z as bv32));
    BitsOfWord(MajBits(x as bv32, y as bv32, z as bv32));
    BitsOfWord(BigSigma0Bits(x as bv32));
    BitsOfWord(BigSigma1Bits(x as bv32));
    BitsOfWord(SmallSigma0Bits(x as bv32));
    BitsOfWord(SmallSigma1Bits(x as bv32));
  }
}
