/** What the functions of SHA-256 do to single bits. */
module Sha256Bits {
  import opened Sha256Spec

  /** The places of the bits of a word; they are added modulo 32. */
  type Place = bv5

  /** The bit of weight 2^i. */
  predicate Bit(x: Word, i: Place) {
    (x >> i) & 1 == 1
  }

  function Parity(a: bool, b: bool, c: bool): bool {
    (a != b) != c
  }

  function Xor3(x: Word, y: Word, z: Word): Word {
    x ^ y ^ z
  }

  function Rotated(x: Word, k: bv6): Word
    requires k <= 32
  {
    (x >> k) | (x << (32 - k))
  }

  function Shifted(x: Word, k: bv6): Word
    requires k <= 32
  {
    x >> k
  }

  lemma Xor3Is(x: Word, y: Word, z: Word)
    ensures Xor3(x, y, z) == x ^ y ^ z
  {
  }

  lemma BitOfXor(x: Word, y: Word, z: Word, i: Place)
    ensures Bit(x ^ y ^ z, i) == Parity(Bit(x, i), Bit(y, i), Bit(z, i))
  {
  }

  lemma BitOfXor3(x: Word, y: Word, z: Word, i: Place)
    ensures Bit(Xor3(x, y, z), i) == Parity(Bit(x, i), Bit(y, i), Bit(z, i))
  {
    hide Bit, Xor3;
    Xor3Is(x, y, z);
    BitOfXor(x, y, z, i);
  }

  lemma Rotated2(x: Word, i: Place)
    ensures x.RotateRight(2) == Rotated(x, 2)
    ensures Bit(Rotated(x, 2), i) == Bit(x, i + 2)
  {
  }

  lemma Rotated13(x: Word, i: Place)
    ensures x.RotateRight(13) == Rotated(x, 13)
    ensures Bit(Rotated(x, 13), i) == Bit(x, i + 13)
  {
  }

  lemma Rotated22(x: Word, i: Place)
    ensures x.RotateRight(22) == Rotated(x, 22)
    ensures Bit(Rotated(x, 22), i) == Bit(x, i + 22)
  {
  }

  lemma Rotated6(x: Word, i: Place)
    ensures x.RotateRight(6) == Rotated(x, 6)
    ensures Bit(Rotated(x, 6), i) == Bit(x, i + 6)
  {
  }

  lemma Rotated11(x: Word, i: Place)
    ensures x.RotateRight(11) == Rotated(x, 11)
    ensures Bit(Rotated(x, 11), i) == Bit(x, i + 11)
  {
  }

  lemma Rotated25(x: Word, i: Place)
    ensures x.RotateRight(25) == Rotated(x, 25)
    ensures Bit(Rotated(x, 25), i) == Bit(x, i + 25)
  {
  }

  lemma Rotated7(x: Word, i: Place)
    ensures x.RotateRight(7) == Rotated(x, 7)
    ensures Bit(Rotated(x, 7), i) == Bit(x, i + 7)
  {
  }

  lemma Rotated18(x: Word, i: Place)
    ensures x.RotateRight(18) == Rotated(x, 18)
    ensures Bit(Rotated(x, 18), i) == Bit(x, i + 18)
  {
  }

  lemma Shifted3(x: Word, i: Place)
    ensures x >> 3 == Shifted(x, 3)
    ensures Bit(Shifted(x, 3), i) == (i < 29 && Bit(x, i + 3))
  {
  }

  lemma Rotated17(x: Word, i: Place)
    ensures x.RotateRight(17) == Rotated(x, 17)
    ensures Bit(Rotated(x, 17), i) == Bit(x, i + 17)
  {
  }

  lemma Rotated19(x: Word, i: Place)
    ensures x.RotateRight(19) == Rotated(x, 19)
    ensures Bit(Rotated(x, 19), i) == Bit(x, i + 19)
  {
  }

  lemma Shifted10(x: Word, i: Place)
    ensures x >> 10 == Shifted(x, 10)
    ensures Bit(Shifted(x, 10), i) == (i < 22 && Bit(x, i + 10))
  {
  }

  lemma BigSigma0Parts(x: Word)
    ensures BigSigma0(x) == Xor3(x.RotateRight(2), x.RotateRight(13), x.RotateRight(22))
  {
  }

  lemma BigSigma0Bits(x: Word, i: Place)
    ensures Bit(BigSigma0(x), i) == Parity(Bit(x, i + 2), Bit(x, i + 13), Bit(x, i + 22))
  {
    hide Bit, Xor3, Rotated, Shifted, BigSigma0;
    BigSigma0Parts(x);
    Rotated2(x, i);
    Rotated13(x, i);
    Rotated22(x, i);
    BitOfXor3(Rotated(x, 2), Rotated(x, 13), Rotated(x, 22), i);
  }

  lemma BigSigma1Parts(x: Word)
    ensures BigSigma1(x) == Xor3(x.RotateRight(6), x.RotateRight(11), x.RotateRight(25))
  {
  }

  lemma BigSigma1Bits(x: Word, i: Place)
    ensures Bit(BigSigma1(x), i) == Parity(Bit(x, i + 6), Bit(x, i + 11), Bit(x, i + 25))
  {
    hide Bit, Xor3, Rotated, Shifted, BigSigma1;
    BigSigma1Parts(x);
    Rotated6(x, i);
    Rotated11(x, i);
    Rotated25(x, i);
    BitOfXor3(Rotated(x, 6), Rotated(x, 11), Rotated(x, 25), i);
  }

  lemma SmallSigma0Parts(x: Word)
    ensures SmallSigma0(x) == Xor3(x.RotateRight(7), x.RotateRight(18), x >> 3)
  {
  }

  lemma SmallSigma0Bits(x: Word, i: Place)
    ensures Bit(SmallSigma0(x), i) == Parity(Bit(x, i + 7), Bit(x, i + 18), i < 29 && Bit(x, i + 3))
  {
    hide Bit, Xor3, Rotated, Shifted, SmallSigma0;
    SmallSigma0Parts(x);
    Rotated7(x, i);
    Rotated18(x, i);
    Shifted3(x, i);
    BitOfXor3(Rotated(x, 7), Rotated(x, 18), Shifted(x, 3), i);
  }

  lemma SmallSigma1Parts(x: Word)
    ensures SmallSigma1(x) == Xor3(x.RotateRight(17), x.RotateRight(19), x >> 10)
  {
  }

  lemma SmallSigma1Bits(x: Word, i: Place)
    ensures Bit(SmallSigma1(x), i) == Parity(Bit(x, i + 17), Bit(x, i + 19), i < 22 && Bit(x, i + 10))
  {
    hide Bit, Xor3, Rotated, Shifted, SmallSigma1;
    SmallSigma1Parts(x);
    Rotated17(x, i);
    Rotated19(x, i);
    Shifted10(x, i);
    BitOfXor3(Rotated(x, 17), Rotated(x, 19), Shifted(x, 10), i);
  }

  // ---- Choice and majority ----

  function Both(x: Word, y: Word): Word {
    x & y
  }

  function Neither(x: Word): Word {
    !x
  }

  function Xor2(x: Word, y: Word): Word {
    x ^ y
  }

  lemma BitwiseIs(x: Word, y: Word)
    ensures Both(x, y) == x & y
    ensures Neither(x) == !x
    ensures Xor2(x, y) == x ^ y
  {
  }

  lemma BitOfAnd(x: Word, y: Word, i: Place)
    ensures Bit(x & y, i) == (Bit(x, i) && Bit(y, i))
  {
  }

  lemma BitOfNot(x: Word, i: Place)
    ensures Bit(!x, i) == !Bit(x, i)
  {
  }

  lemma BitOfXor2(x: Word, y: Word, i: Place)
    ensures Bit(x ^ y, i) == (Bit(x, i) != Bit(y, i))
  {
  }

  lemma BitwiseBits(x: Word, y: Word, i: Place)
    ensures Bit(Both(x, y), i) == (Bit(x, i) && Bit(y, i))
    ensures Bit(Neither(x), i) == !Bit(x, i)
    ensures Bit(Xor2(x, y), i) == (Bit(x, i) != Bit(y, i))
  {
    hide Bit, Both, Neither, Xor2;
    BitwiseIs(x, y);
    BitOfAnd(x, y, i);
    BitOfNot(x, i);
    BitOfXor2(x, y, i);
  }

  lemma ChoiceParts(x: Word, y: Word, z: Word)
    ensures Ch(x, y, z) == Xor2(x & y, !x & z)
  {
  }

  lemma ChoiceParts2(x: Word, y: Word, z: Word)
    ensures Ch(x, y, z) == Xor2(Both(x, y), Both(Neither(x), z))
  {
    hide Both, Neither, Xor2, Ch;
    ChoiceParts(x, y, z);
    BitwiseIs(x, y);
    BitwiseIs(Neither(x), z);
  }

  /** `Ch` chooses between the other two words, bit by bit. */
  lemma ChoiceBits(x: Word, y: Word, z: Word, i: Place)
    ensures Bit(Ch(x, y, z), i) == if Bit(x, i) then Bit(y, i) else Bit(z, i)
  {
    hide Bit, Both, Neither, Xor2, Ch;
    ChoiceParts2(x, y, z);
    BitwiseBits(x, y, i);
    BitwiseBits(Neither(x), z, i);
    BitwiseBits(Both(x, y), Both(Neither(x), z), i);
  }

  lemma MajorityParts(x: Word, y: Word, z: Word)
    ensures Maj(x, y, z) == Xor3(x & y, x & z, y & z)
  {
  }

  /** `Maj` takes the majority. */
  lemma MajorityBits(x: Word, y: Word, z: Word, i: Place)
    ensures Bit(Maj(x, y, z), i)
        <==> (Bit(x, i) && Bit(y, i)) || (Bit(x, i) && Bit(z, i)) || (Bit(y, i) && Bit(z, i))
  {
    hide Bit, Both, Xor3, Maj;
    MajorityParts(x, y, z);
    BitwiseIs(x, y);
    BitwiseIs(x, z);
    BitwiseIs(y, z);
    BitwiseBits(x, y, i);
    BitwiseBits(x, z, i);
    BitwiseBits(y, z, i);
    BitOfXor3(Both(x, y), Both(x, z), Both(y, z), i);
  }
}
