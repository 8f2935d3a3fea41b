/** What the functions of section 4.1.2 of FIPS 180-4 do to single bits. */
module Sha256Bits {
  import opened Sha256

  /** The bit of a word at an index, which is taken modulo 32. */
  predicate Bit(x: Word, i: bv5) { (x >> i) & 1 == 1 }

  function Or(x: Word, y: Word): Word { x | y }

  function Low(x: Word, i: bv5): (b: Word)
    ensures b == 0 || b == 1
  {
    (x >> i) & 1
  }

  lemma XorLow(x: Word, y: Word, i: bv5)
    ensures Low(Xor(x, y), i) == Low(x, i) ^ Low(y, i)
  {
    assert ((x ^ y) >> i) & 1 == ((x >> i) & 1) ^ ((y >> i) & 1);
  }

  lemma BitIsLow(x: Word, i: bv5)
    ensures Bit(x, i) <==> Low(x, i) == 1
  {
  }

  lemma XorBit(x: Word, y: Word, i: bv5)
    ensures Bit(Xor(x, y), i) <==> Bit(x, i) != Bit(y, i)
  {
    hide *;
    XorLow(x, y, i);
    BitIsLow(x, i);
    BitIsLow(y, i);
    BitIsLow(Xor(x, y), i);
  }

  lemma OrBit(x: Word, y: Word, i: bv5)
    ensures Bit(Or(x, y), i) <==> Bit(x, i) || Bit(y, i)
  {
    assert ((x | y) >> i) & 1 == ((x >> i) & 1) | ((y >> i) & 1);
  }

  lemma AllOnes(i: bv5)
    ensures Bit(0xFFFF_FFFF, i)
  {
  }

  lemma NotIs(x: Word)
    ensures Not(x) == Xor(x, 0xFFFF_FFFF)
  {
  }

  lemma AndIs(x: Word, y: Word)
    ensures And(x, y) == Xor(Xor(x, y), Or(x, y))
  {
  }

  lemma NotBit(x: Word, i: bv5)
    ensures Bit(Not(x), i) <==> !Bit(x, i)
  {
    hide *;
    NotIs(x);
    AllOnes(i);
    XorBit(x, 0xFFFF_FFFF, i);
  }

  lemma AndBit(x: Word, y: Word, i: bv5)
    ensures Bit(And(x, y), i) <==> Bit(x, i) && Bit(y, i)
  {
    hide *;
    AndIs(x, y);
    OrBit(x, y, i);
    XorBit(x, y, i);
    XorBit(Xor(x, y), Or(x, y), i);
  }

  lemma Xor3Bit(x: Word, y: Word, z: Word, i: bv5)
    ensures Bit(Xor(Xor(x, y), z), i) <==> (Bit(x, i) != Bit(y, i)) != Bit(z, i)
  {
    hide *;
    XorBit(x, y, i);
    XorBit(Xor(x, y), z, i);
  }

  /** Choice: where the first word has a one the second decides, elsewhere the third. */
  lemma ChBit(x: Word, y: Word, z: Word, i: bv5)
    ensures Bit(Ch(x, y, z), i) <==> if Bit(x, i) then Bit(y, i) else Bit(z, i)
  {
    hide Bit, And, Xor, Not, Rotr, Shr;
    NotBit(x, i);
    AndBit(x, y, i);
    AndBit(Not(x), z, i);
    XorBit(And(x, y), And(Not(x), z), i);
  }

  /** Majority: two of three decide. */
  lemma MajBit(x: Word, y: Word, z: Word, i: bv5)
    ensures Bit(Maj(x, y, z), i) <==>
            (Bit(x, i) && Bit(y, i)) || (Bit(x, i) && Bit(z, i)) || (Bit(y, i) && Bit(z, i))
  {
    hide Bit, And, Xor, Not, Rotr, Shr;
    AndBit(x, y, i);
    AndBit(x, z, i);
    AndBit(y, z, i);
    Xor3Bit(And(x, y), And(x, z), And(y, z), i);
  }

  // ------------------------------------------------------------------ rotation

  lemma Rotr2(x: Word, i: bv5)
    ensures Bit(Rotr(x, 2), i) == Bit(x, i + 2)
  {
    assert Rotr(x, 2) == (x >> 2) | (x << 30);
  }

  lemma Rotr6(x: Word, i: bv5)
    ensures Bit(Rotr(x, 6), i) == Bit(x, i + 6)
  {
    assert Rotr(x, 6) == (x >> 6) | (x << 26);
  }

  lemma Rotr7(x: Word, i: bv5)
    ensures Bit(Rotr(x, 7), i) == Bit(x, i + 7)
  {
    assert Rotr(x, 7) == (x >> 7) | (x << 25);
  }

  lemma Rotr11(x: Word, i: bv5)
    ensures Bit(Rotr(x, 11), i) == Bit(x, i + 11)
  {
    assert Rotr(x, 11) == (x >> 11) | (x << 21);
  }

  lemma Rotr13(x: Word, i: bv5)
    ensures Bit(Rotr(x, 13), i) == Bit(x, i + 13)
  {
    assert Rotr(x, 13) == (x >> 13) | (x << 19);
  }

  lemma Rotr17(x: Word, i: bv5)
    ensures Bit(Rotr(x, 17), i) == Bit(x, i + 17)
  {
    assert Rotr(x, 17) == (x >> 17) | (x << 15);
  }

  lemma Rotr18(x: Word, i: bv5)
    ensures Bit(Rotr(x, 18), i) == Bit(x, i + 18)
  {
    assert Rotr(x, 18) == (x >> 18) | (x << 14);
  }

  lemma Rotr19(x: Word, i: bv5)
    ensures Bit(Rotr(x, 19), i) == Bit(x, i + 19)
  {
    assert Rotr(x, 19) == (x >> 19) | (x << 13);
  }

  lemma Rotr22(x: Word, i: bv5)
    ensures Bit(Rotr(x, 22), i) == Bit(x, i + 22)
  {
    assert Rotr(x, 22) == (x >> 22) | (x << 10);
  }

  lemma Rotr25(x: Word, i: bv5)
    ensures Bit(Rotr(x, 25), i) == Bit(x, i + 25)
  {
    assert Rotr(x, 25) == (x >> 25) | (x << 7);
  }

  lemma Shift3(x: Word, i: bv5)
    ensures Bit(Shr(x, 3), i) <==> i < 29 && Bit(x, i + 3)
  {
  }

  lemma Shift10(x: Word, i: bv5)
    ensures Bit(Shr(x, 10), i) <==> i < 22 && Bit(x, i + 10)
  {
  }

  lemma BigSigma0Bit(x: Word, i: bv5)
    ensures Bit(BigSigma0(x), i) <==> (Bit(x, i + 2) != Bit(x, i + 13)) != Bit(x, i + 22)
  {
    hide Bit, And, Xor, Not, Rotr, Shr;
    Rotr2(x, i);
    Rotr13(x, i);
    Rotr22(x, i);
    Xor3Bit(Rotr(x, 2), Rotr(x, 13), Rotr(x, 22), i);
  }

  lemma BigSigma1Bit(x: Word, i: bv5)
    ensures Bit(BigSigma1(x), i) <==> (Bit(x, i + 6) != Bit(x, i + 11)) != Bit(x, i + 25)
  {
    hide Bit, And, Xor, Not, Rotr, Shr;
    Rotr6(x, i);
    Rotr11(x, i);
    Rotr25(x, i);
    Xor3Bit(Rotr(x, 6), Rotr(x, 11), Rotr(x, 25), i);
  }

  lemma SmallSigma0Bit(x: Word, i: bv5)
    ensures Bit(SmallSigma0(x), i) <==> (Bit(x, i + 7) != Bit(x, i + 18)) != (i < 29 && Bit(x, i + 3))
  {
    hide Bit, And, Xor, Not, Rotr, Shr;
    Rotr7(x, i);
    Rotr18(x, i);
    Shift3(x, i);
    Xor3Bit(Rotr(x, 7), Rotr(x, 18), Shr(x, 3), i);
  }

  lemma SmallSigma1Bit(x: Word, i: bv5)
    ensures Bit(SmallSigma1(x), i) <==> (Bit(x, i + 17) != Bit(x, i + 19)) != (i < 22 && Bit(x, i + 10))
  {
    hide Bit, And, Xor, Not, Rotr, Shr;
    Rotr17(x, i);
    Rotr19(x, i);
    Shift10(x, i);
    Xor3Bit(Rotr(x, 17), Rotr(x, 19), Shr(x, 10), i);
  }
}
