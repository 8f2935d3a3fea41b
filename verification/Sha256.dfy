/**
  SHA-256 as FIPS 180-4 defines it: rotation of section 3.2, the six functions of section 4.1.2, constants of
  section 4.2.2, padding of section 5.1.1 and the computation of section 6.2.2.
*/
module Sha256 {
  type Byte = b: int | 0 <= b < 256
  type Word = bv32

  const WORDS: nat := 0x1_0000_0000_0000_0000

  const K: seq<Word> :=
      [0x428A2F98, 0x71374491, 0xB5C0FBCF, 0xE9B5DBA5, 0x3956C25B, 0x59F111F1, 0x923F82A4, 0xAB1C5ED5]
    + [0xD807AA98, 0x12835B01, 0x243185BE, 0x550C7DC3, 0x72BE5D74, 0x80DEB1FE, 0x9BDC06A7, 0xC19BF174]
    + [0xE49B69C1, 0xEFBE4786, 0x0FC19DC6, 0x240CA1CC, 0x2DE92C6F, 0x4A7484AA, 0x5CB0A9DC, 0x76F988DA]
    + [0x983E5152, 0xA831C66D, 0xB00327C8, 0xBF597FC7, 0xC6E00BF3, 0xD5A79147, 0x06CA6351, 0x14292967]
    + [0x27B70A85, 0x2E1B2138, 0x4D2C6DFC, 0x53380D13, 0x650A7354, 0x766A0ABB, 0x81C2C92E, 0x92722C85]
    + [0xA2BFE8A1, 0xA81A664B, 0xC24B8B70, 0xC76C51A3, 0xD192E819, 0xD6990624, 0xF40E3585, 0x106AA070]
    + [0x19A4C116, 0x1E376C08, 0x2748774C, 0x34B0BCB5, 0x391C0CB3, 0x4ED8AA4A, 0x5B9CCA4F, 0x682E6FF3]
    + [0x748F82EE, 0x78A5636F, 0x84C87814, 0x8CC70208, 0x90BEFFFA, 0xA4506CEB, 0xBEF9A3F7, 0xC67178F2]

  datatype Regs = Regs(a: Word, b: Word, c: Word, d: Word, e: Word, f: Word, g: Word, h: Word)

  const INITIAL := Regs(0x6A09E667, 0xBB67AE85, 0x3C6EF372, 0xA54FF53A,
                        0x510E527F, 0x9B05688C, 0x1F83D9AB, 0x5BE0CD19)

  // ------------------------------------------------- the standard's functions

  function Plus(x: Word, y: Word): Word { x + y }

  function Plus4(w: Word, x: Word, y: Word, z: Word): Word { w + x + y + z }

  function Plus5(v: Word, w: Word, x: Word, y: Word, z: Word): Word { v + w + x + y + z }

  function And(x: Word, y: Word): Word { x & y }

  function Xor(x: Word, y: Word): Word { x ^ y }

  function Not(x: Word): Word { !x }

  function Shr(x: Word, n: nat): Word
    requires n < 32
  {
    x >> n
  }

  function Rotr(x: Word, n: nat): Word
    requires 0 < n < 32
  {
    (x >> n) | (x << (32 - n))
  }

  function Ch(x: Word, y: Word, z: Word): Word { Xor(And(x, y), And(Not(x), z)) }

  function Maj(x: Word, y: Word, z: Word): Word { Xor(Xor(And(x, y), And(x, z)), And(y, z)) }

  function BigSigma0(x: Word): Word { Xor(Xor(Rotr(x, 2), Rotr(x, 13)), Rotr(x, 22)) }

  function BigSigma1(x: Word): Word { Xor(Xor(Rotr(x, 6), Rotr(x, 11)), Rotr(x, 25)) }

  function SmallSigma0(x: Word): Word { Xor(Xor(Rotr(x, 7), Rotr(x, 18)), Shr(x, 3)) }

  function SmallSigma1(x: Word): Word { Xor(Xor(Rotr(x, 17), Rotr(x, 19)), Shr(x, 10)) }

  function BigEndian(b: seq<Byte>, i: nat): Word
    requires i + 4 <= |b|
  {
    (b[i] as Word << 24) | (b[i + 1] as Word << 16) | (b[i + 2] as Word << 8) | b[i + 3] as Word
  }

  function WordBytes(w: Word): (b: seq<Byte>)
    ensures |b| == 4
  {
    [((w >> 24) & 0xFF) as int, ((w >> 16) & 0xFF) as int, ((w >> 8) & 0xFF) as int, (w & 0xFF) as int]
  }

  /** The message schedule. */
  function W(block: seq<Byte>, t: nat): Word
    requires |block| == 64 && t < 64
  {
    if t < 16 then BigEndian(block, 4 * t)
    else Plus4(SmallSigma1(W(block, t - 2)), W(block, t - 7), SmallSigma0(W(block, t - 15)), W(block, t - 16))
  }

  function Round(r: Regs, k: Word, w: Word): Regs {
    var t1 := Plus5(r.h, BigSigma1(r.e), Ch(r.e, r.f, r.g), k, w);
    var t2 := Plus(BigSigma0(r.a), Maj(r.a, r.b, r.c));
    Regs(Plus(t1, t2), r.a, r.b, r.c, Plus(r.d, t1), r.e, r.f, r.g)
  }

  function Rounds(r: Regs, block: seq<Byte>, t: nat): Regs
    requires |block| == 64 && t <= 64
  {
    if t == 0 then r else Round(Rounds(r, block, t - 1), K[t - 1], W(block, t - 1))
  }

  function Add(r: Regs, s: Regs): Regs {
    Regs(Plus(r.a, s.a), Plus(r.b, s.b), Plus(r.c, s.c), Plus(r.d, s.d),
         Plus(r.e, s.e), Plus(r.f, s.f), Plus(r.g, s.g), Plus(r.h, s.h))
  }

  function Compress(r: Regs, block: seq<Byte>): Regs
    requires |block| == 64
  {
    Add(r, Rounds(r, block, 64))
  }

  /** The compression function folded over whole blocks, from the initial hash value. */
  function Fold(blocks: seq<Byte>): Regs
    requires |blocks| % 64 == 0
    decreases |blocks|
  {
    if blocks == [] then INITIAL else Compress(Fold(blocks[..|blocks| - 64]), blocks[|blocks| - 64..])
  }

  function Zeros(n: nat): seq<Byte> { seq(n, _ => 0) }

  /** The low n bytes of a number, most significant first. */
  function BytesOf(v: nat, n: nat): (b: seq<Byte>)
    ensures |b| == n
  {
    if n == 0 then [] else BytesOf(v / 256, n - 1) + [v % 256]
  }

  /** The length of a message of n bytes, in bits, as a 64-bit field. */
  function LengthField(n: nat): (b: seq<Byte>)
    ensures |b| == 8
  {
    BytesOf(8 * n, 8)
  }

  /** A message of n bytes, the mark, k zeros and the length field make whole blocks. */
  predicate WholeBlocks(n: nat, k: nat) { (n + 1 + k + 8) % 64 == 0 }

  /** How many zeros padding needs: the least number that leaves room for the length in a whole block. */
  function PadZeros(n: nat): (k: nat)
    ensures k < 64 && WholeBlocks(n, k)
    ensures forall j | 0 <= j < k :: !WholeBlocks(n, j)
  {
    (119 - n % 64) % 64
  }

  function Padded(m: seq<Byte>): (p: seq<Byte>)
    ensures |p| % 64 == 0 && m <= p
  {
    m + [0x80] + Zeros(PadZeros(|m|)) + LengthField(|m|)
  }

  function Words(r: Regs): (ws: seq<Word>)
    ensures |ws| == 8
  {
    [r.a, r.b, r.c, r.d, r.e, r.f, r.g, r.h]
  }

  function WordsBytes(ws: seq<Word>): (b: seq<Byte>)
    ensures |b| == 4 * |ws|
  {
    if ws == [] then [] else WordsBytes(ws[..|ws| - 1]) + WordBytes(ws[|ws| - 1])
  }

  function Digest(m: seq<Byte>): (b: seq<Byte>)
    ensures |b| == 32
  {
    WordsBytes(Words(Fold(Padded(m))))
  }

  /** The number that bytes spell, most significant first. */
  function Number(b: seq<Byte>): nat {
    if b == [] then 0 else Number(b[..|b| - 1]) * 256 + b[|b| - 1]
  }

  function Power(n: nat): nat { if n == 0 then 1 else 256 * Power(n - 1) }

  lemma {:induction false} NumberOfBytes(v: nat, n: nat)
    requires v < Power(n)
    ensures Number(BytesOf(v, n)) == v
  {
    if n > 0 {
      NumberOfBytes(v / 256, n - 1);
      assert BytesOf(v, n)[..n - 1] == BytesOf(v / 256, n - 1);
    }
  }

  lemma LengthKept(bits: nat)
    requires bits < WORDS
    ensures Number(BytesOf(bits, 8)) == bits
  {
    assert Power(2) == 0x1_0000 && Power(4) == 0x1_0000_0000 && Power(6) == 0x1_0000_0000_0000;
    NumberOfBytes(bits, 8);
  }

  /** What padding ends in spells the number of bits of any message that the standard admits. */
  lemma PaddingEndsInLength(m: seq<Byte>)
    requires |m| < WORDS / 8
    ensures var p := Padded(m); |p| >= 8 && Number(p[|p| - 8..]) == 8 * |m|
  {
    LengthKept(8 * |m|);
    var front := m + [0x80] + Zeros(PadZeros(|m|));
    assert Padded(m) == front + LengthField(|m|);
    hide Number, BytesOf, PadZeros, Padded, Zeros;
    assert (front + LengthField(|m|))[|front|..] == LengthField(|m|);
  }

  lemma EightBytes(bits: nat)
    ensures BytesOf(bits, 8) ==
            [bits / 0x100_0000_0000_0000 % 256, bits / 0x1_0000_0000_0000 % 256,
             bits / 0x100_0000_0000 % 256, bits / 0x1_0000_0000 % 256,
             bits / 0x100_0000 % 256, bits / 0x1_0000 % 256, bits / 0x100 % 256, bits % 256]
  {
    hide BytesOf;
    var b1 := bits / 0x100;
    var b2 := b1 / 256;
    var b3 := b2 / 256;
    var b4 := b3 / 256;
    var b5 := b4 / 256;
    var b6 := b5 / 256;
    var b7 := b6 / 256;
    assert b2 == bits / 0x1_0000 && b3 == bits / 0x100_0000 && b4 == bits / 0x1_0000_0000;
    assert b5 == b4 / 0x100 == bits / 0x100_0000_0000;
    assert b6 == bits / 0x1_0000_0000_0000;
    assert b7 == bits / 0x100_0000_0000_0000;
    LastByte(b7, 0); LastByte(b6, 1); LastByte(b5, 2); LastByte(b4, 3);
    LastByte(b3, 4); LastByte(b2, 5); LastByte(b1, 6); LastByte(bits, 7);
    NoBytes(b7 / 256);
  }

  lemma NoBytes(v: nat)
    ensures BytesOf(v, 0) == []
  {
  }

  lemma LastByte(v: nat, n: nat)
    ensures BytesOf(v, n + 1) == BytesOf(v / 256, n) + [v % 256]
  {
  }

  lemma FoldSplits(a: seq<Byte>, b: seq<Byte>)
    requires |a| % 64 == 0 && |b| == 64
    ensures Fold(a + b) == Compress(Fold(a), b)
  {
    assert (a + b)[..|a + b| - 64] == a && (a + b)[|a + b| - 64..] == b;
  }

  // ------------------------------------------------------------- hexadecimal

  predicate IsHexDigit(ch: char) { '0' <= ch <= '9' || 'a' <= ch <= 'f' }

  function HexDigit(v: nat): (ch: char)
    requires v < 16
    ensures IsHexDigit(ch)
  {
    if v < 10 then '0' + v as char else 'a' + (v - 10) as char
  }

  function Hex(bytes: seq<Byte>): (h: string)
    ensures |h| == 2 * |bytes| && forall i | 0 <= i < |h| :: IsHexDigit(h[i])
  {
    if bytes == [] then ""
    else
      var last := bytes[|bytes| - 1];
      Hex(bytes[..|bytes| - 1]) + [HexDigit(last / 16), HexDigit(last % 16)]
  }
}
