/** The streaming hash of the installer: a context fed a message in pieces, then finalised. */
module HashContext {
  import opened Sha256

  lemma AnyOrder(w: Word, x: Word, y: Word, z: Word)
    ensures Plus4(w, x, y, z) == Plus4(z, y, x, w)
  {
  }

  /** The first n words of a schedule are in place. */
  ghost predicate Scheduled(m: seq<Word>, block: seq<Byte>, n: nat)
    requires |m| == |block| == 64
  {
    n <= 64 && forall t | 0 <= t < n :: m[t] == W(block, t)
  }

  lemma ScheduleStart(m: seq<Word>, block: seq<Byte>)
    requires |m| == |block| == 64
    ensures Scheduled(m, block, 0)
  {
  }

  lemma FirstWord(m: seq<Word>, block: seq<Byte>, t: nat, w: Word)
    requires |m| == |block| == 64 && t < 16 && Scheduled(m, block, t) && w == BigEndian(block, 4 * t)
    ensures Scheduled(m[t := w], block, t + 1)
  {
    hide BigEndian;
  }

  /** The schedule word from the sixteen before it, summed in the program's order. */
  lemma NextWord(m: seq<Word>, block: seq<Byte>, t: nat, w: Word)
    requires |m| == |block| == 64 && 16 <= t < 64 && Scheduled(m, block, t)
    requires w == Plus4(m[t - 16], SmallSigma0(m[t - 15]), m[t - 7], SmallSigma1(m[t - 2]))
    ensures Scheduled(m[t := w], block, t + 1)
  {
    hide SmallSigma0, SmallSigma1, Plus4;
    assert W(block, t) == w by {
      AnyOrder(m[t - 16], SmallSigma0(m[t - 15]), m[t - 7], SmallSigma1(m[t - 2]));
    }
    hide W;
  }

  /** How many of n bytes lie in whole blocks. */
  function Whole(n: nat): (w: nat)
    ensures w <= n < w + 64 && w % 64 == 0 && n - w == n % 64
  {
    n - n % 64
  }

  lemma WholeNext(n: nat)
    ensures Whole(n + 1) == if n % 64 == 63 then n + 1 else Whole(n)
    ensures (n + 1) % 64 == if n % 64 == 63 then 0 else n % 64 + 1
  {
  }

  /** Registers, buffered bytes and bit counter stand for the message m so far. */
  ghost predicate Represents(r: Regs, buffered: seq<Byte>, bits: nat, m: seq<Byte>) {
    var w := Whole(|m|);
    r == Fold(m[..w]) && buffered == m[w..] && bits == 8 * w % WORDS
  }

  lemma MoreBits(n: nat)
    ensures (n % WORDS + 512) % WORDS == (n + 512) % WORDS
  {
  }

  /** One more byte into a buffer that stays short of a block. */
  lemma Buffered(r: Regs, buffered: seq<Byte>, bits: nat, m: seq<Byte>, b: Byte)
    requires Represents(r, buffered, bits, m) && |buffered| < 63
    ensures Represents(r, buffered + [b], bits, m + [b])
  {
    var w := Whole(|m|);
    WholeNext(|m|);
    assert |buffered| == |m| - w;
    hide Fold, Whole, WORDS;
    AppendedParts(m, b, w);
  }

  /** One more byte that fills the block. */
  lemma Filled(r: Regs, buffered: seq<Byte>, bits: nat, m: seq<Byte>, b: Byte)
    requires Represents(r, buffered, bits, m) && |buffered| == 63
    ensures Represents(Compress(r, buffered + [b]), [], (bits + 512) % WORDS, m + [b])
  {
    var w := Whole(|m|);
    WholeNext(|m|);
    assert |buffered| == |m| - w;
    hide Fold, Whole, Compress, WORDS;
    AppendedParts(m, b, w);
    FoldSplits(m[..w], buffered + [b]);
    assert |m + [b]| == w + 64 && 8 * (w + 64) == 8 * w + 512;
    MoreBits(8 * w);
  }

  lemma AppendedParts(m: seq<Byte>, b: Byte, w: nat)
    requires w <= |m|
    ensures m[..w] + (m[w..] + [b]) == m + [b]
    ensures (m + [b])[..|m| + 1] == m + [b] && (m + [b])[|m| + 1..] == []
    ensures (m + [b])[..w] == m[..w] && (m + [b])[w..] == m[w..] + [b]
  {
  }

  lemma FewBuffered(r: Regs, buffered: seq<Byte>, bits: nat, m: seq<Byte>)
    requires Represents(r, buffered, bits, m)
    ensures |buffered| == |m| % 64
  {
    hide Fold;
  }

  lemma NoWords(ws: seq<Word>)
    ensures WordsBytes(ws[..0]) == []
  {
  }

  lemma CutPadding<T>(m: seq<T>, w: nat, mark: seq<T>, zeros: seq<T>, len: seq<T>)
    requires w <= |m|
    ensures m + mark + zeros + len == m[..w] + (m[w..] + mark + zeros + len)
  {
    assert m == m[..w] + m[w..];
  }

  lemma CutPaddingTwice<T>(m: seq<T>, w: nat, mark: seq<T>, zeros: seq<T>, more: seq<T>, len: seq<T>)
    requires w <= |m|
    ensures m + mark + (zeros + more) + len == (m[..w] + (m[w..] + mark + zeros)) + (more + len)
  {
    assert m == m[..w] + m[w..];
  }

  /** All but the length field of the last padded block is laid out, and what precedes it compressed. */
  ghost predicate PaddedTo(r: Regs, block: seq<Byte>, m: seq<Byte>) {
    |block| == 56 && Compress(r, block + LengthField(|m|)) == Fold(Padded(m))
  }

  /** Padding that fits beside the buffered bytes makes one last block. */
  lemma ShortPadding(r: Regs, buffered: seq<Byte>, bits: nat, m: seq<Byte>)
    requires Represents(r, buffered, bits, m) && |buffered| < 56
    ensures PaddedTo(r, buffered + [0x80] + Zeros(55 - |buffered|), m)
  {
    hide LengthField, Compress, Fold;
    var w, n := Whole(|m|), |buffered|;
    var head, last := m[..w], buffered + [0x80] + Zeros(55 - n) + LengthField(|m|);
    assert PadZeros(|m|) == 55 - n && |head| % 64 == 0 && |last| == 64;
    CutPadding(m, w, [0x80], Zeros(55 - n), LengthField(|m|));
    assert Padded(m) == head + last;
    hide Padded, Zeros, PadZeros, Whole;
    FoldSplits(head, last);
  }

  /** Padding that does not fit makes two. */
  lemma LongPadding(r: Regs, buffered: seq<Byte>, bits: nat, m: seq<Byte>)
    requires Represents(r, buffered, bits, m) && 56 <= |buffered| < 64
    ensures PaddedTo(Compress(r, buffered + [0x80] + Zeros(63 - |buffered|)), Zeros(56), m)
  {
    hide LengthField, Compress, Fold;
    var w, n := Whole(|m|), |buffered|;
    var head, first, last := m[..w], buffered + [0x80] + Zeros(63 - n), Zeros(56) + LengthField(|m|);
    assert PadZeros(|m|) == 119 - n && |head| % 64 == 0 && |first| == 64 && |last| == 64;
    assert Zeros(119 - n) == Zeros(63 - n) + Zeros(56);
    CutPaddingTwice(m, w, [0x80], Zeros(63 - n), Zeros(56), LengthField(|m|));
    assert Padded(m) == (head + first) + last;
    hide Padded, Zeros, PadZeros, Whole;
    FoldSplits(head, first);
    FoldSplits(head + first, last);
  }

  /** The bit counter and the bytes still buffered give the length of the message. */
  lemma BitsHeld(r: Regs, buffered: seq<Byte>, bits: nat, m: seq<Byte>)
    requires Represents(r, buffered, bits, m) && |m| < WORDS / 8
    ensures (bits + |buffered| * 8) % WORDS == 8 * |m|
  {
    hide Fold;
    assert bits == 8 * Whole(|m|);
  }

  lemma DigestOf(r: Regs, block: seq<Byte>, m: seq<Byte>)
    requires PaddedTo(r, block, m)
    ensures WordsBytes(Words(Compress(r, block + LengthField(|m|)))) == Digest(m)
  {
    hide Fold, Padded, Words, WordsBytes, Compress;
  }

  lemma RoundsNext(r: Regs, block: seq<Byte>, t: nat)
    requires |block| == 64 && t < 64
    ensures Rounds(r, block, t + 1) == Round(Rounds(r, block, t), K[t], W(block, t))
    ensures Rounds(r, block, 0) == r
  {
    hide W, Round;
  }

  lemma OneRound(r: Regs, k: Word, w: Word)
    ensures var temp1 := Plus5(r.h, BigSigma1(r.e), Ch(r.e, r.f, r.g), k, w);
            var temp2 := Plus(BigSigma0(r.a), Maj(r.a, r.b, r.c));
            Round(r, k, w) == Regs(Plus(temp1, temp2), r.a, r.b, r.c, Plus(r.d, temp1), r.e, r.f, r.g)
  {
    hide Plus, Plus5, BigSigma0, BigSigma1, Ch, Maj;
  }

  lemma NextWordBytes(ws: seq<Word>, i: nat)
    requires i < |ws|
    ensures WordsBytes(ws[..i + 1]) == WordsBytes(ws[..i]) + WordBytes(ws[i])
  {
    hide WordBytes;
    assert ws[..i + 1][..i] == ws[..i];
  }

  class Context {
    const data: array<Byte>
    const state: array<Word>
    var datalen: nat
    var bitlen: nat  // a 64-bit counter

    predicate Valid()
      reads this
    {
      data.Length == 64 && state.Length == 8 && datalen < 64
    }

    function Registers(): Regs
      requires state.Length == 8
      reads state
    {
      Regs(state[0], state[1], state[2], state[3], state[4], state[5], state[6], state[7])
    }

    /** The context stands for the bytes of m so far. */
    ghost predicate Holds(m: seq<Byte>)
      reads this, data, state
    {
      Valid() && Represents(Registers(), data[..datalen], bitlen, m)
    }

    constructor ()
      ensures Holds([]) && fresh(data) && fresh(state)
    {
      data, state := new Byte[64], new Word[8];
      datalen, bitlen := 0, 0;
      new;
      SetRegisters(INITIAL);
      assert data[..datalen] == [];
    }

    method SetRegisters(r: Regs)
      requires state.Length == 8
      modifies state
      ensures Registers() == r
    {
      state[0], state[1], state[2], state[3] := r.a, r.b, r.c, r.d;
      state[4], state[5], state[6], state[7] := r.e, r.f, r.g, r.h;
    }

    /** The message schedule of the buffered block, in an array. */
    method Schedule() returns (m: array<Word>)
      requires data.Length == 64
      ensures fresh(m) && m.Length == 64
      ensures Scheduled(m[..], data[..], 64)
    {
      hide *;
      m := new Word[64];
      ghost var block := data[..];
      ScheduleStart(m[..], block);
      for i := 0 to 16
        invariant Scheduled(m[..], block, i)
      {
        ghost var was := m[..];
        var w := BigEndian(data[..], 4 * i);
        FirstWord(was, block, i, w);
        m[i] := w;
        assert m[..] == was[i := w];
      }
      for i := 16 to 64
        invariant Scheduled(m[..], block, i)
      {
        ghost var was := m[..];
        var w := Plus4(m[i - 16], SmallSigma0(m[i - 15]), m[i - 7], SmallSigma1(m[i - 2]));
        NextWord(was, block, i, w);
        m[i] := w;
        assert m[..] == was[i := w];
      }
    }

    /** The sixty-four rounds on eight variables. */
    method Mix(m: array<Word>, ghost block: seq<Byte>) returns (r: Regs)
      requires state.Length == 8 && m.Length == 64 && |block| == 64 && Scheduled(m[..], block, 64)
      ensures r == Rounds(Registers(), block, 64)
    {
      hide Plus, Plus5, BigSigma0, BigSigma1, Ch, Maj, Rounds, Round, W;
      ghost var before := Registers();
      var a, b, c, d := state[0], state[1], state[2], state[3];
      var e, f, g, h := state[4], state[5], state[6], state[7];
      RoundsNext(before, block, 0);
      for i := 0 to 64
        invariant Regs(a, b, c, d, e, f, g, h) == Rounds(before, block, i)
      {
        var temp1 := Plus5(h, BigSigma1(e), Ch(e, f, g), K[i], m[i]);
        var temp2 := Plus(BigSigma0(a), Maj(a, b, c));
        assert m[i] == m[..][i];
        RoundsNext(before, block, i);
        OneRound(Regs(a, b, c, d, e, f, g, h), K[i], m[i]);
        h, g, f, e, d, c, b, a := g, f, e, Plus(d, temp1), c, b, a, Plus(temp1, temp2);
      }
      r := Regs(a, b, c, d, e, f, g, h);
    }

    method Transform()
      requires data.Length == 64 && state.Length == 8
      modifies state
      ensures Registers() == Compress(old(Registers()), data[..])
    {
      hide Plus, Rounds, W;
      ghost var block := data[..];
      var m := Schedule();
      var r := Mix(m, block);
      state[0] := Plus(state[0], r.a);
      state[1] := Plus(state[1], r.b);
      state[2] := Plus(state[2], r.c);
      state[3] := Plus(state[3], r.d);
      state[4] := Plus(state[4], r.e);
      state[5] := Plus(state[5], r.f);
      state[6] := Plus(state[6], r.g);
      state[7] := Plus(state[7], r.h);
    }

    /** One more byte; a full buffer is compressed away. */
    method UpdateByte(byte: Byte, ghost m: seq<Byte>)
      requires Holds(m)
      modifies this, data, state
      ensures Holds(m + [byte])
    {
      hide Represents, Compress;
      FewBuffered(Registers(), data[..datalen], bitlen, m);
      ghost var r, buffered := Registers(), data[..datalen];
      data[datalen] := byte;
      assert data[..datalen + 1] == buffered + [byte];
      datalen := datalen + 1;
      if datalen == 64 {
        assert data[..] == buffered + [byte];
        Filled(r, buffered, bitlen, m, byte);
        Transform();
        bitlen := (bitlen + 512) % WORDS;
        datalen := 0;
        assert data[..datalen] == [];
      } else {
        Buffered(r, buffered, bitlen, m, byte);
      }
    }

    /** Main result: feeding a piece extends the message held, however the message was cut before. */
    method Update(bytes: seq<Byte>, ghost m: seq<Byte>)
      requires Holds(m)
      modifies this, data, state
      ensures Holds(m + bytes)
    {
      assert m + bytes[..0] == m;
      for i := 0 to |bytes|
        invariant Holds(m + bytes[..i])
      {
        assert m + bytes[..i + 1] == m + bytes[..i] + [bytes[i]];
        UpdateByte(bytes[i], m + bytes[..i]);
      }
      assert bytes[..|bytes|] == bytes;
    }

    /** The mark and zeros after the buffered bytes, up to a given place. */
    method Mark(end: nat)
      requires Valid() && datalen < end <= 64
      modifies data
      ensures data[..end] == old(data[..datalen]) + [0x80] + Zeros(end - datalen - 1)
    {
      ghost var buffered := data[..datalen];
      data[datalen] := 0x80;
      var i := datalen + 1;
      while i < end
        invariant datalen < i <= end
        invariant data[..datalen] == buffered && data[datalen] == 0x80
        invariant forall j | datalen < j < i :: data[j] == 0
      {
        data[i] := 0;
        i := i + 1;
      }
      assert data[..end] == data[..datalen] + [data[datalen]] + data[datalen + 1..end];
      assert data[datalen + 1..end] == Zeros(end - datalen - 1);
    }

    method PutLength(bits: nat, ghost n: nat)
      requires data.Length == 64 && bits == 8 * n
      modifies data
      ensures data[..] == old(data[..56]) + LengthField(n)
    {
      data[56] := bits / 0x100_0000_0000_0000 % 256;
      data[57] := bits / 0x1_0000_0000_0000 % 256;
      data[58] := bits / 0x100_0000_0000 % 256;
      data[59] := bits / 0x1_0000_0000 % 256;
      data[60] := bits / 0x100_0000 % 256;
      data[61] := bits / 0x1_0000 % 256;
      data[62] := bits / 0x100 % 256;
      data[63] := bits % 256;
      EightBytes(bits);
      assert LengthField(n) == BytesOf(bits, 8);
      hide BytesOf, LengthField;
      assert data[..] == data[..56] + data[56..];
    }

    method PutWord(w: Word, hash: array<Byte>, at: nat)
      requires at + 4 <= hash.Length
      modifies hash
      ensures hash[..at + 4] == old(hash[..at]) + WordBytes(w)
    {
      var b := WordBytes(w);
      hide WordBytes;
      hash[at], hash[at + 1], hash[at + 2], hash[at + 3] := b[0], b[1], b[2], b[3];
      assert hash[..at + 4] == hash[..at] + hash[at..at + 4] && hash[at..at + 4] == b;
    }

    method PutRegisters(hash: array<Byte>)
      requires state.Length == 8 && hash.Length == 32
      modifies hash
      ensures hash[..] == WordsBytes(Words(Registers()))
    {
      ghost var ws := state[..];
      assert Words(Registers()) == ws;
      hide Words, WordsBytes, Registers, WordBytes;
      NoWords(ws);
      for i := 0 to 8
        invariant hash[..4 * i] == WordsBytes(ws[..i]) && state[..] == ws
      {
        NextWordBytes(ws, i);
        PutWord(state[i], hash, 4 * i);
      }
      assert hash[..] == hash[..32] && ws[..8] == ws;
    }

    method Clear56()
      requires data.Length == 64
      modifies data
      ensures data[..56] == Zeros(56)
    {
      for i := 0 to 56
        invariant forall j | 0 <= j < i :: data[j] == 0
      {
        data[i] := 0;
      }
    }

    /** Padding up to the length field, with a block compressed on the way when it does not fit. */
    method Pad(ghost m: seq<Byte>)
      requires Holds(m)
      modifies data, state
      ensures PaddedTo(Registers(), data[..56], m)
    {
      hide Registers, Represents, Compress, PaddedTo, INITIAL;
      ghost var r, buffered := Registers(), data[..datalen];
      if datalen < 56 {
        ShortPadding(r, buffered, bitlen, m);
        Mark(56);
      } else {
        LongPadding(r, buffered, bitlen, m);
        Mark(64);
        assert data[..] == data[..64];
        Transform();
        Clear56();
      }
    }

    /** Main result: finalising gives the standard's digest of everything fed. */
    method Final(hash: array<Byte>, ghost m: seq<Byte>)
      requires Holds(m) && |m| < WORDS / 8 && hash.Length == 32 && hash != data
      modifies data, state, hash
      ensures hash[..] == Digest(m)
    {
      hide Registers, Represents, PaddedTo, Compress, Fold, Padded, Digest, Words, WordsBytes, LengthField, WORDS;
      BitsHeld(Registers(), data[..datalen], bitlen, m);
      Pad(m);
      DigestOf(Registers(), data[..56], m);
      PutLength((bitlen + datalen * 8) % WORDS, |m|);
      Transform();
      PutRegisters(hash);
    }

    /** The same digest as the installer prints it. */
    method FinalHex(ghost m: seq<Byte>) returns (hex: string)
      requires Holds(m) && |m| < WORDS / 8
      modifies data, state
      ensures hex == Hex(Digest(m))
    {
      var hash := new Byte[32];
      hide Holds, Digest, Hex;
      Final(hash, m);
      hex := ToHex(hash);
    }
  }

  method ToHex(hash: array<Byte>) returns (hex: string)
    ensures hex == Hex(hash[..])
  {
    hex := "";
    for i := 0 to hash.Length
      invariant hex == Hex(hash[..i])
    {
      assert hash[..i + 1][..i] == hash[..i];
      hex := hex + [HexDigit(hash[i] / 16), HexDigit(hash[i] % 16)];
    }
    assert hash[..] == hash[..hash.Length];
  }
}
