/** The example of FIPS 180-4 worked through: the digest of "abc", sixty-four rounds on one block. */
module Sha256Example {
  import opened Sha256

  const ABC: seq<Byte> := [0x61, 0x62, 0x63]

  // ------------------------------------------------------ forms for computing

  function Right2(x: Word): Word { (x >> 2) | (x << 30) }

  function Right13(x: Word): Word { (x >> 13) | (x << 19) }

  function Right22(x: Word): Word { (x >> 22) | (x << 10) }

  function Right6(x: Word): Word { (x >> 6) | (x << 26) }

  function Right11(x: Word): Word { (x >> 11) | (x << 21) }

  function Right25(x: Word): Word { (x >> 25) | (x << 7) }

  function Right7(x: Word): Word { (x >> 7) | (x << 25) }

  function Right18(x: Word): Word { (x >> 18) | (x << 14) }

  function Right17(x: Word): Word { (x >> 17) | (x << 15) }

  function Right19(x: Word): Word { (x >> 19) | (x << 13) }

  function Sum0(x: Word): Word { Xor(Xor(Right2(x), Right13(x)), Right22(x)) }

  function Sum1(x: Word): Word { Xor(Xor(Right6(x), Right11(x)), Right25(x)) }

  lemma Right2Is(x: Word)
    ensures Rotr(x, 2) == Right2(x)
  {
    assert Rotr(x, 2) == (x >> 2) | (x << 30);
  }

  lemma Right13Is(x: Word)
    ensures Rotr(x, 13) == Right13(x)
  {
    assert Rotr(x, 13) == (x >> 13) | (x << 19);
  }

  lemma Right22Is(x: Word)
    ensures Rotr(x, 22) == Right22(x)
  {
    assert Rotr(x, 22) == (x >> 22) | (x << 10);
  }

  lemma Right6Is(x: Word)
    ensures Rotr(x, 6) == Right6(x)
  {
    assert Rotr(x, 6) == (x >> 6) | (x << 26);
  }

  lemma Right11Is(x: Word)
    ensures Rotr(x, 11) == Right11(x)
  {
    assert Rotr(x, 11) == (x >> 11) | (x << 21);
  }

  lemma Right25Is(x: Word)
    ensures Rotr(x, 25) == Right25(x)
  {
    assert Rotr(x, 25) == (x >> 25) | (x << 7);
  }

  lemma Right7Is(x: Word)
    ensures Rotr(x, 7) == Right7(x)
  {
    assert Rotr(x, 7) == (x >> 7) | (x << 25);
  }

  lemma Right18Is(x: Word)
    ensures Rotr(x, 18) == Right18(x)
  {
    assert Rotr(x, 18) == (x >> 18) | (x << 14);
  }

  lemma Right17Is(x: Word)
    ensures Rotr(x, 17) == Right17(x)
  {
    assert Rotr(x, 17) == (x >> 17) | (x << 15);
  }

  lemma Right19Is(x: Word)
    ensures Rotr(x, 19) == Right19(x)
  {
    assert Rotr(x, 19) == (x >> 19) | (x << 13);
  }

  lemma Sum0Is(x: Word)
    ensures BigSigma0(x) == Sum0(x)
  {
    hide Xor, Rotr, Right2, Right13, Right22;
    Right2Is(x);
    Right13Is(x);
    Right22Is(x);
  }

  lemma Sum1Is(x: Word)
    ensures BigSigma1(x) == Sum1(x)
  {
    hide Xor, Rotr, Right6, Right11, Right25;
    Right6Is(x);
    Right11Is(x);
    Right25Is(x);
  }

  /** What a word of the schedule is, from four before it. */
  function Mixed(w2: Word, w7: Word, w15: Word, w16: Word): Word {
    Plus4(Xor(Xor(Right17(w2), Right19(w2)), Shr(w2, 10)), w7, Xor(Xor(Right7(w15), Right18(w15)), Shr(w15, 3)), w16)
  }

  lemma MixedIs(w2: Word, w7: Word, w15: Word, w16: Word)
    ensures Mixed(w2, w7, w15, w16) == Plus4(SmallSigma1(w2), w7, SmallSigma0(w15), w16)
  {
    hide Xor, Plus4, Rotr, Shr, Right7, Right18, Right17, Right19;
    Right17Is(w2);
    Right19Is(w2);
    Right7Is(w15);
    Right18Is(w15);
  }

  /** What a round puts into the first and the fifth register; it shifts the rest. */
  function First(a: Word, b: Word, c: Word, e: Word, f: Word, g: Word, h: Word, k: Word, w: Word): Word {
    Plus(Plus5(h, Sum1(e), Ch(e, f, g), k, w), Plus(Sum0(a), Maj(a, b, c)))
  }

  function Fifth(d: Word, e: Word, f: Word, g: Word, h: Word, k: Word, w: Word): Word {
    Plus(d, Plus5(h, Sum1(e), Ch(e, f, g), k, w))
  }

  /** One round on registers that are known. */
  lemma Turn(m: seq<Byte>, t: nat, a: Word, b: Word, c: Word, d: Word, e: Word, f: Word, g: Word, h: Word,
             k: Word, w: Word, a': Word, e': Word)
    requires |m| == 64 && t < 64 && K[t] == k && W(m, t) == w
    requires Rounds(INITIAL, m, t) == Regs(a, b, c, d, e, f, g, h)
    requires a' == First(a, b, c, e, f, g, h, k, w) && e' == Fifth(d, e, f, g, h, k, w)
    ensures Rounds(INITIAL, m, t + 1) == Regs(a', a, b, c, e', e, f, g)
  {
    hide Plus, Plus5, BigSigma0, BigSigma1, Sum0, Sum1, Ch, Maj, K, W;
    Sum0Is(a);
    Sum1Is(e);
  }

  // ------------------------------------------------------------- the schedule

  /** Words 0 to 7 of the schedule. */
  predicate Words0(m: seq<Byte>)
    requires |m| == 64
  {
    && W(m, 0) == 0x61626380 && W(m, 1) == 0x00000000
    && W(m, 2) == 0x00000000 && W(m, 3) == 0x00000000
    && W(m, 4) == 0x00000000 && W(m, 5) == 0x00000000
    && W(m, 6) == 0x00000000 && W(m, 7) == 0x00000000
  }

  /** Words 8 to 15 of the schedule. */
  predicate Words1(m: seq<Byte>)
    requires |m| == 64
  {
    && W(m, 8) == 0x00000000 && W(m, 9) == 0x00000000
    && W(m, 10) == 0x00000000 && W(m, 11) == 0x00000000
    && W(m, 12) == 0x00000000 && W(m, 13) == 0x00000000
    && W(m, 14) == 0x00000000 && W(m, 15) == 0x00000018
  }

  /** Words 16 to 23 of the schedule. */
  predicate Words2(m: seq<Byte>)
    requires |m| == 64
  {
    && W(m, 16) == 0x61626380 && W(m, 17) == 0x000F0000
    && W(m, 18) == 0x7DA86405 && W(m, 19) == 0x600003C6
    && W(m, 20) == 0x3E9D7B78 && W(m, 21) == 0x0183FC00
    && W(m, 22) == 0x12DCBFDB && W(m, 23) == 0xE2E2C38E
  }

  /** Words 24 to 31 of the schedule. */
  predicate Words3(m: seq<Byte>)
    requires |m| == 64
  {
    && W(m, 24) == 0xC8215C1A && W(m, 25) == 0xB73679A2
    && W(m, 26) == 0xE5BC3909 && W(m, 27) == 0x32663C5B
    && W(m, 28) == 0x9D209D67 && W(m, 29) == 0xEC8726CB
    && W(m, 30) == 0x702138A4 && W(m, 31) == 0xD3B7973B
  }

  /** Words 32 to 39 of the schedule. */
  predicate Words4(m: seq<Byte>)
    requires |m| == 64
  {
    && W(m, 32) == 0x93F5997F && W(m, 33) == 0x3B68BA73
    && W(m, 34) == 0xAFF4FFC1 && W(m, 35) == 0xF10A5C62
    && W(m, 36) == 0x0A8B3996 && W(m, 37) == 0x72AF830A
    && W(m, 38) == 0x9409E33E && W(m, 39) == 0x24641522
  }

  /** Words 40 to 47 of the schedule. */
  predicate Words5(m: seq<Byte>)
    requires |m| == 64
  {
    && W(m, 40) == 0x9F47BF94 && W(m, 41) == 0xF0A64F5A
    && W(m, 42) == 0x3E246A79 && W(m, 43) == 0x27333BA3
    && W(m, 44) == 0x0C4763F2 && W(m, 45) == 0x840ABF27
    && W(m, 46) == 0x7A290D5D && W(m, 47) == 0x065C43DA
  }

  /** Words 48 to 55 of the schedule. */
  predicate Words6(m: seq<Byte>)
    requires |m| == 64
  {
    && W(m, 48) == 0xFB3E89CB && W(m, 49) == 0xCC7617DB
    && W(m, 50) == 0xB9E66C34 && W(m, 51) == 0xA9993667
    && W(m, 52) == 0x84BADEDD && W(m, 53) == 0xC21462BC
    && W(m, 54) == 0x1487472C && W(m, 55) == 0xB20F7A99
  }

  /** Words 56 to 63 of the schedule. */
  predicate Words7(m: seq<Byte>)
    requires |m| == 64
  {
    && W(m, 56) == 0xEF57B9CD && W(m, 57) == 0xEBE6B238
    && W(m, 58) == 0x9FE3095E && W(m, 59) == 0x78BC8D4B
    && W(m, 60) == 0xA43FCF15 && W(m, 61) == 0x668B2FF8
    && W(m, 62) == 0xEEABA2CC && W(m, 63) == 0x12B1EDEB
  }

  lemma NextWord(m: seq<Byte>, t: nat, w2: Word, w7: Word, w15: Word, w16: Word)
    requires |m| == 64 && 16 <= t < 64
    requires W(m, t - 2) == w2 && W(m, t - 7) == w7 && W(m, t - 15) == w15 && W(m, t - 16) == w16
    ensures W(m, t) == Mixed(w2, w7, w15, w16)
  {
    hide Plus4, SmallSigma0, SmallSigma1, Mixed;
    MixedIs(w2, w7, w15, w16);
  }

  lemma Mixes2()
    ensures Mixed(0x00000000, 0x00000000, 0x00000000, 0x61626380) == 0x61626380
    ensures Mixed(0x00000018, 0x00000000, 0x00000000, 0x00000000) == 0x000F0000
    ensures Mixed(0x61626380, 0x00000000, 0x00000000, 0x00000000) == 0x7DA86405
    ensures Mixed(0x000F0000, 0x00000000, 0x00000000, 0x00000000) == 0x600003C6
    ensures Mixed(0x7DA86405, 0x00000000, 0x00000000, 0x00000000) == 0x3E9D7B78
    ensures Mixed(0x600003C6, 0x00000000, 0x00000000, 0x00000000) == 0x0183FC00
    ensures Mixed(0x3E9D7B78, 0x00000018, 0x00000000, 0x00000000) == 0x12DCBFDB
    ensures Mixed(0x0183FC00, 0x61626380, 0x00000000, 0x00000000) == 0xE2E2C38E
  {
  }

  lemma Schedule2(m: seq<Byte>)
    requires |m| == 64 && Words0(m) && Words1(m)
    ensures Words2(m)
  {
    hide W, Mixed;
    Mixes2();
    NextWord(m, 16, 0x00000000, 0x00000000, 0x00000000, 0x61626380);
    NextWord(m, 17, 0x00000018, 0x00000000, 0x00000000, 0x00000000);
    NextWord(m, 18, 0x61626380, 0x00000000, 0x00000000, 0x00000000);
    NextWord(m, 19, 0x000F0000, 0x00000000, 0x00000000, 0x00000000);
    NextWord(m, 20, 0x7DA86405, 0x00000000, 0x00000000, 0x00000000);
    NextWord(m, 21, 0x600003C6, 0x00000000, 0x00000000, 0x00000000);
    NextWord(m, 22, 0x3E9D7B78, 0x00000018, 0x00000000, 0x00000000);
    NextWord(m, 23, 0x0183FC00, 0x61626380, 0x00000000, 0x00000000);
  }

  lemma Mixes3()
    ensures Mixed(0x12DCBFDB, 0x000F0000, 0x00000000, 0x00000000) == 0xC8215C1A
    ensures Mixed(0xE2E2C38E, 0x7DA86405, 0x00000000, 0x00000000) == 0xB73679A2
    ensures Mixed(0xC8215C1A, 0x600003C6, 0x00000000, 0x00000000) == 0xE5BC3909
    ensures Mixed(0xB73679A2, 0x3E9D7B78, 0x00000000, 0x00000000) == 0x32663C5B
    ensures Mixed(0xE5BC3909, 0x0183FC00, 0x00000000, 0x00000000) == 0x9D209D67
    ensures Mixed(0x32663C5B, 0x12DCBFDB, 0x00000000, 0x00000000) == 0xEC8726CB
    ensures Mixed(0x9D209D67, 0xE2E2C38E, 0x00000018, 0x00000000) == 0x702138A4
    ensures Mixed(0xEC8726CB, 0xC8215C1A, 0x61626380, 0x00000018) == 0xD3B7973B
  {
  }

  lemma Schedule3(m: seq<Byte>)
    requires |m| == 64 && Words1(m) && Words2(m)
    ensures Words3(m)
  {
    hide W, Mixed;
    Mixes3();
    NextWord(m, 24, 0x12DCBFDB, 0x000F0000, 0x00000000, 0x00000000);
    NextWord(m, 25, 0xE2E2C38E, 0x7DA86405, 0x00000000, 0x00000000);
    NextWord(m, 26, 0xC8215C1A, 0x600003C6, 0x00000000, 0x00000000);
    NextWord(m, 27, 0xB73679A2, 0x3E9D7B78, 0x00000000, 0x00000000);
    NextWord(m, 28, 0xE5BC3909, 0x0183FC00, 0x00000000, 0x00000000);
    NextWord(m, 29, 0x32663C5B, 0x12DCBFDB, 0x00000000, 0x00000000);
    NextWord(m, 30, 0x9D209D67, 0xE2E2C38E, 0x00000018, 0x00000000);
    NextWord(m, 31, 0xEC8726CB, 0xC8215C1A, 0x61626380, 0x00000018);
  }

  lemma Mixes4()
    ensures Mixed(0x702138A4, 0xB73679A2, 0x000F0000, 0x61626380) == 0x93F5997F
    ensures Mixed(0xD3B7973B, 0xE5BC3909, 0x7DA86405, 0x000F0000) == 0x3B68BA73
    ensures Mixed(0x93F5997F, 0x32663C5B, 0x600003C6, 0x7DA86405) == 0xAFF4FFC1
    ensures Mixed(0x3B68BA73, 0x9D209D67, 0x3E9D7B78, 0x600003C6) == 0xF10A5C62
    ensures Mixed(0xAFF4FFC1, 0xEC8726CB, 0x0183FC00, 0x3E9D7B78) == 0x0A8B3996
    ensures Mixed(0xF10A5C62, 0x702138A4, 0x12DCBFDB, 0x0183FC00) == 0x72AF830A
    ensures Mixed(0x0A8B3996, 0xD3B7973B, 0xE2E2C38E, 0x12DCBFDB) == 0x9409E33E
    ensures Mixed(0x72AF830A, 0x93F5997F, 0xC8215C1A, 0xE2E2C38E) == 0x24641522
  {
  }

  lemma Schedule4(m: seq<Byte>)
    requires |m| == 64 && Words2(m) && Words3(m)
    ensures Words4(m)
  {
    hide W, Mixed;
    Mixes4();
    NextWord(m, 32, 0x702138A4, 0xB73679A2, 0x000F0000, 0x61626380);
    NextWord(m, 33, 0xD3B7973B, 0xE5BC3909, 0x7DA86405, 0x000F0000);
    NextWord(m, 34, 0x93F5997F, 0x32663C5B, 0x600003C6, 0x7DA86405);
    NextWord(m, 35, 0x3B68BA73, 0x9D209D67, 0x3E9D7B78, 0x600003C6);
    NextWord(m, 36, 0xAFF4FFC1, 0xEC8726CB, 0x0183FC00, 0x3E9D7B78);
    NextWord(m, 37, 0xF10A5C62, 0x702138A4, 0x12DCBFDB, 0x0183FC00);
    NextWord(m, 38, 0x0A8B3996, 0xD3B7973B, 0xE2E2C38E, 0x12DCBFDB);
    NextWord(m, 39, 0x72AF830A, 0x93F5997F, 0xC8215C1A, 0xE2E2C38E);
  }

  lemma Mixes5()
    ensures Mixed(0x9409E33E, 0x3B68BA73, 0xB73679A2, 0xC8215C1A) == 0x9F47BF94
    ensures Mixed(0x24641522, 0xAFF4FFC1, 0xE5BC3909, 0xB73679A2) == 0xF0A64F5A
    ensures Mixed(0x9F47BF94, 0xF10A5C62, 0x32663C5B, 0xE5BC3909) == 0x3E246A79
    ensures Mixed(0xF0A64F5A, 0x0A8B3996, 0x9D209D67, 0x32663C5B) == 0x27333BA3
    ensures Mixed(0x3E246A79, 0x72AF830A, 0xEC8726CB, 0x9D209D67) == 0x0C4763F2
    ensures Mixed(0x27333BA3, 0x9409E33E, 0x702138A4, 0xEC8726CB) == 0x840ABF27
    ensures Mixed(0x0C4763F2, 0x24641522, 0xD3B7973B, 0x702138A4) == 0x7A290D5D
    ensures Mixed(0x840ABF27, 0x9F47BF94, 0x93F5997F, 0xD3B7973B) == 0x065C43DA
  {
  }

  lemma Schedule5(m: seq<Byte>)
    requires |m| == 64 && Words3(m) && Words4(m)
    ensures Words5(m)
  {
    hide W, Mixed;
    Mixes5();
    NextWord(m, 40, 0x9409E33E, 0x3B68BA73, 0xB73679A2, 0xC8215C1A);
    NextWord(m, 41, 0x24641522, 0xAFF4FFC1, 0xE5BC3909, 0xB73679A2);
    NextWord(m, 42, 0x9F47BF94, 0xF10A5C62, 0x32663C5B, 0xE5BC3909);
    NextWord(m, 43, 0xF0A64F5A, 0x0A8B3996, 0x9D209D67, 0x32663C5B);
    NextWord(m, 44, 0x3E246A79, 0x72AF830A, 0xEC8726CB, 0x9D209D67);
    NextWord(m, 45, 0x27333BA3, 0x9409E33E, 0x702138A4, 0xEC8726CB);
    NextWord(m, 46, 0x0C4763F2, 0x24641522, 0xD3B7973B, 0x702138A4);
    NextWord(m, 47, 0x840ABF27, 0x9F47BF94, 0x93F5997F, 0xD3B7973B);
  }

  lemma Mixes6()
    ensures Mixed(0x7A290D5D, 0xF0A64F5A, 0x3B68BA73, 0x93F5997F) == 0xFB3E89CB
    ensures Mixed(0x065C43DA, 0x3E246A79, 0xAFF4FFC1, 0x3B68BA73) == 0xCC7617DB
    ensures Mixed(0xFB3E89CB, 0x27333BA3, 0xF10A5C62, 0xAFF4FFC1) == 0xB9E66C34
    ensures Mixed(0xCC7617DB, 0x0C4763F2, 0x0A8B3996, 0xF10A5C62) == 0xA9993667
    ensures Mixed(0xB9E66C34, 0x840ABF27, 0x72AF830A, 0x0A8B3996) == 0x84BADEDD
    ensures Mixed(0xA9993667, 0x7A290D5D, 0x9409E33E, 0x72AF830A) == 0xC21462BC
    ensures Mixed(0x84BADEDD, 0x065C43DA, 0x24641522, 0x9409E33E) == 0x1487472C
    ensures Mixed(0xC21462BC, 0xFB3E89CB, 0x9F47BF94, 0x24641522) == 0xB20F7A99
  {
  }

  lemma Schedule6(m: seq<Byte>)
    requires |m| == 64 && Words4(m) && Words5(m)
    ensures Words6(m)
  {
    hide W, Mixed;
    Mixes6();
    NextWord(m, 48, 0x7A290D5D, 0xF0A64F5A, 0x3B68BA73, 0x93F5997F);
    NextWord(m, 49, 0x065C43DA, 0x3E246A79, 0xAFF4FFC1, 0x3B68BA73);
    NextWord(m, 50, 0xFB3E89CB, 0x27333BA3, 0xF10A5C62, 0xAFF4FFC1);
    NextWord(m, 51, 0xCC7617DB, 0x0C4763F2, 0x0A8B3996, 0xF10A5C62);
    NextWord(m, 52, 0xB9E66C34, 0x840ABF27, 0x72AF830A, 0x0A8B3996);
    NextWord(m, 53, 0xA9993667, 0x7A290D5D, 0x9409E33E, 0x72AF830A);
    NextWord(m, 54, 0x84BADEDD, 0x065C43DA, 0x24641522, 0x9409E33E);
    NextWord(m, 55, 0xC21462BC, 0xFB3E89CB, 0x9F47BF94, 0x24641522);
  }

  lemma Mixes7()
    ensures Mixed(0x1487472C, 0xCC7617DB, 0xF0A64F5A, 0x9F47BF94) == 0xEF57B9CD
    ensures Mixed(0xB20F7A99, 0xB9E66C34, 0x3E246A79, 0xF0A64F5A) == 0xEBE6B238
    ensures Mixed(0xEF57B9CD, 0xA9993667, 0x27333BA3, 0x3E246A79) == 0x9FE3095E
    ensures Mixed(0xEBE6B238, 0x84BADEDD, 0x0C4763F2, 0x27333BA3) == 0x78BC8D4B
    ensures Mixed(0x9FE3095E, 0xC21462BC, 0x840ABF27, 0x0C4763F2) == 0xA43FCF15
    ensures Mixed(0x78BC8D4B, 0x1487472C, 0x7A290D5D, 0x840ABF27) == 0x668B2FF8
    ensures Mixed(0xA43FCF15, 0xB20F7A99, 0x065C43DA, 0x7A290D5D) == 0xEEABA2CC
    ensures Mixed(0x668B2FF8, 0xEF57B9CD, 0xFB3E89CB, 0x065C43DA) == 0x12B1EDEB
  {
  }

  lemma Schedule7(m: seq<Byte>)
    requires |m| == 64 && Words5(m) && Words6(m)
    ensures Words7(m)
  {
    hide W, Mixed;
    Mixes7();
    NextWord(m, 56, 0x1487472C, 0xCC7617DB, 0xF0A64F5A, 0x9F47BF94);
    NextWord(m, 57, 0xB20F7A99, 0xB9E66C34, 0x3E246A79, 0xF0A64F5A);
    NextWord(m, 58, 0xEF57B9CD, 0xA9993667, 0x27333BA3, 0x3E246A79);
    NextWord(m, 59, 0xEBE6B238, 0x84BADEDD, 0x0C4763F2, 0x27333BA3);
    NextWord(m, 60, 0x9FE3095E, 0xC21462BC, 0x840ABF27, 0x0C4763F2);
    NextWord(m, 61, 0x78BC8D4B, 0x1487472C, 0x7A290D5D, 0x840ABF27);
    NextWord(m, 62, 0xA43FCF15, 0xB20F7A99, 0x065C43DA, 0x7A290D5D);
    NextWord(m, 63, 0x668B2FF8, 0xEF57B9CD, 0xFB3E89CB, 0x065C43DA);
  }

  lemma Zeroes(b: seq<Byte>, i: nat)
    requires i + 4 <= |b| && b[i] == b[i + 1] == b[i + 2] == b[i + 3] == 0
    ensures BigEndian(b, i) == 0
  {
  }

  lemma FourBytes(b: seq<Byte>, i: nat, w: Word, x: Word, y: Word, z: Word)
    requires i + 4 <= |b| && b[i] as Word == w && b[i + 1] as Word == x && b[i + 2] as Word == y && b[i + 3] as Word == z
    ensures BigEndian(b, i) == (w << 24) | (x << 16) | (y << 8) | z
  {
  }

  lemma Ends(b: seq<Byte>, i: nat)
    requires i + 4 <= |b| && b[i] == 0x61 && b[i + 1] == 0x62 && b[i + 2] == 0x63 && b[i + 3] == 0x80
    ensures BigEndian(b, i) == 0x61626380
  {
    hide BigEndian;
    FourBytes(b, i, 0x61, 0x62, 0x63, 0x80);
  }

  lemma Bits(b: seq<Byte>, i: nat)
    requires i + 4 <= |b| && b[i] == b[i + 1] == b[i + 2] == 0 && b[i + 3] == 24
    ensures BigEndian(b, i) == 0x18
  {
  }

  lemma PaddedIs()
    ensures Padded(ABC) == ABC + [0x80] + Zeros(52) + [0, 0, 0, 0, 0, 0, 0, 24]
  {
    EightBytes(24);
    assert LengthField(3) == BytesOf(24, 8);
    hide BytesOf;
  }

  lemma Block()
    ensures |Padded(ABC)| == 64 && Words0(Padded(ABC)) && Words1(Padded(ABC))
  {
    PaddedIs();
    var m := Padded(ABC);
    hide Padded, BigEndian;
    assert |m| == 64 && m[0] == 0x61 && m[1] == 0x62 && m[2] == 0x63 && m[3] == 0x80 && m[63] == 24;
    assert forall i | 4 <= i < 63 :: m[i] == 0;
    hide Zeros, ABC;
    Ends(m, 0);
    forall t | 1 <= t < 15
      ensures W(m, t) == 0
    {
      Zeroes(m, 4 * t);
    }
    Bits(m, 60);
    assert W(m, 15) == 0x18 && W(m, 0) == 0x61626380;
    hide W;
  }

  // ---------------------------------------------------------------- the rounds

  lemma Keys0()
    ensures K[0] == 0x428A2F98 && K[1] == 0x71374491 && K[2] == 0xB5C0FBCF && K[3] == 0xE9B5DBA5
    ensures K[4] == 0x3956C25B && K[5] == 0x59F111F1 && K[6] == 0x923F82A4 && K[7] == 0xAB1C5ED5
  {
  }

  lemma Sums0()
    ensures First(0x6A09E667, 0xBB67AE85, 0x3C6EF372, 0x510E527F, 0x9B05688C, 0x1F83D9AB, 0x5BE0CD19, 0x428A2F98, 0x61626380) == 0x5D6AEBCD
    ensures Fifth(0xA54FF53A, 0x510E527F, 0x9B05688C, 0x1F83D9AB, 0x5BE0CD19, 0x428A2F98, 0x61626380) == 0xFA2A4622
    ensures First(0x5D6AEBCD, 0x6A09E667, 0xBB67AE85, 0xFA2A4622, 0x510E527F, 0x9B05688C, 0x1F83D9AB, 0x71374491, 0x00000000) == 0x5A6AD9AD
    ensures Fifth(0x3C6EF372, 0xFA2A4622, 0x510E527F, 0x9B05688C, 0x1F83D9AB, 0x71374491, 0x00000000) == 0x78CE7989
    ensures First(0x5A6AD9AD, 0x5D6AEBCD, 0x6A09E667, 0x78CE7989, 0xFA2A4622, 0x510E527F, 0x9B05688C, 0xB5C0FBCF, 0x00000000) == 0xC8C347A7
    ensures Fifth(0xBB67AE85, 0x78CE7989, 0xFA2A4622, 0x510E527F, 0x9B05688C, 0xB5C0FBCF, 0x00000000) == 0xF92939EB
    ensures First(0xC8C347A7, 0x5A6AD9AD, 0x5D6AEBCD, 0xF92939EB, 0x78CE7989, 0xFA2A4622, 0x510E527F, 0xE9B5DBA5, 0x00000000) == 0xD550F666
    ensures Fifth(0x6A09E667, 0xF92939EB, 0x78CE7989, 0xFA2A4622, 0x510E527F, 0xE9B5DBA5, 0x00000000) == 0x24E00850
    ensures First(0xD550F666, 0xC8C347A7, 0x5A6AD9AD, 0x24E00850, 0xF92939EB, 0x78CE7989, 0xFA2A4622, 0x3956C25B, 0x00000000) == 0x04409A6A
    ensures Fifth(0x5D6AEBCD, 0x24E00850, 0xF92939EB, 0x78CE7989, 0xFA2A4622, 0x3956C25B, 0x00000000) == 0x43ADA245
    ensures First(0x04409A6A, 0xD550F666, 0xC8C347A7, 0x43ADA245, 0x24E00850, 0xF92939EB, 0x78CE7989, 0x59F111F1, 0x00000000) == 0x2B4209F5
    ensures Fifth(0x5A6AD9AD, 0x43ADA245, 0x24E00850, 0xF92939EB, 0x78CE7989, 0x59F111F1, 0x00000000) == 0x714260AD
    ensures First(0x2B4209F5, 0x04409A6A, 0xD550F666, 0x714260AD, 0x43ADA245, 0x24E00850, 0xF92939EB, 0x923F82A4, 0x00000000) == 0xE5030380
    ensures Fifth(0xC8C347A7, 0x714260AD, 0x43ADA245, 0x24E00850, 0xF92939EB, 0x923F82A4, 0x00000000) == 0x9B27A401
    ensures First(0xE5030380, 0x2B4209F5, 0x04409A6A, 0x9B27A401, 0x714260AD, 0x43ADA245, 0x24E00850, 0xAB1C5ED5, 0x00000000) == 0x85A07B5F
    ensures Fifth(0xD550F666, 0x9B27A401, 0x714260AD, 0x43ADA245, 0x24E00850, 0xAB1C5ED5, 0x00000000) == 0x0C657A79
  {
  }

  lemma Turns0(m: seq<Byte>)
    requires |m| == 64 && Words0(m) && Rounds(INITIAL, m, 0) == Regs(0x6A09E667, 0xBB67AE85, 0x3C6EF372, 0xA54FF53A, 0x510E527F, 0x9B05688C, 0x1F83D9AB, 0x5BE0CD19)
    ensures Rounds(INITIAL, m, 8) == Regs(0x85A07B5F, 0xE5030380, 0x2B4209F5, 0x04409A6A, 0x0C657A79, 0x9B27A401, 0x714260AD, 0x43ADA245)
  {
    hide Rounds, W, K, INITIAL, First, Fifth;
    Keys0();
    Sums0();
    Turn(m, 0, 0x6A09E667, 0xBB67AE85, 0x3C6EF372, 0xA54FF53A, 0x510E527F, 0x9B05688C, 0x1F83D9AB, 0x5BE0CD19,
         0x428A2F98, 0x61626380, 0x5D6AEBCD, 0xFA2A4622);
    Turn(m, 1, 0x5D6AEBCD, 0x6A09E667, 0xBB67AE85, 0x3C6EF372, 0xFA2A4622, 0x510E527F, 0x9B05688C, 0x1F83D9AB,
         0x71374491, 0x00000000, 0x5A6AD9AD, 0x78CE7989);
    Turn(m, 2, 0x5A6AD9AD, 0x5D6AEBCD, 0x6A09E667, 0xBB67AE85, 0x78CE7989, 0xFA2A4622, 0x510E527F, 0x9B05688C,
         0xB5C0FBCF, 0x00000000, 0xC8C347A7, 0xF92939EB);
    Turn(m, 3, 0xC8C347A7, 0x5A6AD9AD, 0x5D6AEBCD, 0x6A09E667, 0xF92939EB, 0x78CE7989, 0xFA2A4622, 0x510E527F,
         0xE9B5DBA5, 0x00000000, 0xD550F666, 0x24E00850);
    Turn(m, 4, 0xD550F666, 0xC8C347A7, 0x5A6AD9AD, 0x5D6AEBCD, 0x24E00850, 0xF92939EB, 0x78CE7989, 0xFA2A4622,
         0x3956C25B, 0x00000000, 0x04409A6A, 0x43ADA245);
    Turn(m, 5, 0x04409A6A, 0xD550F666, 0xC8C347A7, 0x5A6AD9AD, 0x43ADA245, 0x24E00850, 0xF92939EB, 0x78CE7989,
         0x59F111F1, 0x00000000, 0x2B4209F5, 0x714260AD);
    Turn(m, 6, 0x2B4209F5, 0x04409A6A, 0xD550F666, 0xC8C347A7, 0x714260AD, 0x43ADA245, 0x24E00850, 0xF92939EB,
         0x923F82A4, 0x00000000, 0xE5030380, 0x9B27A401);
    Turn(m, 7, 0xE5030380, 0x2B4209F5, 0x04409A6A, 0xD550F666, 0x9B27A401, 0x714260AD, 0x43ADA245, 0x24E00850,
         0xAB1C5ED5, 0x00000000, 0x85A07B5F, 0x0C657A79);
  }

  lemma Keys1()
    ensures K[8] == 0xD807AA98 && K[9] == 0x12835B01 && K[10] == 0x243185BE && K[11] == 0x550C7DC3
    ensures K[12] == 0x72BE5D74 && K[13] == 0x80DEB1FE && K[14] == 0x9BDC06A7 && K[15] == 0xC19BF174
  {
  }

  lemma Sums1()
    ensures First(0x85A07B5F, 0xE5030380, 0x2B4209F5, 0x0C657A79, 0x9B27A401, 0x714260AD, 0x43ADA245, 0xD807AA98, 0x00000000) == 0x8E04ECB9
    ensures Fifth(0x04409A6A, 0x0C657A79, 0x9B27A401, 0x714260AD, 0x43ADA245, 0xD807AA98, 0x00000000) == 0x32CA2D8C
    ensures First(0x8E04ECB9, 0x85A07B5F, 0xE5030380, 0x32CA2D8C, 0x0C657A79, 0x9B27A401, 0x714260AD, 0x12835B01, 0x00000000) == 0x8C87346B
    ensures Fifth(0x2B4209F5, 0x32CA2D8C, 0x0C657A79, 0x9B27A401, 0x714260AD, 0x12835B01, 0x00000000) == 0x1CC92596
    ensures First(0x8C87346B, 0x8E04ECB9, 0x85A07B5F, 0x1CC92596, 0x32CA2D8C, 0x0C657A79, 0x9B27A401, 0x243185BE, 0x00000000) == 0x4798A3F4
    ensures Fifth(0xE5030380, 0x1CC92596, 0x32CA2D8C, 0x0C657A79, 0x9B27A401, 0x243185BE, 0x00000000) == 0x436B23E8
    ensures First(0x4798A3F4, 0x8C87346B, 0x8E04ECB9, 0x436B23E8, 0x1CC92596, 0x32CA2D8C, 0x0C657A79, 0x550C7DC3, 0x00000000) == 0xF71FC5A9
    ensures Fifth(0x85A07B5F, 0x436B23E8, 0x1CC92596, 0x32CA2D8C, 0x0C657A79, 0x550C7DC3, 0x00000000) == 0x816FD6E9
    ensures First(0xF71FC5A9, 0x4798A3F4, 0x8C87346B, 0x816FD6E9, 0x436B23E8, 0x1CC92596, 0x32CA2D8C, 0x72BE5D74, 0x00000000) == 0x87912990
    ensures Fifth(0x8E04ECB9, 0x816FD6E9, 0x436B23E8, 0x1CC92596, 0x32CA2D8C, 0x72BE5D74, 0x00000000) == 0x1E578218
    ensures First(0x87912990, 0xF71FC5A9, 0x4798A3F4, 0x1E578218, 0x816FD6E9, 0x436B23E8, 0x1CC92596, 0x80DEB1FE, 0x00000000) == 0xD932EB16
    ensures Fifth(0x8C87346B, 0x1E578218, 0x816FD6E9, 0x436B23E8, 0x1CC92596, 0x80DEB1FE, 0x00000000) == 0x745A48DE
    ensures First(0xD932EB16, 0x87912990, 0xF71FC5A9, 0x745A48DE, 0x1E578218, 0x816FD6E9, 0x436B23E8, 0x9BDC06A7, 0x00000000) == 0xC0645FDE
    ensures Fifth(0x4798A3F4, 0x745A48DE, 0x1E578218, 0x816FD6E9, 0x436B23E8, 0x9BDC06A7, 0x00000000) == 0x0B92F20C
    ensures First(0xC0645FDE, 0xD932EB16, 0x87912990, 0x0B92F20C, 0x745A48DE, 0x1E578218, 0x816FD6E9, 0xC19BF174, 0x00000018) == 0xB0FA238E
    ensures Fifth(0xF71FC5A9, 0x0B92F20C, 0x745A48DE, 0x1E578218, 0x816FD6E9, 0xC19BF174, 0x00000018) == 0x07590DCD
  {
  }

  lemma Turns1(m: seq<Byte>)
    requires |m| == 64 && Words1(m) && Rounds(INITIAL, m, 8) == Regs(0x85A07B5F, 0xE5030380, 0x2B4209F5, 0x04409A6A, 0x0C657A79, 0x9B27A401, 0x714260AD, 0x43ADA245)
    ensures Rounds(INITIAL, m, 16) == Regs(0xB0FA238E, 0xC0645FDE, 0xD932EB16, 0x87912990, 0x07590DCD, 0x0B92F20C, 0x745A48DE, 0x1E578218)
  {
    hide Rounds, W, K, INITIAL, First, Fifth;
    Keys1();
    Sums1();
    Turn(m, 8, 0x85A07B5F, 0xE5030380, 0x2B4209F5, 0x04409A6A, 0x0C657A79, 0x9B27A401, 0x714260AD, 0x43ADA245,
         0xD807AA98, 0x00000000, 0x8E04ECB9, 0x32CA2D8C);
    Turn(m, 9, 0x8E04ECB9, 0x85A07B5F, 0xE5030380, 0x2B4209F5, 0x32CA2D8C, 0x0C657A79, 0x9B27A401, 0x714260AD,
         0x12835B01, 0x00000000, 0x8C87346B, 0x1CC92596);
    Turn(m, 10, 0x8C87346B, 0x8E04ECB9, 0x85A07B5F, 0xE5030380, 0x1CC92596, 0x32CA2D8C, 0x0C657A79, 0x9B27A401,
         0x243185BE, 0x00000000, 0x4798A3F4, 0x436B23E8);
    Turn(m, 11, 0x4798A3F4, 0x8C87346B, 0x8E04ECB9, 0x85A07B5F, 0x436B23E8, 0x1CC92596, 0x32CA2D8C, 0x0C657A79,
         0x550C7DC3, 0x00000000, 0xF71FC5A9, 0x816FD6E9);
    Turn(m, 12, 0xF71FC5A9, 0x4798A3F4, 0x8C87346B, 0x8E04ECB9, 0x816FD6E9, 0x436B23E8, 0x1CC92596, 0x32CA2D8C,
         0x72BE5D74, 0x00000000, 0x87912990, 0x1E578218);
    Turn(m, 13, 0x87912990, 0xF71FC5A9, 0x4798A3F4, 0x8C87346B, 0x1E578218, 0x816FD6E9, 0x436B23E8, 0x1CC92596,
         0x80DEB1FE, 0x00000000, 0xD932EB16, 0x745A48DE);
    Turn(m, 14, 0xD932EB16, 0x87912990, 0xF71FC5A9, 0x4798A3F4, 0x745A48DE, 0x1E578218, 0x816FD6E9, 0x436B23E8,
         0x9BDC06A7, 0x00000000, 0xC0645FDE, 0x0B92F20C);
    Turn(m, 15, 0xC0645FDE, 0xD932EB16, 0x87912990, 0xF71FC5A9, 0x0B92F20C, 0x745A48DE, 0x1E578218, 0x816FD6E9,
         0xC19BF174, 0x00000018, 0xB0FA238E, 0x07590DCD);
  }

  lemma Keys2()
    ensures K[16] == 0xE49B69C1 && K[17] == 0xEFBE4786 && K[18] == 0x0FC19DC6 && K[19] == 0x240CA1CC
    ensures K[20] == 0x2DE92C6F && K[21] == 0x4A7484AA && K[22] == 0x5CB0A9DC && K[23] == 0x76F988DA
  {
  }

  lemma Sums2()
    ensures First(0xB0FA238E, 0xC0645FDE, 0xD932EB16, 0x07590DCD, 0x0B92F20C, 0x745A48DE, 0x1E578218, 0xE49B69C1, 0x61626380) == 0x21DA9A9B
    ensures Fifth(0x87912990, 0x07590DCD, 0x0B92F20C, 0x745A48DE, 0x1E578218, 0xE49B69C1, 0x61626380) == 0x8034229C
    ensures First(0x21DA9A9B, 0xB0FA238E, 0xC0645FDE, 0x8034229C, 0x07590DCD, 0x0B92F20C, 0x745A48DE, 0xEFBE4786, 0x000F0000) == 0xC2FBD9D1
    ensures Fifth(0xD932EB16, 0x8034229C, 0x07590DCD, 0x0B92F20C, 0x745A48DE, 0xEFBE4786, 0x000F0000) == 0x846EE454
    ensures First(0xC2FBD9D1, 0x21DA9A9B, 0xB0FA238E, 0x846EE454, 0x8034229C, 0x07590DCD, 0x0B92F20C, 0x0FC19DC6, 0x7DA86405) == 0xFE777BBF
    ensures Fifth(0xC0645FDE, 0x846EE454, 0x8034229C, 0x07590DCD, 0x0B92F20C, 0x0FC19DC6, 0x7DA86405) == 0xCC899961
    ensures First(0xFE777BBF, 0xC2FBD9D1, 0x21DA9A9B, 0xCC899961, 0x846EE454, 0x8034229C, 0x07590DCD, 0x240CA1CC, 0x600003C6) == 0xE1F20C33
    ensures Fifth(0xB0FA238E, 0xCC899961, 0x846EE454, 0x8034229C, 0x07590DCD, 0x240CA1CC, 0x600003C6) == 0xB0638179
    ensures First(0xE1F20C33, 0xFE777BBF, 0xC2FBD9D1, 0xB0638179, 0xCC899961, 0x846EE454, 0x8034229C, 0x2DE92C6F, 0x3E9D7B78) == 0x9DC68B63
    ensures Fifth(0x21DA9A9B, 0xB0638179, 0xCC899961, 0x846EE454, 0x8034229C, 0x2DE92C6F, 0x3E9D7B78) == 0x8ADA8930
    ensures First(0x9DC68B63, 0xE1F20C33, 0xFE777BBF, 0x8ADA8930, 0xB0638179, 0xCC899961, 0x846EE454, 0x4A7484AA, 0x0183FC00) == 0xC2606D6D
    ensures Fifth(0xC2FBD9D1, 0x8ADA8930, 0xB0638179, 0xCC899961, 0x846EE454, 0x4A7484AA, 0x0183FC00) == 0xE1257970
    ensures First(0xC2606D6D, 0x9DC68B63, 0xE1F20C33, 0xE1257970, 0x8ADA8930, 0xB0638179, 0xCC899961, 0x5CB0A9DC, 0x12DCBFDB) == 0xA7A3623F
    ensures Fifth(0xFE777BBF, 0xE1257970, 0x8ADA8930, 0xB0638179, 0xCC899961, 0x5CB0A9DC, 0x12DCBFDB) == 0x49F5114A
    ensures First(0xA7A3623F, 0xC2606D6D, 0x9DC68B63, 0x49F5114A, 0xE1257970, 0x8ADA8930, 0xB0638179, 0x76F988DA, 0xE2E2C38E) == 0xC5D53D8D
    ensures Fifth(0xE1F20C33, 0x49F5114A, 0xE1257970, 0x8ADA8930, 0xB0638179, 0x76F988DA, 0xE2E2C38E) == 0xAA47C347
  {
  }

  lemma Turns2(m: seq<Byte>)
    requires |m| == 64 && Words2(m) && Rounds(INITIAL, m, 16) == Regs(0xB0FA238E, 0xC0645FDE, 0xD932EB16, 0x87912990, 0x07590DCD, 0x0B92F20C, 0x745A48DE, 0x1E578218)
    ensures Rounds(INITIAL, m, 24) == Regs(0xC5D53D8D, 0xA7A3623F, 0xC2606D6D, 0x9DC68B63, 0xAA47C347, 0x49F5114A, 0xE1257970, 0x8ADA8930)
  {
    hide Rounds, W, K, INITIAL, First, Fifth;
    Keys2();
    Sums2();
    Turn(m, 16, 0xB0FA238E, 0xC0645FDE, 0xD932EB16, 0x87912990, 0x07590DCD, 0x0B92F20C, 0x745A48DE, 0x1E578218,
         0xE49B69C1, 0x61626380, 0x21DA9A9B, 0x8034229C);
    Turn(m, 17, 0x21DA9A9B, 0xB0FA238E, 0xC0645FDE, 0xD932EB16, 0x8034229C, 0x07590DCD, 0x0B92F20C, 0x745A48DE,
         0xEFBE4786, 0x000F0000, 0xC2FBD9D1, 0x846EE454);
    Turn(m, 18, 0xC2FBD9D1, 0x21DA9A9B, 0xB0FA238E, 0xC0645FDE, 0x846EE454, 0x8034229C, 0x07590DCD, 0x0B92F20C,
         0x0FC19DC6, 0x7DA86405, 0xFE777BBF, 0xCC899961);
    Turn(m, 19, 0xFE777BBF, 0xC2FBD9D1, 0x21DA9A9B, 0xB0FA238E, 0xCC899961, 0x846EE454, 0x8034229C, 0x07590DCD,
         0x240CA1CC, 0x600003C6, 0xE1F20C33, 0xB0638179);
    Turn(m, 20, 0xE1F20C33, 0xFE777BBF, 0xC2FBD9D1, 0x21DA9A9B, 0xB0638179, 0xCC899961, 0x846EE454, 0x8034229C,
         0x2DE92C6F, 0x3E9D7B78, 0x9DC68B63, 0x8ADA8930);
    Turn(m, 21, 0x9DC68B63, 0xE1F20C33, 0xFE777BBF, 0xC2FBD9D1, 0x8ADA8930, 0xB0638179, 0xCC899961, 0x846EE454,
         0x4A7484AA, 0x0183FC00, 0xC2606D6D, 0xE1257970);
    Turn(m, 22, 0xC2606D6D, 0x9DC68B63, 0xE1F20C33, 0xFE777BBF, 0xE1257970, 0x8ADA8930, 0xB0638179, 0xCC899961,
         0x5CB0A9DC, 0x12DCBFDB, 0xA7A3623F, 0x49F5114A);
    Turn(m, 23, 0xA7A3623F, 0xC2606D6D, 0x9DC68B63, 0xE1F20C33, 0x49F5114A, 0xE1257970, 0x8ADA8930, 0xB0638179,
         0x76F988DA, 0xE2E2C38E, 0xC5D53D8D, 0xAA47C347);
  }

  lemma Keys3()
    ensures K[24] == 0x983E5152 && K[25] == 0xA831C66D && K[26] == 0xB00327C8 && K[27] == 0xBF597FC7
    ensures K[28] == 0xC6E00BF3 && K[29] == 0xD5A79147 && K[30] == 0x06CA6351 && K[31] == 0x14292967
  {
  }

  lemma Sums3()
    ensures First(0xC5D53D8D, 0xA7A3623F, 0xC2606D6D, 0xAA47C347, 0x49F5114A, 0xE1257970, 0x8ADA8930, 0x983E5152, 0xC8215C1A) == 0x1C2C2838
    ensures Fifth(0x9DC68B63, 0xAA47C347, 0x49F5114A, 0xE1257970, 0x8ADA8930, 0x983E5152, 0xC8215C1A) == 0x2823EF91
    ensures First(0x1C2C2838, 0xC5D53D8D, 0xA7A3623F, 0x2823EF91, 0xAA47C347, 0x49F5114A, 0xE1257970, 0xA831C66D, 0xB73679A2) == 0xCDE8037D
    ensures Fifth(0xC2606D6D, 0x2823EF91, 0xAA47C347, 0x49F5114A, 0xE1257970, 0xA831C66D, 0xB73679A2) == 0x14383D8E
    ensures First(0xCDE8037D, 0x1C2C2838, 0xC5D53D8D, 0x14383D8E, 0x2823EF91, 0xAA47C347, 0x49F5114A, 0xB00327C8, 0xE5BC3909) == 0xB62EC4BC
    ensures Fifth(0xA7A3623F, 0x14383D8E, 0x2823EF91, 0xAA47C347, 0x49F5114A, 0xB00327C8, 0xE5BC3909) == 0xC74C6516
    ensures First(0xB62EC4BC, 0xCDE8037D, 0x1C2C2838, 0xC74C6516, 0x14383D8E, 0x2823EF91, 0xAA47C347, 0xBF597FC7, 0x32663C5B) == 0x77D37528
    ensures Fifth(0xC5D53D8D, 0xC74C6516, 0x14383D8E, 0x2823EF91, 0xAA47C347, 0xBF597FC7, 0x32663C5B) == 0xEDFFBFF8
    ensures First(0x77D37528, 0xB62EC4BC, 0xCDE8037D, 0xEDFFBFF8, 0xC74C6516, 0x14383D8E, 0x2823EF91, 0xC6E00BF3, 0x9D209D67) == 0x363482C9
    ensures Fifth(0x1C2C2838, 0xEDFFBFF8, 0xC74C6516, 0x14383D8E, 0x2823EF91, 0xC6E00BF3, 0x9D209D67) == 0x6112A3B7
    ensures First(0x363482C9, 0x77D37528, 0xB62EC4BC, 0x6112A3B7, 0xEDFFBFF8, 0xC74C6516, 0x14383D8E, 0xD5A79147, 0xEC8726CB) == 0xA0060B30
    ensures Fifth(0xCDE8037D, 0x6112A3B7, 0xEDFFBFF8, 0xC74C6516, 0x14383D8E, 0xD5A79147, 0xEC8726CB) == 0xADE79437
    ensures First(0xA0060B30, 0x363482C9, 0x77D37528, 0xADE79437, 0x6112A3B7, 0xEDFFBFF8, 0xC74C6516, 0x06CA6351, 0x702138A4) == 0xEA992A22
    ensures Fifth(0xB62EC4BC, 0xADE79437, 0x6112A3B7, 0xEDFFBFF8, 0xC74C6516, 0x06CA6351, 0x702138A4) == 0x0109AB3A
    ensures First(0xEA992A22, 0xA0060B30, 0x363482C9, 0x0109AB3A, 0xADE79437, 0x6112A3B7, 0xEDFFBFF8, 0x14292967, 0xD3B7973B) == 0x73B33BF5
    ensures Fifth(0x77D37528, 0x0109AB3A, 0xADE79437, 0x6112A3B7, 0xEDFFBFF8, 0x14292967, 0xD3B7973B) == 0xBA591112
  {
  }

  lemma Turns3(m: seq<Byte>)
    requires |m| == 64 && Words3(m) && Rounds(INITIAL, m, 24) == Regs(0xC5D53D8D, 0xA7A3623F, 0xC2606D6D, 0x9DC68B63, 0xAA47C347, 0x49F5114A, 0xE1257970, 0x8ADA8930)
    ensures Rounds(INITIAL, m, 32) == Regs(0x73B33BF5, 0xEA992A22, 0xA0060B30, 0x363482C9, 0xBA591112, 0x0109AB3A, 0xADE79437, 0x6112A3B7)
  {
    hide Rounds, W, K, INITIAL, First, Fifth;
    Keys3();
    Sums3();
    Turn(m, 24, 0xC5D53D8D, 0xA7A3623F, 0xC2606D6D, 0x9DC68B63, 0xAA47C347, 0x49F5114A, 0xE1257970, 0x8ADA8930,
         0x983E5152, 0xC8215C1A, 0x1C2C2838, 0x2823EF91);
    Turn(m, 25, 0x1C2C2838, 0xC5D53D8D, 0xA7A3623F, 0xC2606D6D, 0x2823EF91, 0xAA47C347, 0x49F5114A, 0xE1257970,
         0xA831C66D, 0xB73679A2, 0xCDE8037D, 0x14383D8E);
    Turn(m, 26, 0xCDE8037D, 0x1C2C2838, 0xC5D53D8D, 0xA7A3623F, 0x14383D8E, 0x2823EF91, 0xAA47C347, 0x49F5114A,
         0xB00327C8, 0xE5BC3909, 0xB62EC4BC, 0xC74C6516);
    Turn(m, 27, 0xB62EC4BC, 0xCDE8037D, 0x1C2C2838, 0xC5D53D8D, 0xC74C6516, 0x14383D8E, 0x2823EF91, 0xAA47C347,
         0xBF597FC7, 0x32663C5B, 0x77D37528, 0xEDFFBFF8);
    Turn(m, 28, 0x77D37528, 0xB62EC4BC, 0xCDE8037D, 0x1C2C2838, 0xEDFFBFF8, 0xC74C6516, 0x14383D8E, 0x2823EF91,
         0xC6E00BF3, 0x9D209D67, 0x363482C9, 0x6112A3B7);
    Turn(m, 29, 0x363482C9, 0x77D37528, 0xB62EC4BC, 0xCDE8037D, 0x6112A3B7, 0xEDFFBFF8, 0xC74C6516, 0x14383D8E,
         0xD5A79147, 0xEC8726CB, 0xA0060B30, 0xADE79437);
    Turn(m, 30, 0xA0060B30, 0x363482C9, 0x77D37528, 0xB62EC4BC, 0xADE79437, 0x6112A3B7, 0xEDFFBFF8, 0xC74C6516,
         0x06CA6351, 0x702138A4, 0xEA992A22, 0x0109AB3A);
    Turn(m, 31, 0xEA992A22, 0xA0060B30, 0x363482C9, 0x77D37528, 0x0109AB3A, 0xADE79437, 0x6112A3B7, 0xEDFFBFF8,
         0x14292967, 0xD3B7973B, 0x73B33BF5, 0xBA591112);
  }

  lemma Keys4()
    ensures K[32] == 0x27B70A85 && K[33] == 0x2E1B2138 && K[34] == 0x4D2C6DFC && K[35] == 0x53380D13
    ensures K[36] == 0x650A7354 && K[37] == 0x766A0ABB && K[38] == 0x81C2C92E && K[39] == 0x92722C85
  {
  }

  lemma Sums4()
    ensures First(0x73B33BF5, 0xEA992A22, 0xA0060B30, 0xBA591112, 0x0109AB3A, 0xADE79437, 0x6112A3B7, 0x27B70A85, 0x93F5997F) == 0x98E12507
    ensures Fifth(0x363482C9, 0xBA591112, 0x0109AB3A, 0xADE79437, 0x6112A3B7, 0x27B70A85, 0x93F5997F) == 0x9CD9F5F6
    ensures First(0x98E12507, 0x73B33BF5, 0xEA992A22, 0x9CD9F5F6, 0xBA591112, 0x0109AB3A, 0xADE79437, 0x2E1B2138, 0x3B68BA73) == 0xFE604DF5
    ensures Fifth(0xA0060B30, 0x9CD9F5F6, 0xBA591112, 0x0109AB3A, 0xADE79437, 0x2E1B2138, 0x3B68BA73) == 0x59249DD3
    ensures First(0xFE604DF5, 0x98E12507, 0x73B33BF5, 0x59249DD3, 0x9CD9F5F6, 0xBA591112, 0x0109AB3A, 0x4D2C6DFC, 0xAFF4FFC1) == 0xA9A7738C
    ensures Fifth(0xEA992A22, 0x59249DD3, 0x9CD9F5F6, 0xBA591112, 0x0109AB3A, 0x4D2C6DFC, 0xAFF4FFC1) == 0x085F3833
    ensures First(0xA9A7738C, 0xFE604DF5, 0x98E12507, 0x085F3833, 0x59249DD3, 0x9CD9F5F6, 0xBA591112, 0x53380D13, 0xF10A5C62) == 0x65A0CFE4
    ensures Fifth(0x73B33BF5, 0x085F3833, 0x59249DD3, 0x9CD9F5F6, 0xBA591112, 0x53380D13, 0xF10A5C62) == 0xF4B002D6
    ensures First(0x65A0CFE4, 0xA9A7738C, 0xFE604DF5, 0xF4B002D6, 0x085F3833, 0x59249DD3, 0x9CD9F5F6, 0x650A7354, 0x0A8B3996) == 0x41A65CB1
    ensures Fifth(0x98E12507, 0xF4B002D6, 0x085F3833, 0x59249DD3, 0x9CD9F5F6, 0x650A7354, 0x0A8B3996) == 0x0772A26B
    ensures First(0x41A65CB1, 0x65A0CFE4, 0xA9A7738C, 0x0772A26B, 0xF4B002D6, 0x085F3833, 0x59249DD3, 0x766A0ABB, 0x72AF830A) == 0x34DF1604
    ensures Fifth(0xFE604DF5, 0x0772A26B, 0xF4B002D6, 0x085F3833, 0x59249DD3, 0x766A0ABB, 0x72AF830A) == 0xA507A53D
    ensures First(0x34DF1604, 0x41A65CB1, 0x65A0CFE4, 0xA507A53D, 0x0772A26B, 0xF4B002D6, 0x085F3833, 0x81C2C92E, 0x9409E33E) == 0x6DC57A8A
    ensures Fifth(0xA9A7738C, 0xA507A53D, 0x0772A26B, 0xF4B002D6, 0x085F3833, 0x81C2C92E, 0x9409E33E) == 0xF0781BC8
    ensures First(0x6DC57A8A, 0x34DF1604, 0x41A65CB1, 0xF0781BC8, 0xA507A53D, 0x0772A26B, 0xF4B002D6, 0x92722C85, 0x24641522) == 0x79EA687A
    ensures Fifth(0x65A0CFE4, 0xF0781BC8, 0xA507A53D, 0x0772A26B, 0xF4B002D6, 0x92722C85, 0x24641522) == 0x1EFBC0A0
  {
  }

  lemma Turns4(m: seq<Byte>)
    requires |m| == 64 && Words4(m) && Rounds(INITIAL, m, 32) == Regs(0x73B33BF5, 0xEA992A22, 0xA0060B30, 0x363482C9, 0xBA591112, 0x0109AB3A, 0xADE79437, 0x6112A3B7)
    ensures Rounds(INITIAL, m, 40) == Regs(0x79EA687A, 0x6DC57A8A, 0x34DF1604, 0x41A65CB1, 0x1EFBC0A0, 0xF0781BC8, 0xA507A53D, 0x0772A26B)
  {
    hide Rounds, W, K, INITIAL, First, Fifth;
    Keys4();
    Sums4();
    Turn(m, 32, 0x73B33BF5, 0xEA992A22, 0xA0060B30, 0x363482C9, 0xBA591112, 0x0109AB3A, 0xADE79437, 0x6112A3B7,
         0x27B70A85, 0x93F5997F, 0x98E12507, 0x9CD9F5F6);
    Turn(m, 33, 0x98E12507, 0x73B33BF5, 0xEA992A22, 0xA0060B30, 0x9CD9F5F6, 0xBA591112, 0x0109AB3A, 0xADE79437,
         0x2E1B2138, 0x3B68BA73, 0xFE604DF5, 0x59249DD3);
    Turn(m, 34, 0xFE604DF5, 0x98E12507, 0x73B33BF5, 0xEA992A22, 0x59249DD3, 0x9CD9F5F6, 0xBA591112, 0x0109AB3A,
         0x4D2C6DFC, 0xAFF4FFC1, 0xA9A7738C, 0x085F3833);
    Turn(m, 35, 0xA9A7738C, 0xFE604DF5, 0x98E12507, 0x73B33BF5, 0x085F3833, 0x59249DD3, 0x9CD9F5F6, 0xBA591112,
         0x53380D13, 0xF10A5C62, 0x65A0CFE4, 0xF4B002D6);
    Turn(m, 36, 0x65A0CFE4, 0xA9A7738C, 0xFE604DF5, 0x98E12507, 0xF4B002D6, 0x085F3833, 0x59249DD3, 0x9CD9F5F6,
         0x650A7354, 0x0A8B3996, 0x41A65CB1, 0x0772A26B);
    Turn(m, 37, 0x41A65CB1, 0x65A0CFE4, 0xA9A7738C, 0xFE604DF5, 0x0772A26B, 0xF4B002D6, 0x085F3833, 0x59249DD3,
         0x766A0ABB, 0x72AF830A, 0x34DF1604, 0xA507A53D);
    Turn(m, 38, 0x34DF1604, 0x41A65CB1, 0x65A0CFE4, 0xA9A7738C, 0xA507A53D, 0x0772A26B, 0xF4B002D6, 0x085F3833,
         0x81C2C92E, 0x9409E33E, 0x6DC57A8A, 0xF0781BC8);
    Turn(m, 39, 0x6DC57A8A, 0x34DF1604, 0x41A65CB1, 0x65A0CFE4, 0xF0781BC8, 0xA507A53D, 0x0772A26B, 0xF4B002D6,
         0x92722C85, 0x24641522, 0x79EA687A, 0x1EFBC0A0);
  }

  lemma Keys5()
    ensures K[40] == 0xA2BFE8A1 && K[41] == 0xA81A664B && K[42] == 0xC24B8B70 && K[43] == 0xC76C51A3
    ensures K[44] == 0xD192E819 && K[45] == 0xD6990624 && K[46] == 0xF40E3585 && K[47] == 0x106AA070
  {
  }

  lemma Sums5()
    ensures First(0x79EA687A, 0x6DC57A8A, 0x34DF1604, 0x1EFBC0A0, 0xF0781BC8, 0xA507A53D, 0x0772A26B, 0xA2BFE8A1, 0x9F47BF94) == 0xD6670766
    ensures Fifth(0x41A65CB1, 0x1EFBC0A0, 0xF0781BC8, 0xA507A53D, 0x0772A26B, 0xA2BFE8A1, 0x9F47BF94) == 0x26352D63
    ensures First(0xD6670766, 0x79EA687A, 0x6DC57A8A, 0x26352D63, 0x1EFBC0A0, 0xF0781BC8, 0xA507A53D, 0xA81A664B, 0xF0A64F5A) == 0xDF46652F
    ensures Fifth(0x34DF1604, 0x26352D63, 0x1EFBC0A0, 0xF0781BC8, 0xA507A53D, 0xA81A664B, 0xF0A64F5A) == 0x838B2711
    ensures First(0xDF46652F, 0xD6670766, 0x79EA687A, 0x838B2711, 0x26352D63, 0x1EFBC0A0, 0xF0781BC8, 0xC24B8B70, 0x3E246A79) == 0x17AA0DFE
    ensures Fifth(0x6DC57A8A, 0x838B2711, 0x26352D63, 0x1EFBC0A0, 0xF0781BC8, 0xC24B8B70, 0x3E246A79) == 0xDECD4715
    ensures First(0x17AA0DFE, 0xDF46652F, 0xD6670766, 0xDECD4715, 0x838B2711, 0x26352D63, 0x1EFBC0A0, 0xC76C51A3, 0x27333BA3) == 0x9D4BAF93
    ensures Fifth(0x79EA687A, 0xDECD4715, 0x838B2711, 0x26352D63, 0x1EFBC0A0, 0xC76C51A3, 0x27333BA3) == 0xFDA24C2E
    ensures First(0x9D4BAF93, 0x17AA0DFE, 0xDF46652F, 0xFDA24C2E, 0xDECD4715, 0x838B2711, 0x26352D63, 0xD192E819, 0x0C4763F2) == 0x26628815
    ensures Fifth(0xD6670766, 0xFDA24C2E, 0xDECD4715, 0x838B2711, 0x26352D63, 0xD192E819, 0x0C4763F2) == 0xA80F11F0
    ensures First(0x26628815, 0x9D4BAF93, 0x17AA0DFE, 0xA80F11F0, 0xFDA24C2E, 0xDECD4715, 0x838B2711, 0xD6990624, 0x840ABF27) == 0x72AB4B91
    ensures Fifth(0xDF46652F, 0xA80F11F0, 0xFDA24C2E, 0xDECD4715, 0x838B2711, 0xD6990624, 0x840ABF27) == 0xB7755DA1
    ensures First(0x72AB4B91, 0x26628815, 0x9D4BAF93, 0xB7755DA1, 0xA80F11F0, 0xFDA24C2E, 0xDECD4715, 0xF40E3585, 0x7A290D5D) == 0xA14C14B0
    ensures Fifth(0x17AA0DFE, 0xB7755DA1, 0xA80F11F0, 0xFDA24C2E, 0xDECD4715, 0xF40E3585, 0x7A290D5D) == 0xD57B94A9
    ensures First(0xA14C14B0, 0x72AB4B91, 0x26628815, 0xD57B94A9, 0xB7755DA1, 0xA80F11F0, 0xFDA24C2E, 0x106AA070, 0x065C43DA) == 0x4172328D
    ensures Fifth(0x9D4BAF93, 0xD57B94A9, 0xB7755DA1, 0xA80F11F0, 0xFDA24C2E, 0x106AA070, 0x065C43DA) == 0xFECF0BC6
  {
  }

  lemma Turns5(m: seq<Byte>)
    requires |m| == 64 && Words5(m) && Rounds(INITIAL, m, 40) == Regs(0x79EA687A, 0x6DC57A8A, 0x34DF1604, 0x41A65CB1, 0x1EFBC0A0, 0xF0781BC8, 0xA507A53D, 0x0772A26B)
    ensures Rounds(INITIAL, m, 48) == Regs(0x4172328D, 0xA14C14B0, 0x72AB4B91, 0x26628815, 0xFECF0BC6, 0xD57B94A9, 0xB7755DA1, 0xA80F11F0)
  {
    hide Rounds, W, K, INITIAL, First, Fifth;
    Keys5();
    Sums5();
    Turn(m, 40, 0x79EA687A, 0x6DC57A8A, 0x34DF1604, 0x41A65CB1, 0x1EFBC0A0, 0xF0781BC8, 0xA507A53D, 0x0772A26B,
         0xA2BFE8A1, 0x9F47BF94, 0xD6670766, 0x26352D63);
    Turn(m, 41, 0xD6670766, 0x79EA687A, 0x6DC57A8A, 0x34DF1604, 0x26352D63, 0x1EFBC0A0, 0xF0781BC8, 0xA507A53D,
         0xA81A664B, 0xF0A64F5A, 0xDF46652F, 0x838B2711);
    Turn(m, 42, 0xDF46652F, 0xD6670766, 0x79EA687A, 0x6DC57A8A, 0x838B2711, 0x26352D63, 0x1EFBC0A0, 0xF0781BC8,
         0xC24B8B70, 0x3E246A79, 0x17AA0DFE, 0xDECD4715);
    Turn(m, 43, 0x17AA0DFE, 0xDF46652F, 0xD6670766, 0x79EA687A, 0xDECD4715, 0x838B2711, 0x26352D63, 0x1EFBC0A0,
         0xC76C51A3, 0x27333BA3, 0x9D4BAF93, 0xFDA24C2E);
    Turn(m, 44, 0x9D4BAF93, 0x17AA0DFE, 0xDF46652F, 0xD6670766, 0xFDA24C2E, 0xDECD4715, 0x838B2711, 0x26352D63,
         0xD192E819, 0x0C4763F2, 0x26628815, 0xA80F11F0);
    Turn(m, 45, 0x26628815, 0x9D4BAF93, 0x17AA0DFE, 0xDF46652F, 0xA80F11F0, 0xFDA24C2E, 0xDECD4715, 0x838B2711,
         0xD6990624, 0x840ABF27, 0x72AB4B91, 0xB7755DA1);
    Turn(m, 46, 0x72AB4B91, 0x26628815, 0x9D4BAF93, 0x17AA0DFE, 0xB7755DA1, 0xA80F11F0, 0xFDA24C2E, 0xDECD4715,
         0xF40E3585, 0x7A290D5D, 0xA14C14B0, 0xD57B94A9);
    Turn(m, 47, 0xA14C14B0, 0x72AB4B91, 0x26628815, 0x9D4BAF93, 0xD57B94A9, 0xB7755DA1, 0xA80F11F0, 0xFDA24C2E,
         0x106AA070, 0x065C43DA, 0x4172328D, 0xFECF0BC6);
  }

  lemma Keys6()
    ensures K[48] == 0x19A4C116 && K[49] == 0x1E376C08 && K[50] == 0x2748774C && K[51] == 0x34B0BCB5
    ensures K[52] == 0x391C0CB3 && K[53] == 0x4ED8AA4A && K[54] == 0x5B9CCA4F && K[55] == 0x682E6FF3
  {
  }

  lemma Sums6()
    ensures First(0x4172328D, 0xA14C14B0, 0x72AB4B91, 0xFECF0BC6, 0xD57B94A9, 0xB7755DA1, 0xA80F11F0, 0x19A4C116, 0xFB3E89CB) == 0x05757CEB
    ensures Fifth(0x26628815, 0xFECF0BC6, 0xD57B94A9, 0xB7755DA1, 0xA80F11F0, 0x19A4C116, 0xFB3E89CB) == 0xBD714038
    ensures First(0x05757CEB, 0x4172328D, 0xA14C14B0, 0xBD714038, 0xFECF0BC6, 0xD57B94A9, 0xB7755DA1, 0x1E376C08, 0xCC7617DB) == 0xF11BFAA8
    ensures Fifth(0x72AB4B91, 0xBD714038, 0xFECF0BC6, 0xD57B94A9, 0xB7755DA1, 0x1E376C08, 0xCC7617DB) == 0x6E5C390C
    ensures First(0xF11BFAA8, 0x05757CEB, 0x4172328D, 0x6E5C390C, 0xBD714038, 0xFECF0BC6, 0xD57B94A9, 0x2748774C, 0xB9E66C34) == 0x7A0508A1
    ensures Fifth(0xA14C14B0, 0x6E5C390C, 0xBD714038, 0xFECF0BC6, 0xD57B94A9, 0x2748774C, 0xB9E66C34) == 0x52F1CCF7
    ensures First(0x7A0508A1, 0xF11BFAA8, 0x05757CEB, 0x52F1CCF7, 0x6E5C390C, 0xBD714038, 0xFECF0BC6, 0x34B0BCB5, 0xA9993667) == 0x886E7A22
    ensures Fifth(0x4172328D, 0x52F1CCF7, 0x6E5C390C, 0xBD714038, 0xFECF0BC6, 0x34B0BCB5, 0xA9993667) == 0x49231C1E
    ensures First(0x886E7A22, 0x7A0508A1, 0xF11BFAA8, 0x49231C1E, 0x52F1CCF7, 0x6E5C390C, 0xBD714038, 0x391C0CB3, 0x84BADEDD) == 0x101FD28F
    ensures Fifth(0x05757CEB, 0x49231C1E, 0x52F1CCF7, 0x6E5C390C, 0xBD714038, 0x391C0CB3, 0x84BADEDD) == 0x529E7D00
    ensures First(0x101FD28F, 0x886E7A22, 0x7A0508A1, 0x529E7D00, 0x49231C1E, 0x52F1CCF7, 0x6E5C390C, 0x4ED8AA4A, 0xC21462BC) == 0xF5702FDB
    ensures Fifth(0xF11BFAA8, 0x529E7D00, 0x49231C1E, 0x52F1CCF7, 0x6E5C390C, 0x4ED8AA4A, 0xC21462BC) == 0x9F4787C3
    ensures First(0xF5702FDB, 0x101FD28F, 0x886E7A22, 0x9F4787C3, 0x529E7D00, 0x49231C1E, 0x52F1CCF7, 0x5B9CCA4F, 0x1487472C) == 0x3EC45CDB
    ensures Fifth(0x7A0508A1, 0x9F4787C3, 0x529E7D00, 0x49231C1E, 0x52F1CCF7, 0x5B9CCA4F, 0x1487472C) == 0xE50E1B4F
    ensures First(0x3EC45CDB, 0xF5702FDB, 0x101FD28F, 0xE50E1B4F, 0x9F4787C3, 0x529E7D00, 0x49231C1E, 0x682E6FF3, 0xB20F7A99) == 0x38CC9913
    ensures Fifth(0x886E7A22, 0xE50E1B4F, 0x9F4787C3, 0x529E7D00, 0x49231C1E, 0x682E6FF3, 0xB20F7A99) == 0x54CB266B
  {
  }

  lemma Turns6(m: seq<Byte>)
    requires |m| == 64 && Words6(m) && Rounds(INITIAL, m, 48) == Regs(0x4172328D, 0xA14C14B0, 0x72AB4B91, 0x26628815, 0xFECF0BC6, 0xD57B94A9, 0xB7755DA1, 0xA80F11F0)
    ensures Rounds(INITIAL, m, 56) == Regs(0x38CC9913, 0x3EC45CDB, 0xF5702FDB, 0x101FD28F, 0x54CB266B, 0xE50E1B4F, 0x9F4787C3, 0x529E7D00)
  {
    hide Rounds, W, K, INITIAL, First, Fifth;
    Keys6();
    Sums6();
    Turn(m, 48, 0x4172328D, 0xA14C14B0, 0x72AB4B91, 0x26628815, 0xFECF0BC6, 0xD57B94A9, 0xB7755DA1, 0xA80F11F0,
         0x19A4C116, 0xFB3E89CB, 0x05757CEB, 0xBD714038);
    Turn(m, 49, 0x05757CEB, 0x4172328D, 0xA14C14B0, 0x72AB4B91, 0xBD714038, 0xFECF0BC6, 0xD57B94A9, 0xB7755DA1,
         0x1E376C08, 0xCC7617DB, 0xF11BFAA8, 0x6E5C390C);
    Turn(m, 50, 0xF11BFAA8, 0x05757CEB, 0x4172328D, 0xA14C14B0, 0x6E5C390C, 0xBD714038, 0xFECF0BC6, 0xD57B94A9,
         0x2748774C, 0xB9E66C34, 0x7A0508A1, 0x52F1CCF7);
    Turn(m, 51, 0x7A0508A1, 0xF11BFAA8, 0x05757CEB, 0x4172328D, 0x52F1CCF7, 0x6E5C390C, 0xBD714038, 0xFECF0BC6,
         0x34B0BCB5, 0xA9993667, 0x886E7A22, 0x49231C1E);
    Turn(m, 52, 0x886E7A22, 0x7A0508A1, 0xF11BFAA8, 0x05757CEB, 0x49231C1E, 0x52F1CCF7, 0x6E5C390C, 0xBD714038,
         0x391C0CB3, 0x84BADEDD, 0x101FD28F, 0x529E7D00);
    Turn(m, 53, 0x101FD28F, 0x886E7A22, 0x7A0508A1, 0xF11BFAA8, 0x529E7D00, 0x49231C1E, 0x52F1CCF7, 0x6E5C390C,
         0x4ED8AA4A, 0xC21462BC, 0xF5702FDB, 0x9F4787C3);
    Turn(m, 54, 0xF5702FDB, 0x101FD28F, 0x886E7A22, 0x7A0508A1, 0x9F4787C3, 0x529E7D00, 0x49231C1E, 0x52F1CCF7,
         0x5B9CCA4F, 0x1487472C, 0x3EC45CDB, 0xE50E1B4F);
    Turn(m, 55, 0x3EC45CDB, 0xF5702FDB, 0x101FD28F, 0x886E7A22, 0xE50E1B4F, 0x9F4787C3, 0x529E7D00, 0x49231C1E,
         0x682E6FF3, 0xB20F7A99, 0x38CC9913, 0x54CB266B);
  }

  lemma Keys7()
    ensures K[56] == 0x748F82EE && K[57] == 0x78A5636F && K[58] == 0x84C87814 && K[59] == 0x8CC70208
    ensures K[60] == 0x90BEFFFA && K[61] == 0xA4506CEB && K[62] == 0xBEF9A3F7 && K[63] == 0xC67178F2
  {
  }

  lemma Sums7()
    ensures First(0x38CC9913, 0x3EC45CDB, 0xF5702FDB, 0x54CB266B, 0xE50E1B4F, 0x9F4787C3, 0x529E7D00, 0x748F82EE, 0xEF57B9CD) == 0xFCD1887B
    ensures Fifth(0x101FD28F, 0x54CB266B, 0xE50E1B4F, 0x9F4787C3, 0x529E7D00, 0x748F82EE, 0xEF57B9CD) == 0x9B5E906C
    ensures First(0xFCD1887B, 0x38CC9913, 0x3EC45CDB, 0x9B5E906C, 0x54CB266B, 0xE50E1B4F, 0x9F4787C3, 0x78A5636F, 0xEBE6B238) == 0xC062D46F
    ensures Fifth(0xF5702FDB, 0x9B5E906C, 0x54CB266B, 0xE50E1B4F, 0x9F4787C3, 0x78A5636F, 0xEBE6B238) == 0x7E44008E
    ensures First(0xC062D46F, 0xFCD1887B, 0x38CC9913, 0x7E44008E, 0x9B5E906C, 0x54CB266B, 0xE50E1B4F, 0x84C87814, 0x9FE3095E) == 0xFFB70472
    ensures Fifth(0x3EC45CDB, 0x7E44008E, 0x9B5E906C, 0x54CB266B, 0xE50E1B4F, 0x84C87814, 0x9FE3095E) == 0x6D83BFC6
    ensures First(0xFFB70472, 0xC062D46F, 0xFCD1887B, 0x6D83BFC6, 0x7E44008E, 0x9B5E906C, 0x54CB266B, 0x8CC70208, 0x78BC8D4B) == 0xB6AE8FFF
    ensures Fifth(0x38CC9913, 0x6D83BFC6, 0x7E44008E, 0x9B5E906C, 0x54CB266B, 0x8CC70208, 0x78BC8D4B) == 0xB21BAD3D
    ensures First(0xB6AE8FFF, 0xFFB70472, 0xC062D46F, 0xB21BAD3D, 0x6D83BFC6, 0x7E44008E, 0x9B5E906C, 0x90BEFFFA, 0xA43FCF15) == 0xB85E2CE9
    ensures Fifth(0xFCD1887B, 0xB21BAD3D, 0x6D83BFC6, 0x7E44008E, 0x9B5E906C, 0x90BEFFFA, 0xA43FCF15) == 0x961F4894
    ensures First(0xB85E2CE9, 0xB6AE8FFF, 0xFFB70472, 0x961F4894, 0xB21BAD3D, 0x6D83BFC6, 0x7E44008E, 0xA4506CEB, 0x668B2FF8) == 0x04D24D6C
    ensures Fifth(0xC062D46F, 0x961F4894, 0xB21BAD3D, 0x6D83BFC6, 0x7E44008E, 0xA4506CEB, 0x668B2FF8) == 0x948D25B6
    ensures First(0x04D24D6C, 0xB85E2CE9, 0xB6AE8FFF, 0x948D25B6, 0x961F4894, 0xB21BAD3D, 0x6D83BFC6, 0xBEF9A3F7, 0xEEABA2CC) == 0xD39A2165
    ensures Fifth(0xFFB70472, 0x948D25B6, 0x961F4894, 0xB21BAD3D, 0x6D83BFC6, 0xBEF9A3F7, 0xEEABA2CC) == 0xFB121210
    ensures First(0xD39A2165, 0x04D24D6C, 0xB85E2CE9, 0xFB121210, 0x948D25B6, 0x961F4894, 0xB21BAD3D, 0xC67178F2, 0x12B1EDEB) == 0x506E3058
    ensures Fifth(0xB6AE8FFF, 0xFB121210, 0x948D25B6, 0x961F4894, 0xB21BAD3D, 0xC67178F2, 0x12B1EDEB) == 0x5EF50F24
  {
  }

  lemma Turns7(m: seq<Byte>)
    requires |m| == 64 && Words7(m) && Rounds(INITIAL, m, 56) == Regs(0x38CC9913, 0x3EC45CDB, 0xF5702FDB, 0x101FD28F, 0x54CB266B, 0xE50E1B4F, 0x9F4787C3, 0x529E7D00)
    ensures Rounds(INITIAL, m, 64) == Regs(0x506E3058, 0xD39A2165, 0x04D24D6C, 0xB85E2CE9, 0x5EF50F24, 0xFB121210, 0x948D25B6, 0x961F4894)
  {
    hide Rounds, W, K, INITIAL, First, Fifth;
    Keys7();
    Sums7();
    Turn(m, 56, 0x38CC9913, 0x3EC45CDB, 0xF5702FDB, 0x101FD28F, 0x54CB266B, 0xE50E1B4F, 0x9F4787C3, 0x529E7D00,
         0x748F82EE, 0xEF57B9CD, 0xFCD1887B, 0x9B5E906C);
    Turn(m, 57, 0xFCD1887B, 0x38CC9913, 0x3EC45CDB, 0xF5702FDB, 0x9B5E906C, 0x54CB266B, 0xE50E1B4F, 0x9F4787C3,
         0x78A5636F, 0xEBE6B238, 0xC062D46F, 0x7E44008E);
    Turn(m, 58, 0xC062D46F, 0xFCD1887B, 0x38CC9913, 0x3EC45CDB, 0x7E44008E, 0x9B5E906C, 0x54CB266B, 0xE50E1B4F,
         0x84C87814, 0x9FE3095E, 0xFFB70472, 0x6D83BFC6);
    Turn(m, 59, 0xFFB70472, 0xC062D46F, 0xFCD1887B, 0x38CC9913, 0x6D83BFC6, 0x7E44008E, 0x9B5E906C, 0x54CB266B,
         0x8CC70208, 0x78BC8D4B, 0xB6AE8FFF, 0xB21BAD3D);
    Turn(m, 60, 0xB6AE8FFF, 0xFFB70472, 0xC062D46F, 0xFCD1887B, 0xB21BAD3D, 0x6D83BFC6, 0x7E44008E, 0x9B5E906C,
         0x90BEFFFA, 0xA43FCF15, 0xB85E2CE9, 0x961F4894);
    Turn(m, 61, 0xB85E2CE9, 0xB6AE8FFF, 0xFFB70472, 0xC062D46F, 0x961F4894, 0xB21BAD3D, 0x6D83BFC6, 0x7E44008E,
         0xA4506CEB, 0x668B2FF8, 0x04D24D6C, 0x948D25B6);
    Turn(m, 62, 0x04D24D6C, 0xB85E2CE9, 0xB6AE8FFF, 0xFFB70472, 0x948D25B6, 0x961F4894, 0xB21BAD3D, 0x6D83BFC6,
         0xBEF9A3F7, 0xEEABA2CC, 0xD39A2165, 0xFB121210);
    Turn(m, 63, 0xD39A2165, 0x04D24D6C, 0xB85E2CE9, 0xB6AE8FFF, 0xFB121210, 0x948D25B6, 0x961F4894, 0xB21BAD3D,
         0xC67178F2, 0x12B1EDEB, 0x506E3058, 0x5EF50F24);
  }

  // ---------------------------------------------------------------- the digest

  lemma AllWords(m: seq<Byte>)
    requires |m| == 64 && Words0(m) && Words1(m)
    ensures Words2(m) && Words3(m) && Words4(m) && Words5(m) && Words6(m) && Words7(m)
  {
    hide *;
    Schedule2(m);
    Schedule3(m);
    Schedule4(m);
    Schedule5(m);
    Schedule6(m);
    Schedule7(m);
  }

  lemma AllTurns(m: seq<Byte>)
    requires |m| == 64 && Words0(m) && Words1(m)
    ensures Rounds(INITIAL, m, 64) == Regs(0x506E3058, 0xD39A2165, 0x04D24D6C, 0xB85E2CE9, 0x5EF50F24, 0xFB121210, 0x948D25B6, 0x961F4894)
  {
    assert Rounds(INITIAL, m, 0) == Regs(0x6A09E667, 0xBB67AE85, 0x3C6EF372, 0xA54FF53A, 0x510E527F, 0x9B05688C, 0x1F83D9AB, 0x5BE0CD19);
    hide *;
    AllWords(m);
    Turns0(m);
    Turns1(m);
    Turns2(m);
    Turns3(m);
    Turns4(m);
    Turns5(m);
    Turns6(m);
    Turns7(m);
  }

  lemma Added()
    ensures Add(Regs(0x6A09E667, 0xBB67AE85, 0x3C6EF372, 0xA54FF53A, 0x510E527F, 0x9B05688C, 0x1F83D9AB, 0x5BE0CD19), Regs(0x506E3058, 0xD39A2165, 0x04D24D6C, 0xB85E2CE9, 0x5EF50F24, 0xFB121210, 0x948D25B6, 0x961F4894))
            == Regs(0xBA7816BF, 0x8F01CFEA, 0x414140DE, 0x5DAE2223, 0xB00361A3, 0x96177A9C, 0xB410FF61, 0xF20015AD)
  {
  }

  lemma FoldOne(m: seq<Byte>)
    requires |m| == 64
    ensures Fold(m) == Compress(INITIAL, m)
  {
    assert m[..0] == [] && m[0..] == m;
    assert Fold([]) == INITIAL;
    hide Compress;
  }

  lemma Folded()
    ensures Fold(Padded(ABC)) == Regs(0xBA7816BF, 0x8F01CFEA, 0x414140DE, 0x5DAE2223, 0xB00361A3, 0x96177A9C, 0xB410FF61, 0xF20015AD)
  {
    var m := Padded(ABC);
    Block();
    FoldOne(m);
    AllTurns(m);
    Added();
    assert INITIAL == Regs(0x6A09E667, 0xBB67AE85, 0x3C6EF372, 0xA54FF53A, 0x510E527F, 0x9B05688C, 0x1F83D9AB, 0x5BE0CD19);
    hide Add, Rounds, Fold, Padded, INITIAL;
  }

  lemma HexOf(w: Word, rest: seq<Byte>)
    ensures Hex(rest + WordBytes(w)) == Hex(rest) + Hex(WordBytes(w))
  {
    hide WordBytes;
    HexJoins(rest, WordBytes(w));
  }

  lemma {:induction false} HexJoins(a: seq<Byte>, b: seq<Byte>)
    ensures Hex(a + b) == Hex(a) + Hex(b)
    decreases |b|
  {
    if b == [] {
      assert a + b == a;
    } else {
      assert (a + b)[..|a + b| - 1] == a + b[..|b| - 1];
      HexJoins(a, b[..|b| - 1]);
    }
  }

  lemma Spelled0()
    ensures Spelled(0xBA7816BF) == "ba7816bf"
  {
    assert WordBytes(0xBA7816BF) == [186, 120, 22, 191];
    hide WordBytes;
    FourHex(186, 120, 22, 191);
  }

  lemma Spelled1()
    ensures Spelled(0x8F01CFEA) == "8f01cfea"
  {
    assert WordBytes(0x8F01CFEA) == [143, 1, 207, 234];
    hide WordBytes;
    FourHex(143, 1, 207, 234);
  }

  lemma Spelled2()
    ensures Spelled(0x414140DE) == "414140de"
  {
    assert WordBytes(0x414140DE) == [65, 65, 64, 222];
    hide WordBytes;
    FourHex(65, 65, 64, 222);
  }

  lemma Spelled3()
    ensures Spelled(0x5DAE2223) == "5dae2223"
  {
    assert WordBytes(0x5DAE2223) == [93, 174, 34, 35];
    hide WordBytes;
    FourHex(93, 174, 34, 35);
  }

  lemma Spelled4()
    ensures Spelled(0xB00361A3) == "b00361a3"
  {
    assert WordBytes(0xB00361A3) == [176, 3, 97, 163];
    hide WordBytes;
    FourHex(176, 3, 97, 163);
  }

  lemma Spelled5()
    ensures Spelled(0x96177A9C) == "96177a9c"
  {
    assert WordBytes(0x96177A9C) == [150, 23, 122, 156];
    hide WordBytes;
    FourHex(150, 23, 122, 156);
  }

  lemma Spelled6()
    ensures Spelled(0xB410FF61) == "b410ff61"
  {
    assert WordBytes(0xB410FF61) == [180, 16, 255, 97];
    hide WordBytes;
    FourHex(180, 16, 255, 97);
  }

  lemma Spelled7()
    ensures Spelled(0xF20015AD) == "f20015ad"
  {
    assert WordBytes(0xF20015AD) == [242, 0, 21, 173];
    hide WordBytes;
    FourHex(242, 0, 21, 173);
  }

  lemma FourHex(a: Byte, b: Byte, c: Byte, d: Byte)
    ensures Hex([a, b, c, d]) == [HexDigit(a / 16), HexDigit(a % 16), HexDigit(b / 16), HexDigit(b % 16),
                                  HexDigit(c / 16), HexDigit(c % 16), HexDigit(d / 16), HexDigit(d % 16)]
  {
    assert [a, b, c, d][..3] == [a, b, c] && [a, b, c][..2] == [a, b] && [a, b][..1] == [a] && [a][..0] == [];
    assert Hex([]) == "";
    hide HexDigit;
    assert Hex([a]) == [HexDigit(a / 16), HexDigit(a % 16)];
    assert Hex([a, b]) == Hex([a]) + [HexDigit(b / 16), HexDigit(b % 16)];
    assert Hex([a, b, c]) == Hex([a, b]) + [HexDigit(c / 16), HexDigit(c % 16)];
  }

  function Spelled(w: Word): string { Hex(WordBytes(w)) }

  lemma SpellNext(ws: seq<Word>, w: Word)
    ensures Hex(WordsBytes(ws + [w])) == Hex(WordsBytes(ws)) + Spelled(w)
  {
    hide Hex, WordBytes;
    assert (ws + [w])[..|ws|] == ws;
    HexOf(w, WordsBytes(ws));
  }

  function Two(a: Word, b: Word): string { Spelled(a) + Spelled(b) }

  function Four(a: Word, b: Word, c: Word, d: Word): string { Two(a, b) + Two(c, d) }

  lemma SpellTwo(ws: seq<Word>, a: Word, b: Word)
    ensures Hex(WordsBytes(ws + [a, b])) == Hex(WordsBytes(ws)) + Two(a, b)
  {
    SpellNext(ws, a);
    SpellNext(ws + [a], b);
    assert ws + [a, b] == ws + [a] + [b];
    hide Hex, WordsBytes, Spelled;
  }

  lemma SpellFour(ws: seq<Word>, a: Word, b: Word, c: Word, d: Word)
    ensures Hex(WordsBytes(ws + [a, b, c, d])) == Hex(WordsBytes(ws)) + Four(a, b, c, d)
  {
    SpellTwo(ws, a, b);
    SpellTwo(ws + [a, b], c, d);
    assert ws + [a, b, c, d] == ws + [a, b] + [c, d];
    hide Hex, WordsBytes, Two;
  }

  lemma NoWords()
    ensures Hex(WordsBytes([])) == ""
  {
  }

  lemma SpellRegs(r: Regs)
    ensures Hex(WordsBytes(Words(r))) == Four(r.a, r.b, r.c, r.d) + Four(r.e, r.f, r.g, r.h)
  {
    var front := [r.a, r.b, r.c, r.d];
    assert Words(r) == front + [r.e, r.f, r.g, r.h];
    hide *;
    NoWords();
    SpellFour([], r.a, r.b, r.c, r.d);
    assert [] + front == front;
    SpellFour(front, r.e, r.f, r.g, r.h);
  }

  /** Main result: the digest of "abc" is the one that the standard's example gives. */
  lemma DigestOfAbc()
    ensures Hex(Digest(ABC)) == 
            (("ba7816bf" + "8f01cfea") + ("414140de" + "5dae2223")) + (("b00361a3" + "96177a9c") + ("b410ff61" + "f20015ad"))
  {
    Folded();
    DigestIs();
    var r := Regs(0xBA7816BF, 0x8F01CFEA, 0x414140DE, 0x5DAE2223, 0xB00361A3, 0x96177A9C, 0xB410FF61, 0xF20015AD);
    hide *;
    SpellRegs(r);
    FirstHalf();
    SecondHalf();
  }

  lemma FirstHalf()
    ensures Four(0xBA7816BF, 0x8F01CFEA, 0x414140DE, 0x5DAE2223) == ("ba7816bf" + "8f01cfea") + ("414140de" + "5dae2223")
  {
    hide Spelled;
    Spelled0();
    Spelled1();
    Spelled2();
    Spelled3();
  }

  lemma SecondHalf()
    ensures Four(0xB00361A3, 0x96177A9C, 0xB410FF61, 0xF20015AD) == ("b00361a3" + "96177a9c") + ("b410ff61" + "f20015ad")
  {
    hide Spelled;
    Spelled4();
    Spelled5();
    Spelled6();
    Spelled7();
  }

  lemma DigestIs()
    ensures Digest(ABC) == WordsBytes(Words(Fold(Padded(ABC))))
  {
    hide Padded, Fold, WordsBytes, Words;
  }
}
