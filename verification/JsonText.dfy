/** JSON strings: escapes, code points and their UTF-8 bytes. Characters stand for bytes. */
module JsonText {
  import opened Options
  import opened Strings

  const CODE_LIMIT: nat := 0x11_0000

  function Byte(n: nat): char
    requires n < 256
  {
    n as char
  }

  predicate IsHex4(s: string) { |s| == 4 && forall i | 0 <= i < 4 :: HexValue(s[i]) >= 0 }

  function Hex4(s: string): (v: nat)
    requires IsHex4(s)
    ensures v < 0x1_0000
  {
    HexValue(s[0]) * 0x1000 + HexValue(s[1]) * 0x100 + HexValue(s[2]) * 0x10 + HexValue(s[3])
  }

  predicate IsHigh(c: nat) { 0xD800 <= c <= 0xDBFF }

  predicate IsLow(c: nat) { 0xDC00 <= c <= 0xDFFF }

  /** The code point of a surrogate pair. */
  function Combined(high: nat, low: nat): (c: nat)
    requires IsHigh(high) && IsLow(low)
    ensures 0x1_0000 <= c < CODE_LIMIT
  {
    0x1_0000 + (high - 0xD800) * 0x400 + (low - 0xDC00)
  }

  /** The bytes of a code point, as the table of section 3 of RFC 3629 has them. */
  function Utf8(c: nat): (b: string)
    requires c < CODE_LIMIT
    ensures 1 <= |b| <= 4
  {
    if c < 0x80 then [Byte(c)]
    else if c < 0x800 then [Byte(0xC0 + c / 0x40), Byte(0x80 + c % 0x40)]
    else if c < 0x1_0000 then [Byte(0xE0 + c / 0x1000), Byte(0x80 + c / 0x40 % 0x40), Byte(0x80 + c % 0x40)]
    else [Byte(0xF0 + c / 0x4_0000), Byte(0x80 + c / 0x1000 % 0x40), Byte(0x80 + c / 0x40 % 0x40), Byte(0x80 + c % 0x40)]
  }

  /** A code point read back from its bytes. */
  function FromUtf8(b: string): nat
    requires 1 <= |b| <= 4
  {
    if |b| == 1 then b[0] as int
    else if |b| == 2 then b[0] as int % 0x20 * 0x40 + b[1] as int % 0x40
    else if |b| == 3 then b[0] as int % 0x10 * 0x1000 + b[1] as int % 0x40 * 0x40 + b[2] as int % 0x40
    else b[0] as int % 8 * 0x4_0000 + b[1] as int % 0x40 * 0x1000 + b[2] as int % 0x40 * 0x40 + b[3] as int % 0x40
  }

  /** A number in groups of six bits. */
  lemma SixBits(c: nat)
    ensures c == c / 0x40 * 0x40 + c % 0x40
    ensures c / 0x1000 == c / 0x40 / 0x40 && c / 0x4_0000 == c / 0x1000 / 0x40
  {
  }

  lemma TwoBytes(x: nat, r0: nat)
    requires x < 0x20 && r0 < 0x40
    ensures FromUtf8([Byte(0xC0 + x), Byte(0x80 + r0)]) == x * 0x40 + r0
  {
    assert (0xC0 + x) % 0x20 == x && (0x80 + r0) % 0x40 == r0;
  }

  lemma ThreeBytes(y: nat, r1: nat, r0: nat)
    requires y < 0x10 && r1 < 0x40 && r0 < 0x40
    ensures FromUtf8([Byte(0xE0 + y), Byte(0x80 + r1), Byte(0x80 + r0)]) == (y * 0x40 + r1) * 0x40 + r0
  {
    assert (0xE0 + y) % 0x10 == y && (0x80 + r0) % 0x40 == r0 && (0x80 + r1) % 0x40 == r1;
  }

  lemma FourBytes(z: nat, r2: nat, r1: nat, r0: nat)
    requires z < 8 && r2 < 0x40 && r1 < 0x40 && r0 < 0x40
    ensures FromUtf8([Byte(0xF0 + z), Byte(0x80 + r2), Byte(0x80 + r1), Byte(0x80 + r0)]) == ((z * 0x40 + r2) * 0x40 + r1) * 0x40 + r0
  {
    assert (0xF0 + z) % 8 == z && (0x80 + r0) % 0x40 == r0 && (0x80 + r1) % 0x40 == r1 && (0x80 + r2) % 0x40 == r2;
  }

  /** No two code points share their bytes; and beyond ASCII no byte is an ASCII one. */
  lemma Utf8Kept(c: nat)
    requires c < CODE_LIMIT
    ensures FromUtf8(Utf8(c)) == c
    ensures c >= 0x80 ==> forall i | 0 <= i < |Utf8(c)| :: Utf8(c)[i] as int >= 0x80
  {
    var x, y, z := c / 0x40, c / 0x1000, c / 0x4_0000;
    SixBits(c);
    SixBits(x);
    SixBits(y);
    hide FromUtf8;
    if c < 0x80 {
      OneByte(c);
    } else if c < 0x800 {
      TwoBytes(x, c % 0x40);
    } else if c < 0x1_0000 {
      ThreeBytes(y, x % 0x40, c % 0x40);
    } else {
      FourBytes(z, y % 0x40, x % 0x40, c % 0x40);
    }
  }

  lemma OneByte(c: nat)
    requires c < 0x80
    ensures FromUtf8([Byte(c)]) == c
  {
  }

  // -------------------------------------------------------------------- decoding

  predicate IsShortEscape(ch: char) {
    ch == '"' || ch == '\\' || ch == '/' || ch == 'b' || ch == 'f' || ch == 'n' || ch == 'r' || ch == 't'
  }

  function ShortEscape(ch: char): (c: char)
    requires IsShortEscape(ch)
  {
    match ch
    case 'b' => Byte(8)
    case 'f' => Byte(12)
    case 'n' => '\n'
    case 'r' => '\r'
    case 't' => '\t'
    case _ => ch
  }

  /** A unit of a string's text: the bytes it stands for and where the next one begins. */
  datatype Read = Read(bytes: string, next: nat)

  predicate HasPair(text: string, i: nat) {
    && i + 6 <= |text| && text[i] == '\\' && text[i + 1] == 'u' && IsHex4(text[i + 2..i + 6])
    && IsLow(Hex4(text[i + 2..i + 6]))
  }

  /** A \u escape whose digits begin at i; a high surrogate takes a low one that follows. */
  function ReadCode(text: string, i: nat): (r: Option<Read>)
    ensures r.Some? ==> i + 4 <= r.value.next <= |text| && 1 <= |r.value.bytes| <= 4
  {
    if i + 4 > |text| || !IsHex4(text[i..i + 4]) then None
    else
      var c := Hex4(text[i..i + 4]);
      if IsHigh(c) && HasPair(text, i + 4) then Some(Read(Utf8(Combined(c, Hex4(text[i + 6..i + 10]))), i + 10))
      else Some(Read(Utf8(c), i + 4))
  }

  /** One unit at i, which is not the closing quote. */
  function ReadUnit(text: string, i: nat): (r: Option<Read>)
    requires i < |text|
    ensures r.Some? ==> i < r.value.next <= |text| && 1 <= |r.value.bytes| <= r.value.next - i
  {
    var ch := text[i];
    if ch as int < 0x20 then None
    else if ch != '\\' then Some(Read([ch], i + 1))
    else if i + 1 >= |text| then None
    else if IsShortEscape(text[i + 1]) then Some(Read([ShortEscape(text[i + 1])], i + 2))
    else if text[i + 1] == 'u' then
      var code := ReadCode(text, i + 2);
      assert code.Some? ==> code.value.next >= i + 6;
      code
    else None
  }

  /** The text from i up to the closing quote: its bytes and the position after the quote. */
  function Body(text: string, i: nat): (r: Option<Read>)
    requires i <= |text|
    ensures r.Some? ==> i < r.value.next <= |text| && |r.value.bytes| < r.value.next - i
    decreases |text| - i
  {
    if i == |text| then None
    else if text[i] == '"' then Some(Read("", i + 1))
    else match ReadUnit(text, i)
         case None => None
         case Some(unit) =>
           match Body(text, unit.next)
           case None => None
           case Some(rest) => Some(Read(unit.bytes + rest.bytes, rest.next))
  }

  /** A string at i, quotes and all. */
  function ReadString(text: string, i: nat): (r: Option<Read>)
    requires i <= |text|
    ensures r.Some? ==> i < r.value.next <= |text|
  {
    if i == |text| || text[i] != '"' then None else Body(text, i + 1)
  }

  // ------------------------------------------------------------------- spellings

  /** The ways section 7 of RFC 8259 has to spell a code point. */
  datatype Spelling =
    | Raw(code: nat)
    | Short(letter: char)
    | Unicode(digits: string)
    | Pair(high: string, low: string)

  predicate Good(s: Spelling) {
    match s
    case Raw(c) => 0x20 <= c < CODE_LIMIT && c != '"' as int && c != '\\' as int && !IsHigh(c) && !IsLow(c)
    case Short(ch) => IsShortEscape(ch)
    case Unicode(d) => IsHex4(d) && !IsHigh(Hex4(d)) && !IsLow(Hex4(d))
    case Pair(h, l) => IsHex4(h) && IsHex4(l) && IsHigh(Hex4(h)) && IsLow(Hex4(l))
  }

  /** The code point that is spelled. */
  function CodeOf(s: Spelling): (c: nat)
    requires Good(s)
    ensures c < CODE_LIMIT
  {
    match s
    case Raw(c) => c
    case Short(ch) => EscapeCode(ch)
    case Unicode(d) => Hex4(d)
    case Pair(h, l) => Combined(Hex4(h), Hex4(l))
  }

  function EscapeCode(ch: char): (c: nat)
    requires IsShortEscape(ch)
    ensures c < 0x80 && [c as char] == [ShortEscape(ch)]
  {
    ShortEscape(ch) as int
  }

  function TextOf(s: Spelling): string
    requires Good(s)
  {
    match s
    case Raw(c) => Utf8(c)
    case Short(ch) => ['\\', ch]
    case Unicode(d) => "\\u" + d
    case Pair(h, l) => "\\u" + h + ("\\u" + l)
  }

  predicate AllGood(ss: seq<Spelling>) { forall i | 0 <= i < |ss| :: Good(ss[i]) }

  function Spelled(ss: seq<Spelling>): string
    requires AllGood(ss)
  {
    if ss == [] then "" else TextOf(ss[0]) + Spelled(ss[1..])
  }

  /** The text meant: the UTF-8 bytes of all code points. */
  function Meant(ss: seq<Spelling>): string
    requires AllGood(ss)
  {
    if ss == [] then "" else Utf8(CodeOf(ss[0])) + Meant(ss[1..])
  }

  /** text goes on at i with a piece, and behind it with the rest. */
  predicate At(text: string, i: nat, piece: string) { i + |piece| <= |text| && text[i..i + |piece|] == piece }

  lemma AtSplit(text: string, i: nat, a: string, b: string)
    ensures At(text, i, a + b) <==> At(text, i, a) && At(text, i + |a|, b)
  {
    if i + |a| + |b| <= |text| {
      var whole := text[i..i + |a| + |b|];
      assert whole[..|a|] == text[i..i + |a|] && whole[|a|..] == text[i + |a|..i + |a| + |b|];
      assert (a + b)[..|a|] == a && (a + b)[|a|..] == b;
      assert whole == whole[..|a|] + whole[|a|..];
    }
  }

  lemma AtIndex(text: string, i: nat, piece: string, k: nat)
    requires At(text, i, piece) && k < |piece|
    ensures i + k < |text| && text[i + k] == piece[k]
  {
    assert text[i..i + |piece|][k] == text[i + k];
  }

  lemma CopiesOne(text: string, i: nat)
    requires i < |text| && text[i] as int >= 0x20 && text[i] != '"' && text[i] != '\\' && Body(text, i + 1).Some?
    ensures Body(text, i) == Some(Read([text[i]] + Body(text, i + 1).value.bytes, Body(text, i + 1).value.next))
  {
  }

  /** Bytes of a raw code point are copied one by one. */
  lemma {:induction false} CopiesRun(text: string, i: nat, n: nat)
    requires i + n <= |text| && Body(text, i + n).Some?
    requires forall k | i <= k < i + n :: text[k] as int >= 0x20 && text[k] != '"' && text[k] != '\\'
    ensures Body(text, i) == Some(Read(text[i..i + n] + Body(text, i + n).value.bytes, Body(text, i + n).value.next))
    decreases n
  {
    hide Body;
    var rest := Body(text, i + n).value.bytes;
    if n == 0 {
      assert text[i..i] + rest == rest;
    } else {
      CopiesRun(text, i + 1, n - 1);
      CopiesOne(text, i);
      assert [text[i]] + (text[i + 1..i + n] + rest) == text[i..i + n] + rest;
    }
  }

  lemma RawBytes(c: nat)
    requires Good(Raw(c))
    ensures forall k | 0 <= k < |Utf8(c)| :: Utf8(c)[k] as int >= 0x20 && Utf8(c)[k] != '"' && Utf8(c)[k] != '\\'
  {
    Utf8Kept(c);
  }

  lemma UnicodeAt(text: string, i: nat, d: string)
    requires IsHex4(d) && At(text, i, "\\u" + d) && !IsHigh(Hex4(d))
    ensures i < |text| && text[i] != '"' && ReadUnit(text, i) == Some(Read(Utf8(Hex4(d)), i + 6))
  {
    AtIndex(text, i, "\\u" + d, 0);
    AtIndex(text, i, "\\u" + d, 1);
    AtSplit(text, i, "\\u", d);
  }

  lemma PairAt(text: string, i: nat, h: string, l: string)
    requires Good(Pair(h, l)) && At(text, i, "\\u" + h + ("\\u" + l))
    ensures i < |text| && text[i] != '"'
    ensures ReadUnit(text, i) == Some(Read(Utf8(Combined(Hex4(h), Hex4(l))), i + 12))
  {
    AtSplit(text, i, "\\u" + h, "\\u" + l);
    AtIndex(text, i, "\\u" + h, 0);
    AtIndex(text, i, "\\u" + h, 1);
    AtSplit(text, i, "\\u", h);
    AtIndex(text, i + 6, "\\u" + l, 0);
    AtIndex(text, i + 6, "\\u" + l, 1);
    AtSplit(text, i + 6, "\\u", l);
  }

  lemma RunAt(text: string, i: nat, run: string)
    requires At(text, i, run)
    ensures forall k | i <= k < i + |run| :: text[k] == run[k - i]
  {
    forall k | i <= k < i + |run|
      ensures text[k] == run[k - i]
    {
      AtIndex(text, i, run, k - i);
    }
  }

  lemma UnitFirst(text: string, i: nat, unit: Read)
    requires i < |text| && text[i] != '"' && ReadUnit(text, i) == Some(unit) && Body(text, unit.next).Some?
    ensures Body(text, i) == Some(Read(unit.bytes + Body(text, unit.next).value.bytes, Body(text, unit.next).value.next))
  {
    hide ReadUnit;
  }

  lemma ShortAt(text: string, i: nat, ch: char)
    requires IsShortEscape(ch) && At(text, i, ['\\', ch])
    ensures i < |text| && text[i] != '"' && ReadUnit(text, i) == Some(Read([ShortEscape(ch)], i + 2))
    ensures Utf8(EscapeCode(ch)) == [ShortEscape(ch)]
  {
    AtIndex(text, i, ['\\', ch], 0);
    AtIndex(text, i, ['\\', ch], 1);
  }

  lemma RawAt(text: string, i: nat, c: nat)
    requires Good(Raw(c)) && At(text, i, Utf8(c)) && Body(text, i + |Utf8(c)|).Some?
    ensures var rest := Body(text, i + |Utf8(c)|).value;
            Body(text, i) == Some(Read(Utf8(c) + rest.bytes, rest.next))
  {
    RawBytes(c);
    hide Body, Utf8, Good;
    RunAt(text, i, Utf8(c));
    CopiesRun(text, i, |Utf8(c)|);
  }

  /** One spelling at i is read as its code point. */
  lemma SpellingRead(text: string, i: nat, s: Spelling)
    requires Good(s) && At(text, i, TextOf(s)) && Body(text, i + |TextOf(s)|).Some?
    ensures var rest := Body(text, i + |TextOf(s)|).value;
            Body(text, i) == Some(Read(Utf8(CodeOf(s)) + rest.bytes, rest.next))
  {
    hide Body, ReadUnit, At, Hex4, HexValue, Utf8;
    match s
    case Raw(c) =>
      RawAt(text, i, c);
    case Short(ch) =>
      ShortAt(text, i, ch);
      UnitFirst(text, i, Read([ShortEscape(ch)], i + 2));
    case Unicode(d) =>
      UnicodeAt(text, i, d);
      UnitFirst(text, i, Read(Utf8(Hex4(d)), i + 6));
    case Pair(h, l) =>
      PairAt(text, i, h, l);
      UnitFirst(text, i, Read(Utf8(Combined(Hex4(h), Hex4(l))), i + 12));
  }

  lemma SpelledFirst(ss: seq<Spelling>)
    requires AllGood(ss) && ss != []
    ensures AllGood(ss[1..]) && Spelled(ss) == TextOf(ss[0]) + Spelled(ss[1..])
    ensures Meant(ss) == Utf8(CodeOf(ss[0])) + Meant(ss[1..])
  {
    assert forall k | 0 <= k < |ss[1..]| :: ss[1..][k] == ss[k + 1];
    hide TextOf, Utf8, CodeOf;
  }

  lemma SpelledEmpty()
    ensures Spelled([]) == Meant([]) == ""
  {
  }

  lemma QuoteRead(text: string, i: nat)
    requires At(text, i, "\"")
    ensures Body(text, i) == Some(Read("", i + 1))
  {
    AtIndex(text, i, "\"", 0);
  }

  /** Main result: any spelling of a text, before a quote, decodes to the text's UTF-8 bytes. */
  lemma {:induction false} SpelledRead(text: string, i: nat, ss: seq<Spelling>)
    requires AllGood(ss) && At(text, i, Spelled(ss)) && At(text, i + |Spelled(ss)|, "\"")
    ensures Body(text, i) == Some(Read(Meant(ss), i + |Spelled(ss)| + 1))
    decreases |ss|
  {
    hide TextOf, Utf8, CodeOf, Body, At, Spelled, Meant;
    if ss == [] {
      SpelledEmpty();
      QuoteRead(text, i);
    } else {
      SpelledFirst(ss);
      var n := |TextOf(ss[0])|;
      AtSplit(text, i, TextOf(ss[0]), Spelled(ss[1..]));
      SpelledRead(text, i + n, ss[1..]);
      SpellingRead(text, i, ss[0]);
    }
  }

  // ------------------------------------------------------------ the string reader

  /** Stores a code point's bytes if they fit with room for the end of the string. */
  method EmitUtf8(out: array<char>, used: nat, code: nat) returns (ok: bool, now: nat)
    requires used <= out.Length
    modifies out
    ensures ok <==> code < CODE_LIMIT && used + |Utf8(code)| < out.Length
    ensures ok ==> now == used + |Utf8(code)| && out[..now] == old(out[..used]) + Utf8(code)
    ensures !ok ==> now == used && out[..used] == old(out[..used])
  {
    now := used;
    var bytes: string;
    if code <= 0x7F {
      bytes := [Byte(code)];
    } else if code <= 0x7FF {
      bytes := [Byte(0xC0 + code / 0x40), Byte(0x80 + code % 0x40)];
    } else if code <= 0xFFFF {
      bytes := [Byte(0xE0 + code / 0x1000), Byte(0x80 + code / 0x40 % 0x40), Byte(0x80 + code % 0x40)];
    } else if code <= 0x10FFFF {
      bytes := [Byte(0xF0 + code / 0x4_0000), Byte(0x80 + code / 0x1000 % 0x40), Byte(0x80 + code / 0x40 % 0x40),
                Byte(0x80 + code % 0x40)];
    } else {
      return false, used;
    }
    if used + |bytes| >= out.Length {
      return false, used;
    }
    ghost var was := out[..used];
    for i := 0 to |bytes|
      invariant now == used + i && out[..now] == was + bytes[..i]
    {
      out[now] := bytes[i];
      assert out[..now + 1] == was + bytes[..i] + [bytes[i]];
      assert bytes[..i + 1] == bytes[..i] + [bytes[i]];
      now := now + 1;
    }
    assert bytes[..|bytes|] == bytes;
    return true, now;
  }
}
