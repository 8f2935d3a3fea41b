/**
  The chunked-transfer decoder: a machine over bytes that can be fed a body in pieces. Encodings
  are those of section 7.1 of RFC 9112.
*/
module Chunked {
  import opened Strings

  const SIZE_LIMIT := 0x1_0000_0000_0000_0000

  datatype Phase = Size | SizeLf | Data | DataLf | Trailer | TrailerLf

  datatype State = State(phase: Phase, remaining: nat, sizeAcc: nat, trailerLineLen: nat,
                         hasDigit: bool, inExtension: bool, done: bool)

  const START := State(Size, 0, 0, 0, false, false, false)

  // ------------------------------------------------------------------ one byte

  /** What one byte does: the next state and the bytes put out, or a rejection. */
  datatype Move = Go(state: State, out: string) | Reject

  function FinishSizeLine(s: State): Move {
    if !s.hasDigit then Reject
    else if s.sizeAcc == 0 then
      Go(s.(remaining := 0, hasDigit := false, inExtension := false, trailerLineLen := 0, phase := Trailer), "")
    else
      Go(s.(remaining := s.sizeAcc, sizeAcc := 0, hasDigit := false, inExtension := false, phase := Data), "")
  }

  function SizeByte(s: State, ch: char): Move {
    if ch == '\r' then Go(s.(phase := SizeLf), "")
    else if ch == '\n' then FinishSizeLine(s)
    else if ch == ';' then (if s.hasDigit then Go(s.(inExtension := true), "") else Reject)
    else if s.inExtension || ch == ' ' || ch == '\t' then Go(s, "")
    else if !IsHex(ch) || s.sizeAcc > (SIZE_LIMIT - 1) / 16 then Reject
    else Go(s.(sizeAcc := s.sizeAcc * 16 + HexValue(ch), hasDigit := true), "")
  }

  function EndTrailerLine(s: State): State {
    if s.trailerLineLen == 0 then s.(done := true) else s.(trailerLineLen := 0, phase := Trailer)
  }

  function DataByte(s: State, ch: char): Move
    requires s.remaining > 0
  {
    Go(s.(remaining := s.remaining - 1, phase := if s.remaining == 1 then DataLf else Data), [ch])
  }

  function DataLfByte(s: State, ch: char): Move {
    if ch == '\r' then Go(s.(phase := DataLf), "")
    else if ch == '\n' then Go(s.(phase := Size), "")
    else Reject
  }

  function Step(s: State, ch: char): Move {
    match s.phase
    case Data => if s.remaining == 0 then DataLfByte(s, ch) else DataByte(s, ch)
    case Size => SizeByte(s, ch)
    case SizeLf => if ch == '\n' then FinishSizeLine(s) else Reject
    case DataLf => DataLfByte(s, ch)
    case Trailer =>
      if ch == '\r' then Go(s.(phase := TrailerLf), "")
      else if ch == '\n' then Go(EndTrailerLine(s), "")
      else Go(s.(trailerLineLen := s.trailerLineLen + 1), "")
    case TrailerLf => if ch == '\n' then Go(EndTrailerLine(s), "") else Reject
  }

  // -------------------------------------------------------------------- a feed

  /** Where a feed ends: the state, all that was put out, and whether nothing was rejected. */
  datatype Fed = Fed(state: State, out: string, ok: bool)

  function Feed(s: State, data: string): Fed
    decreases |data|
  {
    if data == "" || s.done then Fed(s, "", true)
    else match Step(s, data[0])
         case Reject => Fed(s, "", false)
         case Go(t, out) =>
           var rest := Feed(t, data[1..]);
           Fed(rest.state, out + rest.out, rest.ok)
  }

  /** Feeding pieces one after the other, stopping at a rejection. */
  function FeedPieces(s: State, pieces: seq<string>): Fed
    decreases |pieces|
  {
    if pieces == [] then Fed(s, "", true)
    else
      var first := Feed(s, pieces[0]);
      if !first.ok then first
      else
        var rest := FeedPieces(first.state, pieces[1..]);
        Fed(rest.state, first.out + rest.out, rest.ok)
  }

  lemma {:induction false} FeedSplits(s: State, a: string, b: string)
    ensures var f := Feed(s, a);
            Feed(s, a + b) == if !f.ok then f else
                                var g := Feed(f.state, b);
                                Fed(g.state, f.out + g.out, g.ok)
    decreases |a|
  {
    if a == "" {
      assert a + b == b;
    } else if s.done {
    } else {
      assert (a + b)[0] == a[0] && (a + b)[1..] == a[1..] + b;
      FeedFirst(s, a);
      FeedFirst(s, a + b);
      var m := Step(s, a[0]);
      if m.Go? { FeedSplits(m.state, a[1..], b); }
      hide Step, Feed;
      if m.Go? {
        var f := Feed(m.state, a[1..]);
        if f.ok { Associates(m.out, f.out, Feed(f.state, b).out); }
      }
    }
  }

  lemma Associates(x: string, y: string, z: string)
    ensures x + (y + z) == x + y + z
  {
  }

  lemma FeedFirst(s: State, data: string)
    requires data != "" && !s.done
    ensures var m := Step(s, data[0]);
            Feed(s, data) == if m.Reject? then Fed(s, "", false)
                             else var rest := Feed(m.state, data[1..]);
                                  Fed(rest.state, m.out + rest.out, rest.ok)
  {
    hide Step;
  }

  /** Main result: cutting a body into pieces changes neither output, state nor verdict. */
  lemma {:induction false} SplitInvariance(s: State, pieces: seq<string>)
    ensures FeedPieces(s, pieces) == Feed(s, Concat(pieces))
    decreases |pieces|
  {
    if pieces != [] {
      FeedSplits(s, pieces[0], Concat(pieces[1..]));
      var first := Feed(s, pieces[0]);
      if first.ok { SplitInvariance(first.state, pieces[1..]); }
      hide Feed;
    }
  }

  // ----------------------------------------------------------------- encodings

  predicate NoLineEnd(t: string) { forall i | 0 <= i < |t| :: t[i] != '\r' && t[i] != '\n' }

  predicate IsBlank(t: string) { forall i | 0 <= i < |t| :: t[i] == ' ' || t[i] == '\t' }

  /** Extensions of a size line: nothing, or optional white space, a semicolon and any more text. */
  datatype Extension = NoExtension | Extension(blank: string, text: string)

  predicate GoodExtension(e: Extension) {
    e.NoExtension? || (IsBlank(e.blank) && NoLineEnd(e.text))
  }

  function ExtensionText(e: Extension): string {
    match e
    case NoExtension => ""
    case Extension(blank, text) => blank + ";" + text
  }

  /** The number that hexadecimal digits of either case spell, leading zeros allowed. */
  function HexNumber(digits: string): nat
    requires forall i | 0 <= i < |digits| :: IsHex(digits[i])
  {
    if digits == "" then 0 else HexNumber(digits[..|digits| - 1]) * 16 + HexValue(digits[|digits| - 1])
  }

  predicate GoodSize(digits: string, n: nat) {
    digits != "" && (forall i | 0 <= i < |digits| :: IsHex(digits[i])) && HexNumber(digits) == n < SIZE_LIMIT
  }

  datatype Chunk = Chunk(digits: string, ext: Extension, data: string)

  predicate GoodChunk(c: Chunk) { |c.data| > 0 && GoodSize(c.digits, |c.data|) && GoodExtension(c.ext) }

  /** A chunked body: chunks, the last chunk's zeros and extensions, and trailer field lines. */
  datatype Body = Body(chunks: seq<Chunk>, zeros: string, ext: Extension, trailers: seq<string>)

  predicate GoodBody(b: Body) {
    && (forall i | 0 <= i < |b.chunks| :: GoodChunk(b.chunks[i]))
    && GoodSize(b.zeros, 0) && GoodExtension(b.ext)
    && (forall i | 0 <= i < |b.trailers| :: b.trailers[i] != "" && NoLineEnd(b.trailers[i]))
  }

  function EncodeSize(digits: string, ext: Extension): string { digits + ExtensionText(ext) + "\r\n" }

  function EncodeChunk(c: Chunk): string { EncodeSize(c.digits, c.ext) + c.data + "\r\n" }

  function EncodeChunks(cs: seq<Chunk>): string {
    if cs == [] then "" else EncodeChunk(cs[0]) + EncodeChunks(cs[1..])
  }

  function EncodeTrailers(ts: seq<string>): string {
    if ts == [] then "" else ts[0] + "\r\n" + EncodeTrailers(ts[1..])
  }

  function Encode(b: Body): string {
    EncodeChunks(b.chunks) + EncodeSize(b.zeros, b.ext) + EncodeTrailers(b.trailers) + "\r\n"
  }

  function Payload(cs: seq<Chunk>): string {
    if cs == [] then "" else cs[0].data + Payload(cs[1..])
  }

  // ------------------------------------------------------------ decoding encodings

  /** data takes the machine from s to t and puts out out. */
  predicate Takes(s: State, data: string, t: State, out: string) { Feed(s, data) == Fed(t, out, true) }

  lemma TakesThen(s: State, a: string, t: State, x: string, b: string, u: State, y: string)
    requires Takes(s, a, t, x) && Takes(t, b, u, y)
    ensures Takes(s, a + b, u, x + y)
  {
    FeedSplits(s, a, b);
    hide Feed;
  }

  lemma TakesByte(s: State, ch: char)
    requires !s.done && Step(s, ch).Go?
    ensures Takes(s, [ch], Step(s, ch).state, Step(s, ch).out)
  {
    var m := Step(s, ch);
    assert [ch][1..] == "";
    assert Feed(m.state, "") == Fed(m.state, "", true);
    assert m.out + "" == m.out;
    hide Step;
  }

  lemma {:induction false} DigitsRead(s: State, digits: string)
    requires s.phase == Size && !s.done && !s.inExtension && s.sizeAcc == 0
    requires forall i | 0 <= i < |digits| :: IsHex(digits[i])
    requires HexNumber(digits) < SIZE_LIMIT
    ensures Takes(s, digits, s.(sizeAcc := HexNumber(digits), hasDigit := s.hasDigit || digits != ""), "")
    decreases |digits|
  {
    if digits != "" {
      var init, ch := digits[..|digits| - 1], digits[|digits| - 1];
      assert HexNumber(digits) == HexNumber(init) * 16 + HexValue(ch);
      DigitsRead(s, init);
      var t := s.(sizeAcc := HexNumber(init), hasDigit := s.hasDigit || init != "");
      TakesByte(t, ch);
      TakesThen(s, init, t, "", [ch], Step(t, ch).state, "");
      assert init + [ch] == digits && "" + "" == "";
    }
  }

  lemma {:induction false} BlanksSkipped(s: State, blank: string)
    requires s.phase == Size && !s.done && IsBlank(blank)
    ensures Takes(s, blank, s, "")
    decreases |blank|
  {
    if blank != "" {
      TakesByte(s, blank[0]);
      BlanksSkipped(s, blank[1..]);
      TakesThen(s, [blank[0]], s, "", blank[1..], s, "");
      assert [blank[0]] + blank[1..] == blank;
    }
  }

  lemma {:induction false} ExtensionSkipped(s: State, text: string)
    requires s.phase == Size && !s.done && s.inExtension && s.hasDigit && NoLineEnd(text)
    ensures Takes(s, text, s, "")
    decreases |text|
  {
    if text != "" {
      TakesByte(s, text[0]);
      ExtensionSkipped(s, text[1..]);
      TakesThen(s, [text[0]], s, "", text[1..], s, "");
      assert [text[0]] + text[1..] == text;
    }
  }

  lemma ExtensionRead(s: State, e: Extension)
    requires s.phase == Size && !s.done && s.hasDigit && GoodExtension(e)
    ensures Takes(s, ExtensionText(e), s.(inExtension := s.inExtension || e.Extension?), "")
  {
    if e.Extension? {
      var t := s.(inExtension := true);
      BlanksSkipped(s, e.blank);
      TakesByte(s, ';');
      TakesThen(s, e.blank, s, "", ";", t, "");
      ExtensionSkipped(t, e.text);
      TakesThen(s, e.blank + ";", t, "", e.text, t, "");
    }
  }

  lemma LineEnd(s: State, t: State)
    requires !s.done && Step(s, '\r').Go? && Step(s, '\r').out == ""
    requires !Step(s, '\r').state.done && Step(Step(s, '\r').state, '\n') == Go(t, "")
    ensures Takes(s, "\r\n", t, "")
  {
    var m := Step(s, '\r').state;
    TakesByte(s, '\r');
    TakesByte(m, '\n');
    TakesThen(s, "\r", m, "", "\n", t, "");
    assert "\r" + "\n" == "\r\n";
  }

  /** A size line takes the machine to the data, or past the last chunk to the trailers. */
  lemma SizeLineRead(digits: string, ext: Extension, n: nat)
    requires GoodSize(digits, n) && GoodExtension(ext)
    ensures Takes(START, EncodeSize(digits, ext),
                  if n == 0 then START.(phase := Trailer) else START.(phase := Data, remaining := n), "")
  {
    var s := START.(sizeAcc := n, hasDigit := true);
    var t := s.(inExtension := ext.Extension?);
    var u := if n == 0 then START.(phase := Trailer) else START.(phase := Data, remaining := n);
    DigitsRead(START, digits);
    ExtensionRead(s, ext);
    TakesThen(START, digits, s, "", ExtensionText(ext), t, "");
    LineEnd(t, u);
    TakesThen(START, digits + ExtensionText(ext), t, "", "\r\n", u, "");
  }

  /** A run of data bytes, all at once. */
  lemma {:induction false} DataRun(s: State, data: string)
    requires s.phase == Data && !s.done && 0 < |data| <= s.remaining
    ensures Takes(s, data, s.(remaining := s.remaining - |data|, phase := if |data| == s.remaining then DataLf else Data), data)
    decreases |data|
  {
    var t := Step(s, data[0]).state;
    TakesByte(s, data[0]);
    assert [data[0]] + data[1..] == data;
    if |data| > 1 {
      DataRun(t, data[1..]);
      TakesThen(s, [data[0]], t, [data[0]], data[1..],
                s.(remaining := s.remaining - |data|, phase := if |data| == s.remaining then DataLf else Data), data[1..]);
    } else {
      assert data == [data[0]];
    }
  }

  lemma ChunkRead(c: Chunk)
    requires GoodChunk(c)
    ensures Takes(START, EncodeChunk(c), START, c.data)
  {
    var s, t := START.(phase := Data, remaining := |c.data|), START.(phase := DataLf);
    SizeLineRead(c.digits, c.ext, |c.data|);
    DataRun(s, c.data);
    TakesThen(START, EncodeSize(c.digits, c.ext), s, "", c.data, t, c.data);
    LineEnd(t, START);
    TakesThen(START, EncodeSize(c.digits, c.ext) + c.data, t, "" + c.data, "\r\n", START, "");
    assert "" + c.data + "" == c.data;
  }

  lemma {:induction false} ChunksRead(cs: seq<Chunk>)
    requires forall i | 0 <= i < |cs| :: GoodChunk(cs[i])
    ensures Takes(START, EncodeChunks(cs), START, Payload(cs))
    decreases |cs|
  {
    if cs != [] {
      ChunkRead(cs[0]);
      forall i | 0 <= i < |cs[1..]| ensures GoodChunk(cs[1..][i]) { assert cs[1..][i] == cs[i + 1]; }
      ChunksRead(cs[1..]);
      TakesThen(START, EncodeChunk(cs[0]), START, cs[0].data, EncodeChunks(cs[1..]), START, Payload(cs[1..]));
    }
  }

  lemma {:induction false} FieldRead(s: State, t: string)
    requires s.phase == Trailer && !s.done && NoLineEnd(t)
    ensures Takes(s, t, s.(trailerLineLen := s.trailerLineLen + |t|), "")
    decreases |t|
  {
    if t != "" {
      var u := s.(trailerLineLen := s.trailerLineLen + 1);
      TakesByte(s, t[0]);
      FieldRead(u, t[1..]);
      TakesThen(s, [t[0]], u, "", t[1..], s.(trailerLineLen := s.trailerLineLen + |t|), "");
      assert [t[0]] + t[1..] == t;
    }
  }

  lemma {:induction false} TrailersRead(ts: seq<string>)
    requires forall i | 0 <= i < |ts| :: ts[i] != "" && NoLineEnd(ts[i])
    ensures Takes(START.(phase := Trailer), EncodeTrailers(ts), START.(phase := Trailer), "")
    decreases |ts|
  {
    if ts != [] {
      var s := START.(phase := Trailer);
      var t := s.(trailerLineLen := |ts[0]|);
      FieldRead(s, ts[0]);
      LineEnd(t, s);
      TakesThen(s, ts[0], t, "", "\r\n", s, "");
      forall i | 0 <= i < |ts[1..]| ensures ts[1..][i] != "" && NoLineEnd(ts[1..][i]) { assert ts[1..][i] == ts[i + 1]; }
      TrailersRead(ts[1..]);
      TakesThen(s, ts[0] + "\r\n", s, "", EncodeTrailers(ts[1..]), s, "");
    }
  }

  /** Main result: any encoding decodes to the chunk data, and what follows the body is left alone. */
  lemma DecodesEncoding(b: Body, beyond: string)
    requires GoodBody(b)
    ensures var f := Feed(START, Encode(b) + beyond);
            f.ok && f.state.done && f.out == Payload(b.chunks)
  {
    var s := START.(phase := Trailer);
    var end := START.(phase := TrailerLf, done := true);
    ChunksRead(b.chunks);
    SizeLineRead(b.zeros, b.ext, 0);
    TakesThen(START, EncodeChunks(b.chunks), START, Payload(b.chunks), EncodeSize(b.zeros, b.ext), s, "");
    TrailersRead(b.trailers);
    TakesThen(START, EncodeChunks(b.chunks) + EncodeSize(b.zeros, b.ext), s, Payload(b.chunks) + "",
              EncodeTrailers(b.trailers), s, "");
    LineEnd(s, end);
    TakesThen(START, EncodeChunks(b.chunks) + EncodeSize(b.zeros, b.ext) + EncodeTrailers(b.trailers), s,
              Payload(b.chunks) + "" + "", "\r\n", end, "");
    assert Payload(b.chunks) + "" + "" + "" == Payload(b.chunks);
    FeedSplits(START, Encode(b), beyond);
    assert Feed(end, beyond) == Fed(end, "", true);
  }
}
