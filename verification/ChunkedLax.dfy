/**
  Just which bodies the chunked decoder accepts. It is more lenient than section 7.1 of RFC 9112: a lone
  line feed ends a line, size lines may hold blanks, and carriage returns may pile up behind chunk data.
*/
module ChunkedLax {
  import opened Strings
  import opened Chunked

  // ------------------------------------------------------------- lenient bodies

  predicate IsSizeChar(ch: char) { IsHex(ch) || ch == ' ' || ch == '\t' }

  /** A size line: digits and blanks in any order, and perhaps a semicolon and any more text. */
  datatype Line = Line(head: string, ext: bool, text: string)

  predicate LineShape(l: Line) {
    (forall ch | ch in l.head :: IsSizeChar(ch)) && NoLineEnd(l.text) && (!l.ext ==> l.text == "")
  }

  /** What is left of a text without its blanks. */
  function Squeezed(s: string): (d: string)
    ensures (forall ch | ch in s :: IsSizeChar(ch)) ==> forall i | 0 <= i < |d| :: IsHex(d[i])
  {
    if s == "" then ""
    else
      var last := s[|s| - 1];
      var d := Squeezed(s[..|s| - 1]);
      assert last in s && forall ch | ch in s[..|s| - 1] :: ch in s;
      if last == ' ' || last == '\t' then d else d + [last]
  }

  predicate Sizes(l: Line, n: nat) { LineShape(l) && GoodSize(Squeezed(l.head), n) }

  function LineText(l: Line): string { l.head + if l.ext then ";" + l.text else "" }

  /** A line feed, with or without a carriage return. */
  function End(cr: bool): string { if cr then "\r\n" else "\n" }

  predicate AllReturns(s: string) { forall ch | ch in s :: ch == '\r' }

  datatype LaxChunk = LaxChunk(line: Line, cr: bool, data: string, tail: string)

  predicate ChunkShape(c: LaxChunk) { c.data != "" && Sizes(c.line, |c.data|) && AllReturns(c.tail) }

  function ChunkText(c: LaxChunk): string { LineText(c.line) + End(c.cr) + c.data + c.tail + "\n" }

  /** A trailer line that is not empty. */
  datatype Field = Field(text: string, cr: bool)

  predicate FieldShape(f: Field) { f.text != "" && NoLineEnd(f.text) }

  function FieldText(f: Field): string { f.text + End(f.cr) }

  function ChunksText(cs: seq<LaxChunk>): string {
    if cs == [] then "" else ChunksText(cs[..|cs| - 1]) + ChunkText(cs[|cs| - 1])
  }

  function FieldsText(fs: seq<Field>): string {
    if fs == [] then "" else FieldsText(fs[..|fs| - 1]) + FieldText(fs[|fs| - 1])
  }

  function Data(cs: seq<LaxChunk>): string {
    if cs == [] then "" else Data(cs[..|cs| - 1]) + cs[|cs| - 1].data
  }

  predicate AllChunks(cs: seq<LaxChunk>) { forall i | 0 <= i < |cs| :: ChunkShape(cs[i]) }

  predicate AllFields(fs: seq<Field>) { forall i | 0 <= i < |fs| :: FieldShape(fs[i]) }

  /** Chunks, a last size line of zero, trailers, and an empty line. */
  datatype LaxBody = LaxBody(chunks: seq<LaxChunk>, last: Line, cr: bool, fields: seq<Field>, end: bool)

  predicate BodyShape(b: LaxBody) { AllChunks(b.chunks) && Sizes(b.last, 0) && AllFields(b.fields) }

  function BodyText(b: LaxBody): string {
    ChunksText(b.chunks) + (LineText(b.last) + End(b.cr)) + FieldsText(b.fields) + End(b.end)
  }

  // ------------------------------------------------------- every such body is read

  lemma {:induction false} HeadRead(s: State, head: string)
    requires s.phase == Size && !s.done && !s.inExtension && s.sizeAcc == 0 && !s.hasDigit
    requires (forall ch | ch in head :: IsSizeChar(ch)) && HexNumber(Squeezed(head)) < SIZE_LIMIT
    ensures Takes(s, head, s.(sizeAcc := HexNumber(Squeezed(head)), hasDigit := Squeezed(head) != ""), "")
    decreases |head|
  {
    if head != "" {
      var init, ch := head[..|head| - 1], head[|head| - 1];
      assert head == init + [ch] && (forall c | c in init :: c in head) && ch in head;
      Smaller(init, ch);
      hide Squeezed, HexNumber;
      HeadRead(s, init);
      var t := s.(sizeAcc := HexNumber(Squeezed(init)), hasDigit := Squeezed(init) != "");
      HeadStep(s, t, init, ch);
      hide Step, Takes;
      TakesByte(t, ch);
      TakesThen(s, init, t, "", [ch], Step(t, ch).state, "");
      assert "" + "" == "";
    }
  }

  lemma HeadStep(s: State, t: State, init: string, ch: char)
    requires s.phase == Size && !s.done && !s.inExtension
    requires (forall c | c in init + [ch] :: IsSizeChar(c)) && HexNumber(Squeezed(init + [ch])) < SIZE_LIMIT
    requires t == s.(sizeAcc := HexNumber(Squeezed(init)), hasDigit := Squeezed(init) != "")
    ensures var d := Squeezed(init + [ch]); Step(t, ch) == Go(s.(sizeAcc := HexNumber(d), hasDigit := d != ""), "")
  {
    Smaller(init, ch);
    SizeCharStep(t, ch);
    hide Squeezed, HexNumber, Step, IsHex, HexValue;
  }

  lemma SizeCharStep(t: State, ch: char)
    requires t.phase == Size && !t.inExtension
    ensures ch == ' ' || ch == '\t' ==> Step(t, ch) == Go(t, "")
    ensures IsHex(ch) && t.sizeAcc * 16 + HexValue(ch) < SIZE_LIMIT ==>
              Step(t, ch) == Go(t.(sizeAcc := t.sizeAcc * 16 + HexValue(ch), hasDigit := true), "")
  {
  }

  lemma Smaller(init: string, ch: char)
    requires forall c | c in init + [ch] :: IsSizeChar(c)
    ensures IsSizeChar(ch) && forall c | c in init :: IsSizeChar(c)
    ensures var d := Squeezed(init);
            if ch == ' ' || ch == '\t' then Squeezed(init + [ch]) == d
            else IsHex(ch) && Squeezed(init + [ch]) == d + [ch] && HexNumber(d + [ch]) == HexNumber(d) * 16 + HexValue(ch)
  {
    assert (init + [ch])[..|init|] == init;
    assert ch in init + [ch] && forall c | c in init :: c in init + [ch];
    assert (Squeezed(init) + [ch])[..|Squeezed(init)|] == Squeezed(init);
  }

  lemma EndRead(s: State, cr: bool, t: State)
    requires !s.done && Step(s, '\n') == Go(t, "")
    requires Step(s, '\r').Go? && Step(s, '\r').out == "" && !Step(s, '\r').state.done
    requires Step(Step(s, '\r').state, '\n') == Go(t, "")
    ensures Takes(s, End(cr), t, "")
  {
    if cr {
      LineEnd(s, t);
    } else {
      TakesByte(s, '\n');
      assert ['\n'] == "\n";
    }
  }

  lemma LineRead(l: Line, cr: bool, n: nat)
    requires Sizes(l, n)
    ensures Takes(START, LineText(l) + End(cr),
                  if n == 0 then START.(phase := Trailer) else START.(phase := Phase.Data, remaining := n), "")
  {
    var s := START.(sizeAcc := n, hasDigit := true);
    var t := s.(inExtension := l.ext);
    var u := if n == 0 then START.(phase := Trailer) else START.(phase := Phase.Data, remaining := n);
    HeadRead(START, l.head);
    if l.ext {
      TakesByte(s, ';');
      assert [';'] == ";";
      ExtensionSkipped(t, l.text);
      TakesThen(s, ";", t, "", l.text, t, "");
      TakesThen(START, l.head, s, "", ";" + l.text, t, "");
    }
    assert l.head + "" == l.head && "" + "" == "";
    assert Takes(START, LineText(l), t, "");
    EndRead(t, cr, u);
    TakesThen(START, LineText(l), t, "", End(cr), u, "");
  }

  lemma {:induction false} ReturnsRead(s: State, tail: string)
    requires s == START.(phase := DataLf) && AllReturns(tail)
    ensures Takes(s, tail, s, "")
    decreases |tail|
  {
    if tail != "" {
      assert tail[0] in tail;
      TakesByte(s, tail[0]);
      assert forall ch | ch in tail[1..] :: ch in tail;
      ReturnsRead(s, tail[1..]);
      TakesThen(s, [tail[0]], s, "", tail[1..], s, "");
      assert [tail[0]] + tail[1..] == tail && "" + "" == "";
    }
  }

  lemma LaxChunkRead(c: LaxChunk)
    requires ChunkShape(c)
    ensures Takes(START, ChunkText(c), START, c.data)
  {
    var s, t := START.(phase := Phase.Data, remaining := |c.data|), START.(phase := DataLf);
    var line := LineText(c.line) + End(c.cr);
    LineRead(c.line, c.cr, |c.data|);
    DataRun(s, c.data);
    ReturnsRead(t, c.tail);
    TakesByte(t, '\n');
    assert ['\n'] == "\n";
    hide Takes, LineText, End, Sizes;
    TakesThen(START, line, s, "", c.data, t, c.data);
    TakesThen(START, line + c.data, t, "" + c.data, c.tail, t, "");
    TakesThen(START, line + c.data + c.tail, t, "" + c.data + "", "\n", START, "");
    assert "" + c.data + "" + "" == c.data;
  }

  lemma {:induction false} LaxChunksRead(cs: seq<LaxChunk>)
    requires AllChunks(cs)
    ensures Takes(START, ChunksText(cs), START, Data(cs))
    decreases |cs|
  {
    if cs != [] {
      var init, last := cs[..|cs| - 1], cs[|cs| - 1];
      LaxChunksRead(init);
      LaxChunkRead(last);
      hide Takes, ChunkText, ChunkShape;
      TakesThen(START, ChunksText(init), START, Data(init), ChunkText(last), START, last.data);
    }
  }

  lemma {:induction false} FieldsRead(fs: seq<Field>)
    requires AllFields(fs)
    ensures Takes(START.(phase := Trailer), FieldsText(fs), START.(phase := Trailer), "")
    decreases |fs|
  {
    if fs != [] {
      var s := START.(phase := Trailer);
      var init, last := fs[..|fs| - 1], fs[|fs| - 1];
      var t := s.(trailerLineLen := |last.text|);
      FieldsRead(init);
      FieldRead(s, last.text);
      EndRead(t, last.cr, s);
      hide Takes, End;
      TakesThen(s, last.text, t, "", End(last.cr), s, "");
      TakesThen(s, FieldsText(init), s, "", FieldText(last), s, "");
      assert "" + "" == "";
    }
  }

  /** Main result: every such body is read to its end and gives the data of its chunks; nothing behind it is taken. */
  lemma LaxBodyRead(b: LaxBody, beyond: string)
    requires BodyShape(b)
    ensures var f := Feed(START, BodyText(b) + beyond); f.ok && f.state.done && f.out == Data(b.chunks)
  {
    var s, line := START.(phase := Trailer), LineText(b.last) + End(b.cr);
    var end := if b.end then START.(phase := TrailerLf, done := true) else START.(phase := Trailer, done := true);
    LaxChunksRead(b.chunks);
    LineRead(b.last, b.cr, 0);
    FieldsRead(b.fields);
    LastRead(s, b.end, end);
    var d := Data(b.chunks);
    hide Takes, LineText, End, Sizes, ChunksText, FieldsText, Data;
    TakesThen(START, ChunksText(b.chunks), START, d, line, s, "");
    TakesThen(START, ChunksText(b.chunks) + line, s, d + "", FieldsText(b.fields), s, "");
    TakesThen(START, ChunksText(b.chunks) + line + FieldsText(b.fields), s, d + "" + "", End(b.end), end, "");
    assert d + "" + "" + "" == d;
    Beyond(BodyText(b), end, d, beyond);
  }

  lemma LastRead(s: State, cr: bool, end: State)
    requires s == START.(phase := Trailer)
    requires end == if cr then START.(phase := TrailerLf, done := true) else START.(phase := Trailer, done := true)
    ensures Takes(s, End(cr), end, "")
  {
    if cr {
      LineEnd(s, end);
    } else {
      TakesByte(s, '\n');
      assert ['\n'] == "\n";
    }
  }

  lemma Beyond(text: string, end: State, d: string, beyond: string)
    requires Takes(START, text, end, d) && end.done
    ensures Feed(START, text + beyond) == Fed(end, d, true)
  {
    FeedSplits(START, text, beyond);
    assert Feed(end, beyond) == Fed(end, "", true);
    assert d + "" == d;
  }

  // --------------------------------------------------------- nothing else is accepted

  /** How far a body has been read. */
  datatype Course =
    | InSize(cs: seq<LaxChunk>, line: Line)
    | InSizeLf(cs: seq<LaxChunk>, line: Line)
    | InData(cs: seq<LaxChunk>, line: Line, cr: bool, size: nat, data: string)
    | InTail(cs: seq<LaxChunk>, line: Line, cr: bool, data: string, tail: string)
    | InField(cs: seq<LaxChunk>, line: Line, cr: bool, fs: seq<Field>, text: string)
    | InFieldLf(cs: seq<LaxChunk>, line: Line, cr: bool, fs: seq<Field>, text: string)
    | Complete(body: LaxBody)

  function CourseText(c: Course): string {
    match c
    case InSize(cs, line) => ChunksText(cs) + LineText(line)
    case InSizeLf(cs, line) => ChunksText(cs) + (LineText(line) + "\r")
    case InData(cs, line, cr, _, data) => ChunksText(cs) + (LineText(line) + End(cr) + data)
    case InTail(cs, line, cr, data, tail) => ChunksText(cs) + (LineText(line) + End(cr) + data + tail)
    case InField(cs, line, cr, fs, text) => ChunksText(cs) + (LineText(line) + End(cr)) + FieldsText(fs) + text
    case InFieldLf(cs, line, cr, fs, text) => ChunksText(cs) + (LineText(line) + End(cr)) + FieldsText(fs) + (text + "\r")
    case Complete(b) => BodyText(b)
  }

  function CourseData(c: Course): string {
    match c
    case InData(cs, _, _, _, data) => Data(cs) + data
    case InTail(cs, _, _, data, _) => Data(cs) + data
    case Complete(b) => Data(b.chunks)
    case _ => Data(c.cs)
  }

  /** A size line begun: its digits so far and whether it is past them. */
  predicate Begun(line: Line, s: State) {
    && LineShape(line) && HexNumber(Squeezed(line.head)) == s.sizeAcc < SIZE_LIMIT
    && s.hasDigit == (Squeezed(line.head) != "") && s.inExtension == line.ext && (line.ext ==> s.hasDigit)
    && s.remaining == 0 && s.trailerLineLen == 0 && !s.done
  }

  /** The state that the machine is in. */
  predicate Fits(c: Course, s: State) {
    match c
    case InSize(cs, line) => AllChunks(cs) && Begun(line, s) && s.phase == Size
    case InSizeLf(cs, line) => AllChunks(cs) && Begun(line, s) && s.phase == SizeLf
    case InData(cs, line, _, size, data) =>
      AllChunks(cs) && Sizes(line, size) && |data| < size && s == START.(phase := Phase.Data, remaining := size - |data|)
    case InTail(cs, line, _, data, tail) =>
      AllChunks(cs) && data != "" && Sizes(line, |data|) && AllReturns(tail) && s == START.(phase := DataLf)
    case InField(cs, line, _, fs, text) =>
      && AllChunks(cs) && Sizes(line, 0) && AllFields(fs) && NoLineEnd(text)
      && s == START.(phase := Trailer, trailerLineLen := |text|)
    case InFieldLf(cs, line, _, fs, text) =>
      && AllChunks(cs) && Sizes(line, 0) && AllFields(fs) && NoLineEnd(text)
      && s == START.(phase := TrailerLf, trailerLineLen := |text|)
    case Complete(b) => BodyShape(b) && s.done
  }

  ghost predicate Advances(c: Course, c': Course, s: State, ch: char) {
    && Step(s, ch).Go? && Fits(c', Step(s, ch).state)
    && CourseText(c') == CourseText(c) + [ch] && CourseData(c') == CourseData(c) + Step(s, ch).out
  }

  /** The end of a size line. */
  lemma LineEnds(cs: seq<LaxChunk>, line: Line, cr: bool, s: State) returns (c: Course)
    requires AllChunks(cs) && Begun(line, s) && FinishSizeLine(s).Go?
    requires s.phase == Size || s.phase == SizeLf
    ensures Fits(c, FinishSizeLine(s).state) && FinishSizeLine(s).out == ""
    ensures CourseText(c) == ChunksText(cs) + (LineText(line) + End(cr)) && CourseData(c) == Data(cs)
  {
    hide HexNumber, Squeezed, ChunksText, LineText, End;
    if s.sizeAcc == 0 {
      c := InField(cs, line, cr, [], "");
      assert ChunksText(cs) + (LineText(line) + End(cr)) + "" + "" == ChunksText(cs) + (LineText(line) + End(cr));
    } else {
      c := InData(cs, line, cr, s.sizeAcc, "");
      assert LineText(line) + End(cr) + "" == LineText(line) + End(cr) && Data(cs) + "" == Data(cs);
    }
  }

  /** One more character of a size line. */
  lemma LineGoes(line: Line, s: State, ch: char) returns (longer: Line)
    requires Begun(line, s) && s.phase == Size && Step(s, ch).Go? && ch != '\r' && ch != '\n'
    ensures Begun(longer, Step(s, ch).state) && Step(s, ch).state.phase == Size && Step(s, ch).out == ""
    ensures LineText(longer) == LineText(line) + [ch]
  {
    if line.ext {
      longer := line.(text := line.text + [ch]);
      assert ";" + (line.text + [ch]) == ";" + line.text + [ch];
      assert line.head + (";" + line.text + [ch]) == line.head + (";" + line.text) + [ch];
      hide HexNumber, Squeezed;
    } else if ch == ';' {
      longer := Line(line.head, true, "");
      assert line.head + (";" + "") == line.head + "" + [ch];
      hide HexNumber, Squeezed;
    } else {
      longer := line.(head := line.head + [ch]);
      assert line.head + [ch] + "" == line.head + "" + [ch];
      HeadGoes(line.head, s, ch);
      hide HexNumber, Squeezed, Step;
    }
  }

  lemma HeadGoes(head: string, s: State, ch: char)
    requires (forall c | c in head :: IsSizeChar(c)) && HexNumber(Squeezed(head)) == s.sizeAcc < SIZE_LIMIT
    requires s.hasDigit == (Squeezed(head) != "") && s.phase == Size && !s.inExtension
    requires ch != '\r' && ch != '\n' && ch != ';' && Step(s, ch).Go?
    ensures forall c | c in head + [ch] :: IsSizeChar(c)
    ensures var d := Squeezed(head + [ch]);
            HexNumber(d) < SIZE_LIMIT && Step(s, ch) == Go(s.(sizeAcc := HexNumber(d), hasDigit := d != ""), "")
  {
    SizeCharTaken(s, ch);
    SizeCharStep(s, ch);
    assert forall c | c in head + [ch] :: c in head || c == ch;
    Smaller(head, ch);
    hide HexNumber, Squeezed, Step, IsHex, HexValue;
  }

  lemma SizeCharTaken(s: State, ch: char)
    requires s.phase == Size && !s.inExtension && ch != '\r' && ch != '\n' && ch != ';' && Step(s, ch).Go?
    ensures IsSizeChar(ch) && (IsHex(ch) ==> s.sizeAcc * 16 + HexValue(ch) < SIZE_LIMIT)
  {
  }

  lemma SizeAdvances(c: Course, s: State, ch: char) returns (c': Course)
    requires (c.InSize? || c.InSizeLf?) && Fits(c, s) && Step(s, ch).Go?
    ensures Advances(c, c', s, ch)
  {
    hide Begun, ChunksText, LineText, FinishSizeLine, Data, AllChunks;
    if c.InSizeLf? {
      assert "\r" + [ch] == End(true);
      c' := LineEnds(c.cs, c.line, true, s);
      assert LineText(c.line) + "\r" + [ch] == LineText(c.line) + End(true);
    } else if ch == '\r' {
      c' := InSizeLf(c.cs, c.line);
      Returned(c.line, s);
      assert LineText(c.line) + [ch] == LineText(c.line) + "\r";
    } else if ch == '\n' {
      assert [ch] == End(false);
      c' := LineEnds(c.cs, c.line, false, s);
    } else {
      var longer := LineGoes(c.line, s, ch);
      c' := InSize(c.cs, longer);
    }
  }

  lemma Returned(line: Line, s: State)
    requires Begun(line, s)
    ensures Begun(line, s.(phase := SizeLf))
  {
    hide HexNumber, Squeezed;
  }

  lemma DataAdvances(c: Course, s: State, ch: char) returns (c': Course)
    requires c.InData? && Fits(c, s) && Step(s, ch).Go?
    ensures Advances(c, c', s, ch)
  {
    hide ChunksText, LineText, End, Data, AllChunks, Sizes;
    var line := LineText(c.line) + End(c.cr);
    assert line + c.data + [ch] == line + (c.data + [ch]);
    if |c.data| + 1 == c.size {
      c' := InTail(c.cs, c.line, c.cr, c.data + [ch], "");
      assert line + (c.data + [ch]) + "" == line + (c.data + [ch]);
    } else {
      c' := InData(c.cs, c.line, c.cr, c.size, c.data + [ch]);
    }
  }

  lemma ChunkDone(cs: seq<LaxChunk>, line: Line, cr: bool, data: string, tail: string, s: State)
    requires Fits(InTail(cs, line, cr, data, tail), s)
    ensures var more := cs + [LaxChunk(line, cr, data, tail)];
            && Fits(InSize(more, Line("", false, "")), START) && Data(more) == Data(cs) + data
            && CourseText(InSize(more, Line("", false, "")))
               == ChunksText(cs) + (LineText(line) + End(cr) + data + tail + "\n")
  {
    var chunk := LaxChunk(line, cr, data, tail);
    var more := cs + [chunk];
    assert more[..|more| - 1] == cs;
    assert Squeezed("") == "" && HexNumber("") == 0 && LineText(Line("", false, "")) == "";
    assert ChunksText(more) + "" == ChunksText(more);
    hide LineText, End, Sizes;
  }

  lemma ReturnAdvances(c: Course, s: State) returns (c': Course)
    requires c.InTail? && Fits(c, s)
    ensures Advances(c, c', s, '\r')
  {
    c' := InTail(c.cs, c.line, c.cr, c.data, c.tail + ['\r']);
    var line := LineText(c.line) + End(c.cr) + c.data;
    assert line + c.tail + ['\r'] == line + (c.tail + ['\r']);
    assert ChunksText(c.cs) + (line + c.tail) + ['\r'] == ChunksText(c.cs) + (line + c.tail + ['\r']);
    assert CourseData(c) + "" == CourseData(c);
    hide ChunksText, LineText, End, Data, AllChunks, Sizes;
  }

  lemma ChunkAdvances(c: Course, s: State) returns (c': Course)
    requires c.InTail? && Fits(c, s)
    ensures Advances(c, c', s, '\n')
  {
    c' := InSize(c.cs + [LaxChunk(c.line, c.cr, c.data, c.tail)], Line("", false, ""));
    ChunkDone(c.cs, c.line, c.cr, c.data, c.tail, s);
    var chunk := LineText(c.line) + End(c.cr) + c.data + c.tail;
    assert ['\n'] == "\n" && ChunksText(c.cs) + chunk + "\n" == ChunksText(c.cs) + (chunk + "\n");
    assert CourseData(c') == CourseData(c) == CourseData(c) + "";
    assert CourseText(c) == ChunksText(c.cs) + chunk;
    assert Step(s, '\n') == Go(START, "");
    hide Fits, CourseText, CourseData, ChunksText, LineText, End, Data, Step;
  }

  lemma TailAdvances(c: Course, s: State, ch: char) returns (c': Course)
    requires c.InTail? && Fits(c, s) && Step(s, ch).Go?
    ensures Advances(c, c', s, ch)
  {
    assert ch == '\r' || ch == '\n';
    hide Advances, Fits, Step;
    if ch == '\r' { c' := ReturnAdvances(c, s); } else { c' := ChunkAdvances(c, s); }
  }

  lemma FieldDone(fs: seq<Field>, text: string, cr: bool)
    requires AllFields(fs) && NoLineEnd(text) && text != ""
    ensures var more := fs + [Field(text, cr)];
            AllFields(more) && FieldsText(more) == FieldsText(fs) + (text + End(cr))
  {
    var more := fs + [Field(text, cr)];
    assert more[..|more| - 1] == fs;
  }

  lemma Associated(line: string, fields: string, text: string, end: string, last: string)
    ensures line + fields + (text + end) + last == line + (fields + (text + (end + last))) + ""
    ensures text == "" ==> line + fields + (text + end) + last == line + fields + (end + last)
  {
    assert fields + (text + (end + last)) == fields + (text + end) + last;
  }

  lemma EndOf(cr: bool)
    ensures (if cr then "\r" else "") + "\n" == End(cr)
  {
  }

  lemma FieldsStand(c: Course)
    requires c.InField? || c.InFieldLf?
    ensures CourseText(c) == ChunksText(c.cs) + (LineText(c.line) + End(c.cr)) + FieldsText(c.fs)
                             + (c.text + if c.InFieldLf? then "\r" else "")
    ensures CourseData(c) == Data(c.cs)
  {
    assert c.text + "" == c.text;
    hide ChunksText, LineText, End, FieldsText, Data;
  }

  lemma EmptyText(c: Course, b: LaxBody)
    requires (c.InField? || c.InFieldLf?) && c.text == "" && b == LaxBody(c.cs, c.line, c.cr, c.fs, c.InFieldLf?)
    ensures CourseText(Complete(b)) == CourseText(c) + ['\n'] && CourseData(Complete(b)) == CourseData(c) + ""
  {
    FieldsStand(c);
    EndOf(b.end);
    CompleteText(Complete(b));
    assert ['\n'] == "\n" && Data(c.cs) + "" == Data(c.cs);
    hide ChunksText, LineText, End, FieldsText, Data, CourseText;
    Associated(ChunksText(c.cs) + (LineText(c.line) + End(c.cr)), FieldsText(c.fs), "", if b.end then "\r" else "", "\n");
  }

  /** An empty line is the end, another one is a trailer. */
  lemma EmptyAdvances(c: Course, s: State) returns (c': Course)
    requires (c.InField? || c.InFieldLf?) && Fits(c, s) && c.text == ""
    ensures Advances(c, c', s, '\n')
  {
    var b := LaxBody(c.cs, c.line, c.cr, c.fs, c.InFieldLf?);
    c' := Complete(b);
    assert Step(s, '\n') == Go(s.(done := true), "");
    hide Step, CourseText, CourseData, AllChunks, Sizes, AllFields;
    EmptyText(c, b);
  }

  lemma NextFieldText(c: Course, c': Course)
    requires c.InField? || c.InFieldLf?
    requires AllFields(c.fs) && NoLineEnd(c.text) && c.text != ""
    requires c' == InField(c.cs, c.line, c.cr, c.fs + [Field(c.text, c.InFieldLf?)], "")
    ensures CourseText(c') == CourseText(c) + ['\n'] && CourseData(c') == CourseData(c) + ""
  {
    var cr := c.InFieldLf?;
    FieldsStand(c);
    FieldsStand(c');
    EndOf(cr);
    FieldDone(c.fs, c.text, cr);
    assert ['\n'] == "\n" && Data(c.cs) + "" == Data(c.cs);
    hide ChunksText, LineText, End, FieldsText, Data, CourseText, CourseData, AllFields, NoLineEnd;
    Associated(ChunksText(c.cs) + (LineText(c.line) + End(c.cr)), FieldsText(c.fs), c.text, if cr then "\r" else "", "\n");
  }

  lemma NextFieldAdvances(c: Course, s: State) returns (c': Course)
    requires (c.InField? || c.InFieldLf?) && Fits(c, s) && c.text != ""
    ensures Advances(c, c', s, '\n')
  {
    var cr := c.InFieldLf?;
    c' := InField(c.cs, c.line, c.cr, c.fs + [Field(c.text, cr)], "");
    assert Step(s, '\n') == Go(START.(phase := Trailer), "");
    FieldDone(c.fs, c.text, cr);
    NextFieldText(c, c');
    assert NoLineEnd("");
    hide Step, AllChunks, Sizes, AllFields, CourseText, CourseData, FieldsText, End;
  }

  lemma FieldGoes(c: Course, s: State, ch: char) returns (c': Course)
    requires (c.InField? || c.InFieldLf?) && Fits(c, s) && Step(s, ch).Go? && ch != '\n'
    ensures Advances(c, c', s, ch)
  {
    hide ChunksText, LineText, Data, AllChunks, Sizes, FieldsText, End, AllFields;
    if ch == '\r' {
      c' := InFieldLf(c.cs, c.line, c.cr, c.fs, c.text);
      assert c.text + [ch] == c.text + "\r";
    } else {
      c' := InField(c.cs, c.line, c.cr, c.fs, c.text + [ch]);
    }
  }

  lemma FieldAdvances(c: Course, s: State, ch: char) returns (c': Course)
    requires (c.InField? || c.InFieldLf?) && Fits(c, s) && Step(s, ch).Go?
    ensures Advances(c, c', s, ch)
  {
    hide Advances, Fits, Step;
    if ch != '\n' { c' := FieldGoes(c, s, ch); }
    else if c.text == "" { c' := EmptyAdvances(c, s); }
    else { c' := NextFieldAdvances(c, s); }
  }

  lemma Advance(c: Course, s: State, ch: char) returns (c': Course)
    requires Fits(c, s) && !s.done && Step(s, ch).Go?
    ensures Advances(c, c', s, ch)
  {
    hide Step, CourseText, CourseData;
    match c
    case InData(_, _, _, _, _) => c' := DataAdvances(c, s, ch);
    case InTail(_, _, _, _, _) => c' := TailAdvances(c, s, ch);
    case InField(_, _, _, _, _) => c' := FieldAdvances(c, s, ch);
    case InFieldLf(_, _, _, _, _) => c' := FieldAdvances(c, s, ch);
    case _ => c' := SizeAdvances(c, s, ch);
  }

  lemma {:induction false} Follow(c: Course, s: State, data: string) returns (c': Course, beyond: string)
    requires Fits(c, s) && Feed(s, data).ok
    ensures Fits(c', Feed(s, data).state) && (beyond != "" ==> Feed(s, data).state.done)
    ensures CourseText(c) + data == CourseText(c') + beyond
    ensures CourseData(c') == CourseData(c) + Feed(s, data).out
    decreases |data|
  {
    hide Step, CourseText, CourseData, Fits;
    if data == "" || s.done {
      c', beyond := c, data;
      assert CourseData(c) + "" == CourseData(c);
    } else {
      FeedFirst(s, data);
      var mid := Advance(c, s, data[0]);
      c', beyond := Follow(mid, Step(s, data[0]).state, data[1..]);
      assert [data[0]] + data[1..] == data;
      assert CourseText(c) + data == CourseText(c) + [data[0]] + data[1..];
    }
  }

  /** Main result: a body that is read to its end is of this form, and what was put out is the data of its chunks. */
  lemma OnlyLaxBodies(data: string) returns (b: LaxBody, beyond: string)
    requires Feed(START, data).ok && Feed(START, data).state.done
    ensures BodyShape(b) && data == BodyText(b) + beyond && Feed(START, data).out == Data(b.chunks)
  {
    var start := InSize([], Line("", false, ""));
    assert Squeezed("") == "" && HexNumber("") == 0;
    assert CourseText(start) == "" && CourseData(start) == "";
    assert "" + data == data && "" + Feed(START, data).out == Feed(START, data).out;
    var c;
    c, beyond := Follow(start, START, data);
    hide Feed, CourseText, BodyShape;
    b := c.body;
    assert CourseText(c) == BodyText(b) by { CompleteText(c); }
  }

  lemma CompleteText(c: Course)
    requires c.Complete?
    ensures CourseText(c) == BodyText(c.body)
  {
  }

  ghost predicate Begins(data: string, b: LaxBody, beyond: string) { BodyShape(b) && data == BodyText(b) + beyond }

  /** Main result: the decoder comes to the end of a body, rejecting nothing, exactly on what begins with such a body. */
  lemma AcceptsIff(data: string)
    ensures Feed(START, data).ok && Feed(START, data).state.done <==> exists b, beyond :: Begins(data, b, beyond)
  {
    hide Feed, BodyShape, BodyText;
    if Feed(START, data).ok && Feed(START, data).state.done {
      var b, beyond := OnlyLaxBodies(data);
      assert Begins(data, b, beyond);
    }
    if b, beyond :| Begins(data, b, beyond) { LaxBodyRead(b, beyond); }
  }
}
