/** The text of an install manifest: one line per file, "path|size|sha256". */
module Manifest {
  import opened Options
  import opened Numerals
  import opened Strings

  const PATH_MAX: nat := 192
  const ENTRIES_MAX: nat := 512
  const BYTES_MAX: nat := 32768
  const HASH_LENGTH: nat := 64

  const BAR := '|'
  const NUL := 0 as char

  datatype Entry = Entry(path: string, size: nat, hash: string)

  predicate IsHash(h: string) {
    |h| == HASH_LENGTH && forall i | 0 <= i < |h| :: '0' <= h[i] <= '9' || 'a' <= h[i] <= 'f' || 'A' <= h[i] <= 'F'
  }

  // -------------------------------------------------------------------- lines

  /** The three fields of a line: cut at its first two bars. */
  datatype Fields = Fields(path: string, size: string, hash: string)

  function Cut(line: string): Option<Fields> {
    var i := Find(line, BAR);
    if i == |line| then None
    else
      var rest := line[i + 1..];
      var j := Find(rest, BAR);
      if j == |rest| then None else Some(Fields(line[..i], rest[..j], rest[j + 1..]))
  }

  /** The size a field spells, when all of it is a numeral. */
  function SizeOf(field: string): Option<nat> {
    var scan := Decoded(field);
    if scan.end == 0 || scan.end != |field| then None else Some(scan.value)
  }

  /** A line's entry, whatever the length of its path. */
  function ReadLine(line: string): Option<Entry> {
    match Cut(line)
    case None => None
    case Some(f) =>
      if f.path == "" || f.path[0] != '/' || !IsHash(f.hash) then None
      else match SizeOf(f.size)
           case None => None
           case Some(size) => Some(Entry(f.path, size, f.hash))
  }

  function ParseLine(line: string): Option<Entry> {
    match ReadLine(line)
    case None => None
    case Some(e) => if |e.path| < PATH_MAX then Some(e) else None
  }

  // --------------------------------------------------------------------- text

  predicate EndsLine(ch: char) { ch == '\n' || ch == NUL }

  function LineLength(text: string): (n: nat)
    ensures n <= |text| && (n < |text| ==> EndsLine(text[n]))
    ensures forall k | 0 <= k < n :: !EndsLine(text[k])
  {
    if text == "" || EndsLine(text[0]) then 0 else 1 + LineLength(text[1..])
  }

  /** A line without the carriage return it may end in. */
  function Trimmed(line: string): string {
    if line != "" && line[|line| - 1] == '\r' then line[..|line| - 1] else line
  }

  /** The lines of a text that are not empty. */
  function Lines(text: string): seq<string>
    decreases |text|
  {
    var n := LineLength(text);
    var line := Trimmed(text[..n]);
    var rest := if n == |text| then [] else Lines(text[n + 1..]);
    if line == "" then rest else [line] + rest
  }

  function Parse(lines: seq<string>): Option<seq<Entry>> {
    if lines == [] then Some([])
    else match ParseLine(lines[0])
         case None => None
         case Some(e) =>
           match Parse(lines[1..])
           case None => None
           case Some(es) => Some([e] + es)
  }

  /** What loading a manifest's text gives. */
  function Load(text: string): Option<seq<Entry>> {
    if |text| > BYTES_MAX || |Lines(text)| > ENTRIES_MAX then None else Parse(Lines(text))
  }

  // ------------------------------------------------------------------ writing

  function LineOf(e: Entry): string { e.path + [BAR] + Decimal(e.size) + [BAR] + e.hash }

  function Render(es: seq<Entry>): string {
    if es == [] then "" else LineOf(es[0]) + "\n" + Render(es[1..])
  }

  /** An entry that the installer writes: of a real file with an absolute path, as C strings allow. */
  predicate Written(e: Entry) {
    && e.path != "" && e.path[0] == '/' && |e.path| < PATH_MAX && NUL !in e.path
    && e.size < LIMIT && IsHash(e.hash)
  }

  /** A path that a line can hold. */
  predicate Plain(path: string) { BAR !in path && '\n' !in path }

  lemma CutLine(path: string, size: string, hash: string)
    requires BAR !in path && BAR !in size
    ensures Cut(path + [BAR] + size + [BAR] + hash) == Some(Fields(path, size, hash))
  {
    var rest := size + [BAR] + hash;
    var line := path + [BAR] + size + [BAR] + hash;
    assert line == path + [BAR] + rest;
    FindThen(path, BAR, rest);
    FindThen(size, BAR, hash);
    hide Find;
    assert line[..|path|] == path && line[|path| + 1..] == rest;
    assert rest[..|size|] == size && rest[|size| + 1..] == hash;
  }

  lemma DecimalPlain(n: nat)
    ensures forall ch | ch in Decimal(n) :: '0' <= ch <= '9'
  {
  }

  /** One line, written and read again. */
  lemma LineKept(e: Entry)
    requires Written(e) && Plain(e.path)
    ensures ParseLine(LineOf(e)) == Some(e)
  {
    DecimalPlain(e.size);
    CutLine(e.path, Decimal(e.size), e.hash);
    ScanDecimal(e.size);
    hide Decimal, Cut;
  }

  /** What is read from a line has a path that a line can hold. */
  lemma ReadPlain(line: string)
    requires ReadLine(line).Some? && '\n' !in line
    ensures Plain(ReadLine(line).value.path)
  {
    var i := Find(line, BAR);
    assert ReadLine(line).value.path == line[..i];
    hide Find;
  }

  lemma {:induction false} LinesHaveNoEnds(text: string)
    ensures forall line | line in Lines(text) :: line != "" && '\n' !in line && NUL !in line
    decreases |text|
  {
    var n := LineLength(text);
    if n < |text| { LinesHaveNoEnds(text[n + 1..]); }
    var line := Trimmed(text[..n]);
    assert forall ch | ch in text[..n] :: !EndsLine(ch);
    hide LineLength;
  }

  lemma {:induction false} ParsedPlain(lines: seq<string>)
    requires Parse(lines).Some? && forall line | line in lines :: '\n' !in line && NUL !in line
    ensures |Parse(lines).value| == |lines|
    ensures forall e | e in Parse(lines).value :: Plain(e.path) && |e.path| < PATH_MAX && e.path != "" && e.path[0] == '/'
                                                 && IsHash(e.hash) && NUL !in e.path && e.size < LIMIT
  {
    if lines != [] {
      ReadPlain(lines[0]);
      ReadBounds(lines[0]);
      ParsedPlain(lines[1..]);
      hide ReadLine;
    }
  }

  lemma ReadBounds(line: string)
    requires ReadLine(line).Some? && NUL !in line
    ensures NUL !in ReadLine(line).value.path && ReadLine(line).value.size < LIMIT
  {
    var i := Find(line, BAR);
    assert ReadLine(line).value.path == line[..i];
    hide Find;
  }

  /** Whatever text is loaded, its entries are ones that could be written and read again. */
  lemma LoadedPlain(text: string)
    requires Load(text).Some?
    ensures forall e | e in Load(text).value :: Written(e) && Plain(e.path)
    ensures |Load(text).value| <= ENTRIES_MAX
  {
    LinesHaveNoEnds(text);
    ParsedPlain(Lines(text));
    hide Lines, Parse;
  }

  lemma LineEndsAt(line: string, rest: string)
    requires forall ch | ch in line :: !EndsLine(ch)
    ensures LineLength(line + "\n" + rest) == |line|
  {
    var text := line + "\n" + rest;
    assert text[|line|] == '\n' && forall k | 0 <= k < |line| :: text[k] == line[k] && !EndsLine(line[k]);
  }

  lemma FirstLine(text: string)
    requires LineLength(text) < |text|
    ensures var n := LineLength(text); var line := Trimmed(text[..n]);
            Lines(text) == (if line == "" then [] else [line]) + Lines(text[n + 1..])
  {
    var n := LineLength(text);
    hide LineLength, Trimmed;
    assert [] + Lines(text[n + 1..]) == Lines(text[n + 1..]);
  }

  lemma LinesThen(line: string, rest: string)
    requires line != "" && line[|line| - 1] != '\r' && forall ch | ch in line :: !EndsLine(ch)
    ensures Lines(line + "\n" + rest) == [line] + Lines(rest)
  {
    var text := line + "\n" + rest;
    LineEndsAt(line, rest);
    FirstLine(text);
    hide LineLength, Lines;
    assert text[..|line|] == line && text[|line| + 1..] == rest;
  }

  lemma LineShape(e: Entry)
    requires Written(e) && Plain(e.path)
    ensures var line := LineOf(e);
            line != "" && line[|line| - 1] != '\r' && forall ch | ch in line :: !EndsLine(ch)
  {
    DecimalPlain(e.size);
    hide Decimal;
    var line := LineOf(e);
    assert line[|line| - 1] == e.hash[HASH_LENGTH - 1];
    forall ch | ch in line
      ensures !EndsLine(ch)
    {
      if ch in e.path {
      } else if ch in Decimal(e.size) {
      } else if ch == BAR {
      } else {
        assert ch in e.hash;
      }
    }
  }

  lemma {:induction false} LinesOfRender(es: seq<Entry>)
    requires forall e | e in es :: Written(e) && Plain(e.path)
    ensures Lines(Render(es)) == LinesOf(es)
    decreases |es|
  {
    if es == [] {
      assert Lines("") == [];
    } else {
      LineShape(es[0]);
      LinesOfRender(es[1..]);
      LinesThen(LineOf(es[0]), Render(es[1..]));
      hide Lines, LineOf;
    }
  }

  lemma ParseFirst(line: string, lines: seq<string>, e: Entry, es: seq<Entry>)
    requires ParseLine(line) == Some(e) && Parse(lines) == Some(es)
    ensures Parse([line] + lines) == Some([e] + es)
  {
    hide ParseLine;
    assert ([line] + lines)[1..] == lines;
  }

  lemma {:induction false} ParseOfLines(es: seq<Entry>)
    requires forall e | e in es :: Written(e) && Plain(e.path)
    ensures Parse(LinesOf(es)) == Some(es)
    decreases |es|
  {
    if es != [] {
      LineKept(es[0]);
      ParseOfLines(es[1..]);
      hide ParseLine, LineOf, Written, Parse;
      ParseFirst(LineOf(es[0]), LinesOf(es[1..]), es[0], es[1..]);
      assert [es[0]] + es[1..] == es;
    }
  }

  function LinesOf(es: seq<Entry>): (ls: seq<string>)
    ensures |ls| == |es|
  {
    if es == [] then [] else [LineOf(es[0])] + LinesOf(es[1..])
  }

  /**
    Main result: a manifest within the limits loads back as written exactly when no path in it
    holds a bar or a line feed.
  */
  lemma LoadExact(es: seq<Entry>)
    requires (forall e | e in es :: Written(e)) && |es| <= ENTRIES_MAX && |Render(es)| <= BYTES_MAX
    ensures Load(Render(es)) == Some(es) <==> forall e | e in es :: Plain(e.path)
  {
    if forall e | e in es :: Plain(e.path) {
      LinesOfRender(es);
      ParseOfLines(es);
    } else if Load(Render(es)) == Some(es) {
      LoadedPlain(Render(es));
    }
    hide Render, Lines, Parse;
  }

  lemma {:induction false} RenderBack(es: seq<Entry>, e: Entry)
    ensures Render(es + [e]) == Render(es) + LineOf(e) + "\n"
    decreases |es|
  {
    if es == [] {
      assert [e][1..] == [] && [] + [e] == [e];
      assert LineOf(e) + "\n" + "" == "" + LineOf(e) + "\n";
    } else {
      assert (es + [e])[1..] == es[1..] + [e];
      RenderBack(es[1..], e);
      hide LineOf;
      assert LineOf(es[0]) + "\n" + (Render(es[1..]) + LineOf(e) + "\n") == (LineOf(es[0]) + "\n" + Render(es[1..])) + LineOf(e) + "\n";
    }
  }
}
