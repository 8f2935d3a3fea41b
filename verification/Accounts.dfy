/** The account database: text files of colon-separated lines, what looking up finds, and what adding a user changes. */
module Accounts {
  import opened Options
  import opened Numerals
  import opened Strings

  const NAME_MAX: nat := 32
  const PATH_MAX: nat := 192
  const LINE_MAX: nat := 512
  const FILE_MAX: nat := 16384
  const HASH_MAX: nat := 64
  const NUL := 0 as char

  datatype Record = Record(name: string, uid: nat, gid: nat, home: string, shell: string)

  // ---------------------------------------------------------------------- lines

  function Cut(s: string, max: nat): (r: string)
    requires max > 0
    ensures |r| < max && r <= s
  {
    if |s| < max then s else s[..max - 1]
  }

  /** A line without the carriage returns at its end. */
  function Stripped(s: string): (r: string)
    ensures r <= s
  {
    if s != "" && s[|s| - 1] == '\r' then Stripped(s[..|s| - 1]) else s
  }

  /** What a line buffer holds of a line, as a C string. */
  function Clean(raw: string): (r: string)
    ensures r <= raw && |r| < LINE_MAX
  {
    var s := Cut(Stripped(raw), LINE_MAX);
    s[..Find(s, NUL)]
  }

  /** The lines of a text; nothing follows a last line feed. */
  function Lines(text: string): seq<string>
    decreases |text|
  {
    if text == "" then []
    else
      var n := Find(text, '\n');
      [text[..n]] + if n == |text| then [] else Lines(text[n + 1..])
  }

  /** The fields between colons. */
  function Fields(line: string): (fs: seq<string>)
    ensures fs != []
    decreases |line|
  {
    var n := Find(line, ':');
    [line[..n]] + if n == |line| then [] else Fields(line[n + 1..])
  }

  /** A decimal number below 2^64, digits only. */
  function ParseDec(s: string): Option<nat> {
    if s != "" && AllDigits(s, 10) && Value(s, 10) < LIMIT then Some(Value(s, 10)) else None
  }

  // --------------------------------------------------------------------- lookup

  /** A line of at least seven fields that begins with a name. */
  predicate IsFor(raw: string, name: string) {
    var fs := Fields(Clean(raw));
    |fs| >= 7 && fs[0] == name
  }

  function RecordOf(fs: seq<string>): Option<Record>
    requires |fs| >= 7
  {
    if ParseDec(fs[2]) == None || ParseDec(fs[3]) == None then None
    else Some(Record(Cut(fs[0], NAME_MAX), ParseDec(fs[2]).value, ParseDec(fs[3]).value,
                     Cut(fs[5], PATH_MAX), Cut(fs[6], PATH_MAX)))
  }

  /** The first line for a name decides. */
  function LookupIn(lines: seq<string>, name: string): Option<Record> {
    if lines == [] then None
    else if IsFor(lines[0], name) then RecordOf(Fields(Clean(lines[0])))
    else LookupIn(lines[1..], name)
  }

  function Lookup(text: string, name: string): Option<Record> {
    if name == "" then None else LookupIn(Lines(text), name)
  }

  predicate Listed(text: string, name: string) { exists raw | raw in Lines(text) :: IsFor(raw, name) }

  /** The user id of a line, whatever else is on it. */
  function UidIn(line: string): Option<nat> {
    var fs := Fields(line);
    if |fs| < 3 then None else ParseDec(fs[2])
  }

  function UidOf(raw: string): Option<nat> { UidIn(Clean(raw)) }

  /** The greatest user id of all lines, but 999 at least. */
  function MaxUid(lines: seq<string>): (m: nat)
    ensures 999 <= m < LIMIT
  {
    if lines == [] then 999
    else
      var m, uid := MaxUid(lines[..|lines| - 1]), UidOf(lines[|lines| - 1]);
      if uid.Some? && uid.value > m then uid.value else m
  }

  lemma {:induction false} MaxUidIs(lines: seq<string>)
    ensures forall raw | raw in lines && UidOf(raw).Some? :: UidOf(raw).value <= MaxUid(lines)
    ensures MaxUid(lines) == 999 || exists raw :: raw in lines && UidOf(raw) == Some(MaxUid(lines))
    decreases |lines|
  {
    if lines != [] {
      var init, last := lines[..|lines| - 1], lines[|lines| - 1];
      MaxUidIs(init);
      assert lines == init + [last] && last in lines;
      assert forall raw | raw in lines :: raw in init || raw == last;
      hide UidOf;
    }
  }

  /** Adding one in 64 bits. */
  function Incremented(n: nat): (r: nat)
    requires n < LIMIT
    ensures r < LIMIT
  {
    if n + 1 == LIMIT then 0 else n + 1
  }

  /** One more than the greatest user id, in 64 bits. */
  function NextUid(text: string): (uid: nat)
    ensures uid < LIMIT
  {
    Incremented(MaxUid(Lines(text)))
  }

  predicate Uses(text: string, uid: nat) { exists raw | raw in Lines(text) :: UidOf(raw) == Some(uid) }

  /** Main result: the next user id is one that no line uses, unless the greatest id there can be is used and so is 0. */
  lemma NextUidUnused(text: string)
    ensures Uses(text, NextUid(text)) <==> Uses(text, LIMIT - 1) && Uses(text, 0)
  {
    var lines := Lines(text);
    var m := MaxUid(lines);
    MaxUidIs(lines);
    hide Lines, MaxUid, UidOf;
    if m == LIMIT - 1 {
      assert NextUid(text) == 0;
      var raw :| raw in lines && UidOf(raw) == Some(m);
      assert Uses(text, LIMIT - 1);
    } else {
      assert NextUid(text) == m + 1;
      assert !Uses(text, m + 1) && !Uses(text, LIMIT - 1);
    }
  }

  /** A line of three fields with a user id. */
  function IdLine(name: string, uid: nat): string { Joined([name, "x", Decimal(uid)]) }

  lemma JoinedMore(f: string, fs: seq<string>)
    requires fs != []
    ensures Joined([f] + fs) == f + ":" + Joined(fs)
  {
    assert ([f] + fs)[1..] == fs;
  }

  lemma IdLineShape(name: string, uid: nat)
    requires uid < LIMIT && name in {"a", "b"}
    ensures var d, line := Decimal(uid), IdLine(name, uid);
            && line == name + ":" + ("x" + ":" + d) && ':' !in d && ':' !in name
            && '\n' !in line && NUL !in line && |line| < LINE_MAX && line != "" && line[|line| - 1] != '\r'
  {
    var d := Decimal(uid);
    DecimalPlain(uid);
    DecimalFits(uid);
    hide Decimal;
    JoinedMore(name, ["x", d]);
    JoinedMore("x", [d]);
    assert [name] + ["x", d] == [name, "x", d] && ["x"] + [d] == ["x", d] && Joined([d]) == d;
    hide Joined;
    var line := name + ":" + ("x" + ":" + d);
    assert line[|line| - 1] == d[|d| - 1];
  }

  lemma IdLineUid(name: string, uid: nat)
    requires uid < LIMIT && name in {"a", "b"}
    ensures '\n' !in IdLine(name, uid) && UidOf(IdLine(name, uid)) == Some(uid)
  {
    var d := Decimal(uid);
    IdLineShape(name, uid);
    ParseDecimal(uid);
    hide Fields, Clean, ParseDec, Decimal, IdLine;
    CleanKept(IdLine(name, uid));
    assert ':' !in "x";
    FieldsFirst(name, "x" + ":" + d);
    FieldsFirst("x", d);
    FieldsOne(d);
  }

  /** Ids run out: of a file with the greatest id and the id 0 the next id is 0, which is used. */
  lemma UidsRunOut()
    ensures var text := IdLine("a", 0) + "\n" + (IdLine("b", LIMIT - 1) + "\n");
            NextUid(text) == 0 && Uses(text, NextUid(text))
  {
    var one, two := IdLine("a", 0), IdLine("b", LIMIT - 1);
    var rest := two + "\n" + "";
    var text := one + "\n" + rest;
    IdLineUid("a", 0);
    IdLineUid("b", LIMIT - 1);
    hide IdLine, UidOf;
    LinesFirst(one, rest);
    LinesFirst(two, "");
    NoText("");
    assert rest == two + "\n";
    assert Lines(text) == [one] + ([two] + []);
    hide Lines;
    assert one in Lines(text) && two in Lines(text);
    MaxUidIs(Lines(text));
    hide MaxUid;
  }

  // --------------------------------------------------------------------- adding

  predicate IsAlpha(ch: char) { 'a' <= ch <= 'z' || 'A' <= ch <= 'Z' }

  predicate IsAlnum(ch: char) { IsAlpha(ch) || '0' <= ch <= '9' }

  predicate ValidName(name: string) {
    && 0 < |name| < NAME_MAX && (IsAlpha(name[0]) || name[0] == '_')
    && forall i | 1 <= i < |name| :: IsAlnum(name[i]) || name[i] == '_' || name[i] == '-'
  }

  function WithNewline(text: string): string {
    if text != "" && text[|text| - 1] != '\n' then text + "\n" else text
  }

  /** Fields with colons between them. */
  function Joined(fs: seq<string>): string
    requires fs != []
  {
    if |fs| == 1 then fs[0] else fs[0] + ":" + Joined(fs[1..])
  }

  function PasswdFieldsOf(r: Record): seq<string> {
    [r.name, "x", Decimal(r.uid), Decimal(r.gid), "", r.home, r.shell]
  }

  function PasswdLine(r: Record): string { Joined(PasswdFieldsOf(r)) }

  /** The line of a record: an x for the password, which is kept elsewhere, and nothing for the full name. */
  lemma PasswdLineIs(r: Record)
    ensures PasswdLine(r) == r.name + ":x:" + Decimal(r.uid) + ":" + Decimal(r.gid) + "::" + r.home + ":" + r.shell
  {
    hide Decimal;
    var u, g := Decimal(r.uid), Decimal(r.gid);
    var fs := PasswdFieldsOf(r);
    assert fs[1..] == ["x", u, g, "", r.home, r.shell];
    JoinedTail(fs);
    JoinedTail(fs[1..]);
    JoinedTail(fs[2..]);
    JoinedTail(fs[3..]);
    JoinedTail(fs[4..]);
    JoinedTail(fs[5..]);
    assert Joined(fs[6..]) == r.shell;
    hide Joined;
    assert Joined(fs[4..]) == "" + ":" + (r.home + ":" + r.shell);
    assert Joined(fs[2..]) == u + ":" + (g + ":" + ("" + ":" + (r.home + ":" + r.shell)));
  }

  lemma JoinedTail(fs: seq<string>)
    requires |fs| > 1
    ensures Joined(fs) == fs[0] + ":" + Joined(fs[1..])
  {
  }

  function Added(text: string, line: string): string { WithNewline(text) + line + "\n" }

  /** Fields that a line keeps apart and does not cut short. */
  predicate Plain(r: Record) {
    && ':' !in r.home && '\n' !in r.home && |r.home| < PATH_MAX
    && ':' !in r.shell && '\n' !in r.shell && |r.shell| < PATH_MAX
    && (r.shell == "" || r.shell[|r.shell| - 1] != '\r')
  }

  lemma FindNone(a: string, ch: char)
    requires ch !in a
    ensures Find(a, ch) == |a|
  {
  }

  lemma LinesFirst(line: string, rest: string)
    requires '\n' !in line
    ensures Lines(line + "\n" + rest) == [line] + Lines(rest)
  {
    var text := line + "\n" + rest;
    FindThen(line, '\n', rest);
    assert text[..|line|] == line && text[|line| + 1..] == rest && |line| < |text|;
    hide Find;
  }

  /** A text begins with a line; either it is all of the text, or more follows a line feed. */
  lemma LinesParts(text: string) returns (first: string, rest: string)
    requires text != ""
    ensures '\n' !in first
    ensures if '\n' in text then text == first + "\n" + rest && Lines(text) == [first] + Lines(rest) && |rest| < |text|
            else text == first && Lines(text) == [text]
  {
    var n := Find(text, '\n');
    first := text[..n];
    rest := if n < |text| then text[n + 1..] else "";
    if n < |text| {
      assert text == first + "\n" + rest;
    } else {
      assert first == text && [text] + [] == [text];
    }
    hide Find;
  }

  /** A line put behind a text comes behind its lines, final line feed or not. */
  lemma {:induction false} LinesAfter(text: string, line: string)
    requires '\n' !in line
    ensures Lines(Added(text, line)) == Lines(text) + [line]
    decreases |text|
  {
    hide Lines, Added;
    if text == "" {
      NoText(line);
    } else {
      var first, rest := LinesParts(text);
      if '\n' in text {
        AddedRest(first, rest, line);
        LinesAfter(rest, line);
        LinesFirst(first, Added(rest, line));
        assert [first] + (Lines(rest) + [line]) == ([first] + Lines(rest)) + [line];
      } else {
        LastUnended(text, line);
      }
    }
  }

  lemma NoText(line: string)
    requires '\n' !in line
    ensures Lines("") == [] && Lines(Added("", line)) == [line]
  {
    assert Lines("") == [];
    hide Lines;
    assert Added("", line) == line + "\n" + "";
    LinesFirst(line, "");
    assert [line] + [] == [line];
  }

  lemma LastUnended(text: string, line: string)
    requires text != "" && '\n' !in text && '\n' !in line
    ensures Lines(Added(text, line)) == [text] + [line]
  {
    NoText(line);
    assert Added(text, line) == text + "\n" + Added("", line);
    hide Lines, Added;
    LinesFirst(text, Added("", line));
  }

  lemma AddedRest(first: string, rest: string, line: string)
    ensures Added(first + "\n" + rest, line) == first + "\n" + Added(rest, line)
  {
    var text := first + "\n" + rest;
    if rest == "" {
      assert text == first + "\n" && text[|text| - 1] == '\n';
    } else {
      assert text[|text| - 1] == rest[|rest| - 1];
    }
  }

  lemma FieldsFirst(a: string, b: string)
    requires ':' !in a
    ensures Fields(a + ":" + b) == [a] + Fields(b)
  {
    var line := a + ":" + b;
    FindThen(a, ':', b);
    assert line[..|a|] == a && line[|a| + 1..] == b;
    hide Find;
  }

  lemma FieldsOne(a: string)
    requires ':' !in a
    ensures Fields(a) == [a]
  {
    FindNone(a, ':');
    assert a[..|a|] == a;
    hide Find;
  }

  lemma DecimalPlain(n: nat)
    ensures forall ch | ch in Decimal(n) :: '0' <= ch <= '9'
  {
  }

  lemma DecimalShort(n: nat, k: nat)
    requires n < Power10(k) && k > 0
    ensures |Decimal(n)| <= k
  {
    if n >= 10 { DecimalShort(n / 10, k - 1); }
  }

  function Power10(k: nat): nat { if k == 0 then 1 else 10 * Power10(k - 1) }

  lemma DecimalFits(n: nat)
    requires n < LIMIT
    ensures |Decimal(n)| <= 20
  {
    assert Power10(5) == 100000;
    assert Power10(10) == 10000000000;
    assert Power10(15) == 1000000000000000;
    assert Power10(20) == 100000000000000000000;
    DecimalShort(n, 20);
  }

  lemma NamePlain(name: string)
    requires ValidName(name)
    ensures ':' !in name && '\n' !in name && NUL !in name
  {
  }

  /** Fields put together and taken apart again. */
  lemma {:induction false} JoinedFields(fs: seq<string>)
    requires fs != [] && forall i | 0 <= i < |fs| :: ':' !in fs[i]
    ensures Fields(Joined(fs)) == fs
    decreases |fs|
  {
    if |fs| == 1 {
      FieldsOne(fs[0]);
    } else {
      assert Joined(fs) == fs[0] + ":" + Joined(fs[1..]);
      hide Fields, Joined;
      assert forall i | 0 <= i < |fs[1..]| :: fs[1..][i] == fs[i + 1];
      JoinedFields(fs[1..]);
      FieldsFirst(fs[0], Joined(fs[1..]));
      assert [fs[0]] + fs[1..] == fs;
    }
  }

  function Total(fs: seq<string>): nat { if fs == [] then 0 else |fs[0]| + Total(fs[1..]) }

  lemma {:induction false} JoinedLength(fs: seq<string>)
    requires fs != []
    ensures |Joined(fs)| == Total(fs) + |fs| - 1
    decreases |fs|
  {
    if |fs| > 1 { JoinedLength(fs[1..]); } else { assert Total(fs[1..]) == 0; }
  }

  lemma {:induction false} JoinedLacks(fs: seq<string>, ch: char)
    requires fs != [] && ch != ':' && forall i | 0 <= i < |fs| :: ch !in fs[i]
    ensures ch !in Joined(fs)
    decreases |fs|
  {
    if |fs| > 1 {
      assert forall i | 0 <= i < |fs[1..]| :: fs[1..][i] == fs[i + 1];
      JoinedLacks(fs[1..], ch);
    }
  }

  /** The last field comes last, behind a colon. */
  lemma {:induction false} JoinedBack(fs: seq<string>, last: string)
    requires fs != []
    ensures Joined(fs + [last]) == Joined(fs) + ":" + last
    decreases |fs|
  {
    if |fs| == 1 {
      assert (fs + [last])[1..] == [last];
    } else {
      assert (fs + [last])[1..] == fs[1..] + [last];
      JoinedBack(fs[1..], last);
      assert fs[0] + ":" + (Joined(fs[1..]) + ":" + last) == (fs[0] + ":" + Joined(fs[1..])) + ":" + last;
    }
  }

  function HeadOf(r: Record): (h: string)
    ensures h != "" && h[|h| - 1] == ':'
  {
    Joined([r.name, "x", Decimal(r.uid), Decimal(r.gid), "", r.home]) + ":"
  }

  lemma PasswdSplits(r: Record)
    ensures PasswdLine(r) == HeadOf(r) + r.shell
  {
    hide Decimal, Joined;
    var fs := [r.name, "x", Decimal(r.uid), Decimal(r.gid), "", r.home];
    assert fs + [r.shell] == PasswdFieldsOf(r);
    JoinedBack(fs, r.shell);
  }

  /** The fields of a line written for a record whose fields hold no colon. */
  lemma PasswdFields(r: Record)
    requires ValidName(r.name) && ':' !in r.home && ':' !in r.shell
    ensures Fields(PasswdLine(r)) == PasswdFieldsOf(r)
  {
    NamePlain(r.name);
    DecimalPlain(r.uid);
    DecimalPlain(r.gid);
    hide Decimal, ValidName, Fields, Joined;
    JoinedFields(PasswdFieldsOf(r));
  }

  lemma PasswdLength(r: Record)
    requires ValidName(r.name) && r.uid < LIMIT && r.gid < LIMIT && |r.home| < PATH_MAX && |r.shell| < PATH_MAX
    ensures |PasswdLine(r)| < LINE_MAX
  {
    DecimalFits(r.uid);
    DecimalFits(r.gid);
    hide Decimal, Joined, Total;
    var fs := PasswdFieldsOf(r);
    JoinedLength(fs);
    TotalOfSeven(r.name, "x", Decimal(r.uid), Decimal(r.gid), "", r.home, r.shell);
  }

  lemma TotalOfSeven(a: string, b: string, c: string, d: string, e: string, f: string, g: string)
    ensures Total([a, b, c, d, e, f, g]) == |a| + |b| + |c| + |d| + |e| + |f| + |g|
  {
    assert Total([]) == 0 && [g] + [] == [g] && [f] + [g] == [f, g] && [e] + [f, g] == [e, f, g];
    assert [d] + [e, f, g] == [d, e, f, g] && [c] + [d, e, f, g] == [c, d, e, f, g];
    assert [b] + [c, d, e, f, g] == [b, c, d, e, f, g] && [a] + [b, c, d, e, f, g] == [a, b, c, d, e, f, g];
    hide Total;
    TotalFirst(g, []);
    TotalFirst(f, [g]);
    TotalFirst(e, [f, g]);
    TotalFirst(d, [e, f, g]);
    TotalFirst(c, [d, e, f, g]);
    TotalFirst(b, [c, d, e, f, g]);
    TotalFirst(a, [b, c, d, e, f, g]);
  }

  lemma TotalFirst(a: string, rest: seq<string>)
    ensures Total([a] + rest) == |a| + Total(rest)
  {
    assert ([a] + rest)[1..] == rest;
  }

  predicate NoNul(r: Record) { NUL !in r.home && NUL !in r.shell }

  lemma PasswdLacks(r: Record, ch: char)
    requires ValidName(r.name) && (ch == '\n' || ch == NUL) && ch !in r.home && ch !in r.shell
    ensures ch !in PasswdLine(r)
  {
    NamePlain(r.name);
    DecimalPlain(r.uid);
    DecimalPlain(r.gid);
    hide Decimal, ValidName, Joined;
    JoinedLacks(PasswdFieldsOf(r), ch);
  }

  lemma CleanKept(line: string)
    requires |line| < LINE_MAX && NUL !in line && (line == "" || line[|line| - 1] != '\r')
    ensures Clean(line) == line
  {
    FindNone(line, NUL);
    hide Find;
  }

  lemma {:induction false} LookupSplits(a: seq<string>, b: seq<string>, name: string)
    ensures LookupIn(a + b, name) == if exists raw | raw in a :: IsFor(raw, name) then LookupIn(a, name) else LookupIn(b, name)
    decreases |a|
  {
    if a == [] {
      assert a + b == b;
    } else {
      assert (a + b)[1..] == a[1..] + b && (a + b)[0] == a[0] && a[0] in a;
      LookupSplits(a[1..], b, name);
      assert forall raw | raw in a :: raw == a[0] || raw in a[1..];
      assert forall raw | raw in a[1..] :: raw in a;
      hide IsFor, RecordOf;
    }
  }

  lemma LookupOne(raw: string, name: string)
    ensures LookupIn([raw], name) == if IsFor(raw, name) then RecordOf(Fields(Clean(raw))) else None
  {
    assert [raw][1..] == [];
    hide IsFor, RecordOf;
  }

  lemma ParseDecimal(n: nat)
    requires n < LIMIT
    ensures ParseDec(Decimal(n)) == Some(n)
  {
    DecimalValue(n);
    hide Decimal, Value;
  }

  /** The fields that a buffer holds of a plain record's line. */
  lemma PlainFields(r: Record)
    requires ValidName(r.name) && r.uid < LIMIT && r.gid < LIMIT && Plain(r) && NoNul(r)
    ensures Fields(Clean(PasswdLine(r))) == PasswdFieldsOf(r)
  {
    PasswdFields(r);
    PasswdLength(r);
    PasswdLacks(r, NUL);
    PasswdSplits(r);
    hide PasswdLine, PasswdFieldsOf, Decimal, Fields, Clean, HeadOf;
    CleanKept(PasswdLine(r));
  }

  /** The line of a plain record reads as that record. */
  lemma PlainLine(r: Record)
    requires ValidName(r.name) && r.uid < LIMIT && r.gid < LIMIT && Plain(r) && NoNul(r)
    ensures '\n' !in PasswdLine(r) && IsFor(PasswdLine(r), r.name)
    ensures RecordOf(Fields(Clean(PasswdLine(r)))) == Some(r)
  {
    hide PasswdLine, Decimal, Fields, Clean, ParseDec, NoNul;
    PlainFields(r);
    PasswdLacks(r, '\n');
    ParseDecimal(r.uid);
    ParseDecimal(r.gid);
  }

  lemma PrefixLacks(a: string, b: string, ch: char)
    requires a <= b && ch !in b
    ensures ch !in a
  {
    assert forall k | 0 <= k < |a| :: a[k] == b[k] != ch;
  }

  /** What a lookup finds lies in the lines of the text. */
  lemma {:induction false} FoundShape(lines: seq<string>, name: string)
    requires LookupIn(lines, name).Some? && forall raw | raw in lines :: '\n' !in raw
    ensures var r := LookupIn(lines, name).value;
            ':' !in r.home && '\n' !in r.home && |r.home| < PATH_MAX && ':' !in r.shell && '\n' !in r.shell && |r.shell| < PATH_MAX
    decreases |lines|
  {
    if IsFor(lines[0], name) {
      var fs := Fields(Clean(lines[0]));
      FieldsShape(Clean(lines[0]));
      PrefixLacks(Clean(lines[0]), lines[0], '\n');
      assert fs[5] in fs && fs[6] in fs;
      hide Fields, Clean, ParseDec;
    } else {
      FoundShape(lines[1..], name);
    }
  }

  lemma {:induction false} FieldsShape(line: string)
    ensures forall f | f in Fields(line) :: ':' !in f && forall ch | ch in f :: ch in line
    decreases |line|
  {
    var n := Find(line, ':');
    if n < |line| { FieldsShape(line[n + 1..]); }
    assert forall ch | ch in line[..n] :: ch != ':' && ch in line;
    assert n < |line| ==> forall ch | ch in line[n + 1..] :: ch in line;
    hide Find;
  }

  lemma {:induction false} LinesShape(text: string)
    ensures forall raw | raw in Lines(text) :: '\n' !in raw
    decreases |text|
  {
    if text != "" {
      var n := Find(text, '\n');
      var rest := if n == |text| then [] else Lines(text[n + 1..]);
      assert Lines(text) == [text[..n]] + rest && '\n' !in text[..n];
      hide Find, Lines;
      if n < |text| { LinesShape(text[n + 1..]); }
      assert forall raw | raw in [text[..n]] + rest :: raw == text[..n] || raw in rest;
    }
  }

  /** What adding a user writes to the account file. */
  function AddedUser(text: string, r: Record): string { Added(text, PasswdLine(r)) }

  lemma StrippedEnds(s: string)
    ensures Stripped(s) == "" || Stripped(s)[|Stripped(s)| - 1] != '\r'
    ensures s != "" && s[|s| - 1] == '\r' ==> Stripped(s) != s
    ensures Stripped(Stripped(s)) == Stripped(s)
  {
  }

  lemma {:induction false} StrippedTail(a: string, s: string)
    requires a != "" && a[|a| - 1] != '\r'
    ensures Stripped(a + s) == a + Stripped(s)
    decreases |s|
  {
    if s != "" {
      assert (a + s)[..|a + s| - 1] == a + s[..|s| - 1];
      if s[|s| - 1] == '\r' { StrippedTail(a, s[..|s| - 1]); }
    } else {
      assert a + s == a;
    }
  }

  lemma CleanStripped(r: Record, cut: Record)
    requires cut == r.(shell := Stripped(r.shell))
    ensures Clean(PasswdLine(r)) == Clean(PasswdLine(cut))
  {
    PasswdSplits(r);
    PasswdSplits(cut);
    assert HeadOf(r) == HeadOf(cut);
    hide PasswdLine, HeadOf, Stripped;
    StrippedTail(HeadOf(r), r.shell);
    StrippedTail(HeadOf(r), cut.shell);
    StrippedEnds(r.shell);
  }

  /** A shell that ends in a carriage return loses it. */
  lemma StrippedShell(r: Record)
    requires ValidName(r.name) && r.uid < LIMIT && r.gid < LIMIT && NoNul(r)
    requires ':' !in r.home && '\n' !in r.home && |r.home| < PATH_MAX
    requires ':' !in r.shell && '\n' !in r.shell && |r.shell| < PATH_MAX
    requires r.shell != "" && r.shell[|r.shell| - 1] == '\r'
    ensures IsFor(PasswdLine(r), r.name) && RecordOf(Fields(Clean(PasswdLine(r)))) != Some(r)
  {
    var cut := r.(shell := Stripped(r.shell));
    StrippedEnds(r.shell);
    PrefixLacks(cut.shell, r.shell, ':');
    PrefixLacks(cut.shell, r.shell, '\n');
    PrefixLacks(cut.shell, r.shell, NUL);
    hide PasswdLine, Fields, Stripped, Clean;
    PlainLine(cut);
    CleanStripped(r, cut);
  }

  /**
    Main result: after a user is added, looking the name up gives the record stored exactly when the
    file had no line for that name, readable or not, and the line can hold the home and the shell.
  */
  lemma AddedFound(text: string, r: Record)
    requires ValidName(r.name) && r.uid < LIMIT && r.gid < LIMIT && NoNul(r) && Lookup(text, r.name) == None
    ensures Lookup(AddedUser(text, r), r.name) == Some(r) <==> !Listed(text, r.name) && Plain(r)
  {
    hide Lines, LookupIn, PasswdLine, IsFor, RecordOf, ValidName, Fields, Clean, Added;
    var after := AddedUser(text, r);
    LinesShape(after);
    if Lookup(after, r.name) == Some(r) {
      FoundShape(Lines(after), r.name);
      LastDecides(text, r);
      if r.shell != "" && r.shell[|r.shell| - 1] == '\r' { StrippedShell(r); }
    } else if !Listed(text, r.name) && Plain(r) {
      LastDecides(text, r);
      PlainLine(r);
    }
  }

  /** A name that was not found is decided by the line added, unless the file had an unreadable one. */
  lemma LastDecides(text: string, r: Record)
    requires ValidName(r.name) && '\n' !in r.home && '\n' !in r.shell && Lookup(text, r.name) == None
    ensures Lookup(AddedUser(text, r), r.name) ==
            if Listed(text, r.name) || !IsFor(PasswdLine(r), r.name) then None else RecordOf(Fields(Clean(PasswdLine(r))))
  {
    PasswdLacks(r, '\n');
    hide Lines, LookupIn, PasswdLine, IsFor, RecordOf, Fields, Clean, Added;
    LinesAfter(text, PasswdLine(r));
    LookupSplits(Lines(text), [PasswdLine(r)], r.name);
    LookupOne(PasswdLine(r), r.name);
  }

  /** A line that names a user and gives no id. */
  function Unreadable(name: string): string { name + "::::::" }

  lemma ColonsFields()
    ensures Fields(":::::") == ["", "", "", "", "", ""]
  {
    hide Fields;
    FieldsOne("");
    FieldsFirst("", "");
    FieldsFirst("", ":");
    FieldsFirst("", "::");
    FieldsFirst("", ":::");
    FieldsFirst("", "::::");
    assert "" + ":" + "" == ":" && "" + ":" + ":" == "::" && "" + ":" + "::" == ":::";
    assert "" + ":" + ":::" == "::::" && "" + ":" + "::::" == ":::::";
  }

  lemma InNeither(a: string, b: string, ch: char)
    requires ch !in a && ch !in b
    ensures ch !in a + b
  {
  }

  lemma ColonsOnly()
    ensures NUL !in "::::::" && '\n' !in "::::::"
  {
  }

  lemma UnreadableShape(name: string)
    requires ValidName(name)
    ensures var line := Unreadable(name);
            '\n' !in line && NUL !in line && |line| == |name| + 6 < LINE_MAX && line[|line| - 1] == ':'
            && line == name + ":" + ":::::" && ':' !in name
  {
    NamePlain(name);
    ColonsOnly();
    assert |name| < NAME_MAX;
    hide ValidName;
    InNeither(name, "::::::", NUL);
    InNeither(name, "::::::", '\n');
    assert ":" + ":::::" == "::::::";
  }

  lemma UnreadableFields(name: string)
    requires ValidName(name)
    ensures '\n' !in Unreadable(name) && Fields(Clean(Unreadable(name))) == [name, "", "", "", "", "", ""]
  {
    hide *;
    UnreadableShape(name);
    CleanKept(Unreadable(name));
    FieldsFirst(name, ":::::");
    ColonsFields();
  }

  /**
    A user of whom the file has a line without an id is not found, can be added, and is still not
    found. The file "u::::::" is one that does this to the user u.
  */
  lemma UnreadableHides(r: Record)
    requires ValidName(r.name) && '\n' !in r.home && '\n' !in r.shell
    ensures var text := Unreadable(r.name) + "\n";
            Lookup(text, r.name) == None && Listed(text, r.name) && Lookup(AddedUser(text, r), r.name) == None
  {
    var line := Unreadable(r.name);
    var text := line + "\n" + "";
    UnreadableFields(r.name);
    assert ParseDec("") == None;
    hide Fields, Clean, Unreadable, PasswdLine, ValidName, Added;
    LinesFirst(line, "");
    NoText("");
    assert Lines(text) == [line] && IsFor(line, r.name);
    assert text == line + "\n";
    hide Lines;
    LookupOne(line, r.name);
    LastDecides(text, r);
  }

  /** Main result: all other names look up as before, though the file may have lacked its last line feed. */
  lemma OthersFound(text: string, r: Record, other: string)
    requires ValidName(r.name) && '\n' !in r.home && '\n' !in r.shell && other != r.name
    ensures Lookup(AddedUser(text, r), other) == Lookup(text, other)
  {
    PasswdLacks(r, '\n');
    hide Lines, LookupIn, PasswdLine, IsFor, ValidName, Added;
    LinesAfter(text, PasswdLine(r));
    LookupSplits(Lines(text), [PasswdLine(r)], other);
    LookupOne(PasswdLine(r), other);
    NotForOther(r, other);
    if !Listed(text, other) { NotListed(Lines(text), other); }
  }

  lemma {:induction false} NotListed(lines: seq<string>, name: string)
    requires forall raw | raw in lines :: !IsFor(raw, name)
    ensures LookupIn(lines, name) == None
    decreases |lines|
  {
    hide IsFor;
    if lines != [] { NotListed(lines[1..], name); }
  }

  /** However a line is cut, its first field is its own. */
  lemma NotForOther(r: Record, other: string)
    requires ValidName(r.name) && other != r.name
    ensures !IsFor(PasswdLine(r), other)
  {
    var fs := PasswdFieldsOf(r);
    assert PasswdLine(r) == r.name + ":" + Joined(fs[1..]);
    NamePlain(r.name);
    assert 0 < |r.name| < LINE_MAX - 1;
    hide ValidName, PasswdLine, Fields, Clean, Joined, PasswdFieldsOf;
    StartsOwn(r.name, Joined(fs[1..]));
  }

  lemma StartsOwn(name: string, rest: string)
    requires name != "" && ':' !in name && NUL !in name && '\n' !in name && |name| < LINE_MAX - 1
    ensures var fs := Fields(Clean(name + ":" + rest)); fs[0] == name || |fs| < 2
  {
    var line := name + ":" + rest;
    var s := Cut(Stripped(line), LINE_MAX);
    var c := Clean(line);
    assert c <= s <= line;
    if |c| > |name| {
      assert c[|name|] == ':' && c[..|name|] == name;
      assert c == name + ":" + c[|name| + 1..];
      FieldsFirst(name, c[|name| + 1..]);
    } else {
      assert c <= name by { assert c == line[..|c|] == name[..|c|]; }
      assert ':' !in c;
      FieldsOne(c);
    }
  }

  // --------------------------------------------------------------------- by id

  function ByUidIn(lines: seq<string>, uid: nat): Option<Record> {
    if lines == [] then None
    else
      var fs := Fields(Clean(lines[0]));
      if |fs| >= 7 && ParseDec(fs[2]) == Some(uid) && ParseDec(fs[3]).Some? then RecordOf(fs)
      else ByUidIn(lines[1..], uid)
  }

  lemma {:induction false} ByUidLast(lines: seq<string>, line: string, uid: nat)
    requires forall raw | raw in lines :: UidOf(raw) != Some(uid)
    ensures ByUidIn(lines + [line], uid) == ByUidIn([line], uid)
    decreases |lines|
  {
    if lines == [] {
      assert lines + [line] == [line];
    } else {
      assert (lines + [line])[1..] == lines[1..] + [line] && lines[0] in lines;
      assert UidOf(lines[0]) != Some(uid);
      assert forall raw | raw in lines[1..] :: raw in lines;
      ByUidLast(lines[1..], line, uid);
      hide Fields, Clean, ParseDec, RecordOf;
    }
  }

  /** Main result: a plain user added with an unused id is the one found by that id. */
  lemma AddedFoundByUid(text: string, r: Record)
    requires ValidName(r.name) && r.uid < LIMIT && r.gid < LIMIT && Plain(r) && NoNul(r) && !Uses(text, r.uid)
    ensures ByUidIn(Lines(AddedUser(text, r)), r.uid) == Some(r)
  {
    hide PasswdLine, Lines, IsFor, UidOf, Fields, Clean, ParseDec, Added, ValidName;
    PlainLine(r);
    PlainUids(r);
    var line := PasswdLine(r);
    LinesAfter(text, line);
    ByUidLast(Lines(text), line, r.uid);
    assert [line][1..] == [];
  }

  lemma PlainUids(r: Record)
    requires ValidName(r.name) && r.uid < LIMIT && r.gid < LIMIT && Plain(r) && NoNul(r)
    ensures var fs := Fields(Clean(PasswdLine(r)));
            |fs| >= 7 && ParseDec(fs[2]) == Some(r.uid) && ParseDec(fs[3]) == Some(r.gid)
  {
    hide PasswdLine, Decimal, Fields, Clean, ParseDec, NoNul, Plain, ValidName;
    PlainFields(r);
    ParseDecimal(r.uid);
    ParseDecimal(r.gid);
  }

  // --------------------------------------------------------------------- shadow

  function ShadowIn(lines: seq<string>, name: string): Option<string> {
    if lines == [] then None
    else
      var fs := Fields(Clean(lines[0]));
      if |fs| >= 2 && fs[0] == name then Some(Cut(fs[1], HASH_MAX)) else ShadowIn(lines[1..], name)
  }

  function ShadowOf(text: string, name: string): Option<string> { ShadowIn(Lines(text), name) }

  function AddedShadow(text: string, name: string): string { Added(text, name + ":!") }

  lemma {:induction false} ShadowSplits(a: seq<string>, b: seq<string>, name: string)
    ensures ShadowIn(a + b, name) == if ShadowIn(a, name).Some? then ShadowIn(a, name) else ShadowIn(b, name)
    decreases |a|
  {
    if a == [] {
      assert a + b == b;
    } else {
      assert (a + b)[1..] == a[1..] + b;
      ShadowSplits(a[1..], b, name);
      hide Fields, Clean;
    }
  }

  lemma ShadowLine(name: string, other: string)
    requires ValidName(name)
    ensures '\n' !in name + ":!" && ShadowIn([name + ":!"], other) == if other == name then Some("!") else None
  {
    var line := name + ":!";
    NamePlain(name);
    assert |line| < LINE_MAX && NUL !in line && line[|line| - 1] == '!';
    var lines: seq<string> := [line];
    assert line == name + ":" + "!" && lines[1..] == [];
    hide Fields, Clean, ValidName;
    CleanKept(line);
    FieldsFirst(name, "!");
    FieldsOne("!");
  }

  /** Main result: adding a user leaves every stored password as it was, and locks the new name unless it had one. */
  lemma ShadowAdded(text: string, name: string, other: string)
    requires ValidName(name)
    ensures ShadowOf(AddedShadow(text, name), other) ==
            if other == name && ShadowOf(text, name) == None then Some("!") else ShadowOf(text, other)
  {
    var line := name + ":!";
    ShadowLine(name, other);
    hide Fields, Clean, Lines, ValidName, Added, ShadowIn;
    LinesAfter(text, line);
    ShadowSplits(Lines(text), [line], other);
  }
}
