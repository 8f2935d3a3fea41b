/** The JSON parser: what it reads, proved of every way to write a document, and the reader in place. */
module JsonParser {
  import opened Options
  import opened JsonText

  datatype Value =
    | Null
    | True
    | False
    | Number(value: int)
    | String(text: string)
    | Array(items: seq<Value>)
    | Object(members: seq<Member>)

  datatype Member = Member(key: string, value: Value)

  datatype Parsed<T> = Parsed(value: T, next: nat)

  const NUL := 0 as char

  predicate IsSpace(ch: char) { ch == ' ' || ch == '\t' || ch == '\r' || ch == '\n' }

  predicate IsDigit(ch: char) { '0' <= ch <= '9' }

  predicate AllDigits(s: string) { forall k | 0 <= k < |s| :: IsDigit(s[k]) }

  function Skip(text: string, i: nat): (j: nat)
    requires i <= |text|
    ensures i <= j <= |text|
    decreases |text| - i
  {
    if i < |text| && IsSpace(text[i]) then Skip(text, i + 1) else i
  }

  function DigitsEnd(text: string, i: nat): (j: nat)
    requires i <= |text|
    ensures i <= j <= |text|
    decreases |text| - i
  {
    if i < |text| && IsDigit(text[i]) then DigitsEnd(text, i + 1) else i
  }

  predicate Is(text: string, i: nat, ch: char) { i < |text| && text[i] == ch }

  /** The integer that digits spell; once it has ten digits or so, more digits are passed over. */
  function Whole(digits: string): nat
    requires AllDigits(digits)
  {
    if digits == "" then 0
    else
      var v, last := Whole(digits[..|digits| - 1]), digits[|digits| - 1];
      assert IsDigit(last);
      if v <= 214748364 then v * 10 + (last as int - '0' as int) else v
  }

  lemma WholeStep(text: string, start: nat, i: nat)
    requires start <= i < |text| && IsDigit(text[i])
    requires AllDigits(text[start..i])
    ensures AllDigits(text[start..i + 1])
    ensures var v := Whole(text[start..i]);
            Whole(text[start..i + 1]) == if v <= 214748364 then v * 10 + (text[i] as int - '0' as int) else v
  {
    var short, longer := text[start..i], text[start..i + 1];
    assert longer[..|longer| - 1] == short && longer[|longer| - 1] == text[i];
    assert forall k | 0 <= k < i - start :: longer[k] == short[k];
  }

  function Signed(negative: bool, v: int): int { if negative then -v else v }

  lemma DigitsAre(text: string, i: nat)
    requires i <= |text|
    ensures forall k | i <= k < DigitsEnd(text, i) :: IsDigit(text[k])
    decreases |text| - i
  {
    if i < |text| && IsDigit(text[i]) { DigitsAre(text, i + 1); }
  }

  function DigitsOf(text: string, i: nat): (d: string)
    requires i <= |text|
    ensures |d| == DigitsEnd(text, i) - i && AllDigits(d)
  {
    DigitsAre(text, i);
    text[i..DigitsEnd(text, i)]
  }

  function FractionEnd(text: string, i: nat): (j: nat)
    requires i <= |text|
    ensures i <= j <= |text|
  {
    if Is(text, i, '.') then DigitsEnd(text, i + 1) else i
  }

  function ExponentEnd(text: string, i: nat): (j: nat)
    requires i <= |text|
    ensures i <= j <= |text|
  {
    if Is(text, i, 'e') || Is(text, i, 'E') then
      DigitsEnd(text, if Is(text, i + 1, '+') || Is(text, i + 1, '-') then i + 2 else i + 1)
    else i
  }

  /** A number: its integer part; a fraction and an exponent are passed over. */
  function ParseNumber(text: string, i: nat): (r: Option<Parsed<Value>>)
    requires i < |text| && (text[i] == '-' || IsDigit(text[i]))
    ensures r.Some? ==> i < r.value.next <= |text|
  {
    var first := if text[i] == '-' then i + 1 else i;
    var whole := DigitsEnd(text, first);
    var fraction := FractionEnd(text, whole);
    if whole == first && fraction <= whole + 1 then None
    else
      var v := Whole(DigitsOf(text, first));
      Some(Parsed(Number(Signed(text[i] == '-', v)), ExponentEnd(text, fraction)))
  }

  predicate Word(text: string, i: nat, word: string) { At(text, i, word) }

  // --------------------------------------------------------------------- parsing

  function ParseValue(text: string, i: nat, depth: nat, limit: nat): (r: Option<Parsed<Value>>)
    requires i <= |text|
    ensures r.Some? ==> i < r.value.next <= |text|
    decreases |text| - i, 1
  {
    var j := Skip(text, i);
    if j == |text| then None
    else if text[j] == '{' then ParseObject(text, j, depth, limit)
    else if text[j] == '[' then ParseArray(text, j, depth, limit)
    else if text[j] == '"' then
      match ReadString(text, j)
      case None => None
      case Some(s) => Some(Parsed(String(s.bytes), s.next))
    else if Word(text, j, "true") then Some(Parsed(True, j + 4))
    else if Word(text, j, "false") then Some(Parsed(False, j + 5))
    else if Word(text, j, "null") then Some(Parsed(Null, j + 4))
    else if text[j] == '-' || IsDigit(text[j]) then ParseNumber(text, j)
    else None
  }

  function ParseArray(text: string, i: nat, depth: nat, limit: nat): (r: Option<Parsed<Value>>)
    requires i < |text|
    ensures r.Some? ==> i < r.value.next <= |text|
    decreases |text| - i, 0
  {
    if depth >= limit then None
    else
      var j := Skip(text, i + 1);
      if Is(text, j, ']') then Some(Parsed(Array([]), j + 1))
      else match ParseItems(text, j, depth + 1, limit)
           case None => None
           case Some(items) => Some(Parsed(Array(items.value), items.next))
  }

  function ParseItems(text: string, i: nat, depth: nat, limit: nat): (r: Option<Parsed<seq<Value>>>)
    requires i <= |text|
    ensures r.Some? ==> i < r.value.next <= |text|
    decreases |text| - i, 2
  {
    if i == |text| then None
    else match ParseValue(text, Skip(text, i), depth, limit)
         case None => None
         case Some(item) =>
           var j := Skip(text, item.next);
           if Is(text, j, ',') then
             match ParseItems(text, j + 1, depth, limit)
             case None => None
             case Some(rest) => Some(Parsed([item.value] + rest.value, rest.next))
           else if Is(text, j, ']') then Some(Parsed([item.value], j + 1))
           else None
  }

  function ParseObject(text: string, i: nat, depth: nat, limit: nat): (r: Option<Parsed<Value>>)
    requires i < |text|
    ensures r.Some? ==> i < r.value.next <= |text|
    decreases |text| - i, 0
  {
    if depth >= limit then None
    else
      var j := Skip(text, i + 1);
      if Is(text, j, '}') then Some(Parsed(Object([]), j + 1))
      else match ParseMembers(text, j, depth + 1, limit)
           case None => None
           case Some(ms) => Some(Parsed(Object(ms.value), ms.next))
  }

  /** A key, a colon and a value. */
  function ParseMember(text: string, i: nat, depth: nat, limit: nat): (r: Option<Parsed<Member>>)
    requires i <= |text|
    ensures r.Some? ==> i < r.value.next <= |text|
    decreases |text| - i, 2
  {
    match ReadString(text, Skip(text, i))
    case None => None
    case Some(key) =>
      var j := Skip(text, key.next);
      if !Is(text, j, ':') then None
      else match ParseValue(text, Skip(text, j + 1), depth, limit)
           case None => None
           case Some(v) => Some(Parsed(Member(key.bytes, v.value), v.next))
  }

  function ParseMembers(text: string, i: nat, depth: nat, limit: nat): (r: Option<Parsed<seq<Member>>>)
    requires i <= |text|
    ensures r.Some? ==> i < r.value.next <= |text|
    decreases |text| - i, 3
  {
    if i == |text| then None
    else match ParseMember(text, i, depth, limit)
         case None => None
         case Some(m) =>
           var j := Skip(text, m.next);
           if Is(text, j, ',') then
             match ParseMembers(text, j + 1, depth, limit)
             case None => None
             case Some(rest) => Some(Parsed([m.value] + rest.value, rest.next))
           else if Is(text, j, '}') then Some(Parsed([m.value], j + 1))
           else None
  }

  /**
    A document at the start of a text, and where the white space behind it ends. That is the end of
    the text or, unless the end is required, a NUL.
  */
  function ParseDocument(text: string, limit: nat, strict: bool): Option<Parsed<Value>> {
    match ParseValue(text, 0, 0, limit)
    case None => None
    case Some(root) =>
      var end := Skip(text, root.next);
      if end == |text| || (!strict && text[end] == NUL) then Some(Parsed(root.value, end)) else None
  }

  // ------------------------------------------------------------------- documents

  /** A document as written: values with the white space around them and the spelling of their strings. */
  datatype Doc =
    | Fixed(value: Value)
    | Integer(negative: bool, digits: string, fraction: string, exponent: string)
    | Text(spelling: seq<Spelling>)
    | List(items: Items)
    | Record(members: Members)

  datatype Items = NoItems(space: string) | Items(before: string, doc: Doc, after: string, rest: More)
  datatype More = Last | Next(items: Items)
  datatype Members =
    | NoMembers(space: string)
    | Members(before: string, key: seq<Spelling>, colon: string, gap: string, doc: Doc, after: string, rest: MoreMembers)
  datatype MoreMembers = LastMember | NextMember(members: Members)

  predicate Blank(s: string) { forall k | 0 <= k < |s| :: IsSpace(s[k]) }


  /** A fraction with its point, or nothing. */
  predicate GoodFraction(s: string) { s == "" || (|s| >= 2 && s[0] == '.' && AllDigits(s[1..])) }

  /** An exponent with its letter and perhaps a sign, or nothing. */
  predicate GoodExponent(s: string) {
    || s == ""
    || (|s| >= 2 && (s[0] == 'e' || s[0] == 'E') && AllDigits(s[1..]))
    || (|s| >= 3 && (s[0] == 'e' || s[0] == 'E') && (s[1] == '+' || s[1] == '-') && AllDigits(s[2..]))
  }

  predicate GoodDoc(d: Doc) {
    match d
    case Fixed(v) => v.Null? || v.True? || v.False?
    case Integer(_, digits, fraction, exponent) =>
      digits != "" && AllDigits(digits) && GoodFraction(fraction) && GoodExponent(exponent)
    case Text(ss) => AllGood(ss)
    case List(items) => GoodItems(items)
    case Record(ms) => GoodMembers(ms)
  }

  predicate GoodItems(items: Items) {
    match items
    case NoItems(space) => Blank(space)
    case Items(before, doc, after, rest) =>
      Blank(before) && GoodDoc(doc) && Blank(after) && (rest.Next? ==> rest.items.Items? && GoodItems(rest.items))
  }

  predicate GoodMembers(ms: Members) {
    match ms
    case NoMembers(space) => Blank(space)
    case Members(before, key, colon, gap, doc, after, rest) =>
      && Blank(before) && AllGood(key) && Blank(colon) && Blank(gap) && GoodDoc(doc) && Blank(after)
      && (rest.NextMember? ==> rest.members.Members? && GoodMembers(rest.members))
  }

  function Write(d: Doc): (s: string)
    requires GoodDoc(d)
    ensures s != ""
  {
    match d
    case Fixed(v) => if v.Null? then "null" else if v.True? then "true" else "false"
    case Integer(negative, digits, fraction, exponent) => (if negative then "-" else "") + digits + fraction + exponent
    case Text(ss) => "\"" + Spelled(ss) + "\""
    case List(items) => "[" + WriteItems(items) + "]"
    case Record(ms) => "{" + WriteMembers(ms) + "}"
  }

  function WriteItems(items: Items): string
    requires GoodItems(items)
  {
    match items
    case NoItems(space) => space
    case Items(before, doc, after, rest) =>
      before + Write(doc) + after + (if rest.Next? then "," + WriteItems(rest.items) else "")
  }

  function WriteMembers(ms: Members): string
    requires GoodMembers(ms)
  {
    match ms
    case NoMembers(space) => space
    case Members(before, key, colon, gap, doc, after, rest) =>
      before + ("\"" + Spelled(key) + "\"") + colon + ":" + gap + Write(doc) + after +
      (if rest.NextMember? then "," + WriteMembers(rest.members) else "")
  }

  function Mean(d: Doc): Value
    requires GoodDoc(d)
  {
    match d
    case Fixed(v) => v
    case Integer(negative, digits, _, _) => Number(Signed(negative, Whole(digits)))
    case Text(ss) => String(Meant(ss))
    case List(items) => Array(MeanItems(items))
    case Record(ms) => Object(MeanMembers(ms))
  }

  function MeanItems(items: Items): seq<Value>
    requires GoodItems(items)
  {
    match items
    case NoItems(_) => []
    case Items(_, doc, _, rest) => [Mean(doc)] + (if rest.Next? then MeanItems(rest.items) else [])
  }

  function MeanMembers(ms: Members): seq<Member>
    requires GoodMembers(ms)
  {
    match ms
    case NoMembers(_) => []
    case Members(_, key, _, _, doc, _, rest) =>
      [Member(Meant(key), Mean(doc))] + (if rest.NextMember? then MeanMembers(rest.members) else [])
  }

  /** How deep lists and records are nested. */
  function Nesting(d: Doc): nat {
    match d
    case List(items) => 1 + NestingItems(items)
    case Record(ms) => 1 + NestingMembers(ms)
    case _ => 0
  }

  function NestingItems(items: Items): nat {
    match items
    case NoItems(_) => 0
    case Items(_, doc, _, rest) => Max(Nesting(doc), if rest.Next? then NestingItems(rest.items) else 0)
  }

  function NestingMembers(ms: Members): nat {
    match ms
    case NoMembers(_) => 0
    case Members(_, _, _, _, doc, _, rest) => Max(Nesting(doc), if rest.NextMember? then NestingMembers(rest.members) else 0)
  }

  function Max(a: nat, b: nat): nat { if a < b then b else a }

  // ----------------------------------------------------------- reading documents

  lemma {:induction false} SkipsBlank(text: string, i: nat, s: string)
    requires At(text, i, s) && Blank(s)
    ensures Skip(text, i) == Skip(text, i + |s|)
    decreases |s|
  {
    if s != "" {
      AtIndex(text, i, s, 0);
      assert s == [s[0]] + s[1..];
      AtSplit(text, i, [s[0]], s[1..]);
      SkipsBlank(text, i + 1, s[1..]);
    }
  }

  lemma SkipStops(text: string, i: nat)
    requires i < |text| && !IsSpace(text[i])
    ensures Skip(text, i) == i
  {
  }

  lemma {:induction false} SkipTwice(text: string, i: nat)
    requires i <= |text|
    ensures Skip(text, Skip(text, i)) == Skip(text, i)
    decreases |text| - i
  {
    if i < |text| && IsSpace(text[i]) { SkipTwice(text, i + 1); }
  }

  /** A number is not followed by what would make it longer. */
  predicate Ends(text: string, i: nat) {
    i >= |text| || !(IsDigit(text[i]) || text[i] == '.' || text[i] == 'e' || text[i] == 'E')
  }

  lemma {:induction false} DigitsRun(text: string, i: nat, d: string)
    requires At(text, i, d) && AllDigits(d) && (i + |d| == |text| || !IsDigit(text[i + |d|]))
    ensures DigitsEnd(text, i) == i + |d|
    decreases |d|
  {
    if d != "" {
      AtIndex(text, i, d, 0);
      assert d == [d[0]] + d[1..];
      AtSplit(text, i, [d[0]], d[1..]);
      DigitsRun(text, i + 1, d[1..]);
    }
  }

  lemma FractionRun(text: string, i: nat, f: string)
    requires At(text, i, f) && GoodFraction(f)
    requires i + |f| == |text| || !(IsDigit(text[i + |f|]) || text[i + |f|] == '.')
    ensures FractionEnd(text, i) == i + |f|
  {
    if f != "" {
      AtIndex(text, i, f, 0);
      assert f == [f[0]] + f[1..];
      AtSplit(text, i, [f[0]], f[1..]);
      DigitsRun(text, i + 1, f[1..]);
    }
  }

  lemma ExponentRun(text: string, i: nat, e: string)
    requires At(text, i, e) && GoodExponent(e) && Ends(text, i + |e|)
    ensures ExponentEnd(text, i) == i + |e|
  {
    if e != "" {
      AtIndex(text, i, e, 0);
      AtIndex(text, i, e, 1);
      var k := if e[1] == '+' || e[1] == '-' then 2 else 1;
      assert AllDigits(e[k..]);
      hide At, AllDigits, DigitsEnd;
      assert e == e[..k] + e[k..];
      AtSplit(text, i, e[..k], e[k..]);
      DigitsRun(text, i + k, e[k..]);
    }
  }

  lemma IntegerRead(text: string, i: nat, negative: bool, digits: string, f: string, e: string)
    requires digits != "" && AllDigits(digits) && GoodFraction(f) && GoodExponent(e)
    requires At(text, i, (if negative then "-" else "") + digits + f + e)
    requires Ends(text, i + |(if negative then "-" else "") + digits + f + e|)
    ensures i < |text| && (text[i] == '-' || IsDigit(text[i]))
    ensures ParseNumber(text, i) ==
            Some(Parsed(Number(Signed(negative, Whole(digits))), i + |(if negative then "-" else "") + digits + f + e|))
  {
    hide At, DigitsEnd, FractionEnd, ExponentEnd, Whole, AllDigits, GoodFraction, GoodExponent, Ends, DigitsOf;
    var sign := if negative then "-" else "";
    AtSplit(text, i, sign + digits + f, e);
    AtSplit(text, i, sign + digits, f);
    AtSplit(text, i, sign, digits);
    if negative { AtIndex(text, i, sign, 0); }
    NumberParts(text, i + |sign|, digits, f, e);
  }

  lemma NumberParts(text: string, first: nat, digits: string, f: string, e: string)
    requires digits != "" && AllDigits(digits) && GoodFraction(f) && GoodExponent(e)
    requires At(text, first, digits) && At(text, first + |digits|, f) && At(text, first + |digits| + |f|, e)
    requires Ends(text, first + |digits| + |f| + |e|)
    ensures first < |text| && IsDigit(text[first])
    ensures DigitsEnd(text, first) == first + |digits| && DigitsOf(text, first) == digits
    ensures FractionEnd(text, first + |digits|) == first + |digits| + |f|
    ensures ExponentEnd(text, first + |digits| + |f|) == first + |digits| + |f| + |e|
  {
    hide DigitsEnd, FractionEnd, ExponentEnd, GoodFraction, GoodExponent, DigitsOf, At, Ends;
    var whole := first + |digits|;
    AtIndex(text, first, digits, 0);
    AfterDigits(text, whole, f, e);
    DigitsRun(text, first, digits);
    DigitsSame(text, first, digits);
    FractionRun(text, whole, f);
    ExponentRun(text, whole + |f|, e);
  }

  lemma DigitsSame(text: string, i: nat, d: string)
    requires At(text, i, d) && DigitsEnd(text, i) == i + |d|
    ensures DigitsOf(text, i) == d
  {
    hide DigitsEnd;
  }

  /** What comes after the digits, and after the fraction, does not make them longer. */
  lemma AfterDigits(text: string, i: nat, f: string, e: string)
    requires At(text, i, f) && At(text, i + |f|, e) && GoodFraction(f) && GoodExponent(e) && Ends(text, i + |f| + |e|)
    ensures i + |f| <= |text| && (i == |text| || !IsDigit(text[i]))
    ensures i + |f| == |text| || !(IsDigit(text[i + |f|]) || text[i + |f|] == '.')
  {
    if f != "" { AtIndex(text, i, f, 0); }
    if e != "" { AtIndex(text, i + |f|, e, 0); }
  }

  lemma FirstIs(text: string, i: nat, word: string)
    ensures At(text, i, word) && word != "" ==> i < |text| && text[i] == word[0]
  {
    if At(text, i, word) && word != "" { AtIndex(text, i, word, 0); }
  }

  lemma TrueRead(text: string, i: nat, depth: nat, limit: nat)
    requires At(text, i, "true")
    ensures ParseValue(text, i, depth, limit) == Some(Parsed(True, i + 4))
  {
    FirstIs(text, i, "true");
    hide At;
  }

  lemma FalseRead(text: string, i: nat, depth: nat, limit: nat)
    requires At(text, i, "false")
    ensures ParseValue(text, i, depth, limit) == Some(Parsed(False, i + 5))
  {
    FirstIs(text, i, "false");
    FirstIs(text, i, "true");
    hide At;
  }

  lemma NullRead(text: string, i: nat, depth: nat, limit: nat)
    requires At(text, i, "null")
    ensures ParseValue(text, i, depth, limit) == Some(Parsed(Null, i + 4))
  {
    FirstIs(text, i, "null");
    FirstIs(text, i, "true");
    FirstIs(text, i, "false");
    hide At;
  }

  lemma StringRead(text: string, i: nat, ss: seq<Spelling>)
    requires AllGood(ss) && At(text, i, "\"" + Spelled(ss) + "\"")
    ensures i < |text| && text[i] == '"'
    ensures ReadString(text, i) == Some(Read(Meant(ss), i + |Spelled(ss)| + 2))
  {
    hide At, Body, Spelled, Meant;
    AtSplit(text, i, "\"" + Spelled(ss), "\"");
    AtSplit(text, i, "\"", Spelled(ss));
    AtIndex(text, i, "\"", 0);
    SpelledRead(text, i + 1, ss);
  }

  /** No document begins with white space. */
  lemma WriteStarts(d: Doc)
    requires GoodDoc(d)
    ensures !IsSpace(Write(d)[0]) && Write(d)[0] != ']' && Write(d)[0] != '}'
  {
    if d.Integer? { assert IsDigit(d.digits[0]); }
  }

  lemma ValueNumber(text: string, i: nat, depth: nat, limit: nat)
    requires i < |text| && (text[i] == '-' || IsDigit(text[i]))
    ensures ParseValue(text, i, depth, limit) == ParseNumber(text, i)
  {
    if At(text, i, "true") { AtIndex(text, i, "true", 0); }
    if At(text, i, "false") { AtIndex(text, i, "false", 0); }
    if At(text, i, "null") { AtIndex(text, i, "null", 0); }
    hide ParseNumber, At;
  }

  lemma ValueString(text: string, i: nat, depth: nat, limit: nat, s: Read)
    requires i < |text| && text[i] == '"' && ReadString(text, i) == Some(s)
    ensures ParseValue(text, i, depth, limit) == Some(Parsed(String(s.bytes), s.next))
  {
    hide ReadString;
  }

  lemma ValueList(text: string, i: nat, depth: nat, limit: nat)
    requires Is(text, i, '[') && depth < limit
    ensures Is(text, Skip(text, i + 1), ']') ==>
              ParseValue(text, i, depth, limit) == Some(Parsed(Array([]), Skip(text, i + 1) + 1))
    ensures !Is(text, Skip(text, i + 1), ']') && ParseItems(text, Skip(text, i + 1), depth + 1, limit).Some? ==>
              var items := ParseItems(text, Skip(text, i + 1), depth + 1, limit).value;
              ParseValue(text, i, depth, limit) == Some(Parsed(Array(items.value), items.next))
  {
    SkipStops(text, i);
    assert ParseValue(text, i, depth, limit) == ParseArray(text, i, depth, limit);
    hide Skip, ParseItems;
  }

  lemma ValueRecord(text: string, i: nat, depth: nat, limit: nat)
    requires Is(text, i, '{') && depth < limit
    ensures Is(text, Skip(text, i + 1), '}') ==>
              ParseValue(text, i, depth, limit) == Some(Parsed(Object([]), Skip(text, i + 1) + 1))
    ensures !Is(text, Skip(text, i + 1), '}') && ParseMembers(text, Skip(text, i + 1), depth + 1, limit).Some? ==>
              var ms := ParseMembers(text, Skip(text, i + 1), depth + 1, limit).value;
              ParseValue(text, i, depth, limit) == Some(Parsed(Object(ms.value), ms.next))
  {
    SkipStops(text, i);
    assert ParseValue(text, i, depth, limit) == ParseObject(text, i, depth, limit);
    hide Skip, ParseMembers;
  }

  /** One item, and what follows the comma or the bracket. */
  lemma ItemsStep(text: string, i: nat, p: nat, q: nat, r: nat, v: Value, depth: nat, limit: nat)
    requires i < |text| && Skip(text, i) == p && q <= |text| && ParseValue(text, p, depth, limit) == Some(Parsed(v, q)) && Skip(text, q) == r
    ensures Is(text, r, ']') ==> ParseItems(text, i, depth, limit) == Some(Parsed([v], r + 1))
    ensures Is(text, r, ',') && ParseItems(text, r + 1, depth, limit).Some? ==>
              var rest := ParseItems(text, r + 1, depth, limit).value;
              ParseItems(text, i, depth, limit) == Some(Parsed([v] + rest.value, rest.next))
  {
    hide Skip, ParseValue;
  }

  /** Items may be read from their first character on. */
  lemma ItemsSkip(text: string, i: nat, depth: nat, limit: nat)
    requires i <= |text| && Skip(text, i) < |text|
    ensures ParseItems(text, Skip(text, i), depth, limit) == ParseItems(text, i, depth, limit)
  {
    SkipTwice(text, i);
    hide Skip, ParseValue;
  }

  /** Where the parts of an item lie. */
  lemma ItemParts(text: string, i: nat, before: string, body: string, after: string, tail: string, close: char)
    requires At(text, i, before + body + after + tail) && Is(text, i + |before + body + after + tail|, close)
    requires Blank(before) && Blank(after) && body != "" && !IsSpace(body[0])
    requires close == ']' || close == '}'
    requires tail == "" || tail[0] == ','
    ensures var p, q, r := i + |before|, i + |before| + |body|, i + |before| + |body| + |after|;
            && At(text, p, body) && Skip(text, i) == p < |text| && text[p] == body[0]
            && q <= |text| && Ends(text, q) && Skip(text, q) == r && At(text, r, tail)
            && (if tail == "" then Is(text, r, close) else Is(text, r, ','))
  {
    hide Skip, At, Blank;
    AtSplit(text, i, before + body + after, tail);
    AtSplit(text, i, before + body, after);
    AtSplit(text, i, before, body);
    var p, q, r := i + |before|, i + |before| + |body|, i + |before| + |body| + |after|;
    AtIndex(text, p, body, 0);
    if tail != "" { AtIndex(text, r, tail, 0); }
    if after != "" { AtIndex(text, q, after, 0); BlankFirst(after); }
    SkipsBlank(text, i, before);
    SkipsBlank(text, q, after);
    SkipStops(text, p);
    SkipStops(text, r);
  }

  lemma BlankFirst(s: string)
    requires Blank(s) && s != ""
    ensures IsSpace(s[0])
  {
  }

  lemma DocRead(text: string, i: nat, d: Doc, depth: nat, limit: nat)
    requires GoodDoc(d) && At(text, i, Write(d)) && Ends(text, i + |Write(d)|) && depth + Nesting(d) <= limit
    ensures ParseValue(text, i, depth, limit) == Some(Parsed(Mean(d), i + |Write(d)|))
    decreases d, 1
  {
    hide Spelled, Meant, ParseNumber, Whole, Ends, At, ParseValue, WriteItems, WriteMembers;
    match d
    case Fixed(v) =>
      if v.True? { TrueRead(text, i, depth, limit); }
      else if v.False? { FalseRead(text, i, depth, limit); }
      else { NullRead(text, i, depth, limit); }
    case Integer(negative, digits, fraction, exponent) =>
      IntegerRead(text, i, negative, digits, fraction, exponent);
      ValueNumber(text, i, depth, limit);
    case Text(ss) =>
      StringRead(text, i, ss);
      ValueString(text, i, depth, limit, Read(Meant(ss), i + |Spelled(ss)| + 2));
    case List(items) =>
      ListRead(text, i, items, depth, limit);
    case Record(ms) =>
      RecordRead(text, i, ms, depth, limit);
  }

  lemma BlankThen(text: string, i: nat, space: string, close: char)
    requires At(text, i, space) && Blank(space) && Is(text, i + |space|, close) && !IsSpace(close)
    ensures Skip(text, i) == i + |space|
  {
    SkipsBlank(text, i, space);
    SkipStops(text, i + |space|);
    hide Skip, At, Blank;
  }

  /** What stands between brackets, or quotes, of one character each. */
  lemma Enclosed(text: string, i: nat, open: string, body: string, close: string)
    requires |open| == |close| == 1 && At(text, i, open + body + close)
    ensures Is(text, i, open[0]) && At(text, i + 1, body) && Is(text, i + 1 + |body|, close[0])
    ensures |open + body + close| == |body| + 2
  {
    AtSplit(text, i, open + body, close);
    AtSplit(text, i, open, body);
    AtIndex(text, i, open, 0);
    AtIndex(text, i + 1 + |body|, close, 0);
  }

  lemma ListRead(text: string, i: nat, items: Items, depth: nat, limit: nat)
    requires GoodItems(items) && At(text, i, "[" + WriteItems(items) + "]") && depth + 1 + NestingItems(items) <= limit
    ensures ParseValue(text, i, depth, limit) == Some(Parsed(Array(MeanItems(items)), i + |WriteItems(items)| + 2))
    decreases items, 1
  {
    hide ParseValue, ParseItems, Skip, At, Write, Blank, GoodDoc;
    Enclosed(text, i, "[", WriteItems(items), "]");
    ValueList(text, i, depth, limit);
    match items
    case NoItems(space) =>
      BlankThen(text, i + 1, space, ']');
    case Items(_, _, _, _) =>
      ItemsRead(text, i + 1, items, depth + 1, limit);
      ItemsSkip(text, i + 1, depth + 1, limit);
  }

  lemma ItemsRead(text: string, i: nat, items: Items, depth: nat, limit: nat)
    requires items.Items? && GoodItems(items) && At(text, i, WriteItems(items))
    requires Is(text, i + |WriteItems(items)|, ']') && depth + NestingItems(items) <= limit
    ensures i < |text| && Skip(text, i) < |text| && text[Skip(text, i)] != ']'
    ensures ParseItems(text, i, depth, limit) == Some(Parsed(MeanItems(items), i + |WriteItems(items)| + 1))
    decreases items, 0
  {
    hide ParseValue, ParseItems, Skip, Ends, Write, Mean, GoodDoc, At, Blank;
    var Items(before, doc, after, rest) := items;
    WriteStarts(doc);
    var tail := if rest.Next? then "," + WriteItems(rest.items) else "";
    ItemParts(text, i, before, Write(doc), after, tail, ']');
    var p := i + |before|;
    var q := p + |Write(doc)|;
    var r := q + |after|;
    DocRead(text, p, doc, depth, limit);
    ItemsStep(text, i, p, q, r, Mean(doc), depth, limit);
    if rest.Next? {
      AtSplit(text, r, ",", WriteItems(rest.items));
      ItemsRead(text, r + 1, rest.items, depth, limit);
    } else {
      assert [Mean(doc)] + [] == [Mean(doc)];
    }
  }

  lemma RecordRead(text: string, i: nat, ms: Members, depth: nat, limit: nat)
    requires GoodMembers(ms) && At(text, i, "{" + WriteMembers(ms) + "}") && depth + 1 + NestingMembers(ms) <= limit
    ensures ParseValue(text, i, depth, limit) == Some(Parsed(Object(MeanMembers(ms)), i + |WriteMembers(ms)| + 2))
    decreases ms, 1
  {
    hide ParseValue, ParseMembers, Skip, At, Write, Blank, Spelled, Meant, GoodDoc;
    Enclosed(text, i, "{", WriteMembers(ms), "}");
    ValueRecord(text, i, depth, limit);
    match ms
    case NoMembers(space) =>
      BlankThen(text, i + 1, space, '}');
    case Members(_, _, _, _, _, _, _) =>
      MembersRead(text, i + 1, ms, depth + 1, limit);
      MembersSkip(text, i + 1, depth + 1, limit);
  }

  /** Members may be read from their first character on. */
  lemma MembersSkip(text: string, i: nat, depth: nat, limit: nat)
    requires i <= |text| && Skip(text, i) < |text|
    ensures ParseMembers(text, Skip(text, i), depth, limit) == ParseMembers(text, i, depth, limit)
  {
    hide Skip, ParseMember;
    MemberSkip(text, i, depth, limit);
  }

  lemma MemberSkip(text: string, i: nat, depth: nat, limit: nat)
    requires i <= |text|
    ensures ParseMember(text, Skip(text, i), depth, limit) == ParseMember(text, i, depth, limit)
  {
    hide Skip, ReadString, ParseValue;
    SkipTwice(text, i);
  }

  lemma MemberStep(text: string, i: nat, p: nat, key: Read, c: nat, g: nat, v: Value, q: nat, depth: nat, limit: nat)
    requires i <= |text| && Skip(text, i) == p && ReadString(text, p) == Some(key) && key.next <= |text|
    requires Skip(text, key.next) == c && Is(text, c, ':') && Skip(text, c + 1) == g
    requires ParseValue(text, g, depth, limit) == Some(Parsed(v, q))
    ensures ParseMember(text, i, depth, limit) == Some(Parsed(Member(key.bytes, v), q))
  {
    hide Skip, ReadString, ParseValue;
  }

  lemma MembersStep(text: string, i: nat, q: nat, r: nat, m: Member, depth: nat, limit: nat)
    requires i < |text| && q <= |text| && ParseMember(text, i, depth, limit) == Some(Parsed(m, q)) && Skip(text, q) == r
    ensures Is(text, r, '}') ==> ParseMembers(text, i, depth, limit) == Some(Parsed([m], r + 1))
    ensures Is(text, r, ',') && ParseMembers(text, r + 1, depth, limit).Some? ==>
              var rest := ParseMembers(text, r + 1, depth, limit).value;
              ParseMembers(text, i, depth, limit) == Some(Parsed([m] + rest.value, rest.next))
  {
    hide Skip, ParseMember;
  }

  /** A member without the white space before it and after it: its key, colon and value. */
  function WriteMember(key: seq<Spelling>, colon: string, gap: string, doc: Doc): string
    requires AllGood(key) && GoodDoc(doc)
  {
    ("\"" + Spelled(key) + "\"") + colon + ":" + gap + Write(doc)
  }

  lemma MemberRead(text: string, i: nat, p: nat, key: seq<Spelling>, colon: string, gap: string, doc: Doc, depth: nat, limit: nat)
    requires i <= |text| && Skip(text, i) == p && AllGood(key) && Blank(colon) && Blank(gap) && GoodDoc(doc)
    requires At(text, p, WriteMember(key, colon, gap, doc))
    requires var q := p + |WriteMember(key, colon, gap, doc)|;
             ParseValue(text, q - |Write(doc)|, depth, limit) == Some(Parsed(Mean(doc), q))
    ensures ParseMember(text, i, depth, limit) ==
            Some(Parsed(Member(Meant(key), Mean(doc)), p + |WriteMember(key, colon, gap, doc)|))
  {
    hide ParseValue, ParseMember, Skip, Write, Mean, GoodDoc, Spelled, Meant, At, Blank;
    var name := "\"" + Spelled(key) + "\"";
    WriteStarts(doc);
    MemberParts(text, p, name, colon, gap, Write(doc));
    StringRead(text, p, key);
    var c := p + |name| + |colon|;
    var g := c + 1 + |gap|;
    MemberStep(text, i, p, Read(Meant(key), p + |name|), c, g, Mean(doc), g + |Write(doc)|, depth, limit);
  }

  /** Where the parts of a member lie. */
  lemma MemberParts(text: string, p: nat, name: string, colon: string, gap: string, body: string)
    requires At(text, p, name + colon + ":" + gap + body) && Blank(colon) && Blank(gap)
    requires body != "" && !IsSpace(body[0])
    ensures var e, c := p + |name|, p + |name| + |colon|;
            && At(text, p, name) && e <= |text| && Skip(text, e) == c && Is(text, c, ':')
            && Skip(text, c + 1) == c + 1 + |gap|
  {
    hide At, Blank, Skip;
    AtSplit(text, p, name + colon + ":" + gap, body);
    AtSplit(text, p, name + colon + ":", gap);
    AtSplit(text, p, name + colon, ":");
    AtSplit(text, p, name, colon);
    var e := p + |name|;
    var c := e + |colon|;
    AtIndex(text, c, ":", 0);
    AtIndex(text, c + 1 + |gap|, body, 0);
    SkipsBlank(text, e, colon);
    SkipStops(text, c);
    SkipsBlank(text, c + 1, gap);
    SkipStops(text, c + 1 + |gap|);
  }

  lemma MembersRead(text: string, i: nat, ms: Members, depth: nat, limit: nat)
    requires ms.Members? && GoodMembers(ms) && At(text, i, WriteMembers(ms))
    requires Is(text, i + |WriteMembers(ms)|, '}') && depth + NestingMembers(ms) <= limit
    ensures i < |text| && Skip(text, i) < |text| && text[Skip(text, i)] != '}'
    ensures ParseMembers(text, i, depth, limit) == Some(Parsed(MeanMembers(ms), i + |WriteMembers(ms)| + 1))
    decreases ms, 0
  {
    hide ParseValue, ParseMembers, ParseMember, Skip, Ends, Write, Mean, GoodDoc, Spelled, Meant, At, Blank;
    var Members(before, key, colon, gap, doc, after, rest) := ms;
    var body := WriteMember(key, colon, gap, doc);
    var tail := if rest.NextMember? then "," + WriteMembers(rest.members) else "";
    SevenParts(before, "\"" + Spelled(key) + "\"", colon, ":", gap, Write(doc), after, tail);
    assert WriteMembers(ms) == before + body + after + tail;
    ItemParts(text, i, before, body, after, tail, '}');
    var p := i + |before|;
    var q := p + |body|;
    var r := q + |after|;
    AtSplit(text, p, ("\"" + Spelled(key) + "\"") + colon + ":" + gap, Write(doc));
    DocRead(text, q - |Write(doc)|, doc, depth, limit);
    MemberRead(text, i, p, key, colon, gap, doc, depth, limit);
    MembersStep(text, i, q, r, Member(Meant(key), Mean(doc)), depth, limit);
    if rest.NextMember? {
      AtSplit(text, r, ",", WriteMembers(rest.members));
      MembersRead(text, r + 1, rest.members, depth, limit);
    } else {
      assert [Member(Meant(key), Mean(doc))] + [] == [Member(Meant(key), Mean(doc))];
    }
  }

  lemma SevenParts(a: string, b: string, c: string, d: string, e: string, f: string, g: string, h: string)
    ensures a + b + c + d + e + f + g + h == a + (b + c + d + e + f) + g + h
  {
  }

  /** Where the parts of a document lie, and what may stand behind it. */
  lemma DocumentParts(before: string, d: Doc, after: string, beyond: string)
    requires Blank(before) && GoodDoc(d) && Blank(after) && (beyond == "" || beyond[0] == NUL)
    ensures var text, p := before + Write(d) + after + beyond, |before|;
            var q := p + |Write(d)|;
            && At(text, p, Write(d)) && Ends(text, q)
            && Skip(text, 0) == Skip(text, p) && Skip(text, q) == q + |after|
  {
    hide Skip, Write, GoodDoc, At, Blank;
    var text, p := before + Write(d) + after + beyond, |before|;
    var q := p + |Write(d)|;
    FourAt(before, Write(d), after, beyond);
    BeyondStops(text, q + |after|, beyond);
    BlankEnds(text, q, after);
    SkipsBlank(text, 0, before);
    SkipsBlank(text, q, after);
  }

  lemma FourAt(a: string, b: string, c: string, d: string)
    ensures var t := a + b + c + d;
            && At(t, 0, a) && At(t, |a|, b) && At(t, |a| + |b|, c) && At(t, |a| + |b| + |c|, d)
            && |t| == |a| + |b| + |c| + |d|
  {
  }

  /** Nothing that a NUL or the end stops is skipped, or makes a number longer. */
  lemma BeyondStops(text: string, i: nat, beyond: string)
    requires At(text, i, beyond) && i + |beyond| == |text| && (beyond == "" || beyond[0] == NUL)
    ensures Ends(text, i) && Skip(text, i) == i
  {
    if beyond == "" { SkipEnd(text); } else { AtIndex(text, i, beyond, 0); }
  }

  /**
    Main result: however a document is written, with any white space and any spelling of its strings,
    it parses to what it means, as long as it is nested no deeper than the limit. What stands behind a
    NUL is not looked at, unless the end is required.
  */
  lemma DocumentRead(before: string, d: Doc, after: string, beyond: string, limit: nat, strict: bool)
    requires Blank(before) && GoodDoc(d) && Blank(after) && (beyond == "" || beyond[0] == NUL) && Nesting(d) <= limit
    ensures ParseDocument(before + Write(d) + after + beyond, limit, strict) ==
            if beyond == "" || !strict then Some(Parsed(Mean(d), |before + Write(d) + after|)) else None
  {
    hide ParseValue, Skip, Write, Mean, GoodDoc, At, Blank, Ends;
    var text, p := before + Write(d) + after + beyond, |before|;
    DocumentParts(before, d, after, beyond);
    DocRead(text, p, d, 0, limit);
    ValueSkip(text, 0, p, limit);
    FourAt(before, Write(d), after, beyond);
    if beyond != "" { AtIndex(text, |before + Write(d) + after|, beyond, 0); }
  }

  lemma BlankEnds(text: string, i: nat, s: string)
    requires At(text, i, s) && Blank(s) && i + |s| <= |text| && Ends(text, i + |s|)
    ensures Ends(text, i)
  {
    if s != "" { AtIndex(text, i, s, 0); }
  }

  lemma SkipEnd(text: string)
    ensures Skip(text, |text|) == |text|
  {
  }

  lemma ValueSkip(text: string, i: nat, p: nat, limit: nat)
    requires i <= p <= |text| && Skip(text, i) == Skip(text, p)
    ensures ParseValue(text, i, 0, limit) == ParseValue(text, p, 0, limit)
  {
    hide Skip, ParseObject, ParseArray, ParseNumber, ReadString, At;
  }
}
