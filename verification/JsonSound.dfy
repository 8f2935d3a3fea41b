/** What every text that the JSON parser accepts looks like: the parser is lenient in strings and numbers only. */
module JsonSound {
  import opened Options
  import opened Strings
  import opened JsonText
  import opened JsonParser

  // ---------------------------------------------------------------- what is accepted

  /** A byte as it is, an escape, or the digits of a code unit or of a pair of them. */
  predicate UnitSpells(unit: string, bytes: string) {
    || (|unit| == 1 && unit[0] as int >= 0x20 && unit[0] != '"' && unit[0] != '\\' && bytes == unit)
    || (|unit| == 2 && unit[0] == '\\' && IsShortEscape(unit[1]) && bytes == [ShortEscape(unit[1])])
    || (|unit| == 6 && unit[..2] == "\\u" && IsHex4(unit[2..]) && bytes == Utf8(Hex4(unit[2..])))
    || (|unit| == 12 && unit[..2] == "\\u" && unit[6..8] == "\\u" && IsHex4(unit[2..6]) && IsHex4(unit[8..])
        && IsHigh(Hex4(unit[2..6])) && IsLow(Hex4(unit[8..])) && bytes == Utf8(Combined(Hex4(unit[2..6]), Hex4(unit[8..]))))
  }

  /** Units and what they stand for. */
  datatype Unit = Unit(text: string, bytes: string)

  function Texts(us: seq<Unit>): string { if us == [] then "" else us[0].text + Texts(us[1..]) }

  function Bytes(us: seq<Unit>): string { if us == [] then "" else us[0].bytes + Bytes(us[1..]) }

  predicate AllSpell(us: seq<Unit>) { forall k | 0 <= k < |us| :: UnitSpells(us[k].text, us[k].bytes) }

  ghost predicate StringSpells(s: string, bytes: string) {
    exists us :: AllSpell(us) && s == "\"" + Texts(us) + "\"" && bytes == Bytes(us)
  }

  /** A point and digits, or a letter and digits; there may be no digits. */
  predicate LaxFraction(s: string) { s == "" || (s[0] == '.' && AllDigits(s[1..])) }

  predicate LaxExponent(s: string) {
    || s == ""
    || ((s[0] == 'e' || s[0] == 'E')
        && (AllDigits(s[1..]) || (|s| > 1 && (s[1] == '+' || s[1] == '-') && AllDigits(s[2..]))))
  }

  predicate NumberParts(s: string, n: int, negative: bool, digits: string, fraction: string, exponent: string) {
    && s == (if negative then "-" else "") + digits + fraction + exponent
    && AllDigits(digits) && LaxFraction(fraction) && LaxExponent(exponent) && (digits != "" || |fraction| > 1)
    && n == Signed(negative, Whole(digits))
  }

  ghost predicate NumberSpells(s: string, n: int) {
    exists negative, digits, fraction, exponent :: NumberParts(s, n, negative, digits, fraction, exponent)
  }

  function Commas(parts: seq<string>): string {
    if parts == [] then "" else if |parts| == 1 then parts[0] else parts[0] + "," + Commas(parts[1..])
  }

  /** A text in white space. */
  predicate Around(part: string, a: string, s: string, b: string) { Blank(a) && Blank(b) && part == a + s + b }

  /** A key, a colon and a value, with white space between. */
  predicate Pairs(part: string, a: string, key: string, b: string, c: string, s: string, d: string) {
    Blank(a) && Blank(b) && Blank(c) && Blank(d) && part == a + key + b + ":" + (c + s + d)
  }

  ghost predicate PartSpells(part: string, v: Value)
    decreases v, 1
  {
    exists a, s, b :: Around(part, a, s, b) && Spells(s, v)
  }

  ghost predicate MemberSpells(part: string, m: Member)
    decreases m, 1
  {
    exists a, key, b, c, s, d :: Pairs(part, a, key, b, c, s, d) && StringSpells(key, m.key) && Spells(s, m.value)
  }

  /** A text spells a value: brackets around parts with commas between, or white space if there is nothing in them. */
  ghost predicate Spells(s: string, v: Value)
    decreases v, 0
  {
    match v
    case Null => s == "null"
    case True => s == "true"
    case False => s == "false"
    case Number(n) => NumberSpells(s, n)
    case String(bytes) => StringSpells(s, bytes)
    case Array(items) =>
      exists parts :: && (|parts| == |items| || (items == [] && |parts| == 1 && Blank(parts[0])))
                      && s == "[" + Commas(parts) + "]" && forall k | 0 <= k < |items| :: PartSpells(parts[k], items[k])
    case Object(members) =>
      exists parts :: && (|parts| == |members| || (members == [] && |parts| == 1 && Blank(parts[0])))
                      && s == "{" + Commas(parts) + "}" && forall k | 0 <= k < |members| :: MemberSpells(parts[k], members[k])
  }

  /** How deep a value is nested. */
  function Depth(v: Value): nat {
    match v
    case Array(items) => 1 + DepthOf(items)
    case Object(ms) => 1 + DepthOfMembers(ms)
    case _ => 0
  }

  function DepthOf(items: seq<Value>): nat { if items == [] then 0 else Max(Depth(items[0]), DepthOf(items[1..])) }

  function DepthOfMembers(ms: seq<Member>): nat {
    if ms == [] then 0 else Max(Depth(ms[0].value), DepthOfMembers(ms[1..]))
  }

  // ----------------------------------------------------------------------- strings

  lemma CodeIsUnit(text: string, i: nat)
    requires i + 1 < |text| && text[i] == '\\' && text[i + 1] == 'u' && ReadCode(text, i + 2).Some?
    ensures var r := ReadCode(text, i + 2).value; i + 6 <= r.next <= |text| && UnitSpells(text[i..r.next], r.bytes)
  {
    var r := ReadCode(text, i + 2).value;
    var unit := text[i..r.next];
    assert unit[..2] == "\\u";
    var d := text[i + 2..i + 6];
    assert unit[2..6] == d;
    hide Utf8, Hex4, IsHex4, Combined;
    if IsHigh(Hex4(d)) && HasPair(text, i + 6) {
      assert unit[6..8] == "\\u" && unit[8..] == text[i + 8..i + 12];
    } else {
      assert unit[2..] == d;
    }
  }

  lemma ReadIsUnit(text: string, i: nat)
    requires i < |text| && text[i] != '"' && ReadUnit(text, i).Some?
    ensures var r := ReadUnit(text, i).value; i < r.next <= |text| && UnitSpells(text[i..r.next], r.bytes)
  {
    var r := ReadUnit(text, i).value;
    if text[i] == '\\' && !IsShortEscape(text[i + 1]) {
      CodeIsUnit(text, i);
      hide UnitSpells, ReadCode, IsShortEscape;
    } else {
      assert text[i..r.next][0] == text[i];
      hide Utf8, Hex4, IsHex4, Combined, ReadCode;
    }
  }

  lemma {:induction false} BodyUnits(text: string, i: nat) returns (us: seq<Unit>)
    requires i <= |text| && Body(text, i).Some?
    ensures var r := Body(text, i).value;
            && i < r.next <= |text| && AllSpell(us)
            && text[i..r.next] == Texts(us) + "\"" && r.bytes == Bytes(us)
    decreases |text| - i
  {
    var r := Body(text, i).value;
    if text[i] == '"' {
      us := [];
      assert text[i..i + 1] == "" + "\"";
    } else {
      ReadIsUnit(text, i);
      var unit := ReadUnit(text, i).value;
      var rest := BodyUnits(text, unit.next);
      var first := Unit(text[i..unit.next], unit.bytes);
      us := [first] + rest;
      assert us[1..] == rest;
      hide Body, ReadUnit, UnitSpells;
      Slices(text, i, unit.next, r.next);
      Appended(first.text, Texts(rest), "\"");
    }
  }

  lemma Appended(a: string, b: string, c: string)
    ensures a + (b + c) == a + b + c
  {
  }

  lemma Slices(text: string, i: nat, j: nat, k: nat)
    requires i <= j <= k <= |text|
    ensures text[i..k] == text[i..j] + text[j..k]
  {
  }

  lemma StringIs(text: string, i: nat)
    requires i <= |text| && ReadString(text, i).Some?
    ensures var r := ReadString(text, i).value; i < r.next <= |text| && StringSpells(text[i..r.next], r.bytes)
  {
    var us := BodyUnits(text, i + 1);
    var r := ReadString(text, i).value;
    hide Body, AllSpell;
    assert text[i..r.next] == [text[i]] + text[i + 1..r.next];
    assert "\"" + (Texts(us) + "\"") == "\"" + Texts(us) + "\"";
  }

  // ----------------------------------------------------------------------- numbers

  lemma ExponentIs(text: string, i: nat)
    requires i <= |text|
    ensures LaxExponent(text[i..ExponentEnd(text, i)])
  {
    var s := text[i..ExponentEnd(text, i)];
    if s != "" {
      var signed := Is(text, i + 1, '+') || Is(text, i + 1, '-');
      var from := if signed then i + 2 else i + 1;
      DigitsAre(text, from);
      assert s[if signed then 2 else 1..] == text[from..DigitsEnd(text, from)];
    }
    hide DigitsEnd;
  }

  lemma FractionIs(text: string, i: nat)
    requires i <= |text|
    ensures LaxFraction(text[i..FractionEnd(text, i)])
  {
    var s := text[i..FractionEnd(text, i)];
    if s != "" {
      DigitsAre(text, i + 1);
      assert s[1..] == text[i + 1..DigitsEnd(text, i + 1)];
    }
    hide DigitsEnd;
  }

  lemma NumberIs(text: string, i: nat)
    requires i < |text| && (text[i] == '-' || IsDigit(text[i])) && ParseNumber(text, i).Some?
    ensures var p := ParseNumber(text, i).value; p.value.Number? && NumberSpells(text[i..p.next], p.value.value)
  {
    var p := ParseNumber(text, i).value;
    var negative := text[i] == '-';
    var first := if negative then i + 1 else i;
    var whole := DigitsEnd(text, first);
    var fraction := FractionEnd(text, whole);
    var end := ExponentEnd(text, fraction);
    FractionIs(text, whole);
    ExponentIs(text, fraction);
    var digits := DigitsOf(text, first);
    hide DigitsEnd, FractionEnd, ExponentEnd, LaxFraction, LaxExponent, Whole;
    assert text[i..first] == if negative then "-" else "";
    Slices(text, i, first, whole);
    Slices(text, i, whole, fraction);
    Slices(text, i, fraction, end);
    assert NumberParts(text[i..end], p.value.value, negative, digits, text[whole..fraction], text[fraction..end]);
  }

  // -------------------------------------------------------------------- structure

  lemma {:induction false} SkipIsBlank(text: string, i: nat)
    requires i <= |text|
    ensures Blank(text[i..Skip(text, i)])
    decreases |text| - i
  {
    if i < |text| && IsSpace(text[i]) {
      SkipIsBlank(text, i + 1);
      assert text[i..Skip(text, i)] == [text[i]] + text[i + 1..Skip(text, i + 1)];
    }
  }

  lemma OneAt(text: string, i: nat)
    requires i < |text|
    ensures text[i..i + 1] == [text[i]]
  {
  }

  /** What a parser's answer at a depth says of the text it read. */
  ghost predicate Sound(text: string, i: nat, p: Parsed<Value>, depth: nat, limit: nat) {
    i <= p.next <= |text| && Spells(text[i..p.next], p.value) && depth + Depth(p.value) <= limit
  }

  lemma WordSound(text: string, i: nat, word: string, v: Value, depth: nat, limit: nat)
    requires Word(text, i, word) && depth <= limit
    requires (v == Null && word == "null") || (v == True && word == "true") || (v == False && word == "false")
    ensures Sound(text, i, Parsed(v, i + |word|), depth, limit)
  {
  }

  lemma {:induction false} ValueSound(text: string, i: nat, depth: nat, limit: nat)
    requires i <= |text| && ParseValue(text, i, depth, limit).Some? && depth <= limit
    ensures Sound(text, Skip(text, i), ParseValue(text, i, depth, limit).value, depth, limit)
    decreases |text| - i, 1
  {
    var j := Skip(text, i);
    var p := ParseValue(text, i, depth, limit).value;
    if text[j] == '{' {
      ObjectSound(text, j, p, depth, limit);
    } else if text[j] == '[' {
      ArraySound(text, j, p, depth, limit);
    } else if text[j] == '"' {
      StringIs(text, j);
      hide ReadString, StringSpells;
    } else if Word(text, j, "true") {
      WordSound(text, j, "true", True, depth, limit);
    } else if Word(text, j, "false") {
      WordSound(text, j, "false", False, depth, limit);
    } else if Word(text, j, "null") {
      WordSound(text, j, "null", Null, depth, limit);
    } else {
      NumberIs(text, j);
      hide NumberSpells, ParseNumber;
    }
  }

  /** Parts of a list that has been read up to its bracket. */
  ghost predicate ItemsSound(parts: seq<string>, items: seq<Value>) {
    |parts| == |items| > 0 && forall k | 0 <= k < |items| :: PartSpells(parts[k], items[k])
  }

  lemma PartFrom(text: string, i: nat, j: nat, n: nat, k: nat, v: Value)
    requires i <= j <= n <= k <= |text| && Blank(text[i..j]) && Blank(text[n..k]) && Spells(text[j..n], v)
    ensures PartSpells(text[i..k], v)
  {
    Slices(text, i, j, k);
    Slices(text, j, n, k);
    var a, s, b := text[i..j], text[j..n], text[n..k];
    assert a + (s + b) == a + s + b;
    hide Spells, Blank, PartSpells;
    PartIntro(text[i..k], a, s, b, v);
  }

  lemma MoreItems(part: string, parts: seq<string>, v: Value, items: seq<Value>)
    requires PartSpells(part, v) && ItemsSound(parts, items)
    ensures ItemsSound([part] + parts, [v] + items)
    ensures Commas([part] + parts) == part + "," + Commas(parts)
    ensures DepthOf([v] + items) == Max(Depth(v), DepthOf(items))
  {
    assert ([part] + parts)[1..] == parts && ([v] + items)[1..] == items;
    hide PartSpells;
  }

  lemma OneItem(part: string, v: Value)
    requires PartSpells(part, v)
    ensures ItemsSound([part], [v]) && Commas([part]) == part && DepthOf([v]) == Depth(v)
  {
    assert [v][1..] == [];
    hide PartSpells;
  }

  /** The parts of a list from i on, with its bracket. */
  ghost predicate ItemsRead(text: string, i: nat, p: Parsed<seq<Value>>, parts: seq<string>, depth: nat, limit: nat) {
    && i < p.next <= |text| && ItemsSound(parts, p.value) && text[i..p.next] == Commas(parts) + "]"
    && depth + DepthOf(p.value) <= limit
  }

  lemma ItemThen(text: string, i: nat, j: nat, v: Value, more: Parsed<seq<Value>>, rest: seq<string>, depth: nat, limit: nat)
    requires i <= j < |text| && text[j] == ',' && PartSpells(text[i..j], v) && depth + Depth(v) <= limit
    requires ItemsRead(text, j + 1, more, rest, depth, limit)
    ensures ItemsRead(text, i, Parsed([v] + more.value, more.next), [text[i..j]] + rest, depth, limit)
  {
    hide PartSpells, ItemsSound, Commas, DepthOf, Depth;
    MoreItems(text[i..j], rest, v, more.value);
    CommaThen(text, i, j, more.next, Commas(rest), "]");
  }

  lemma ItemLast(text: string, i: nat, j: nat, v: Value, depth: nat, limit: nat)
    requires i <= j < |text| && text[j] == ']' && PartSpells(text[i..j], v) && depth + Depth(v) <= limit
    ensures ItemsRead(text, i, Parsed([v], j + 1), [text[i..j]], depth, limit)
  {
    hide PartSpells, ItemsSound, Commas, DepthOf, Depth;
    OneItem(text[i..j], v);
    ThenClose(text, i, j);
  }

  /** A value in white space. */
  lemma {:induction false} ItemIs(text: string, i: nat, item: Parsed<Value>, depth: nat, limit: nat)
    requires i <= |text| && ParseValue(text, Skip(text, i), depth, limit) == Some(item) && depth <= limit
    ensures PartSpells(text[i..Skip(text, item.next)], item.value) && depth + Depth(item.value) <= limit
    decreases |text| - i, 2
  {
    SkipIsBlank(text, i);
    SkipTwice(text, i);
    ValueSound(text, Skip(text, i), depth, limit);
    hide ParseValue, Spells, PartSpells, Skip, Blank, Depth;
    SkipIsBlank(text, item.next);
    PartFrom(text, i, Skip(text, i), item.next, Skip(text, item.next), item.value);
  }

  /** What a list's first part and its rest are. */
  lemma ItemsUnfold(text: string, i: nat, p: Parsed<seq<Value>>, depth: nat, limit: nat)
    returns (item: Parsed<Value>, j: nat, more: Parsed<seq<Value>>)
    requires i <= |text| && ParseItems(text, i, depth, limit) == Some(p)
    ensures ParseValue(text, Skip(text, i), depth, limit) == Some(item) && i < item.next <= |text|
    ensures j == Skip(text, item.next) < |text| && i <= j
    ensures if text[j] == ',' then
              ParseItems(text, j + 1, depth, limit) == Some(more) && p == Parsed([item.value] + more.value, more.next)
            else text[j] == ']' && p == Parsed([item.value], j + 1)
  {
    hide ParseValue, Skip;
    item := ParseValue(text, Skip(text, i), depth, limit).value;
    j := Skip(text, item.next);
    more := if text[j] == ',' then ParseItems(text, j + 1, depth, limit).value else p;
  }

  lemma {:induction false} ItemsAre(text: string, i: nat, p: Parsed<seq<Value>>, depth: nat, limit: nat) returns (parts: seq<string>)
    requires i <= |text| && ParseItems(text, i, depth, limit) == Some(p) && depth <= limit
    ensures ItemsRead(text, i, p, parts, depth, limit)
    decreases |text| - i, 3
  {
    hide ParseItems, ParseValue, PartSpells, Skip, Depth, ItemsRead;
    var item, j, more := ItemsUnfold(text, i, p, depth, limit);
    ItemIs(text, i, item, depth, limit);
    if text[j] == ',' {
      var rest := ItemsAre(text, j + 1, more, depth, limit);
      ItemThen(text, i, j, item.value, more, rest, depth, limit);
      parts := [text[i..j]] + rest;
    } else {
      ItemLast(text, i, j, item.value, depth, limit);
      parts := [text[i..j]];
    }
  }

  /** A part, a comma and the parts behind it; or a part and a bracket. */
  lemma CommaThen(text: string, i: nat, j: nat, k: nat, rest: string, close: string)
    requires i <= j < k <= |text| && text[j] == ',' && text[j + 1..k] == rest + close
    ensures text[i..k] == text[i..j] + "," + rest + close
  {
    Slices(text, i, j, k);
    Slices(text, j, j + 1, k);
    OneAt(text, j);
    assert text[i..j] + ("," + (rest + close)) == text[i..j] + "," + rest + close;
  }

  lemma ThenClose(text: string, i: nat, j: nat)
    requires i <= j < |text|
    ensures text[i..j + 1] == text[i..j] + [text[j]]
  {
  }

  /** White space before the first part belongs to it. */
  lemma {:induction false} SpaceBefore(space: string, parts: seq<string>)
    requires parts != []
    ensures space + Commas(parts) == Commas([space + parts[0]] + parts[1..])
  {
    var wide := [space + parts[0]] + parts[1..];
    assert wide[1..] == parts[1..];
    assert space + (parts[0] + "," + Commas(parts[1..])) == space + parts[0] + "," + Commas(parts[1..]);
  }

  lemma WiderPart(space: string, part: string, v: Value)
    requires Blank(space) && PartSpells(part, v)
    ensures PartSpells(space + part, v)
  {
    hide Spells;
    var a, s, b :| Around(part, a, s, b) && Spells(s, v);
    hide PartSpells;
    assert space + (a + s + b) == (space + a) + s + b;
    BlankBoth(space, a);
    PartIntro(space + part, space + a, s, b, v);
  }

  lemma BlankBoth(a: string, b: string)
    requires Blank(a) && Blank(b)
    ensures Blank(a + b)
  {
  }

  lemma PartIntro(part: string, a: string, s: string, b: string, v: Value)
    requires Around(part, a, s, b) && Spells(s, v)
    ensures PartSpells(part, v)
  {
    hide Spells, Around;
  }

  lemma MemberIntro(part: string, a: string, key: string, b: string, c: string, s: string, d: string, m: Member)
    requires Pairs(part, a, key, b, c, s, d) && StringSpells(key, m.key) && Spells(s, m.value)
    ensures MemberSpells(part, m)
  {
    hide Spells, StringSpells, Pairs;
  }

  /** A list without parts, or one with them. */
  lemma ArrayUnfold(text: string, i: nat, p: Parsed<Value>, depth: nat, limit: nat)
    returns (j: nat, items: Parsed<seq<Value>>)
    requires i < |text| && ParseArray(text, i, depth, limit) == Some(p)
    ensures depth < limit && i < j == Skip(text, i + 1) < |text|
    ensures if text[j] == ']' then p == Parsed(Array([]), j + 1)
            else ParseItems(text, j, depth + 1, limit) == Some(items) && p == Parsed(Array(items.value), items.next)
  {
    hide ParseItems, Skip;
    j := Skip(text, i + 1);
    items := if Is(text, j, ']') then Parsed([], j + 1) else ParseItems(text, j, depth + 1, limit).value;
  }

  /** A bracket, white space, and the rest up to a bracket. */
  lemma Opened(text: string, i: nat, j: nat, k: nat, inner: string, close: string)
    requires i < j <= k <= |text| && text[j..k] == inner + close
    ensures text[i..k] == [text[i]] + (text[i + 1..j] + inner) + close
  {
    OneAt(text, i);
    Slices(text, i, i + 1, k);
    Slices(text, i + 1, j, k);
    Bracketed([text[i]], text[i + 1..j], inner, close);
  }

  lemma {:induction false} ArraySound(text: string, i: nat, p: Parsed<Value>, depth: nat, limit: nat)
    requires i < |text| && text[i] == '[' && ParseArray(text, i, depth, limit) == Some(p) && depth <= limit
    ensures Sound(text, i, p, depth, limit)
    decreases |text| - i, 0
  {
    hide ParseArray, ParseItems, Skip, Spells, Commas, ItemsSound, DepthOf;
    var j, items := ArrayUnfold(text, i, p, depth, limit);
    var space := text[i + 1..j];
    SkipIsBlank(text, i + 1);
    assert [text[i]] == "[";
    if text[j] == ']' {
      OneAt(text, j);
      EmptySpells(space);
      Opened(text, i, j, j + 1, "", "]");
      assert space + "" == space;
    } else {
      var parts := ItemsAre(text, j, items, depth + 1, limit);
      ArraySpells(space, parts, items.value);
      Opened(text, i, j, p.next, Commas(parts), "]");
    }
  }

  lemma Bracketed(open: string, a: string, b: string, close: string)
    ensures open + (a + (b + close)) == open + (a + b) + close
  {
  }

  lemma EmptySpells(space: string)
    requires Blank(space)
    ensures Spells("[" + Commas([space]) + "]", Array([])) && Spells("{" + Commas([space]) + "}", Object([]))
    ensures Commas([space]) == space && Depth(Array([])) == Depth(Object([])) == 1
  {
  }

  lemma ListSpells(parts: seq<string>, items: seq<Value>)
    requires ItemsSound(parts, items)
    ensures Spells("[" + Commas(parts) + "]", Array(items))
  {
    hide PartSpells, Commas;
  }

  lemma WiderItems(space: string, parts: seq<string>, items: seq<Value>)
    requires Blank(space) && ItemsSound(parts, items)
    ensures ItemsSound([space + parts[0]] + parts[1..], items)
  {
    var wide := [space + parts[0]] + parts[1..];
    WiderPart(space, parts[0], items[0]);
    hide PartSpells, Blank;
    forall k | 0 <= k < |items|
      ensures PartSpells(wide[k], items[k])
    {
      if k > 0 { assert wide[k] == parts[k]; }
    }
  }

  lemma ArraySpells(space: string, parts: seq<string>, items: seq<Value>)
    requires Blank(space) && ItemsSound(parts, items)
    ensures Spells("[" + (space + Commas(parts)) + "]", Array(items))
  {
    var wide := [space + parts[0]] + parts[1..];
    SpaceBefore(space, parts);
    WiderItems(space, parts, items);
    hide Spells, Commas;
    ListSpells(wide, items);
  }

  // ---------------------------------------------------------------------- objects

  ghost predicate MembersSound(parts: seq<string>, ms: seq<Member>) {
    |parts| == |ms| > 0 && forall k | 0 <= k < |ms| :: MemberSpells(parts[k], ms[k])
  }

  lemma MoreMembers(part: string, parts: seq<string>, m: Member, ms: seq<Member>)
    requires MemberSpells(part, m) && MembersSound(parts, ms)
    ensures MembersSound([part] + parts, [m] + ms)
    ensures Commas([part] + parts) == part + "," + Commas(parts)
    ensures DepthOfMembers([m] + ms) == Max(Depth(m.value), DepthOfMembers(ms))
  {
    assert ([part] + parts)[1..] == parts && ([m] + ms)[1..] == ms;
    hide MemberSpells;
  }

  lemma OneMember(part: string, m: Member)
    requires MemberSpells(part, m)
    ensures MembersSound([part], [m]) && Commas([part]) == part && DepthOfMembers([m]) == Depth(m.value)
  {
    assert [m][1..] == [];
    hide MemberSpells;
  }

  lemma MemberFrom(a: string, key: string, b: string, c: string, s: string, d: string, m: Member)
    requires Blank(a) && Blank(b) && Blank(c) && Blank(d) && StringSpells(key, m.key) && Spells(s, m.value)
    ensures MemberSpells(a + key + b + ":" + (c + s + d), m)
  {
    hide Spells, StringSpells, Blank, MemberSpells;
    MemberIntro(a + key + b + ":" + (c + s + d), a, key, b, c, s, d, m);
  }

  lemma SixSlices(text: string, i: nat, k: nat, n: nat, j: nat, v: nat, e: nat, z: nat)
    requires i <= k <= n <= j < v <= e <= z <= |text| && text[j] == ':'
    ensures text[i..z] == text[i..k] + text[k..n] + text[n..j] + ":" + (text[j + 1..v] + text[v..e] + text[e..z])
  {
    OneAt(text, j);
    Slices(text, i, k, n);
    Slices(text, i, n, j);
    Slices(text, i, j, j + 1);
    Slices(text, j + 1, v, e);
    Slices(text, j + 1, e, z);
    Slices(text, i, j + 1, z);
  }

  lemma MemberUnfold(text: string, i: nat, p: Parsed<Member>, depth: nat, limit: nat)
    returns (key: Read, j: nat, v: Parsed<Value>)
    requires i <= |text| && ParseMember(text, i, depth, limit) == Some(p)
    ensures ReadString(text, Skip(text, i)) == Some(key) && i < key.next <= |text|
    ensures i <= j == Skip(text, key.next) < |text| && text[j] == ':'
    ensures ParseValue(text, Skip(text, j + 1), depth, limit) == Some(v) && p == Parsed(Member(key.bytes, v.value), v.next)
  {
    hide ParseValue, Skip, ReadString;
    key := ReadString(text, Skip(text, i)).value;
    j := Skip(text, key.next);
    v := ParseValue(text, Skip(text, j + 1), depth, limit).value;
  }

  lemma MemberAt(text: string, i: nat, k: nat, n: nat, j: nat, v: nat, e: nat, z: nat, m: Member)
    requires i <= k <= n <= j < v <= e <= z <= |text| && text[j] == ':'
    requires Blank(text[i..k]) && Blank(text[n..j]) && Blank(text[j + 1..v]) && Blank(text[e..z])
    requires StringSpells(text[k..n], m.key) && Spells(text[v..e], m.value)
    ensures MemberSpells(text[i..z], m)
  {
    hide Spells, StringSpells, MemberSpells, Blank;
    MemberFrom(text[i..k], text[k..n], text[n..j], text[j + 1..v], text[v..e], text[e..z], m);
    SixSlices(text, i, k, n, j, v, e, z);
  }

  lemma {:induction false} MemberIs(text: string, i: nat, p: Parsed<Member>, depth: nat, limit: nat)
    requires i <= |text| && ParseMember(text, i, depth, limit) == Some(p) && depth <= limit
    ensures i < p.next <= |text| && MemberSpells(text[i..Skip(text, p.next)], p.value) && depth + Depth(p.value.value) <= limit
    decreases |text| - i, 2
  {
    hide ParseMember, ParseValue, ReadString, Skip, Spells, StringSpells, MemberSpells, Blank, Depth;
    var key, j, v := MemberUnfold(text, i, p, depth, limit);
    var at, from, end := Skip(text, i), Skip(text, j + 1), Skip(text, v.next);
    StringIs(text, at);
    SkipTwice(text, j + 1);
    ValueSound(text, from, depth, limit);
    SkipIsBlank(text, i);
    SkipIsBlank(text, key.next);
    SkipIsBlank(text, j + 1);
    SkipIsBlank(text, v.next);
    MemberAt(text, i, at, key.next, j, from, v.next, end, p.value);
  }

  lemma MembersUnfold(text: string, i: nat, p: Parsed<seq<Member>>, depth: nat, limit: nat)
    returns (m: Parsed<Member>, j: nat, more: Parsed<seq<Member>>)
    requires i <= |text| && ParseMembers(text, i, depth, limit) == Some(p)
    ensures ParseMember(text, i, depth, limit) == Some(m) && i < m.next <= |text|
    ensures j == Skip(text, m.next) < |text| && i <= j
    ensures if text[j] == ',' then
              ParseMembers(text, j + 1, depth, limit) == Some(more) && p == Parsed([m.value] + more.value, more.next)
            else text[j] == '}' && p == Parsed([m.value], j + 1)
  {
    hide ParseMember, Skip;
    m := ParseMember(text, i, depth, limit).value;
    j := Skip(text, m.next);
    more := if text[j] == ',' then ParseMembers(text, j + 1, depth, limit).value else p;
  }

  ghost predicate MembersRead(text: string, i: nat, p: Parsed<seq<Member>>, parts: seq<string>, depth: nat, limit: nat) {
    && i < p.next <= |text| && MembersSound(parts, p.value) && text[i..p.next] == Commas(parts) + "}"
    && depth + DepthOfMembers(p.value) <= limit
  }

  lemma MemberThen(text: string, i: nat, j: nat, m: Member, more: Parsed<seq<Member>>, rest: seq<string>, depth: nat, limit: nat)
    requires i <= j < |text| && text[j] == ',' && MemberSpells(text[i..j], m) && depth + Depth(m.value) <= limit
    requires MembersRead(text, j + 1, more, rest, depth, limit)
    ensures MembersRead(text, i, Parsed([m] + more.value, more.next), [text[i..j]] + rest, depth, limit)
  {
    hide MemberSpells, MembersSound, Commas, DepthOfMembers, Depth;
    MoreMembers(text[i..j], rest, m, more.value);
    CommaThen(text, i, j, more.next, Commas(rest), "}");
  }

  lemma MemberLast(text: string, i: nat, j: nat, m: Member, depth: nat, limit: nat)
    requires i <= j < |text| && text[j] == '}' && MemberSpells(text[i..j], m) && depth + Depth(m.value) <= limit
    ensures MembersRead(text, i, Parsed([m], j + 1), [text[i..j]], depth, limit)
  {
    hide MemberSpells, MembersSound, Commas, DepthOfMembers, Depth;
    OneMember(text[i..j], m);
    ThenClose(text, i, j);
  }

  lemma {:induction false} MembersAre(text: string, i: nat, p: Parsed<seq<Member>>, depth: nat, limit: nat)
    returns (parts: seq<string>)
    requires i <= |text| && ParseMembers(text, i, depth, limit) == Some(p) && depth <= limit
    ensures MembersRead(text, i, p, parts, depth, limit)
    decreases |text| - i, 3
  {
    hide ParseMembers, ParseMember, MemberSpells, Skip, Depth, MembersRead;
    var m, j, more := MembersUnfold(text, i, p, depth, limit);
    MemberIs(text, i, m, depth, limit);
    if text[j] == ',' {
      var rest := MembersAre(text, j + 1, more, depth, limit);
      MemberThen(text, i, j, m.value, more, rest, depth, limit);
      parts := [text[i..j]] + rest;
    } else {
      MemberLast(text, i, j, m.value, depth, limit);
      parts := [text[i..j]];
    }
  }

  lemma WiderMember(space: string, part: string, m: Member)
    requires Blank(space) && MemberSpells(part, m)
    ensures MemberSpells(space + part, m)
  {
    hide Spells, StringSpells;
    var a, key, b, c, s, d :| Pairs(part, a, key, b, c, s, d) && StringSpells(key, m.key) && Spells(s, m.value);
    hide MemberSpells;
    WiderPair(space, part, a, key, b, c, s, d);
    MemberIntro(space + part, space + a, key, b, c, s, d, m);
  }

  lemma WiderPair(space: string, part: string, a: string, key: string, b: string, c: string, s: string, d: string)
    requires Blank(space) && Pairs(part, a, key, b, c, s, d)
    ensures Pairs(space + part, space + a, key, b, c, s, d)
  {
    BlankBoth(space, a);
    var after := b + ":" + (c + s + d);
    assert a + key + b + ":" + (c + s + d) == a + (key + after);
    assert space + (a + (key + after)) == (space + a) + key + b + ":" + (c + s + d);
  }

  lemma RecordSpells(parts: seq<string>, ms: seq<Member>)
    requires MembersSound(parts, ms)
    ensures Spells("{" + Commas(parts) + "}", Object(ms))
  {
    hide MemberSpells, Commas;
  }

  lemma WiderMembers(space: string, parts: seq<string>, ms: seq<Member>)
    requires Blank(space) && MembersSound(parts, ms)
    ensures MembersSound([space + parts[0]] + parts[1..], ms)
  {
    var wide := [space + parts[0]] + parts[1..];
    WiderMember(space, parts[0], ms[0]);
    hide MemberSpells, Blank;
    forall k | 0 <= k < |ms|
      ensures MemberSpells(wide[k], ms[k])
    {
      if k > 0 { assert wide[k] == parts[k]; }
    }
  }

  lemma ObjectSpells(space: string, parts: seq<string>, ms: seq<Member>)
    requires Blank(space) && MembersSound(parts, ms)
    ensures Spells("{" + (space + Commas(parts)) + "}", Object(ms))
  {
    var wide := [space + parts[0]] + parts[1..];
    SpaceBefore(space, parts);
    WiderMembers(space, parts, ms);
    hide Spells, Commas;
    RecordSpells(wide, ms);
  }

  lemma ObjectUnfold(text: string, i: nat, p: Parsed<Value>, depth: nat, limit: nat)
    returns (j: nat, ms: Parsed<seq<Member>>)
    requires i < |text| && ParseObject(text, i, depth, limit) == Some(p)
    ensures depth < limit && i < j == Skip(text, i + 1) < |text|
    ensures if text[j] == '}' then p == Parsed(Object([]), j + 1)
            else ParseMembers(text, j, depth + 1, limit) == Some(ms) && p == Parsed(Object(ms.value), ms.next)
  {
    hide ParseMembers, Skip;
    j := Skip(text, i + 1);
    ms := if Is(text, j, '}') then Parsed([], j + 1) else ParseMembers(text, j, depth + 1, limit).value;
  }

  lemma {:induction false} ObjectSound(text: string, i: nat, p: Parsed<Value>, depth: nat, limit: nat)
    requires i < |text| && text[i] == '{' && ParseObject(text, i, depth, limit) == Some(p) && depth <= limit
    ensures Sound(text, i, p, depth, limit)
    decreases |text| - i, 0
  {
    hide ParseObject, ParseMembers, Skip, Spells, Commas, MembersSound, DepthOfMembers;
    var j, ms := ObjectUnfold(text, i, p, depth, limit);
    var space := text[i + 1..j];
    SkipIsBlank(text, i + 1);
    assert [text[i]] == "{";
    if text[j] == '}' {
      OneAt(text, j);
      EmptySpells(space);
      Opened(text, i, j, j + 1, "", "}");
      assert space + "" == space;
    } else {
      var parts := MembersAre(text, j, ms, depth + 1, limit);
      ObjectSpells(space, parts, ms.value);
      Opened(text, i, j, p.next, Commas(parts), "}");
    }
  }

  /** Main result: an accepted text is white space around a text of its value, nested no deeper than the limit. */
  lemma DocumentSound(text: string, limit: nat, strict: bool) returns (before: string, s: string, after: string, beyond: string)
    requires ParseDocument(text, limit, strict).Some?
    ensures var p := ParseDocument(text, limit, strict).value;
            && text == before + s + after + beyond && Blank(before) && Blank(after)
            && Spells(s, p.value) && Depth(p.value) <= limit && p.next == |before + s + after|
            && (beyond == "" || (!strict && beyond[0] == NUL))
  {
    DocumentUnfold(text, limit, strict);
    hide ParseDocument, ParseValue, Skip, Spells, Blank, Depth;
    var root := ParseValue(text, 0, 0, limit).value;
    var i, end := Skip(text, 0), Skip(text, root.next);
    SkipIsBlank(text, 0);
    SkipIsBlank(text, root.next);
    ValueSound(text, 0, 0, limit);
    before, s, after, beyond := text[..i], text[i..root.next], text[root.next..end], text[end..];
    assert text[0..i] == text[..i];
    Slices(text, 0, i, root.next);
    Slices(text, 0, root.next, end);
    Slices(text, 0, end, |text|);
    assert text[0..|text|] == text && text[end..|text|] == text[end..];
  }

  lemma DocumentUnfold(text: string, limit: nat, strict: bool)
    requires ParseDocument(text, limit, strict).Some?
    ensures ParseValue(text, 0, 0, limit).Some?
    ensures var root := ParseValue(text, 0, 0, limit).value; var end := Skip(text, root.next);
            && ParseDocument(text, limit, strict).value == Parsed(root.value, end)
            && (end == |text| || (!strict && text[end] == NUL))
  {
    hide ParseValue, Skip;
  }
}
