/** Documents nested too deeply: refused, and no others. */
module JsonDepth {
  import opened Options
  import opened JsonText
  import opened JsonParser

  lemma ListStops(text: string, i: nat, depth: nat, limit: nat)
    requires Is(text, i, '[')
    ensures depth >= limit ==> ParseValue(text, i, depth, limit) == None
    ensures !Is(text, Skip(text, i + 1), ']') && ParseItems(text, Skip(text, i + 1), depth + 1, limit) == None ==>
              ParseValue(text, i, depth, limit) == None
  {
    SkipStops(text, i);
    assert ParseValue(text, i, depth, limit) == ParseArray(text, i, depth, limit);
    hide Skip, ParseItems;
  }

  lemma RecordStops(text: string, i: nat, depth: nat, limit: nat)
    requires Is(text, i, '{')
    ensures depth >= limit ==> ParseValue(text, i, depth, limit) == None
    ensures !Is(text, Skip(text, i + 1), '}') && ParseMembers(text, Skip(text, i + 1), depth + 1, limit) == None ==>
              ParseValue(text, i, depth, limit) == None
  {
    SkipStops(text, i);
    assert ParseValue(text, i, depth, limit) == ParseObject(text, i, depth, limit);
    hide Skip, ParseMembers;
  }

  /** A value that is refused ends its list, and so does the rest of the list. */
  lemma ItemsStop(text: string, i: nat, p: nat, depth: nat, limit: nat)
    requires i < |text| && Skip(text, i) == p
    ensures ParseValue(text, p, depth, limit) == None ==> ParseItems(text, i, depth, limit) == None
    ensures ParseValue(text, p, depth, limit).Some? ==>
              var r := Skip(text, ParseValue(text, p, depth, limit).value.next);
              Is(text, r, ',') && ParseItems(text, r + 1, depth, limit) == None ==> ParseItems(text, i, depth, limit) == None
  {
    hide Skip, ParseValue;
  }

  lemma MembersStop(text: string, i: nat, depth: nat, limit: nat)
    requires i < |text|
    ensures ParseMember(text, i, depth, limit) == None ==> ParseMembers(text, i, depth, limit) == None
    ensures ParseMember(text, i, depth, limit).Some? ==>
              var r := Skip(text, ParseMember(text, i, depth, limit).value.next);
              Is(text, r, ',') && ParseMembers(text, r + 1, depth, limit) == None ==> ParseMembers(text, i, depth, limit) == None
  {
    hide Skip, ParseMember;
  }

  lemma MemberStops(text: string, i: nat, p: nat, key: Read, c: nat, g: nat, depth: nat, limit: nat)
    requires i <= |text| && Skip(text, i) == p && ReadString(text, p) == Some(key) && key.next <= |text|
    requires Skip(text, key.next) == c && Is(text, c, ':') && Skip(text, c + 1) == g
    requires ParseValue(text, g, depth, limit) == None
    ensures ParseMember(text, i, depth, limit) == None
  {
    hide Skip, ReadString, ParseValue;
  }

  lemma DocRefused(text: string, i: nat, d: Doc, depth: nat, limit: nat)
    requires GoodDoc(d) && At(text, i, Write(d)) && Ends(text, i + |Write(d)|)
    requires depth <= limit < depth + Nesting(d)
    ensures ParseValue(text, i, depth, limit) == None
    decreases d, 1
  {
    hide Spelled, Meant, ParseNumber, Whole, Ends, At, ParseValue, WriteItems, WriteMembers;
    match d
    case Fixed(_) =>
    case Integer(_, _, _, _) =>
    case Text(_) =>
    case List(items) => ListRefused(text, i, items, depth, limit);
    case Record(ms) => RecordRefused(text, i, ms, depth, limit);
  }

  lemma ListRefused(text: string, i: nat, items: Items, depth: nat, limit: nat)
    requires GoodItems(items) && At(text, i, "[" + WriteItems(items) + "]")
    requires depth <= limit < depth + 1 + NestingItems(items)
    ensures ParseValue(text, i, depth, limit) == None
    decreases items, 1
  {
    hide ParseValue, ParseItems, Skip, At, Write, Blank, GoodDoc;
    Enclosed(text, i, "[", WriteItems(items), "]");
    ListStops(text, i, depth, limit);
    if depth < limit {
      ItemsRefused(text, i + 1, items, depth + 1, limit);
      ItemsSkip(text, i + 1, depth + 1, limit);
    }
  }

  lemma ItemsRefused(text: string, i: nat, items: Items, depth: nat, limit: nat)
    requires GoodItems(items) && At(text, i, WriteItems(items))
    requires Is(text, i + |WriteItems(items)|, ']') && depth <= limit < depth + NestingItems(items)
    ensures i < |text| && Skip(text, i) < |text| && text[Skip(text, i)] != ']'
    ensures ParseItems(text, i, depth, limit) == None
    decreases items, 0
  {
    hide ParseValue, ParseItems, Skip, Ends, Write, Mean, GoodDoc, At, Blank;
    var Items(before, doc, after, rest) := items;
    WriteStarts(doc);
    var tail := if rest.Next? then "," + WriteItems(rest.items) else "";
    ItemParts(text, i, before, Write(doc), after, tail, ']');
    var p := i + |before|;
    var r := p + |Write(doc)| + |after|;
    ItemsStop(text, i, p, depth, limit);
    if depth + Nesting(doc) > limit {
      DocRefused(text, p, doc, depth, limit);
    } else {
      DocRead(text, p, doc, depth, limit);
      AtSplit(text, r, ",", WriteItems(rest.items));
      ItemsRefused(text, r + 1, rest.items, depth, limit);
    }
  }

  lemma RecordRefused(text: string, i: nat, ms: Members, depth: nat, limit: nat)
    requires GoodMembers(ms) && At(text, i, "{" + WriteMembers(ms) + "}")
    requires depth <= limit < depth + 1 + NestingMembers(ms)
    ensures ParseValue(text, i, depth, limit) == None
    decreases ms, 1
  {
    hide ParseValue, ParseMembers, Skip, At, Write, Blank, Spelled, Meant, GoodDoc;
    Enclosed(text, i, "{", WriteMembers(ms), "}");
    RecordStops(text, i, depth, limit);
    if depth < limit {
      MembersRefused(text, i + 1, ms, depth + 1, limit);
      MembersSkip(text, i + 1, depth + 1, limit);
    }
  }

  lemma MemberRefused(text: string, i: nat, p: nat, key: seq<Spelling>, colon: string, gap: string, doc: Doc, depth: nat, limit: nat)
    requires i <= |text| && Skip(text, i) == p && AllGood(key) && Blank(colon) && Blank(gap) && GoodDoc(doc)
    requires At(text, p, WriteMember(key, colon, gap, doc))
    requires ParseValue(text, p + |WriteMember(key, colon, gap, doc)| - |Write(doc)|, depth, limit) == None
    ensures ParseMember(text, i, depth, limit) == None
  {
    hide ParseValue, ParseMember, Skip, Write, Mean, GoodDoc, Spelled, Meant, At, Blank;
    var name := "\"" + Spelled(key) + "\"";
    WriteStarts(doc);
    MemberParts(text, p, name, colon, gap, Write(doc));
    StringRead(text, p, key);
    var c := p + |name| + |colon|;
    MemberStops(text, i, p, Read(Meant(key), p + |name|), c, c + 1 + |gap|, depth, limit);
  }

  lemma MembersRefused(text: string, i: nat, ms: Members, depth: nat, limit: nat)
    requires GoodMembers(ms) && At(text, i, WriteMembers(ms))
    requires Is(text, i + |WriteMembers(ms)|, '}') && depth <= limit < depth + NestingMembers(ms)
    ensures i < |text| && Skip(text, i) < |text| && text[Skip(text, i)] != '}'
    ensures ParseMembers(text, i, depth, limit) == None
    decreases ms, 0
  {
    hide ParseValue, ParseMembers, ParseMember, Skip, Ends, Write, Mean, GoodDoc, Spelled, Meant, At, Blank;
    var Members(before, key, colon, gap, doc, after, rest) := ms;
    var body := WriteMember(key, colon, gap, doc);
    var tail := if rest.NextMember? then "," + WriteMembers(rest.members) else "";
    SevenParts(before, "\"" + Spelled(key) + "\"", colon, ":", gap, Write(doc), after, tail);
    assert WriteMembers(ms) == before + body + after + tail;
    ItemParts(text, i, before, body, after, tail, '}');
    var p := i + |before|;
    var q := p + |body|;
    var r := q + |after|;
    AtSplit(text, p, ("\"" + Spelled(key) + "\"") + colon + ":" + gap, Write(doc));
    MembersStop(text, i, depth, limit);
    if depth + Nesting(doc) > limit {
      DocRefused(text, q - |Write(doc)|, doc, depth, limit);
      MemberRefused(text, i, p, key, colon, gap, doc, depth, limit);
    } else {
      DocRead(text, q - |Write(doc)|, doc, depth, limit);
      MemberRead(text, i, p, key, colon, gap, doc, depth, limit);
      AtSplit(text, r, ",", WriteMembers(rest.members));
      MembersRefused(text, r + 1, rest.members, depth, limit);
    }
  }

  /**
    Main result: however a document is written, it parses to what it means if it is nested no deeper
    than the limit and nothing forbidden stands behind it, and is refused if not.
  */
  lemma DocumentReadIff(before: string, d: Doc, after: string, beyond: string, limit: nat, strict: bool)
    requires Blank(before) && GoodDoc(d) && Blank(after) && (beyond == "" || beyond[0] == NUL)
    ensures ParseDocument(before + Write(d) + after + beyond, limit, strict) ==
            if Nesting(d) <= limit && (beyond == "" || !strict) then Some(Parsed(Mean(d), |before + Write(d) + after|))
            else None
  {
    if Nesting(d) <= limit {
      DocumentRead(before, d, after, beyond, limit, strict);
    } else {
      var text := before + Write(d) + after + beyond;
      hide ParseValue, Skip, Write, Mean, GoodDoc, At, Blank, Ends, Nesting;
      DocumentParts(before, d, after, beyond);
      DocRefused(text, |before|, d, 0, limit);
      FourAt(before, Write(d), after, beyond);
      ValueSkip(text, 0, |before|, limit);
    }
  }
}
