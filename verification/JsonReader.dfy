/** The JSON reader as the program runs it: a position and a nesting depth that every parser moves and restores. */
module JsonReader {
  import opened Options
  import opened JsonText
  import opened JsonParser
  import opened Strings

  /** What a whole reading comes to: what is done so far, and the reading of the rest. */
  ghost predicate Continues(whole: Option<Read>, done: string, rest: Option<Read>) {
    whole == if rest == None then None else Some(Read(done + rest.value.bytes, rest.value.next))
  }

  lemma Unread(whole: Option<Read>)
    ensures Continues(whole, "", whole)
  {
    if whole.Some? { assert "" + whole.value.bytes == whole.value.bytes; }
  }

  lemma BodyUnit(text: string, i: nat, whole: Option<Read>, done: string)
    requires i < |text| && text[i] != '"' && Continues(whole, done, Body(text, i))
    ensures ReadUnit(text, i) == None ==> whole == None
    ensures ReadUnit(text, i).Some? ==>
              Continues(whole, done + ReadUnit(text, i).value.bytes, Body(text, ReadUnit(text, i).value.next))
  {
    hide ReadUnit;
    if ReadUnit(text, i).Some? {
      var u := ReadUnit(text, i).value;
      if Body(text, u.next).Some? {
        assert done + (u.bytes + Body(text, u.next).value.bytes) == (done + u.bytes) + Body(text, u.next).value.bytes;
      }
    }
  }

  /** Four hexadecimal digits at a place. */
  method ReadHex4(text: string, i: nat) returns (r: Option<nat>)
    requires i + 4 <= |text|
    ensures r == if IsHex4(text[i..i + 4]) then Some(Hex4(text[i..i + 4])) else None
  {
    var h0, h1, h2, h3 := HexValue(text[i]), HexValue(text[i + 1]), HexValue(text[i + 2]), HexValue(text[i + 3]);
    if h0 < 0 || h1 < 0 || h2 < 0 || h3 < 0 {
      return None;
    }
    return Some(h0 * 0x1000 + h1 * 0x100 + h2 * 0x10 + h3);
  }

  /** A \\u escape, perhaps with its other half, whose digits begin at a place. */
  method ReadCodePoint(text: string, i: nat) returns (ok: bool, code: nat, next: nat)
    requires i <= |text|
    ensures ok <==> ReadCode(text, i).Some?
    ensures ok ==> code < CODE_LIMIT && ReadCode(text, i) == Some(Read(Utf8(code), next))
  {
    hide Utf8, Hex4, IsHex4;
    if |text| - i < 4 {
      return false, 0, i;
    }
    var first := ReadHex4(text, i);
    if first == None {
      return false, 0, i;
    }
    code, next := first.value, i + 4;
    if 0xD800 <= code <= 0xDBFF && |text| - next >= 6 && text[next] == '\\' && text[next + 1] == 'u' {
      var low := ReadHex4(text, next + 2);
      if low.Some? && 0xDC00 <= low.value <= 0xDFFF {
        code := 0x1_0000 + (code - 0xD800) * 0x400 + (low.value - 0xDC00);
        next := next + 6;
      }
    }
    ok := true;
  }

  class Reader {
    const text: string
    const limit: nat
    var pos: nat
    var depth: nat

    constructor (text: string, limit: nat)
      ensures this.text == text && this.limit == limit && pos == 0 && depth == 0
    {
      this.text, this.limit, pos, depth := text, limit, 0, 0;
    }

    method SkipSpace()
      requires pos <= |text|
      modifies `pos
      ensures pos == Skip(text, old(pos))
    {
      while pos < |text| && IsSpace(text[pos])
        invariant pos <= |text| && Skip(text, pos) == Skip(text, old(pos))
      {
        pos := pos + 1;
      }
    }

    /** One unit of a string into the output; its capacity always suffices. */
    method TakeUnit(scan: nat, out: array<char>, used: nat) returns (ok: bool, next: nat, now: nat)
      requires scan < |text| && used + |text| - scan < out.Length
      modifies out
      ensures ok <==> ReadUnit(text, scan).Some?
      ensures ok ==> var u := ReadUnit(text, scan).value;
                     next == u.next && now == used + |u.bytes| <= out.Length && out[..now] == old(out[..used]) + u.bytes
    {
      ghost var was := out[..used];
      var ch := text[scan];
      next, now := scan + 1, used;
      if ch as int < 0x20 {
        return false, next, now;
      }
      if ch != '\\' {
        out[used] := ch;
        now := used + 1;
        assert out[..now] == was + [ch];
        return true, next, now;
      }
      if next >= |text| {
        return false, next, now;
      }
      ch := text[next];
      next := next + 1;
      if ch == 'u' {
        var found, code, after := ReadCodePoint(text, next);
        if !found {
          return false, next, now;
        }
        next := after;
        ok, now := EmitUtf8(out, used, code);
        return ok, next, now;
      }
      if !IsShortEscape(ch) {
        return false, next, now;
      }
      out[used] := ShortEscape(ch);
      now := used + 1;
      assert out[..now] == was + [ShortEscape(ch)];
      return true, next, now;
    }

    /** Main result: a string is read exactly as its units say, into a buffer sized once before reading. */
    method ParseString() returns (r: Option<string>)
      requires pos <= |text|
      modifies `pos
      ensures pos <= |text|
      ensures match ReadString(text, old(pos))
              case None => r == None
              case Some(s) => r == Some(s.bytes) && pos == s.next
    {
      if pos >= |text| || text[pos] != '"' {
        return None;
      }
      pos := pos + 1;
      ghost var whole := Body(text, pos);
      var scan := pos;
      var out := new char[|text| - pos + 1];
      var used: nat := 0;
      Unread(whole);
      assert out[..0] == "";
      hide Body, ReadUnit, Continues;
      while scan < |text|
        invariant pos == old(pos) + 1 <= scan <= |text| && used <= scan - pos && used <= out.Length
        invariant Continues(whole, out[..used], Body(text, scan))
      {
        if text[scan] == '"' {
          BodyQuote(text, scan, whole, out[..used]);
          r := Some(out[..used]);
          pos := scan + 1;
          return;
        }
        BodyUnit(text, scan, whole, out[..used]);
        var ok, next, now := TakeUnit(scan, out, used);
        if !ok {
          return None;
        }
        scan, used := next, now;
      }
      BodyEnds(text, whole, out[..used]);
      return None;
    }

    /** Digits passed over. */
    method SkipDigits()
      requires pos <= |text|
      modifies `pos
      ensures pos == DigitsEnd(text, old(pos))
    {
      while pos < |text| && IsDigit(text[pos])
        invariant pos <= |text| && DigitsEnd(text, pos) == DigitsEnd(text, old(pos))
      {
        pos := pos + 1;
      }
    }

    /** Digits accumulated as long as there is room for another. */
    method TakeDigits() returns (value: nat)
      requires pos <= |text|
      modifies `pos
      ensures pos == DigitsEnd(text, old(pos)) && value == Whole(DigitsOf(text, old(pos)))
    {
      ghost var start := pos;
      value := 0;
      assert text[start..start] == "";
      while pos < |text| && IsDigit(text[pos])
        invariant start <= pos <= |text| && DigitsEnd(text, pos) == DigitsEnd(text, start)
        invariant AllDigits(text[start..pos]) && value == Whole(text[start..pos])
      {
        WholeStep(text, start, pos);
        var digit := text[pos] as int - '0' as int;
        if value <= 214748364 {
          value := value * 10 + digit;
        }
        pos := pos + 1;
      }
    }

    method ParseNumber() returns (r: Option<Value>)
      requires pos < |text| && (text[pos] == '-' || IsDigit(text[pos]))
      modifies `pos
      ensures pos <= |text|
      ensures match JsonParser.ParseNumber(text, old(pos))
              case None => r == None
              case Some(p) => r == Some(p.value) && pos == p.next
    {
      hide DigitsEnd, Whole, DigitsOf;
      var negative := false;
      if text[pos] == '-' {
        negative := true;
        pos := pos + 1;
      }
      var first := pos;
      var value := TakeDigits();
      var any := pos > first;
      if pos < |text| && text[pos] == '.' {
        pos := pos + 1;
        var point := pos;
        SkipDigits();
        any := any || pos > point;
      }
      if pos < |text| && (text[pos] == 'e' || text[pos] == 'E') {
        pos := pos + 1;
        if pos < |text| && (text[pos] == '+' || text[pos] == '-') {
          pos := pos + 1;
        }
        SkipDigits();
      }
      if !any {
        return None;
      }
      return Some(Number(Signed(negative, value)));
    }

    method ParseValue() returns (r: Option<Value>)
      requires pos <= |text|
      modifies `pos, `depth
      ensures pos <= |text| && depth == old(depth)
      ensures match JsonParser.ParseValue(text, old(pos), depth, limit)
              case None => r == None
              case Some(p) => r == Some(p.value) && pos == p.next
      decreases |text| - pos, 1
    {
      hide Skip, JsonParser.ParseNumber, ReadString, JsonParser.ParseObject, JsonParser.ParseArray;
      SkipSpace();
      if pos >= |text| {
        return None;
      }
      if text[pos] == '{' {
        r := ParseObject();
        return;
      }
      if text[pos] == '[' {
        r := ParseArray();
        return;
      }
      if text[pos] == '"' {
        var s := ParseString();
        return if s == None then None else Some(String(s.value));
      }
      if |text| - pos >= 4 && text[pos..pos + 4] == "true" {
        pos := pos + 4;
        return Some(True);
      }
      if |text| - pos >= 5 && text[pos..pos + 5] == "false" {
        pos := pos + 5;
        return Some(False);
      }
      if |text| - pos >= 4 && text[pos..pos + 4] == "null" {
        pos := pos + 4;
        return Some(Null);
      }
      if text[pos] == '-' || IsDigit(text[pos]) {
        r := ParseNumber();
        return;
      }
      return None;
    }

    method ParseArray() returns (r: Option<Value>)
      requires pos < |text|
      modifies `pos, `depth
      ensures pos <= |text| && depth == old(depth)
      ensures match JsonParser.ParseArray(text, old(pos), depth, limit)
              case None => r == None
              case Some(p) => r == Some(p.value) && pos == p.next
      decreases |text| - pos, 0
    {
      hide Skip, JsonParser.ParseItems;
      if depth >= limit {
        return None;
      }
      depth := depth + 1;
      pos := pos + 1;
      SkipSpace();
      if pos < |text| && text[pos] == ']' {
        pos := pos + 1;
        depth := depth - 1;
        return Some(Array([]));
      }
      var items := ParseItems();
      depth := depth - 1;
      return if items == None then None else Some(Array(items.value));
    }

    /** The items of an array, one after the other, to the closing bracket. */
    method ParseItems() returns (r: Option<seq<Value>>)
      requires pos <= |text|
      modifies `pos, `depth
      ensures pos <= |text| && depth == old(depth)
      ensures match JsonParser.ParseItems(text, old(pos), depth, limit)
              case None => r == None
              case Some(p) => r == Some(p.value) && pos == p.next
      decreases |text| - pos, 2
    {
      ghost var whole := JsonParser.ParseItems(text, pos, depth, limit);
      var items: seq<Value> := [];
      ItemsBegin(whole);
      hide Skip, JsonParser.ParseItems, JsonParser.ParseValue, MoreOf;
      while pos < |text|
        invariant old(pos) <= pos <= |text| && depth == old(depth)
        invariant MoreOf(whole, items, JsonParser.ParseItems(text, pos, depth, limit))
      {
        var item, mark := ItemAndMark(whole, items);
        if mark == ',' {
          items := items + [item.value];
        } else {
          return if mark == ']' then Some(items + [item.value]) else None;
        }
      }
      ItemsOut(text, depth, limit, whole, items);
      return None;
    }

    /** An item and the mark behind it: a comma or a closing bracket, or else a space for neither. */
    method ItemAndMark(ghost whole: Option<Parsed<seq<Value>>>, ghost done: seq<Value>) returns (r: Option<Value>, mark: char)
      requires pos < |text| && MoreOf(whole, done, JsonParser.ParseItems(text, pos, depth, limit))
      modifies `pos, `depth
      ensures old(pos) < pos <= |text| || mark == ' '
      ensures pos <= |text| && depth == old(depth) && (mark == ',' || mark == ']' || mark == ' ') && (mark == ' ' || r.Some?)
      ensures mark == ',' ==> MoreOf(whole, done + [r.value], JsonParser.ParseItems(text, pos, depth, limit))
      ensures mark == ']' ==> whole == Some(Parsed(done + [r.value], pos))
      ensures mark == ' ' ==> whole == None
      decreases |text| - pos, 2, 0
    {
      hide Skip, JsonParser.ParseItems, JsonParser.ParseValue, MoreOf;
      ghost var start := pos;
      SkipSpace();
      ghost var p := pos;
      r := ParseValue();
      if r == None {
        NoItem(text, start, p, depth, limit, whole, done);
        return r, ' ';
      }
      ghost var q := pos;
      SkipSpace();
      ItemTaken(text, start, p, q, pos, r.value, depth, limit, whole, done);
      if pos < |text| && text[pos] == ',' {
        pos := pos + 1;
        return r, ',';
      }
      if pos < |text| && text[pos] == ']' {
        pos := pos + 1;
        return r, ']';
      }
      return r, ' ';
    }

    method ParseObject() returns (r: Option<Value>)
      requires pos < |text|
      modifies `pos, `depth
      ensures pos <= |text| && depth == old(depth)
      ensures match JsonParser.ParseObject(text, old(pos), depth, limit)
              case None => r == None
              case Some(p) => r == Some(p.value) && pos == p.next
      decreases |text| - pos, 0
    {
      hide Skip, JsonParser.ParseMembers;
      if depth >= limit {
        return None;
      }
      depth := depth + 1;
      pos := pos + 1;
      SkipSpace();
      if pos < |text| && text[pos] == '}' {
        pos := pos + 1;
        depth := depth - 1;
        return Some(Object([]));
      }
      var members := ParseMembers();
      depth := depth - 1;
      return if members == None then None else Some(Object(members.value));
    }

    method ParseMember() returns (r: Option<Member>)
      requires pos <= |text|
      modifies `pos, `depth
      ensures pos <= |text| && depth == old(depth)
      ensures match JsonParser.ParseMember(text, old(pos), depth, limit)
              case None => r == None
              case Some(p) => r == Some(p.value) && pos == p.next
      decreases |text| - pos, 2, 0
    {
      hide Skip, JsonParser.ParseValue, ReadString;
      SkipSpace();
      var key := ParseString();
      if key == None {
        return None;
      }
      SkipSpace();
      if pos >= |text| || text[pos] != ':' {
        return None;
      }
      pos := pos + 1;
      SkipSpace();
      var child := ParseValue();
      return if child == None then None else Some(Member(key.value, child.value));
    }

    /** The members of an object, one after the other, to the closing brace. */
    method ParseMembers() returns (r: Option<seq<Member>>)
      requires pos <= |text|
      modifies `pos, `depth
      ensures pos <= |text| && depth == old(depth)
      ensures match JsonParser.ParseMembers(text, old(pos), depth, limit)
              case None => r == None
              case Some(p) => r == Some(p.value) && pos == p.next
      decreases |text| - pos, 3
    {
      ghost var whole := JsonParser.ParseMembers(text, pos, depth, limit);
      var members: seq<Member> := [];
      ItemsBegin(whole);
      hide Skip, JsonParser.ParseMembers, JsonParser.ParseMember, MoreOf;
      while pos < |text|
        invariant old(pos) <= pos <= |text| && depth == old(depth)
        invariant MoreOf(whole, members, JsonParser.ParseMembers(text, pos, depth, limit))
      {
        var member, mark := MemberAndMark(whole, members);
        if mark == ',' {
          members := members + [member.value];
        } else {
          return if mark == '}' then Some(members + [member.value]) else None;
        }
      }
      MembersOut(text, depth, limit, whole, members);
      return None;
    }

    /** A member and the mark behind it: a comma or a closing brace, or else a space for neither. */
    method MemberAndMark(ghost whole: Option<Parsed<seq<Member>>>, ghost done: seq<Member>) returns (r: Option<Member>, mark: char)
      requires pos < |text| && MoreOf(whole, done, JsonParser.ParseMembers(text, pos, depth, limit))
      modifies `pos, `depth
      ensures old(pos) < pos <= |text| || mark == ' '
      ensures pos <= |text| && depth == old(depth) && (mark == ',' || mark == '}' || mark == ' ') && (mark == ' ' || r.Some?)
      ensures mark == ',' ==> MoreOf(whole, done + [r.value], JsonParser.ParseMembers(text, pos, depth, limit))
      ensures mark == '}' ==> whole == Some(Parsed(done + [r.value], pos))
      ensures mark == ' ' ==> whole == None
      decreases |text| - pos, 2, 1
    {
      hide Skip, JsonParser.ParseMembers, JsonParser.ParseMember, MoreOf;
      ghost var start := pos;
      r := ParseMember();
      if r == None {
        NoMember(text, start, depth, limit, whole, done);
        return r, ' ';
      }
      ghost var q := pos;
      SkipSpace();
      MemberTaken(text, start, q, pos, r.value, depth, limit, whole, done);
      if pos < |text| && text[pos] == ',' {
        pos := pos + 1;
        return r, ',';
      }
      if pos < |text| && text[pos] == '}' {
        pos := pos + 1;
        return r, '}';
      }
      return r, ' ';
    }

    /** Main result: the reader gives a document's value exactly when it has one, and ends at the depth it began. */
    method Parse(strict: bool) returns (r: Option<Value>)
      requires pos == 0 && depth == 0
      modifies `pos, `depth
      ensures depth == 0
      ensures match ParseDocument(text, limit, strict)
              case None => r == None
              case Some(p) => r == Some(p.value) && pos == p.next
    {
      hide Skip, JsonParser.ParseValue;
      r := ParseValue();
      if r == None {
        return;
      }
      SkipSpace();
      if (strict && pos != |text|) || (!strict && pos < |text| && text[pos] != NUL) {
        return None;
      }
    }
  }

  /** What a whole list comes to: the elements so far, and the reading of the rest. */
  ghost predicate MoreOf<T>(whole: Option<Parsed<seq<T>>>, done: seq<T>, rest: Option<Parsed<seq<T>>>) {
    whole == if rest == None then None else Some(Parsed(done + rest.value.value, rest.value.next))
  }

  lemma ItemsBegin<T>(whole: Option<Parsed<seq<T>>>)
    ensures MoreOf(whole, [], whole)
  {
    if whole.Some? { assert [] + whole.value.value == whole.value.value; }
  }

  lemma ListEnds<T>(whole: Option<Parsed<seq<T>>>, done: seq<T>, last: T, next: nat)
    requires MoreOf(whole, done, Some(Parsed([last], next)))
    ensures whole == Some(Parsed(done + [last], next))
  {
  }

  lemma ListGoes<T>(whole: Option<Parsed<seq<T>>>, done: seq<T>, v: T, rest: Option<Parsed<seq<T>>>)
    requires MoreOf(whole, done, if rest == None then None else Some(Parsed([v] + rest.value.value, rest.value.next)))
    ensures MoreOf(whole, done + [v], rest)
  {
    if rest.Some? { assert done + ([v] + rest.value.value) == (done + [v]) + rest.value.value; }
  }

  lemma ItemsOut(text: string, depth: nat, limit: nat, whole: Option<Parsed<seq<Value>>>, done: seq<Value>)
    requires MoreOf(whole, done, JsonParser.ParseItems(text, |text|, depth, limit))
    ensures whole == None
  {
  }

  lemma NoItem(text: string, i: nat, p: nat, depth: nat, limit: nat, whole: Option<Parsed<seq<Value>>>, done: seq<Value>)
    requires i < |text| && p == Skip(text, i) && JsonParser.ParseValue(text, p, depth, limit) == None
    requires MoreOf(whole, done, JsonParser.ParseItems(text, i, depth, limit))
    ensures whole == None
  {
    hide Skip, JsonParser.ParseValue;
  }

  lemma ItemTaken(text: string, i: nat, p: nat, q: nat, r: nat, v: Value, depth: nat, limit: nat,
                 whole: Option<Parsed<seq<Value>>>, done: seq<Value>)
    requires i < |text| && p == Skip(text, i) && q <= |text| && r == Skip(text, q)
    requires JsonParser.ParseValue(text, p, depth, limit) == Some(Parsed(v, q))
    requires MoreOf(whole, done, JsonParser.ParseItems(text, i, depth, limit))
    ensures Is(text, r, ',') ==> MoreOf(whole, done + [v], JsonParser.ParseItems(text, r + 1, depth, limit))
    ensures Is(text, r, ']') ==> whole == Some(Parsed(done + [v], r + 1))
    ensures !Is(text, r, ',') && !Is(text, r, ']') ==> whole == None
  {
    hide Skip, JsonParser.ParseValue;
    var all := JsonParser.ParseItems(text, i, depth, limit);
    if Is(text, r, ',') {
      var rest := JsonParser.ParseItems(text, r + 1, depth, limit);
      assert all == if rest == None then None else Some(Parsed([v] + rest.value.value, rest.value.next));
      hide JsonParser.ParseItems, MoreOf;
      ListGoes(whole, done, v, rest);
    } else if Is(text, r, ']') {
      assert all == Some(Parsed([v], r + 1));
      ListEnds(whole, done, v, r + 1);
    }
  }

  lemma MembersOut(text: string, depth: nat, limit: nat, whole: Option<Parsed<seq<Member>>>, done: seq<Member>)
    requires MoreOf(whole, done, JsonParser.ParseMembers(text, |text|, depth, limit))
    ensures whole == None
  {
  }

  lemma NoMember(text: string, i: nat, depth: nat, limit: nat, whole: Option<Parsed<seq<Member>>>, done: seq<Member>)
    requires i < |text| && JsonParser.ParseMember(text, i, depth, limit) == None
    requires MoreOf(whole, done, JsonParser.ParseMembers(text, i, depth, limit))
    ensures whole == None
  {
    hide JsonParser.ParseMember;
  }

  lemma MemberTaken(text: string, i: nat, q: nat, r: nat, m: Member, depth: nat, limit: nat,
                   whole: Option<Parsed<seq<Member>>>, done: seq<Member>)
    requires i < |text| && q <= |text| && r == Skip(text, q)
    requires JsonParser.ParseMember(text, i, depth, limit) == Some(Parsed(m, q))
    requires MoreOf(whole, done, JsonParser.ParseMembers(text, i, depth, limit))
    ensures Is(text, r, ',') ==> MoreOf(whole, done + [m], JsonParser.ParseMembers(text, r + 1, depth, limit))
    ensures Is(text, r, '}') ==> whole == Some(Parsed(done + [m], r + 1))
    ensures !Is(text, r, ',') && !Is(text, r, '}') ==> whole == None
  {
    hide Skip, JsonParser.ParseMember;
    var all := JsonParser.ParseMembers(text, i, depth, limit);
    if Is(text, r, ',') {
      var rest := JsonParser.ParseMembers(text, r + 1, depth, limit);
      assert all == if rest == None then None else Some(Parsed([m] + rest.value.value, rest.value.next));
      hide JsonParser.ParseMembers, MoreOf;
      ListGoes(whole, done, m, rest);
    } else if Is(text, r, '}') {
      assert all == Some(Parsed([m], r + 1));
      ListEnds(whole, done, m, r + 1);
    }
  }

  lemma BodyQuote(text: string, i: nat, whole: Option<Read>, done: string)
    requires i < |text| && text[i] == '"' && Continues(whole, done, Body(text, i))
    ensures whole == Some(Read(done, i + 1))
  {
    assert done + "" == done;
  }

  lemma BodyEnds(text: string, whole: Option<Read>, done: string)
    requires Continues(whole, done, Body(text, |text|))
    ensures whole == None
  {
  }
}
