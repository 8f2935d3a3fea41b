/** The account calls as the shell makes them: files read into buffers, walked line by line, and written back. */
module AccountStore {
  import opened Options
  import opened Numerals
  import opened Accounts
  import opened Strings

  /** A line as a buffer holds it is the next of a text, and the one after begins at a place. */
  ghost predicate NextIs(text: string, pos: nat, line: string, next: nat) {
    && pos < next <= |text|
    && var rest := Lines(text[pos..]); rest != [] && line == Clean(rest[0]) && Lines(text[next..]) == rest[1..]
  }

  /** Where a line ends without its carriage returns. */
  method StripEnd(text: string, pos: nat, end: nat) returns (e: nat)
    requires pos <= end <= |text|
    ensures pos <= e <= end && Stripped(text[pos..end]) == text[pos..e]
  {
    e := end;
    while e > pos && text[e - 1] == '\r'
      invariant pos <= e <= end && Stripped(text[pos..e]) == Stripped(text[pos..end])
    {
      assert text[pos..e][..e - pos - 1] == text[pos..e - 1];
      e := e - 1;
    }
  }

  /** What a line buffer holds of a line between two places. */
  method CleanLine(text: string, pos: nat, end: nat) returns (line: string)
    requires pos <= end <= |text|
    ensures line == Clean(text[pos..end])
  {
    hide Stripped, Find;
    var stripped := StripEnd(text, pos, end);
    var len := stripped - pos;
    if len >= LINE_MAX {
      len := LINE_MAX - 1;
    }
    line := text[pos..pos + len];
    assert line == Cut(text[pos..stripped], LINE_MAX);
    line := line[..Find(line, NUL)];
  }

  lemma NextIntro(text: string, pos: nat, end: nat, next: nat)
    requires pos < |text| && pos <= end <= |text| && next == (if end < |text| then end + 1 else end)
    requires (forall k | pos <= k < end :: text[k] != '\n') && (end < |text| ==> text[end] == '\n')
    ensures pos < next && NextIs(text, pos, Clean(text[pos..end]), next)
  {
    LineAt(text, pos, end);
    hide Lines, Clean;
    assert ([text[pos..end]] + Lines(text[next..]))[1..] == Lines(text[next..]);
  }

  /** The next line of a text, as a line buffer holds it, and where the one after begins. */
  method NextLine(text: string, pos: nat) returns (line: string, next: nat)
    requires pos < |text|
    ensures pos < next <= |text| && NextIs(text, pos, line, next)
  {
    var end := pos;
    while end < |text| && text[end] != '\n'
      invariant pos <= end <= |text| && forall k | pos <= k < end :: text[k] != '\n'
    {
      end := end + 1;
    }
    hide NextIs, Clean;
    next := if end < |text| then end + 1 else end;
    NextIntro(text, pos, end, next);
    line := CleanLine(text, pos, end);
  }

  lemma FindAt(text: string, pos: nat, end: nat, ch: char)
    requires pos <= end <= |text| && (forall k | pos <= k < end :: text[k] != ch) && (end < |text| ==> text[end] == ch)
    ensures Find(text[pos..], ch) == end - pos
  {
    var rest := text[pos..];
    assert forall k | 0 <= k < end - pos :: rest[k] == text[pos + k];
    assert end < |text| ==> rest[end - pos] == ch;
  }

  lemma LineAt(text: string, pos: nat, end: nat)
    requires pos < |text| && pos <= end <= |text| && (forall k | pos <= k < end :: text[k] != '\n')
    requires end < |text| ==> text[end] == '\n'
    ensures Lines(text[pos..]) == [text[pos..end]] + Lines(text[if end < |text| then end + 1 else end..])
  {
    hide Lines, Find;
    var rest := text[pos..];
    FindAt(text, pos, end, '\n');
    LinesCut(rest, end - pos);
    assert rest[..end - pos] == text[pos..end];
    if end < |text| {
      assert rest[end - pos + 1..] == text[end + 1..];
    } else {
      assert text[end..] == "";
    }
  }

  lemma LinesCut(rest: string, n: nat)
    requires rest != "" && n == Find(rest, '\n')
    ensures Lines("") == []
    ensures Lines(rest) == [rest[..n]] + if n < |rest| then Lines(rest[n + 1..]) else []
  {
    hide Find;
  }

  /** The fields before a place in a line, and those of what follows, are the fields of the line. */
  ghost predicate CutAt(line: string, fields: seq<string>, start: nat) {
    start <= |line| && fields + Fields(line[start..]) == Fields(line)
  }

  lemma FieldStep(line: string, fields: seq<string>, start: nat, i: nat)
    requires CutAt(line, fields, start) && start <= i < |line| && line[i] == ':' && NoColon(line, start, i)
    ensures CutAt(line, fields + [line[start..i]], i + 1)
  {
    hide Fields;
    var field, rest := line[start..i], line[i + 1..];
    assert line[start..] == field + ":" + rest;
    FieldsFirst(field, rest);
    assert fields + ([field] + Fields(rest)) == (fields + [field]) + Fields(rest);
  }

  /** No colon between two places. */
  ghost predicate NoColon(line: string, start: nat, i: nat) {
    i <= |line| && forall k | start <= k < i :: line[k] != ':'
  }

  lemma NoColonMore(line: string, start: nat, i: nat)
    requires i < |line|
    ensures NoColon(line, start, i) && line[i] != ':' ==> NoColon(line, start, i + 1)
    ensures NoColon(line, i + 1, i + 1)
  {
  }

  lemma FieldLast(line: string, fields: seq<string>, start: nat)
    requires CutAt(line, fields, start) && NoColon(line, start, |line|)
    ensures fields + [line[start..]] == Fields(line)
  {
    hide Fields;
    FieldsOne(line[start..]);
  }

  lemma FieldsUncut(line: string)
    ensures CutAt(line, [], 0)
  {
    assert line[0..] == line && [] + Fields(line) == Fields(line);
    hide Fields;
  }

  /** The fields of a line, cut at its colons. */
  method ParseFields(line: string) returns (fields: seq<string>)
    ensures fields == Fields(line)
  {
    fields := [];
    var start: nat := 0;
    var i: nat := 0;
    FieldsUncut(line);
    assert NoColon(line, 0, 0);
    hide Fields, CutAt, NoColon;
    while i < |line|
      invariant start <= i <= |line| && NoColon(line, start, i)
      invariant CutAt(line, fields, start)
    {
      NoColonMore(line, start, i);
      if line[i] == ':' {
        FieldStep(line, fields, start, i);
        fields := fields + [line[start..i]];
        start := i + 1;
      }
      i := i + 1;
    }
    FieldLast(line, fields, start);
    fields := fields + [line[start..]];
  }

  lemma DecPrefix(s: string, i: nat)
    requires i < |s| && AllDigits(s[..i], 10) && IsDigit(s[i], 10)
    ensures AllDigits(s[..i + 1], 10) && Value(s[..i + 1], 10) == Value(s[..i], 10) * 10 + DigitValue(s[i])
  {
    assert s[..i + 1][..i] == s[..i];
    ValueNext(s[..i + 1], 10);
  }

  lemma {:induction false} DecTooBig(s: string, i: nat)
    requires i <= |s| && AllDigits(s[..i], 10) && Value(s[..i], 10) >= LIMIT
    ensures ParseDec(s) == None
    decreases |s| - i
  {
    if i == |s| {
      assert s[..i] == s;
    } else if IsDigit(s[i], 10) {
      DecPrefix(s, i);
      hide Value;
      DecTooBig(s, i + 1);
    }
  }

  /** A decimal number below 2^64; anything else is refused. */
  method ParseU64Dec(s: string) returns (r: Option<nat>)
    ensures r == ParseDec(s)
  {
    if s == "" {
      return None;
    }
    var value: nat := 0;
    var i: nat := 0;
    assert Value(s[..0], 10) == 0;
    hide Value;
    while i < |s|
      invariant i <= |s| && AllDigits(s[..i], 10) && value == Value(s[..i], 10) < LIMIT
    {
      if !('0' <= s[i] <= '9') {
        return None;
      }
      var digit := s[i] as int - '0' as int;
      DecPrefix(s, i);
      Fits(value, digit, 10, LIMIT - 1);
      if value > (LIMIT - 1 - digit) / 10 {
        DecTooBig(s, i + 1);
        return None;
      }
      value := value * 10 + digit;
      i := i + 1;
    }
    assert s[..i] == s;
    return Some(value);
  }

  /** The walk along the lines to the first for a name. */
  method LookupPasswd(text: string, name: string) returns (r: Option<Record>)
    ensures r == Lookup(text, name)
  {
    if name == "" {
      return None;
    }
    var pos: nat := 0;
    assert text[0..] == text && Lines("") == [];
    hide Lines, Fields, Clean, ParseDec, NextIs;
    while pos < |text|
      invariant pos <= |text| && LookupIn(Lines(text[pos..]), name) == LookupIn(Lines(text), name)
    {
      var line, next := NextLine(text, pos);
      LookupNext(text, pos, line, next, name);
      pos := next;
      var fields := ParseFields(line);
      if |fields| >= 7 && fields[0] == name {
        r := ReadRecord(fields);
        return;
      }
    }
    assert text[pos..] == "";
    return None;
  }

  lemma LookupNext(text: string, pos: nat, line: string, next: nat, name: string)
    requires pos < |text| && NextIs(text, pos, line, next)
    ensures var fs := Fields(line);
            LookupIn(Lines(text[pos..]), name) ==
            if |fs| >= 7 && fs[0] == name then RecordOf(fs) else LookupIn(Lines(text[next..]), name)
  {
    hide Lines, Fields, Clean, ParseDec, RecordOf;
  }

  /** A record out of its fields, unless an id does not read. */
  method ReadRecord(fields: seq<string>) returns (r: Option<Record>)
    requires |fields| >= 7
    ensures r == RecordOf(fields)
  {
    hide ParseDec;
    var uid := ParseU64Dec(fields[2]);
    var gid := ParseU64Dec(fields[3]);
    if uid == None || gid == None {
      return None;
    }
    return Some(Record(Cut(fields[0], NAME_MAX), uid.value, gid.value,
                       Cut(fields[5], Accounts.PATH_MAX), Cut(fields[6], Accounts.PATH_MAX)));
  }

  lemma MaxUidNext(lines: seq<string>, i: nat)
    requires i < |lines|
    ensures MaxUid(lines[..i + 1]) ==
            var m, uid := MaxUid(lines[..i]), UidOf(lines[i]); if uid.Some? && uid.value > m then uid.value else m
  {
    assert lines[..i + 1][..i] == lines[..i];
    hide UidOf;
  }

  method ReadUid(line: string) returns (uid: Option<nat>)
    ensures uid == UidIn(line)
  {
    hide Fields, ParseDec;
    var fields := ParseFields(line);
    if |fields| < 3 {
      return None;
    }
    uid := ParseU64Dec(fields[2]);
  }

  /** The first i lines end where the walk stands, and their greatest user id is known. */
  ghost predicate Walked(text: string, pos: nat, i: nat, max: nat) {
    pos <= |text| && i <= |Lines(text)| && Lines(text[pos..]) == Lines(text)[i..] && max == MaxUid(Lines(text)[..i])
  }

  lemma WalkBegins(text: string)
    ensures Walked(text, 0, 0, 999)
  {
    assert text[0..] == text && Lines(text)[0..] == Lines(text);
    hide Lines;
  }

  lemma WalkGoes(text: string, pos: nat, i: nat, max: nat, line: string, next: nat, uid: Option<nat>)
    requires Walked(text, pos, i, max) && NextIs(text, pos, line, next) && uid == UidIn(line)
    ensures Walked(text, next, i + 1, if uid.Some? && uid.value > max then uid.value else max)
  {
    hide Lines, UidIn, Clean, MaxUid;
    var lines := Lines(text);
    assert lines[i..][1..] == lines[i + 1..];
    MaxUidNext(lines, i);
  }

  lemma WalkEnds(text: string, i: nat, max: nat)
    requires Walked(text, |text|, i, max)
    ensures max < LIMIT && Incremented(max) == NextUid(text)
  {
    assert text[|text|..] == "" && Lines("") == [];
    hide Lines, MaxUid;
    assert Lines(text)[..i] == Lines(text);
  }

  /** One more line taken into account. */
  method WalkOn(text: string, pos: nat, max: nat, ghost i: nat) returns (next: nat, now: nat)
    requires pos < |text| && Walked(text, pos, i, max)
    ensures pos < next <= |text| && Walked(text, next, i + 1, now)
  {
    hide Lines, UidIn, Clean, MaxUid, Walked, NextIs;
    var line;
    line, next := NextLine(text, pos);
    var found := ReadUid(line);
    WalkGoes(text, pos, i, max, line, next, found);
    now := max;
    if found.Some? && found.value > max {
      now := found.value;
    }
  }

  method ComputeNextUid(text: string) returns (uid: nat)
    ensures uid == NextUid(text)
  {
    var max: nat := 999;
    var pos: nat := 0;
    ghost var i: nat := 0;
    WalkBegins(text);
    hide Walked, Incremented, NextUid;
    while pos < |text|
      invariant pos <= |text| && Walked(text, pos, i, max)
    {
      pos, max := WalkOn(text, pos, max, i);
      i := i + 1;
    }
    WalkEnds(text, i, max);
    return Incremented(max);
  }

  // ---------------------------------------------------------------------- buffers

  /** A text buffer with room for the byte that ends the string. */
  class TextBuffer {
    const text: array<char>
    var len: nat

    ghost predicate Holds(s: string)
      reads this, text
    {
      text.Length == FILE_MAX && len < FILE_MAX && text[..len] == s
    }

    constructor (contents: string)
      requires |contents| < FILE_MAX
      ensures Holds(contents) && fresh(text)
    {
      text := new char[FILE_MAX](i => if 0 <= i < |contents| then contents[i] else NUL);
      len := |contents|;
    }

    method AppendChar(ch: char, ghost s: string) returns (ok: bool)
      requires Holds(s)
      modifies this, text
      ensures ok <==> |s| + 2 <= FILE_MAX
      ensures if ok then Holds(s + [ch]) else Holds(s)
    {
      if len + 2 > text.Length {
        return false;
      }
      text[len] := ch;
      assert text[..len + 1] == s + [ch];
      len := len + 1;
      text[len] := NUL;
      return true;
    }

    method AppendText(part: string, ghost s: string) returns (ok: bool)
      requires Holds(s)
      modifies this, text
      ensures ok ==> Holds(s + part)
      ensures ok <==> part == "" || |s| + |part| < FILE_MAX
    {
      assert s + part[..0] == s;
      for i := 0 to |part|
        invariant Holds(s + part[..i]) && (i > 0 ==> |s| + i < FILE_MAX)
      {
        assert s + part[..i + 1] == s + part[..i] + [part[i]];
        ok := AppendChar(part[i], s + part[..i]);
        if !ok {
          return;
        }
      }
      assert part[..|part|] == part;
      return true;
    }

    /** A line feed, when the text lacks its last. */
    method EndLine(ghost s: string) returns (ok: bool)
      requires Holds(s)
      modifies this, text
      ensures ok ==> Holds(WithNewline(s))
      ensures ok <==> |WithNewline(s)| < FILE_MAX
    {
      if len > 0 && text[len - 1] != '\n' {
        ok := AppendChar('\n', s);
        return;
      }
      return true;
    }

    method Contents(ghost s: string) returns (r: string)
      requires Holds(s)
      ensures r == s && |s| < FILE_MAX
    {
      r := text[..len];
    }
  }

  // ---------------------------------------------------------------------- adding

  /** A text with a line appended, if there is room for it in a buffer. */
  method Extended(text: string, line: string) returns (r: Option<string>)
    requires |text| < FILE_MAX
    ensures r == if |Added(text, line)| < FILE_MAX then Some(Added(text, line)) else None
  {
    var buffer := new TextBuffer(text);
    var ok := buffer.EndLine(text);
    if !ok {
      return None;
    }
    ok := buffer.AppendText(line, WithNewline(text));
    if !ok {
      return None;
    }
    ok := buffer.AppendChar('\n', WithNewline(text) + line);
    if !ok {
      return None;
    }
    var longer := buffer.Contents(WithNewline(text) + line + "\n");
    return Some(longer);
  }

  /** What adding a user to the account files does to all that can be asked of them. */
  ghost predicate UserAdded(passwd: string, shadow: string, passwd': string, shadow': string, r: Record) {
    && (NoNul(r) && Lookup(passwd, r.name) == None ==>
          (Lookup(passwd', r.name) == Some(r) <==> !Listed(passwd, r.name) && Plain(r)))
    && ('\n' !in r.home && '\n' !in r.shell ==>
          forall other | other != r.name :: Lookup(passwd', other) == Lookup(passwd, other))
    && (NoNul(r) && Plain(r) && !Uses(passwd, r.uid) ==> ByUidIn(Lines(passwd'), r.uid) == Some(r))
    && forall other ::
         ShadowOf(shadow', other)
         == if other == r.name && ShadowOf(shadow, r.name) == None then Some("!") else ShadowOf(shadow, other)
  }

  lemma UserIsAdded(passwd: string, shadow: string, r: Record)
    requires ValidName(r.name) && r.uid < LIMIT && r.gid < LIMIT
    ensures UserAdded(passwd, shadow, AddedUser(passwd, r), AddedShadow(shadow, r.name), r)
  {
    hide Lookup, AddedUser, AddedShadow, ShadowOf, ByUidIn, Lines, ValidName, Listed, Plain, NoNul, Uses;
    if NoNul(r) && Lookup(passwd, r.name) == None { AddedFound(passwd, r); }
    if '\n' !in r.home && '\n' !in r.shell {
      forall other | other != r.name
        ensures Lookup(AddedUser(passwd, r), other) == Lookup(passwd, other)
      {
        OthersFound(passwd, r, other);
      }
    }
    if NoNul(r) && Plain(r) && !Uses(passwd, r.uid) { AddedFoundByUid(passwd, r); }
    forall other
      ensures ShadowOf(AddedShadow(shadow, r.name), other)
              == if other == r.name && ShadowOf(shadow, r.name) == None then Some("!") else ShadowOf(shadow, other)
    {
      ShadowAdded(shadow, r.name, other);
    }
  }

  /** The two account files. Calls on them may fail, which is counted; a write that fails may leave anything. */
  class Store {
    var passwd: string
    var shadow: string
    ghost var faults: nat
    ghost var refused: nat  // writes that failed

    constructor (passwd: string, shadow: string)
      ensures this.passwd == passwd && this.shadow == shadow && faults == 0 && refused == 0
    {
      this.passwd, this.shadow, faults, refused := passwd, shadow, 0, 0;
    }

    method Granted() returns (yes: bool)
      modifies `faults
      ensures faults == old(faults) + if yes then 0 else 1
    {
      yes := *;
      faults := faults + if yes then 0 else 1;
    }

    /** What a buffer holds of a file: all of it, or as much as fits. */
    function Read(file: string): (r: string)
      ensures |r| < FILE_MAX
    {
      Cut(file, FILE_MAX)
    }

    /**
      Main result: a user is added by one line to each file, under a valid name that looks up to nothing
      as far as the file can be read. The files were read whole and can be again, and what can then be
      asked of them is as one expects. Without failing calls a valid new user is refused for want of
      room only; a failure leaves both files as they were or the first one extended, but for failed writes.
    */
    method AddUser(name: string, uid: nat, gid: nat, home: string, shell: string) returns (ok: bool)
      requires uid < LIMIT && gid < LIMIT
      modifies this
      ensures faults >= old(faults)
      ensures var r := NewRecord(name, uid, gid, home, shell); var (p, s) := (old(passwd), old(shadow));
              && (ok ==> ValidName(name) && passwd == AddedUser(p, r) && shadow == AddedShadow(s, name))
              && (ok ==> Read(p) == p && Read(passwd) == passwd && Read(s) == s && Read(shadow) == shadow)
              && (ok ==> UserAdded(p, s, passwd, shadow, r))
              && (ok && faults == old(faults) ==> Lookup(p, name) == None)
              && (!ok && faults == old(faults) ==>
                    || !ValidName(name) || Lookup(Read(p), name).Some?
                    || |AddedUser(Read(p), r)| >= FILE_MAX || |AddedShadow(Read(s), name)| >= FILE_MAX)
              && (!ok && refused == old(refused) ==> shadow == s && (passwd == p || passwd == AddedUser(p, r)))
    {
      hide Lookup, AddedUser, PasswdLine, AddedShadow, ValidName, Cut, UserAdded;
      if !ValidName(name) {
        return false;
      }
      var readable := Granted();
      if readable {
        var found := LookupPasswd(Read(passwd), name);
        if found.Some? {
          return false;
        }
      }
      ghost var p, s := passwd, shadow;
      var r := NewRecord(name, uid, gid, home, shell);
      ok := WritePasswd(r);
      if ok {
        ok := WriteShadow(name);
      }
      if ok { UserIsAdded(p, s, r); }
    }

    method WritePasswd(r: Record) returns (ok: bool)
      modifies `passwd, `faults, `refused
      ensures faults >= old(faults)
      ensures ok ==> passwd == AddedUser(old(passwd), r) && refused == old(refused)
      ensures ok ==> Read(old(passwd)) == old(passwd) && Read(passwd) == passwd
      ensures !ok && refused == old(refused) ==> passwd == old(passwd)
      ensures !ok && faults == old(faults) ==> |AddedUser(Read(old(passwd)), r)| >= FILE_MAX && refused == old(refused)
    {
      hide Added, PasswdLine;
      var readable := Granted();
      if !readable {
        return false;
      }
      var text := Extended(Read(passwd), PasswdLine(r));
      if text == None {
        return false;
      }
      AddedFits(passwd, PasswdLine(r));
      ok := Granted();
      if !ok {
        passwd, refused := *, refused + 1;
        return;
      }
      passwd := text.value;
    }

    method WriteShadow(name: string) returns (ok: bool)
      modifies `shadow, `faults, `refused
      ensures faults >= old(faults)
      ensures ok ==> shadow == AddedShadow(old(shadow), name) && refused == old(refused)
      ensures ok ==> Read(old(shadow)) == old(shadow) && Read(shadow) == shadow
      ensures !ok && refused == old(refused) ==> shadow == old(shadow)
      ensures !ok && faults == old(faults) ==> |AddedShadow(Read(old(shadow)), name)| >= FILE_MAX && refused == old(refused)
    {
      hide Added;
      var readable := Granted();
      if !readable {
        return false;
      }
      var text := Extended(Read(shadow), name + ":!");
      if text == None {
        return false;
      }
      AddedFits(shadow, name + ":!");
      ok := Granted();
      if !ok {
        shadow, refused := *, refused + 1;
        return;
      }
      shadow := text.value;
    }
  }

  /** The record of a new user: the home and the shell are filled in if none are given. */
  function NewRecord(name: string, uid: nat, gid: nat, home: string, shell: string): Record {
    Record(name, uid, gid, if home == "" then HomeOf(name) else home, if shell == "" then DEFAULT_SHELL else shell)
  }

  const DEFAULT_SHELL := "/shell/xsh.elf"

  function HomeOf(name: string): string { "/home/" + name }

  /** A database that a user was added to had room: it was read in full. */
  lemma AddedFits(file: string, line: string)
    requires |Added(Cut(file, FILE_MAX), line)| < FILE_MAX
    ensures Cut(file, FILE_MAX) == file
  {
  }
}
