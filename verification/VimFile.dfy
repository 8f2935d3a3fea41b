/** Saving a buffer and reading a file into one: the folds over bytes, and what they keep. */
module VimFile {
  import opened VimBuffer
  import opened Descriptor
  import opened Strings

  /** Lines read so far, the last one still growing, and whether anything was left out. */
  datatype Loading = Loading(lines: seq<string>, truncated: bool)

  predicate Progress(s: Loading) { GoodLines(s.lines) }

  function Grow(lines: seq<string>, ch: char): seq<string>
    requires lines != []
  {
    lines[..|lines| - 1] + [lines[|lines| - 1] + [ch]]
  }

  function LoadByte(s: Loading, ch: char): Loading
    requires s.lines != []
  {
    if ch == '\r' then s
    else if ch == '\n' then
      if |s.lines| < MAX_LINES then s.(lines := s.lines + [""]) else s.(truncated := true)
    else if |s.lines[|s.lines| - 1]| + 1 < MAX_LINE_LEN then s.(lines := Grow(s.lines, ch))
    else s.(truncated := true)
  }

  function LoadBytes(s: Loading, bytes: string): (r: Loading)
    requires s.lines != []
    ensures r.lines != []
    decreases |bytes|
  {
    if bytes == "" then s else LoadBytes(LoadByte(s, bytes[0]), bytes[1..])
  }

  function LoadFile(bytes: string): Loading { LoadBytes(Loading([""], false), bytes) }

  /** What a file becomes once its carriage returns are dropped. */
  function NoCr(bytes: string): string {
    if bytes == "" then "" else (if bytes[0] == '\r' then "" else [bytes[0]]) + NoCr(bytes[1..])
  }

  /** However a file is cut into reads, it loads the same. */
  lemma {:induction false} LoadSplits(s: Loading, a: string, b: string)
    requires s.lines != []
    ensures LoadBytes(s, a + b) == LoadBytes(LoadBytes(s, a), b)
    decreases |a|
  {
    if a == "" {
      assert a + b == b;
    } else {
      assert (a + b)[1..] == a[1..] + b;
      LoadSplits(LoadByte(s, a[0]), a[1..], b);
    }
  }

  lemma JoinOneMore(a: seq<string>, x: string)
    requires a != []
    ensures Join(a + [x]) == Join(a) + "\n" + x
  {
    var w := a[|a| - 1];
    JoinAround(a, x, []);
    JoinAround(a[..|a| - 1], w, []);
    assert a + [x] + [] == a + [x] && a[..|a| - 1] + [w] + [] == a;
  }

  lemma JoinGrow(a: seq<string>, ch: char)
    requires a != []
    ensures Join(Grow(a, ch)) == Join(a) + [ch]
  {
    var w := a[|a| - 1];
    JoinAround(a[..|a| - 1], w, []);
    JoinAround(a[..|a| - 1], w + [ch], []);
    assert a[..|a| - 1] + [w] + [] == a && a[..|a| - 1] + [w + [ch]] + [] == Grow(a, ch);
  }

  /** One byte either is appended to the text, or is a carriage return, or is left out and noted. */
  lemma LoadByteAppends(s: Loading, ch: char)
    requires Progress(s)
    ensures var r := LoadByte(s, ch);
            && Progress(r)
            && (s.truncated ==> r.truncated)
            && (if r.truncated == s.truncated && (ch == '\r' || r.lines != s.lines) then Join(r.lines) == Join(s.lines) + NoCr([ch])
                else r.truncated && r.lines == s.lines && NoCr([ch]) == [ch])
  {
    var last := s.lines[|s.lines| - 1];
    assert GoodLine(last) && GoodLine("");
    JoinOneMore(s.lines, "");
    JoinGrow(s.lines, ch);
    hide Join;
    assert NoCr([ch]) == if ch == '\r' then "" else [ch];
    if ch != '\r' && ch != '\n' && |last| + 1 < MAX_LINE_LEN {
      assert GoodLine(last + [ch]);
      assert Grow(s.lines, ch)[|s.lines| - 1] != last;
    }
  }

  lemma {:induction false} NoCrSplits(a: string, b: string)
    ensures NoCr(a + b) == NoCr(a) + NoCr(b)
    decreases |a|
  {
    if a == "" {
      assert a + b == b;
    } else {
      assert (a + b)[1..] == a[1..] + b;
      NoCrSplits(a[1..], b);
    }
  }

  lemma {:induction false} LoadAccounts(s: Loading, bytes: string)
    requires Progress(s)
    ensures var r := LoadBytes(s, bytes);
            && Progress(r) && (s.truncated ==> r.truncated)
            && |Join(r.lines)| <= |Join(s.lines)| + |NoCr(bytes)|
            && (!s.truncated ==>
                  if r.truncated then |Join(r.lines)| < |Join(s.lines)| + |NoCr(bytes)|
                  else Join(r.lines) == Join(s.lines) + NoCr(bytes))
    decreases |bytes|
  {
    if bytes != "" {
      hide Join, LoadByte, GoodLines;
      var ch, rest := bytes[0], bytes[1..];
      var mid := LoadByte(s, ch);
      LoadByteAppends(s, ch);
      LoadAccounts(mid, rest);
      assert [ch] + rest == bytes;
      NoCrSplits([ch], rest);
      var r := LoadBytes(mid, rest);
      assert r == LoadBytes(s, bytes);
      hide NoCr, LoadBytes, Progress;
      AccountsAdd(Join(s.lines), Join(mid.lines), Join(r.lines), NoCr([ch]), NoCr(rest), s.truncated, mid.truncated, r.truncated);
    }
  }

  /** Two stretches of loading, one after the other. */
  lemma AccountsAdd(a: string, b: string, c: string, x: string, y: string, before: bool, between: bool, after: bool)
    requires |b| <= |a| + |x| && |c| <= |b| + |y|
    requires (before ==> between) && (between ==> after)
    requires !before ==> if between then |b| < |a| + |x| else b == a + x
    requires !between ==> if after then |c| < |b| + |y| else c == b + y
    ensures |c| <= |a| + |x + y|
    ensures !before ==> if after then |c| < |a| + |x + y| else c == a + (x + y)
  {
  }

  /**
    Loading gives good lines always, and the file's text without carriage returns exactly when it
    does not report truncation.
  */
  lemma LoadExact(bytes: string)
    ensures GoodLines(LoadFile(bytes).lines)
    ensures !LoadFile(bytes).truncated <==> Join(LoadFile(bytes).lines) == NoCr(bytes)
  {
    assert GoodLine("");
    LoadAccounts(Loading([""], false), bytes);
  }

  // ---------------------------------------------------------------- round trip

  lemma {:induction false} LoadsLine(done: seq<string>, x: string, y: string)
    requires GoodLine(x + y)
    ensures LoadBytes(Loading(done + [x], false), y) == Loading(done + [x + y], false)
    decreases |y|
  {
    var s := Loading(done + [x], false);
    if y == "" {
      assert x + y == x;
    } else {
      assert y[0] in x + y by { assert (x + y)[|x|] == y[0]; }
      assert Grow(s.lines, y[0]) == done + [x + [y[0]]];
      assert x + [y[0]] + y[1..] == x + y;
      LoadsLine(done, x + [y[0]], y[1..]);
    }
  }

  lemma LoadsLineBreak(done: seq<string>, x: string)
    requires GoodLine(x) && |done| + 1 < MAX_LINES
    ensures LoadBytes(Loading(done + [""], false), x + "\n") == Loading(done + [x] + [""], false)
  {
    var s, m := Loading(done + [""], false), Loading(done + [x], false);
    assert "" + x == x;
    LoadsLine(done, "", x);
    LoadSplits(s, x, "\n");
    assert LoadBytes(m, "\n") == LoadByte(m, '\n') by { assert "\n"[1..] == ""; }
  }

  lemma {:induction false} LoadsLines(done: seq<string>, lines: seq<string>)
    requires lines != [] && |done| + |lines| <= MAX_LINES
    requires forall i | 0 <= i < |lines| :: GoodLine(lines[i])
    ensures LoadBytes(Loading(done + [""], false), Join(lines)) == Loading(done + lines, false)
    decreases |lines|
  {
    var x, rest := lines[0], lines[1..];
    if rest == [] {
      assert "" + x == x;
      LoadsLine(done, "", x);
      assert done + lines == done + [x];
    } else {
      forall i | 0 <= i < |rest| ensures GoodLine(rest[i]) { assert rest[i] == lines[i + 1]; }
      assert Join(lines) == x + "\n" + Join(rest);
      hide Join, LoadBytes, GoodLine;
      LoadSplits(Loading(done + [""], false), x + "\n", Join(rest));
      LoadsLineBreak(done, x);
      LoadsLines(done + [x], rest);
      assert done + [x] + rest == done + lines;
    }
  }

  /** Main result: a saved buffer loads as the same lines, with nothing left out. */
  lemma SaveLoadRoundTrip(lines: seq<string>)
    requires GoodLines(lines)
    ensures LoadFile(Join(lines)) == Loading(lines, false)
  {
    LoadsLines([], lines);
    assert [] + lines == lines && [] + [""] == [""];
  }

  // ------------------------------------------------------------ reading and writing

  lemma {:induction false} ConcatBack(chunks: seq<string>, last: string)
    ensures Concat(chunks + [last]) == Concat(chunks) + last
    decreases |chunks|
  {
    if chunks == [] {
      assert [] + [last] == [last] && [last][1..] == [];
    } else {
      assert (chunks + [last])[1..] == chunks[1..] + [last];
      ConcatBack(chunks[1..], last);
    }
  }

  lemma {:induction false} AfterSplits(a: seq<string>, b: seq<string>)
    ensures VimBuffer.After(a + b) == VimBuffer.After(a) + VimBuffer.After(b)
    decreases |a|
  {
    if a == [] {
      assert a + b == b;
    } else {
      assert (a + b)[1..] == a[1..] + b;
      AfterSplits(a[1..], b);
      assert "\n" + a[0] + (After(a[1..]) + After(b)) == ("\n" + a[0] + After(a[1..])) + After(b);
    }
  }

  /** The text of the first lines, and then what follows them. */
  lemma JoinSplits(lines: seq<string>, i: nat)
    requires 0 < i <= |lines|
    ensures Join(lines) == Join(lines[..i]) + After(lines[i..])
  {
    hide Join, After;
    var x, a, c := lines[0], lines[1..i], lines[i..];
    ListParts(lines, i);
    JoinAfter(x, a + c);
    JoinAfter(x, a);
    AfterSplits(a, c);
    Regroup(x, After(a), After(c));
  }

  lemma ListParts(lines: seq<string>, i: nat)
    requires 0 < i <= |lines|
    ensures lines == [lines[0]] + (lines[1..i] + lines[i..]) && lines[..i] == [lines[0]] + lines[1..i]
  {}

  lemma Regroup(x: string, a: string, c: string)
    ensures x + (a + c) == x + a + c
  {}

  lemma PrefixAnd(t: string, u: string)
    ensures t <= t + u
    ensures u != "" && u[0] == '\n' ==> t + "\n" <= t + u
  {
    if u != "" { assert t + u == t + [u[0]] + u[1..]; }
  }

  lemma JoinPrefix(lines: seq<string>, i: nat)
    requires 0 < i <= |lines|
    ensures Join(lines[..i]) <= Join(lines)
    ensures i < |lines| ==> Join(lines[..i]) + "\n" <= Join(lines)
  {
    var t, u := Join(lines[..i]), After(lines[i..]);
    assert i < |lines| ==> u != "" && u[0] == '\n';
    hide Join, After;
    JoinSplits(lines, i);
    PrefixAnd(t, u);
  }

  /** The first lines are written, with a newline after the last of them if more follow. */
  ghost predicate Saved(lines: seq<string>, i: nat, written: string) {
    && i <= |lines|
    && written == if i == 0 then "" else Join(lines[..i]) + if i < |lines| then "\n" else ""
  }

  lemma SavedLine(lines: seq<string>, i: nat, written: string)
    requires Saved(lines, i, written) && i < |lines|
    ensures Join(lines[..i + 1]) == written + lines[i]
  {
    assert lines[..i + 1] == lines[..i] + [lines[i]];
    if i > 0 {
      JoinOneMore(lines[..i], lines[i]);
      hide Join;
    } else {
      assert Join([lines[0]]) == "" + lines[0];
    }
  }

  lemma SavedNow(lines: seq<string>, i: nat)
    requires 0 < i <= |lines|
    ensures Saved(lines, i, Join(lines[..i]) + if i < |lines| then "\n" else "")
  {
  }

  lemma SavedNext(lines: seq<string>, i: nat, written: string)
    requires Saved(lines, i, written) && i < |lines|
    ensures written + lines[i] <= Join(lines)
    ensures i + 1 < |lines| ==> written + lines[i] + "\n" <= Join(lines)
    ensures Saved(lines, i + 1, written + lines[i] + if i + 1 < |lines| then "\n" else "")
  {
    SavedLine(lines, i, written);
    hide Join, Saved;
    JoinPrefix(lines, i + 1);
    SavedNow(lines, i + 1);
  }

  lemma SavedAll(lines: seq<string>, written: string)
    requires Saved(lines, |lines|, written) && lines != []
    ensures written == Join(lines)
  {
    assert lines[..|lines|] == lines;
    assert Join(lines) + "" == Join(lines);
  }

  /** Writing line by line with newlines between: the whole text is in the file unless a write is refused. */
  method SaveLines(lines: seq<string>, out: Output) returns (ok: bool)
    requires lines != [] && out.written == "" && !out.failed
    modifies out
    ensures ok ==> out.written == Join(lines)
    ensures ok == !out.failed
    ensures out.written <= Join(lines)
  {
    var i: nat := 0;
    assert Saved(lines, 0, "");
    hide Saved, Join;
    while i < |lines|
      invariant i <= |lines| && Saved(lines, i, out.written) && !out.failed
    {
      SavedNext(lines, i, out.written);
      if |lines[i]| > 0 {
        ok := out.WriteAll(lines[i]);
        if !ok {
          return;
        }
      }
      if i + 1 < |lines| {
        ok := out.WriteAll("\n");
        if !ok {
          return;
        }
      }
      i := i + 1;
    }
    SavedAll(lines, out.written);
    return true;
  }
}
