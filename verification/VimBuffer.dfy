/**
  The editor's buffer as a value: lines and a cursor, what each edit does to them, and the flat
  text with an offset that they stand for.
*/
module VimBuffer {
  const MAX_LINES := 2048
  const MAX_LINE_LEN := 512

  datatype Buffer = Buffer(lines: seq<string>, line: nat, col: nat)

  predicate GoodLine(s: string) {
    |s| < MAX_LINE_LEN && '\n' !in s && '\r' !in s
  }

  predicate GoodLines(lines: seq<string>) {
    1 <= |lines| <= MAX_LINES && forall i | 0 <= i < |lines| :: GoodLine(lines[i])
  }

  predicate Ok(b: Buffer) {
    GoodLines(b.lines) && b.line < |b.lines| && b.col <= |b.lines[b.line]|
  }

  function Cur(b: Buffer): string
    requires b.line < |b.lines|
  {
    b.lines[b.line]
  }

  // -------------------------------------------------------------- edits and moves

  function Clamp(b: Buffer): Buffer
    requires |b.lines| > 0
  {
    var line := if b.line >= |b.lines| then |b.lines| - 1 else b.line;
    Buffer(b.lines, line, if b.col > |b.lines[line]| then |b.lines[line]| else b.col)
  }

  function MoveLeft(b: Buffer): Buffer
    requires b.line < |b.lines|
  {
    if b.col > 0 then b.(col := b.col - 1)
    else if b.line > 0 then b.(line := b.line - 1, col := |b.lines[b.line - 1]|)
    else b
  }

  function MoveRight(b: Buffer): Buffer
    requires b.line < |b.lines|
  {
    if b.col < |Cur(b)| then b.(col := b.col + 1)
    else if b.line + 1 < |b.lines| then b.(line := b.line + 1, col := 0)
    else b
  }

  function MoveUp(b: Buffer): Buffer
    requires b.line < |b.lines|
  {
    Clamp(if b.line > 0 then b.(line := b.line - 1) else b)
  }

  function MoveDown(b: Buffer): Buffer
    requires b.line < |b.lines|
  {
    Clamp(if b.line + 1 < |b.lines| then b.(line := b.line + 1) else b)
  }

  /** Lines with one line replaced by others. */
  function Splice(lines: seq<string>, i: nat, n: nat, mid: seq<string>): seq<string>
    requires i + n <= |lines|
  {
    lines[..i] + mid + lines[i + n..]
  }

  function InsertChar(b: Buffer, ch: char): (Buffer, bool)
    requires Ok(b)
  {
    if ch < ' ' || |Cur(b)| + 1 >= MAX_LINE_LEN then (b, false)
    else (Buffer(Splice(b.lines, b.line, 1, [Cur(b)[..b.col] + [ch] + Cur(b)[b.col..]]), b.line, b.col + 1), true)
  }

  function SplitLine(b: Buffer): (Buffer, bool)
    requires Ok(b)
  {
    if |b.lines| >= MAX_LINES then (b, false)
    else (Buffer(Splice(b.lines, b.line, 1, [Cur(b)[..b.col], Cur(b)[b.col..]]), b.line + 1, 0), true)
  }

  function Backspace(b: Buffer): (Buffer, bool)
    requires Ok(b)
  {
    if b.col > 0 then
      (Buffer(Splice(b.lines, b.line, 1, [Cur(b)[..b.col - 1] + Cur(b)[b.col..]]), b.line, b.col - 1), true)
    else if b.line == 0 || |b.lines[b.line - 1]| + |Cur(b)| >= MAX_LINE_LEN then (b, false)
    else
      (Buffer(Splice(b.lines, b.line - 1, 2, [b.lines[b.line - 1] + Cur(b)]), b.line - 1, |b.lines[b.line - 1]|), true)
  }

  function DeleteChar(b: Buffer): (Buffer, bool)
    requires Ok(b)
  {
    if b.col >= |Cur(b)| then (b, false)
    else (b.(lines := Splice(b.lines, b.line, 1, [Cur(b)[..b.col] + Cur(b)[b.col + 1..]])), true)
  }

  function DeleteLine(b: Buffer): Buffer
    requires Ok(b)
  {
    if |b.lines| == 1 then Buffer([""], 0, 0)
    else Clamp(b.(lines := Splice(b.lines, b.line, 1, [])))
  }

  function OpenBelow(b: Buffer): (Buffer, bool)
    requires Ok(b)
  {
    if |b.lines| >= MAX_LINES then (b, false)
    else (Buffer(Splice(b.lines, b.line, 1, [Cur(b), ""]), b.line + 1, 0), true)
  }

  // ------------------------------------------------------------------- flat text

  /** Lines joined by newlines. */
  function Join(lines: seq<string>): string {
    if lines == [] then ""
    else if |lines| == 1 then lines[0]
    else lines[0] + "\n" + Join(lines[1..])
  }

  /** Lines each followed by a newline. */
  function Before(lines: seq<string>): string {
    if lines == [] then "" else Before(lines[..|lines| - 1]) + lines[|lines| - 1] + "\n"
  }

  /** Lines each preceded by a newline. */
  function After(lines: seq<string>): string {
    if lines == [] then "" else "\n" + lines[0] + After(lines[1..])
  }

  function Text(b: Buffer): string { Join(b.lines) }

  function Offset(b: Buffer): nat
    requires b.line < |b.lines|
  {
    |Before(b.lines[..b.line])| + b.col
  }

  lemma {:induction false} JoinAfter(line: string, rest: seq<string>)
    ensures Join([line] + rest) == line + After(rest)
    decreases |rest|
  {
    assert ([line] + rest)[1..] == rest;
    if rest != [] {
      JoinAfter(rest[0], rest[1..]);
      assert [rest[0]] + rest[1..] == rest;
      assert line + "\n" + (rest[0] + After(rest[1..])) == line + ("\n" + rest[0] + After(rest[1..]));
    }
  }

  lemma {:induction false} BeforeFront(line: string, rest: seq<string>)
    ensures Before([line] + rest) == line + "\n" + Before(rest)
    decreases |rest|
  {
    var all := [line] + rest;
    if rest == [] {
      assert all[..0] == [];
    } else {
      assert all[..|all| - 1] == [line] + rest[..|rest| - 1];
      BeforeFront(line, rest[..|rest| - 1]);
    }
  }

  /** A text is what comes before a line, the line, and what comes after it. */
  lemma {:induction false} JoinAround(a: seq<string>, line: string, b: seq<string>)
    ensures Join(a + [line] + b) == Before(a) + line + After(b)
    decreases |a|
  {
    if a == [] {
      JoinAfter(line, b);
      assert a + [line] + b == [line] + b;
    } else {
      var all := a + [line] + b;
      assert all[1..] == a[1..] + [line] + b;
      JoinAround(a[1..], line, b);
      BeforeFront(a[0], a[1..]);
      assert [a[0]] + a[1..] == a;
    }
  }

  lemma BeforeBack(a: seq<string>, line: string)
    ensures Before(a + [line]) == Before(a) + line + "\n"
  {
    assert (a + [line])[..|a|] == a;
  }

  /** A buffer in three pieces. */
  lemma Pieces(b: Buffer) returns (u: string, x: string, v: string)
    requires b.line < |b.lines| && b.col <= |Cur(b)|
    ensures u == Before(b.lines[..b.line]) && x == Cur(b) && v == After(b.lines[b.line + 1..])
    ensures Text(b) == u + x + v && Offset(b) == |u| + b.col
    ensures |u| + |x| <= |Text(b)|
  {
    u, x, v := Before(b.lines[..b.line]), Cur(b), After(b.lines[b.line + 1..]);
    JoinAround(b.lines[..b.line], x, b.lines[b.line + 1..]);
    assert b.lines == b.lines[..b.line] + [x] + b.lines[b.line + 1..];
  }

  /** Replacing one line keeps what is around it. */
  lemma OneForOne(b: Buffer, y: string, col: nat)
    requires b.line < |b.lines| && b.col <= |Cur(b)| && col <= |y|
    ensures var b' := Buffer(Splice(b.lines, b.line, 1, [y]), b.line, col);
            && b'.line < |b'.lines| && Cur(b') == y
            && Text(b') == Before(b.lines[..b.line]) + y + After(b.lines[b.line + 1..])
            && Offset(b') == |Before(b.lines[..b.line])| + col
  {
    var b' := Buffer(Splice(b.lines, b.line, 1, [y]), b.line, col);
    JoinAround(b.lines[..b.line], y, b.lines[b.line + 1..]);
    assert b'.lines[..b.line] == b.lines[..b.line];
  }

  /** One line becomes two, and the cursor goes to the start of the second. */
  lemma OneForTwo(b: Buffer, y: string, z: string)
    requires b.line < |b.lines| && b.col <= |Cur(b)|
    ensures var b' := Buffer(Splice(b.lines, b.line, 1, [y, z]), b.line + 1, 0);
            && b'.line < |b'.lines|
            && Text(b') == Before(b.lines[..b.line]) + y + "\n" + z + After(b.lines[b.line + 1..])
            && Offset(b') == |Before(b.lines[..b.line])| + |y| + 1
  {
    var a, c := b.lines[..b.line], b.lines[b.line + 1..];
    var b' := Buffer(Splice(b.lines, b.line, 1, [y, z]), b.line + 1, 0);
    JoinAround(a + [y], z, c);
    BeforeBack(a, y);
    assert b'.lines == (a + [y]) + [z] + c;
    assert b'.lines[..b.line + 1] == a + [y];
  }

  lemma GoodSplice(lines: seq<string>, i: nat, n: nat, mid: seq<string>)
    requires GoodLines(lines) && i + n <= |lines| && 1 <= |lines| - n + |mid| <= MAX_LINES
    requires forall k | 0 <= k < |mid| :: GoodLine(mid[k])
    ensures GoodLines(Splice(lines, i, n, mid))
  {
    var t := Splice(lines, i, n, mid);
    forall k | 0 <= k < |t| ensures GoodLine(t[k]) {
      if k < i { assert t[k] == lines[k]; }
      if k >= i + |mid| { assert t[k] == lines[k - |mid| + n]; }
    }
  }

  /** Inserting inside the middle piece is inserting in the whole. */
  lemma MidInsert(u: string, x: string, v: string, c: nat, mid: string)
    requires c <= |x|
    ensures u + (x[..c] + mid + x[c..]) + v == (u + x + v)[..|u| + c] + mid + (u + x + v)[|u| + c..]
  {
    var t := u + x + v;
    assert t[..|u| + c] == u + x[..c];
    assert t[|u| + c..] == x[c..] + v;
    assert u + (x[..c] + mid + x[c..]) + v == (u + x[..c]) + mid + (x[c..] + v);
  }

  /** Deleting n characters of the middle piece is deleting them from the whole. */
  lemma MidDelete(u: string, x: string, v: string, c: nat, n: nat)
    requires c + n <= |x|
    ensures u + (x[..c] + x[c + n..]) + v == (u + x + v)[..|u| + c] + (u + x + v)[|u| + c + n..]
  {
    var t := u + x + v;
    assert t[..|u| + c] == u + x[..c];
    assert t[|u| + c + n..] == x[c + n..] + v;
    assert u + (x[..c] + x[c + n..]) + v == (u + x[..c]) + (x[c + n..] + v);
  }

  // ---------------------------------------------------------------- refinement

  /** Inserting a character inserts it at the offset, or is refused and changes nothing. */
  lemma InsertRefines(b: Buffer, ch: char)
    requires Ok(b)
    ensures var (b', done) := InsertChar(b, ch);
            var t, p := Text(b), Offset(b);
            && Ok(b') && p <= |t|
            && (done <==> ch >= ' ' && |Cur(b)| < MAX_LINE_LEN - 1)
            && (done ==> Text(b') == t[..p] + [ch] + t[p..] && Offset(b') == p + 1)
            && (!done ==> b' == b)
  {
    var u, x, v := Pieces(b);
    if ch >= ' ' && |x| + 1 < MAX_LINE_LEN {
      var y := x[..b.col] + [ch] + x[b.col..];
      OneForOne(b, y, b.col + 1);
      assert GoodLine(x);
      GoodSplice(b.lines, b.line, 1, [y]);
      MidInsert(u, x, v, b.col, [ch]);
      hide Join, Before, After, Splice, GoodLines;
    }
  }

  lemma Associate(u: string, y: string, z: string, v: string)
    ensures u + (y + "\n" + z) + v == u + y + "\n" + z + v
  {}

  /** Splitting a line inserts a newline at the offset. */
  lemma SplitRefines(b: Buffer)
    requires Ok(b)
    ensures var (b', done) := SplitLine(b);
            var t, p := Text(b), Offset(b);
            && Ok(b') && p <= |t|
            && (done <==> |b.lines| < MAX_LINES)
            && (done ==> Text(b') == t[..p] + "\n" + t[p..] && Offset(b') == p + 1)
            && (!done ==> b' == b)
  {
    var u, x, v := Pieces(b);
    if |b.lines| < MAX_LINES {
      var y, z := x[..b.col], x[b.col..];
      OneForTwo(b, y, z);
      assert GoodLine(x);
      GoodSplice(b.lines, b.line, 1, [y, z]);
      MidInsert(u, x, v, b.col, "\n");
      hide Join, Before, After, Splice, GoodLines;
      Associate(u, y, z, v);
    }
  }

  lemma BackspaceInLine(b: Buffer)
    requires Ok(b) && b.col > 0
    ensures var (b', done) := Backspace(b);
            var t, p := Text(b), Offset(b);
            done && Ok(b') && 0 < p <= |t| && Text(b') == t[..p - 1] + t[p..] && Offset(b') == p - 1
  {
    var u, x, v := Pieces(b);
    assert GoodLine(x);
    var y := x[..b.col - 1] + x[b.col..];
    OneForOne(b, y, b.col - 1);
    GoodSplice(b.lines, b.line, 1, [y]);
    MidDelete(u, x, v, b.col - 1, 1);
    hide Join, Before, After, Splice, GoodLines;
  }

  lemma FourPieces(u: string, w: string, x: string, v: string)
    ensures var t, p := u + w + "\n" + x + v, |u| + |w| + 1;
            p <= |t| && t[..p] == u + w + "\n" && t[..p - 1] + t[p..] == u + (w + x) + v
  {
    var t, p := u + w + "\n" + x + v, |u| + |w| + 1;
    assert t[..p - 1] == u + w;
    assert t[p..] == x + v;
  }

  /** Joining with the line above removes the newline between them. */
  lemma JoinPieces(a: seq<string>, w: string, x: string, c: seq<string>)
    ensures var t, p := Join(a + [w] + ([x] + c)), |Before(a)| + |w| + 1;
            && p <= |t| && Before(a + [w]) == t[..p]
            && Join(a + [w + x] + c) == t[..p - 1] + t[p..]
  {
    JoinAround(a + [w], x, c);
    assert a + [w] + ([x] + c) == (a + [w]) + [x] + c;
    BeforeBack(a, w);
    JoinAround(a, w + x, c);
    hide Join, Before, After;
    FourPieces(Before(a), w, x, After(c));
  }

  lemma BackspaceJoins(b: Buffer)
    requires Ok(b) && b.col == 0 && b.line > 0 && |b.lines[b.line - 1]| + |Cur(b)| < MAX_LINE_LEN
    ensures var (b', done) := Backspace(b);
            var t, p := Text(b), Offset(b);
            done && Ok(b') && 0 < p <= |t| && Text(b') == t[..p - 1] + t[p..] && Offset(b') == p - 1
  {
    var w, x := b.lines[b.line - 1], Cur(b);
    var a, c := b.lines[..b.line - 1], b.lines[b.line + 1..];
    assert GoodLine(w) && GoodLine(x);
    GoodSplice(b.lines, b.line - 1, 2, [w + x]);
    assert b.lines[..b.line] == a + [w];
    assert b.lines == a + [w] + ([x] + c);
    assert Backspace(b).0.lines[..b.line - 1] == a;
    JoinPieces(a, w, x, c);
    BeforeBack(a, w);
    hide Join, Before, GoodLines, GoodLine;
  }

  lemma AtLineStart(b: Buffer)
    requires Ok(b) && b.col == 0
    ensures Offset(b) > 0 <==> b.line > 0
  {
    if b.line > 0 {
      assert b.lines[..b.line] == b.lines[..b.line - 1] + [b.lines[b.line - 1]];
      BeforeBack(b.lines[..b.line - 1], b.lines[b.line - 1]);
    }
  }

  lemma OffsetInText(b: Buffer)
    requires Ok(b)
    ensures b.col <= Offset(b) && Offset(b) - b.col + |Cur(b)| <= |Text(b)|
  {
    var _, _, _ := Pieces(b);
  }

  /** Backspace removes the character before the offset, newline or not. */
  lemma BackspaceRefines(b: Buffer)
    requires Ok(b)
    ensures var (b', done) := Backspace(b);
            var t, p := Text(b), Offset(b);
            && Ok(b') && p <= |t|
            && (done <==> p > 0 && (b.col > 0 || |b.lines[b.line - 1]| + |Cur(b)| < MAX_LINE_LEN))
            && (done ==> Text(b') == t[..p - 1] + t[p..] && Offset(b') == p - 1)
            && (!done ==> b' == b)
  {
    OffsetInText(b);
    if b.col > 0 {
      BackspaceInLine(b);
    } else {
      AtLineStart(b);
      if b.line > 0 && |b.lines[b.line - 1]| + |Cur(b)| < MAX_LINE_LEN { BackspaceJoins(b); }
    }
    hide Text, Offset, Splice, GoodLines;
  }

  /** Deleting removes the character at the offset, but never a newline. */
  lemma DeleteRefines(b: Buffer)
    requires Ok(b)
    ensures var (b', done) := DeleteChar(b);
            var t, p := Text(b), Offset(b);
            && Ok(b') && p <= |t|
            && (done <==> p < |t| && t[p] != '\n')
            && (done ==> Text(b') == t[..p] + t[p + 1..] && Offset(b') == p)
            && (!done ==> b' == b)
  {
    var u, x, v := Pieces(b);
    assert GoodLine(x);
    if b.col < |x| {
      var y := x[..b.col] + x[b.col + 1..];
      OneForOne(b, y, b.col);
      GoodSplice(b.lines, b.line, 1, [y]);
      assert (u + x + v)[|u| + b.col] == x[b.col];
      assert x[b.col] in x;
      MidDelete(u, x, v, b.col, 1);
      hide Join, Before, After, Splice, GoodLines;
    } else {
      assert v == "" || v[0] == '\n';
      assert |u + x + v| > |u| + |x| ==> (u + x + v)[|u| + |x|] == v[0];
    }
  }

  /** Opening a line below inserts a newline at the end of the current line. */
  lemma OpenRefines(b: Buffer)
    requires Ok(b)
    ensures var (b', done) := OpenBelow(b);
            var t, e := Text(b), Offset(b) - b.col + |Cur(b)|;
            && Ok(b') && e <= |t| && (e == |t| || t[e] == '\n')
            && (done <==> |b.lines| < MAX_LINES)
            && (done ==> Text(b') == t[..e] + "\n" + t[e..] && Offset(b') == e + 1)
            && (!done ==> b' == b)
  {
    var u, x, v := Pieces(b);
    assert v == "" || v[0] == '\n';
    assert |u + x + v| > |u| + |x| ==> (u + x + v)[|u| + |x|] == v[0];
    if |b.lines| < MAX_LINES {
      OneForTwo(b, x, "");
      GoodSplice(b.lines, b.line, 1, [x, ""]);
      MidInsert(u, x, v, |x|, "\n");
      hide Join, Before, After, Splice, GoodLines;
      assert u + (x[..|x|] + "\n" + x[|x|..]) + v == u + x + "\n" + "" + v;
    }
  }

  /** Left and right shift the offset by one and stop at the ends of the text. */
  lemma LeftRefines(b: Buffer)
    requires Ok(b)
    ensures var b' := MoveLeft(b);
            Ok(b') && Text(b') == Text(b) && Offset(b') == if Offset(b) > 0 then Offset(b) - 1 else 0
  {
    if b.col == 0 && b.line > 0 {
      assert b.lines[..b.line] == b.lines[..b.line - 1] + [b.lines[b.line - 1]];
      BeforeBack(b.lines[..b.line - 1], b.lines[b.line - 1]);
    }
  }

  lemma RightRefines(b: Buffer)
    requires Ok(b)
    ensures var b' := MoveRight(b);
            Ok(b') && Text(b') == Text(b) && Offset(b') == if Offset(b) < |Text(b)| then Offset(b) + 1 else |Text(b)|
  {
    var u, x, v := Pieces(b);
    if b.col == |x| {
      if b.line + 1 < |b.lines| {
        assert b.lines[..b.line + 1] == b.lines[..b.line] + [x];
        BeforeBack(b.lines[..b.line], x);
        assert |v| > 0;
      } else {
        assert v == "";
      }
    }
  }

  // -------------------------------------------- lines and columns of a flat text

  function Newlines(t: string): nat {
    if t == "" then 0 else Newlines(t[..|t| - 1]) + if t[|t| - 1] == '\n' then 1 else 0
  }

  /** Characters since the last newline. */
  function Column(t: string): nat {
    if t == "" || t[|t| - 1] == '\n' then 0 else Column(t[..|t| - 1]) + 1
  }

  lemma {:induction false} ColumnAppend(t: string, x: string)
    requires '\n' !in x
    ensures Newlines(t + x) == Newlines(t)
    ensures Column(t + x) == Column(t) + |x|
    decreases |x|
  {
    if x == "" {
      assert t + x == t;
    } else {
      assert (t + x)[..|t + x| - 1] == t + x[..|x| - 1];
      ColumnAppend(t, x[..|x| - 1]);
    }
  }

  lemma {:induction false} BeforeCounts(a: seq<string>)
    requires forall i | 0 <= i < |a| :: '\n' !in a[i]
    ensures Newlines(Before(a)) == |a| && Column(Before(a)) == 0
    decreases |a|
  {
    if a != [] {
      var init, x := a[..|a| - 1], a[|a| - 1];
      BeforeCounts(init);
      ColumnAppend(Before(init), x);
      var t := Before(init) + x + "\n";
      assert t[..|t| - 1] == Before(init) + x;
    }
  }

  /** The cursor's line and column are those of the offset in the flat text. */
  lemma Coordinates(b: Buffer)
    requires Ok(b)
    ensures Offset(b) <= |Text(b)|
    ensures b.line == Newlines(Text(b)[..Offset(b)]) && b.col == Column(Text(b)[..Offset(b)])
  {
    var u, x, v := Pieces(b);
    assert GoodLine(x);
    forall i | 0 <= i < b.line ensures '\n' !in b.lines[..b.line][i] { assert GoodLine(b.lines[i]); }
    BeforeCounts(b.lines[..b.line]);
    ColumnAppend(u, x[..b.col]);
    assert (u + x + v)[..|u| + b.col] == u + x[..b.col];
  }

  /** Up and down keep the text, go one line and keep the column as far as the line reaches. */
  lemma UpDownRefines(b: Buffer)
    requires Ok(b)
    ensures Ok(MoveUp(b)) && Text(MoveUp(b)) == Text(b)
    ensures Ok(MoveDown(b)) && Text(MoveDown(b)) == Text(b)
    ensures var up := MoveUp(b);
            && up.line == (if b.line > 0 then b.line - 1 else 0)
            && up.col == (if b.col < |Cur(up)| then b.col else |Cur(up)|)
    ensures var down := MoveDown(b);
            && down.line == (if b.line + 1 < |b.lines| then b.line + 1 else b.line)
            && down.col == (if b.col < |Cur(down)| then b.col else |Cur(down)|)
  {}

  lemma DropBeforeOthers(a: seq<string>, x: string, c: seq<string>)
    requires c != []
    ensures var t, s := Join(a + [x] + c), |Before(a)|;
            s + |x| < |t| && Join(a + c) == t[..s] + t[s + |x| + 1..]
  {
    var u, y, v := Before(a), c[0], After(c[1..]);
    assert After(c) == "\n" + y + v;
    hide Join, Before, After;
    JoinAround(a, x, c);
    JoinAround(a, y, c[1..]);
    assert a + [y] + c[1..] == a + c;
    DropPieces(u, x, y, v);
  }

  lemma DropPieces(u: string, x: string, y: string, v: string)
    ensures var t := u + x + ("\n" + y + v);
            |u| + |x| < |t| && t[..|u|] + t[|u| + |x| + 1..] == u + y + v
  {
    var t := u + x + ("\n" + y + v);
    assert t[..|u|] == u;
    assert t[|u| + |x| + 1..] == y + v;
  }

  lemma DropLast(a: seq<string>, x: string)
    requires a != []
    ensures var t, s := Join(a + [x]), |Before(a)|;
            0 < s && s + |x| == |t| && Join(a) == t[..s - 1]
  {
    var w := a[|a| - 1];
    JoinAround(a, x, []);
    assert a + [x] + [] == a + [x];
    JoinAround(a[..|a| - 1], w, []);
    assert a[..|a| - 1] + [w] + [] == a;
    var u := Before(a[..|a| - 1]);
    assert Before(a) == u + w + "\n";
    assert (u + w + "\n" + x + "")[..|u + w|] == u + w;
  }

  lemma DeleteLineMiddle(b: Buffer)
    requires Ok(b) && b.line + 1 < |b.lines|
    ensures var s := Offset(b) - b.col;
            var e := s + |Cur(b)|;
            && e < |Text(b)|
            && Join(Splice(b.lines, b.line, 1, [])) == Text(b)[..s] + Text(b)[e + 1..]
  {
    var x, a, c := Cur(b), b.lines[..b.line], b.lines[b.line + 1..];
    DropBeforeOthers(a, x, c);
    hide Join, Before;
    assert b.lines == a + [x] + c;
    assert Splice(b.lines, b.line, 1, []) == a + c;
  }

  lemma DeleteLineLast(b: Buffer)
    requires Ok(b) && b.line + 1 == |b.lines| > 1
    ensures var s := Offset(b) - b.col;
            && 0 < s && s + |Cur(b)| == |Text(b)|
            && Join(Splice(b.lines, b.line, 1, [])) == Text(b)[..s - 1]
  {
    var x, a := Cur(b), b.lines[..b.line];
    DropLast(a, x);
    hide Join, Before;
    assert b.lines == a + [x];
    assert Splice(b.lines, b.line, 1, []) == a;
  }

  /** Deleting a line removes its characters and one newline next to them, if there is one. */
  lemma DeleteLineRefines(b: Buffer)
    requires Ok(b)
    ensures var b' := DeleteLine(b);
            var t, s, e := Text(b), Offset(b) - b.col, Offset(b) - b.col + |Cur(b)|;
            && Ok(b') && e <= |t|
            && (b.line + 1 < |b.lines| ==> e < |t| && Text(b') == t[..s] + t[e + 1..] && b'.line == b.line)
            && (b.line + 1 == |b.lines| > 1 ==> 0 < s && e == |t| && Text(b') == t[..s - 1] && b'.line == b.line - 1)
            && (|b.lines| == 1 ==> Text(b') == "" && b'.line == 0)
            && b'.col == (if b.col < |Cur(b')| then b.col else |Cur(b')|)
  {
    OffsetInText(b);
    assert GoodLine("");
    if |b.lines| > 1 { GoodSplice(b.lines, b.line, 1, []); }
    if b.line + 1 < |b.lines| { DeleteLineMiddle(b); }
    if b.line + 1 == |b.lines| > 1 { DeleteLineLast(b); }
    hide GoodLine, GoodLines, Offset;
  }
}
