/** What each key does to the text and the cursor, said without the handlers. */
module VimLaws {
  import opened Options
  import opened VimBuffer
  import opened VimKeys

  /** Apart from the buffer and the window, t is u. */
  predicate Else(t: State, u: State) { t.(buf := u.buf, scroll := u.scroll) == u }

  /** A piece is put in at the offset, which moves behind it. */
  predicate Inserts(b: Buffer, c: Buffer, piece: string)
    requires Ok(b) && Ok(c)
  {
    var t, p := Text(b), Offset(b);
    p <= |t| && Text(c) == t[..p] + piece + t[p..] && Offset(c) == p + |piece|
  }

  /** A stretch of the text is taken out, and the offset is where told. */
  predicate Removes(b: Buffer, c: Buffer, from: nat, to: nat, at: nat)
    requires Ok(b) && Ok(c)
  {
    var t := Text(b);
    from <= to <= |t| && Text(c) == t[..from] + t[to..] && Offset(c) == at
  }

  /** The cursor moves to an offset of the same text. */
  predicate Moves(b: Buffer, c: Buffer, at: nat)
    requires Ok(b) && Ok(c)
  {
    Text(c) == Text(b) && Offset(c) == at
  }

  /** The cursor moves to a line, as far right as it was or as that line goes. */
  predicate MovesTo(b: Buffer, c: Buffer, line: nat) {
    c.lines == b.lines && c.line == line < |b.lines| && c.col == if b.col < |b.lines[line]| then b.col else |b.lines[line]|
  }

  predicate Room(b: Buffer, n: nat)
    requires Ok(b)
  {
    |Cur(b)| + n < MAX_LINE_LEN
  }

  /** A key is due in insert mode, or in normal mode, with nothing pending. */
  predicate Inserting(s: State) { Ok(s.buf) && !s.quit && s.mode == Insert && !s.jj }

  predicate Ordering(s: State) { Ok(s.buf) && !s.quit && s.mode == Normal && !s.dd && !s.gg }

  predicate Ready(s: State) { Inserting(s) || Ordering(s) }

  /** A step is the key handled, but for the window. */
  lemma Handled(s: State, e: Event)
    requires Ok(s.buf) && !s.quit && s.mode != Command
    ensures Ok(Step(s, e).0.buf) && Ok(Handle(s, e).0.buf)
    ensures Step(s, e).0.buf == Handle(s, e).0.buf && Else(Step(s, e).0, Handle(s, e).0) && !Step(s, e).1
  {
    HandleFacts(s, e);
    FixUpOk(Handle(s, e).0);
    hide Handle, Text, Ok;
  }

  // ------------------------------------------------------------------ insert mode

  lemma Typed(s: State, ch: char)
    requires Ok(s.buf) && ch >= ' '
    ensures var t := Type(s, ch);
            && Ok(t.buf) && Else(t, s.(modified := s.modified || Room(s.buf, 1)))
            && (if Room(s.buf, 1) then Inserts(s.buf, t.buf, [ch]) else t.buf == s.buf)
  {
    InsertRefines(s.buf, ch);
    hide Ok, Text, Offset, InsertChar;
  }

  /** Main result: a character typed is put in at the offset if the line has room, and else nothing is done. */
  lemma TypedKey(s: State, e: Event)
    requires Inserting(s) && Printable(e.key) && e.key != Letter('j')
    ensures var t := Step(s, e).0;
            && Ok(t.buf) && Else(t, s.(modified := s.modified || Room(s.buf, 1)))
            && (if Room(s.buf, 1) then Inserts(s.buf, t.buf, [e.key as char]) else t.buf == s.buf)
  {
    Handled(s, e);
    Typed(s, e.key as char);
    assert Handle(s, e).0 == Type(s, e.key as char);
    hide Handle, Step, Type, Ok, Inserts, Room;
  }

  /** A j is held back; a second one leaves the mode, any other character typed puts both in, as there is room. */
  lemma HeldKey(s: State, e: Event)
    requires Inserting(s) && e.key == Letter('j')
    ensures var t := Step(s, e).0; t.buf == s.buf && Else(t, s.(jj := true))
  {
    Handled(s, e);
    assert Handle(s, e).0 == s.(jj := true);
    hide Handle, Step, Ok;
  }

  lemma LeavesByTwo(s: State, e: Event)
    requires Ok(s.buf) && !s.quit && s.mode == Insert && ((s.jj && e.key == Letter('j')) || e.key == KEY_ESC)
    ensures var t := Step(s, e).0; t.buf == s.buf && Else(t, s.(mode := Normal, dd := false, gg := false, jj := false))
  {
    Handled(s, e);
    assert Handle(s, e).0 == s.(mode := Normal, dd := false, gg := false, jj := false);
    hide Handle, Step, Ok;
  }

  lemma InsertsTwice(b: Buffer, c: Buffer, d: Buffer, x: string, y: string)
    requires Ok(b) && Ok(c) && Ok(d) && Inserts(b, c, x) && Inserts(c, d, y)
    ensures Inserts(b, d, x + y)
  {
    var t, p := Text(b), Offset(b);
    assert Text(c)[..p + |x|] == t[..p] + x && Text(c)[p + |x|..] == t[p..];
    hide Ok, Text, Offset;
  }

  lemma TypedLength(s: State, ch: char)
    requires Ok(s.buf) && ch >= ' '
    ensures Ok(Type(s, ch).buf) && |Cur(Type(s, ch).buf)| == |Cur(s.buf)| + if Room(s.buf, 1) then 1 else 0
  {
    InsertRefines(s.buf, ch);
    hide Text, Offset;
  }

  lemma InsertsNothing(b: Buffer)
    requires Ok(b)
    ensures Inserts(b, b, "")
  {
    Coordinates(b);
    var t, p := Text(b), Offset(b);
    assert t == t[..p] + "" + t[p..];
    hide Text, Offset, Ok;
  }

  /**
    A held j is typed before any other key but the escape: what the key does then is what it does in a
    state with the j put in, if there is room for it.
  */
  lemma HeldComes(s: State, e: Event) returns (u: State)
    requires Ok(s.buf) && !s.quit && s.mode == Insert && s.jj && e.key != Letter('j') && e.key != KEY_ESC
    ensures Inserting(u) && Else(u, s.(jj := false, modified := s.modified || Room(s.buf, 1)))
    ensures if Room(s.buf, 1) then Inserts(s.buf, u.buf, "j") else u.buf == s.buf
    ensures |Cur(u.buf)| == |Cur(s.buf)| + if Room(s.buf, 1) then 1 else 0
    ensures Step(s, e) == Step(u, e)
  {
    u := Type(s, 'j').(jj := false);
    Typed(s, 'j');
    TypedLength(s, 'j');
    assert ['j'] == "j";
    HandleFacts(s, e);
    HandleFacts(u, e);
    hide Type, Ok, Text, Offset, InsertKeyPlain, Inserts, Room, FixUp;
    assert Handle(s, e) == Handle(u, e);
  }

  /** Main result: with room for both, a held j and the character typed behind it are put in. */
  lemma BothTyped(s: State, e: Event)
    requires Ok(s.buf) && !s.quit && s.mode == Insert && s.jj && Printable(e.key) && e.key != Letter('j') && Room(s.buf, 2)
    ensures var t := Step(s, e).0;
            Ok(t.buf) && Inserts(s.buf, t.buf, "j" + [e.key as char]) && Else(t, s.(jj := false, modified := true))
  {
    var u := HeldComes(s, e);
    assert Room(s.buf, 1) && Room(u.buf, 1);
    TypedKey(u, e);
    hide Ok, Step, Room, Inserts;
    InsertsTwice(s.buf, u.buf, Step(u, e).0.buf, "j", [e.key as char]);
  }

  // ------------------------------------------------------------------------- tabs

  function Spaces(n: nat): string { seq(n, _ => ' ') }

  /** How many spaces of n a line takes. */
  function Taken(b: Buffer, n: nat): nat
    requires Ok(b)
  {
    if |Cur(b)| + n < MAX_LINE_LEN then n else MAX_LINE_LEN - 1 - |Cur(b)|
  }

  lemma OneSpace(b: Buffer, s: State, n: nat)
    requires Ok(b) && Ok(s.buf) && Inserts(b, s.buf, Spaces(Taken(b, n))) && |Cur(s.buf)| == |Cur(b)| + Taken(b, n)
    ensures var t := Type(s, ' ');
            && Ok(t.buf) && Inserts(b, t.buf, Spaces(Taken(b, n + 1))) && |Cur(t.buf)| == |Cur(b)| + Taken(b, n + 1)
            && Else(t, s.(modified := s.modified || Room(s.buf, 1)))
  {
    Typed(s, ' ');
    TypedLength(s, ' ');
    assert Room(b, n + 1) ==> Spaces(n + 1) == Spaces(n) + [' '];
    assert Room(b, n + 1) ==> Room(s.buf, 1);
    assert Room(s.buf, 1) ==> Taken(b, n) == n && Taken(b, n + 1) == n + 1;
    assert !Room(s.buf, 1) ==> Taken(b, n + 1) == Taken(b, n);
    hide Ok, Type, Inserts, Room, Taken;
    if Room(s.buf, 1) { InsertsTwice(b, s.buf, Type(s, ' ').buf, Spaces(n), [' ']); }
  }

  /** Main result: a tab puts in four spaces, or as many as the line has room for. */
  lemma TabKey(s: State, e: Event)
    requires Inserting(s) && e.key == KEY_TAB
    ensures var t := Step(s, e).0;
            && Ok(t.buf) && Inserts(s.buf, t.buf, Spaces(Taken(s.buf, 4)))
            && Else(t, s.(modified := s.modified || Room(s.buf, 1)))
  {
    Handled(s, e);
    InsertsNothing(s.buf);
    assert Spaces(0) == "" && Taken(s.buf, 0) == 0;
    assert Handle(s, e).0 == TypeFour(s);
    hide Handle, Step, InsertKey, Inserts, Spaces;
    FourSpaces(s);
  }

  lemma FourSpaces(s: State)
    requires Ok(s.buf) && Inserts(s.buf, s.buf, Spaces(Taken(s.buf, 0))) && Taken(s.buf, 0) == 0
    ensures var t := TypeFour(s);
            && Ok(t.buf) && Inserts(s.buf, t.buf, Spaces(Taken(s.buf, 4)))
            && Else(t, s.(modified := s.modified || Room(s.buf, 1)))
  {
    hide Type, Ok, Inserts, Taken, Spaces;
    OneSpace(s.buf, s, 0);
    var s1 := Type(s, ' ');
    OneSpace(s.buf, s1, 1);
    var s2 := Type(s1, ' ');
    OneSpace(s.buf, s2, 2);
    var s3 := Type(s2, ' ');
    OneSpace(s.buf, s3, 3);
    assert TypeFour(s) == Type(s3, ' ');
    RoomLess(s.buf, s1.buf, 1);
    RoomLess(s.buf, s2.buf, 2);
    RoomLess(s.buf, s3.buf, 3);
  }

  lemma RoomLess(b: Buffer, c: Buffer, n: nat)
    requires Ok(b) && Ok(c) && |Cur(c)| == |Cur(b)| + Taken(b, n)
    ensures Room(c, 1) ==> Room(b, 1)
  {
  }

  // ------------------------------------------------------------------ line by line

  /** Main result: the enter key puts in a line feed, if there is room for a line. */
  lemma EnterKey(s: State, e: Event)
    requires Inserting(s) && (e.key == KEY_ENTER || e.key == KEY_NEWLINE)
    ensures var t, room := Step(s, e).0, |s.buf.lines| < MAX_LINES;
            && Ok(t.buf) && Else(t, s.(modified := s.modified || room))
            && (if room then Inserts(s.buf, t.buf, "\n") else t.buf == s.buf)
  {
    Handled(s, e);
    SplitRefines(s.buf);
    assert Handle(s, e).0 == Edited(s, SplitLine(s.buf));
    hide Handle, Step, Ok, Text, Offset, SplitLine;
  }

  /** Main result: backspace takes out the byte before the offset, unless the line above has no room for this one. */
  lemma BackspaceKey(s: State, e: Event)
    requires Inserting(s) && (e.key == KEY_BACKSPACE || e.key == KEY_DEL)
    ensures var t, p := Step(s, e).0, Offset(s.buf);
            var can := p > 0 && (s.buf.col > 0 || |s.buf.lines[s.buf.line - 1]| + |Cur(s.buf)| < MAX_LINE_LEN);
            && Ok(t.buf) && Else(t, s.(modified := s.modified || can))
            && (if can then Removes(s.buf, t.buf, p - 1, p, p - 1) else t.buf == s.buf)
  {
    Handled(s, e);
    BackspaceRefines(s.buf);
    assert Handle(s, e).0 == Edited(s, Backspace(s.buf));
    hide Handle, Step, Ok, Text, Offset, Backspace;
  }

  // --------------------------------------------------------------- moving the cursor

  /** A cursor key, or in normal mode the letter for it. */
  predicate Means(s: State, e: Event, key: int, letter: char) {
    e.key == key || (s.mode == Normal && e.key == letter as int)
  }

  /** Main result: left and right move the offset by one, up to the ends of the text. */
  lemma SideKeys(s: State, e: Event)
    requires Ready(s)
    ensures var t, p, end := Step(s, e).0, Offset(s.buf), |Text(s.buf)|;
            && Ok(t.buf)
            && (Means(s, e, KEY_LEFT, 'h') ==> Moves(s.buf, t.buf, if p > 0 then p - 1 else 0) && Else(t, s))
            && (Means(s, e, KEY_RIGHT, 'l') ==> Moves(s.buf, t.buf, if p < end then p + 1 else end) && Else(t, s))
  {
    Handled(s, e);
    LeftRefines(s.buf);
    RightRefines(s.buf);
    CursorHandled(s, e);
    hide Handle, Step, Ok, Text, Offset, MoveLeft, MoveRight;
  }

  /** Main result: up and down move by a line. */
  lemma LineKeys(s: State, e: Event)
    requires Ready(s)
    ensures var t, b := Step(s, e).0, s.buf;
            && Ok(t.buf)
            && (Means(s, e, KEY_UP, 'k') ==> MovesTo(b, t.buf, if b.line > 0 then b.line - 1 else 0) && Else(t, s))
            && (Means(s, e, KEY_DOWN, 'j') ==>
                  MovesTo(b, t.buf, if b.line + 1 < |b.lines| then b.line + 1 else b.line) && Else(t, s))
  {
    Handled(s, e);
    CursorHandled(s, e);
    UpIs(s.buf);
    hide Handle, Step, Ok, MoveUp, MoveDown, MovesTo, Means, Ready;
  }

  /** Home and end move to the ends of the line. */
  lemma EndKeys(s: State, e: Event)
    requires Ready(s)
    ensures var t, b := Step(s, e).0, s.buf;
            && (Means(s, e, KEY_HOME, '0') ==> t.buf == b.(col := 0) && Else(t, s))
            && (Means(s, e, KEY_END, '$') ==> t.buf == b.(col := |Cur(b)|) && Else(t, s))
  {
    Handled(s, e);
    CursorHandled(s, e);
    hide Handle, Step, Ok, Means, Ready;
  }

  lemma UpIs(b: Buffer)
    requires Ok(b)
    ensures MovesTo(b, MoveUp(b), if b.line > 0 then b.line - 1 else 0)
    ensures MovesTo(b, MoveDown(b), if b.line + 1 < |b.lines| then b.line + 1 else b.line)
  {
  }

  lemma CursorHandled(s: State, e: Event)
    requires Ready(s)
    ensures Means(s, e, KEY_LEFT, 'h') ==> Handle(s, e).0 == s.(buf := MoveLeft(s.buf))
    ensures Means(s, e, KEY_RIGHT, 'l') ==> Handle(s, e).0 == s.(buf := MoveRight(s.buf))
    ensures Means(s, e, KEY_UP, 'k') ==> Handle(s, e).0 == s.(buf := MoveUp(s.buf))
    ensures Means(s, e, KEY_DOWN, 'j') ==> Handle(s, e).0 == s.(buf := MoveDown(s.buf))
    ensures Means(s, e, KEY_HOME, '0') ==> Handle(s, e).0 == s.(buf := s.buf.(col := 0))
    ensures Means(s, e, KEY_END, '$') ==> Handle(s, e).0 == s.(buf := s.buf.(col := |Cur(s.buf)|))
  {
    hide Ok, MoveLeft, MoveRight, MoveUp, MoveDown;
  }

  // ------------------------------------------------------------------- normal mode

  lemma OrderHandled(s: State, e: Event)
    requires Ordering(s)
    ensures e.key == Letter('x') ==> Handle(s, e).0 == Edited(s, DeleteChar(s.buf))
    ensures e.key == Letter('G') ==> Handle(s, e).0 == s.(buf := Clamp(s.buf.(line := |s.buf.lines| - 1)))
    ensures e.key == Letter('o') ==>
              Handle(s, e).0 == if OpenBelow(s.buf).1 then Edited(s, OpenBelow(s.buf)).(mode := Insert, jj := false) else s.(jj := false)
    ensures e.key == Letter('a') ==> Handle(s, e).0 == s.(buf := Append(s.buf), mode := Insert, jj := false)
    ensures e.key == Letter('i') ==> Handle(s, e).0 == s.(mode := Insert, jj := false)
    ensures e.key == Letter(':') ==> Handle(s, e).0 == s.(mode := Command, command := "")
    ensures e.key == Letter('d') ==> Handle(s, e).0 == s.(dd := true)
    ensures e.key == Letter('g') ==> Handle(s, e).0 == s.(gg := true)
  {
    hide Ok, DeleteChar, OpenBelow, Clamp, Append;
  }

  /** Main result: x takes out the byte at the offset, unless the line ends there. */
  lemma DeleteKey(s: State, e: Event)
    requires Ordering(s) && e.key == Letter('x')
    ensures var t, p := Step(s, e).0, Offset(s.buf);
            var can := p < |Text(s.buf)| && Text(s.buf)[p] != '\n';
            && Ok(t.buf) && Else(t, s.(modified := s.modified || can))
            && (if can then Removes(s.buf, t.buf, p, p + 1, p) else t.buf == s.buf)
  {
    Handled(s, e);
    OrderHandled(s, e);
    DeleteRefines(s.buf);
    hide Handle, Step, Ok, Text, Offset, DeleteChar;
  }

  /** Main result: o puts in a line feed at the end of the line, if there is room for one, and goes to insert mode. */
  lemma OpenKey(s: State, e: Event)
    requires Ordering(s) && e.key == Letter('o')
    ensures var t, end, room := Step(s, e).0, Offset(s.buf) - s.buf.col + |Cur(s.buf)|, |s.buf.lines| < MAX_LINES;
            && Ok(t.buf) && end <= |Text(s.buf)|
            && (room ==> && Text(t.buf) == Text(s.buf)[..end] + "\n" + Text(s.buf)[end..] && Offset(t.buf) == end + 1
                         && Else(t, s.(modified := true, mode := Insert, jj := false)))
            && (!room ==> t.buf == s.buf && Else(t, s.(jj := false)))
  {
    Handled(s, e);
    OrderHandled(s, e);
    OpenRefines(s.buf);
    hide Handle, Step, Ok, Text, Offset, OpenBelow;
  }

  /** Main result: i goes to insert mode where the cursor is, a one place further within the line. */
  lemma InsertKeys(s: State, e: Event)
    requires Ordering(s) && (e.key == Letter('i') || e.key == Letter('a'))
    ensures var t, b := Step(s, e).0, s.buf;
            && Ok(t.buf) && Else(t, s.(mode := Insert, jj := false))
            && t.buf == if e.key == Letter('a') && b.col < |Cur(b)| then b.(col := b.col + 1) else b
  {
    Handled(s, e);
    OrderHandled(s, e);
    hide Handle, Step, Ok;
  }

  lemma CommandStart(s: State, e: Event)
    requires Ordering(s) && e.key == Letter(':')
    ensures var t := Step(s, e).0; t.buf == s.buf && Else(t, s.(mode := Command, command := ""))
  {
    Handled(s, e);
    OrderHandled(s, e);
    hide Handle, Step, Ok;
  }

  /** Main result: G goes to the last line, as far right as the cursor was or as that line goes. */
  lemma LastLineKey(s: State, e: Event)
    requires Ordering(s) && e.key == Letter('G')
    ensures var t := Step(s, e).0; Ok(t.buf) && MovesTo(s.buf, t.buf, |s.buf.lines| - 1) && Else(t, s)
  {
    Handled(s, e);
    OrderHandled(s, e);
    hide Handle, Step;
  }

  /** A first d or g is held back; only a second one of its kind does something, and no other key does. */
  lemma FirstOfTwo(s: State, e: Event)
    requires Ordering(s) && (e.key == Letter('d') || e.key == Letter('g'))
    ensures var t := Step(s, e).0;
            t.buf == s.buf && Else(t, if e.key == Letter('d') then s.(dd := true) else s.(gg := true))
  {
    Handled(s, e);
    OrderHandled(s, e);
    hide Handle, Step, Ok;
  }

  lemma OtherThanSecond(s: State, e: Event)
    requires Ok(s.buf) && !s.quit && s.mode == Normal && (s.dd || s.gg)
    requires e.key != if s.dd then Letter('d') else Letter('g')
    ensures var t := Step(s, e).0; t.buf == s.buf && Else(t, if s.dd then s.(dd := false) else s.(gg := false))
  {
    Handled(s, e);
    assert Handle(s, e).0 == if s.dd then s.(dd := false) else s.(gg := false);
    hide Handle, Step, Ok;
  }

  /** Main result: gg goes to the start of the text. */
  lemma FirstLineKeys(s: State, e: Event)
    requires Ok(s.buf) && !s.quit && s.mode == Normal && !s.dd && s.gg && e.key == Letter('g')
    ensures var t := Step(s, e).0; Ok(t.buf) && Moves(s.buf, t.buf, 0) && Else(t, s.(gg := false))
  {
    Handled(s, e);
    var b := s.buf.(line := 0, col := 0);
    assert Handle(s, e).0 == s.(buf := b, gg := false);
    assert b.lines[..0] == [] && Before([]) == "" && Text(b) == Text(s.buf);
    hide Handle, Step, Ok, Text;
  }

  /**
    Main result: dd takes the line out with the line feed behind it, or for the last line with the one
    before it; of a single line only the line feed that is not there stays.
  */
  lemma DeleteLineKeys(s: State, e: Event)
    requires Ok(s.buf) && !s.quit && s.mode == Normal && s.dd && e.key == Letter('d')
    ensures var t, b, start := Step(s, e).0, s.buf, Offset(s.buf) - s.buf.col;
            var end := start + |Cur(b)|;
            && Ok(t.buf) && Else(t, s.(modified := true, dd := false))
            && 0 <= start && end <= |Text(b)|
            && (b.line + 1 < |b.lines| ==>
                  end < |Text(b)| && Text(t.buf) == Text(b)[..start] + Text(b)[end + 1..] && t.buf.line == b.line)
            && (b.line + 1 == |b.lines| > 1 ==>
                  0 < start && Text(t.buf) == Text(b)[..start - 1] && t.buf.line == b.line - 1)
            && (|b.lines| == 1 ==> Text(t.buf) == "" && t.buf.line == 0)
            && t.buf.col == if b.col < |Cur(t.buf)| then b.col else |Cur(t.buf)|
  {
    Handled(s, e);
    DeleteLineRefines(s.buf);
    assert Handle(s, e).0 == s.(buf := DeleteLine(s.buf), modified := true, dd := false);
    hide Handle, Step, Ok, Text, DeleteLine;
  }

  predicate IsCursorKey(key: int) { key in {KEY_UP, KEY_DOWN, KEY_LEFT, KEY_RIGHT, KEY_HOME, KEY_END} }

  /** No other key does anything. */
  lemma OtherKeys(s: State, e: Event)
    requires Ready(s) && !IsCursorKey(e.key)
    requires s.mode == Insert ==>
               !Printable(e.key) && e.key !in {KEY_ESC, KEY_ENTER, KEY_NEWLINE, KEY_TAB, KEY_BACKSPACE, KEY_DEL}
    requires s.mode == Normal ==> forall ch | ch in "hjkl0$Ggdxoai:" :: e.key != ch as int
    ensures var t := Step(s, e).0; t.buf == s.buf && Else(t, s)
  {
    Handled(s, e);
    if s.mode == Normal { NoLetter(e.key); }
    assert Handle(s, e).0 == s;
    hide Handle, Step, Ok;
  }

  lemma NoLetter(key: int)
    requires forall ch | ch in "hjkl0$Ggdxoai:" :: key != ch as int
    ensures Alias(key) == key
    ensures key != Letter('G') && key != Letter('g') && key != Letter('d') && key != Letter('x')
    ensures key != Letter('o') && key != Letter('a') && key != Letter('i') && key != Letter(':')
  {
    var letters := "hjkl0$Ggdxoai:";
    assert 'h' in letters && 'j' in letters && 'k' in letters && 'l' in letters && '0' in letters && '$' in letters;
    assert 'G' in letters && 'g' in letters && 'd' in letters && 'x' in letters;
    assert 'o' in letters && 'a' in letters && 'i' in letters && ':' in letters;
  }

  // ------------------------------------------------------------------ command mode

  /** What commands come to: whether the text is saved and under which name, and whether the editor ends. */
  predicate Commanded(s: State, t: State, saved: bool, e: Event, cmd: string) {
    var named := FirstWord(cmd) == "w" && Rest(cmd) != "";
    var writes := cmd == "wq" || cmd == "x" || FirstWord(cmd) == "w";
    var path := if named then e.resolved else Some(s.path);
    && saved == (writes && path.Some? && path.value != "" && e.saves)
    && t.buf == s.buf && t.path == (if saved then path.value else s.path)
    && t.modified == (s.modified && !saved)
    && t.quit == (s.quit || cmd == "q!" || (cmd == "q" && !s.modified) || ((cmd == "wq" || cmd == "x") && saved))
    && t.mode == Normal && t.command == "" && t.dd == s.dd && t.gg == s.gg && t.jj == s.jj
  }

  /** Main result: the enter key runs the command typed, without the white space around it. */
  lemma CommandRun(s: State, e: Event)
    requires Ok(s.buf) && !s.quit && s.mode == Command && (e.key == KEY_ENTER || e.key == KEY_NEWLINE)
    ensures Commanded(s, Step(s, e).0, Step(s, e).1, e, Trim(s.command))
  {
    var cmd := Trim(s.command);
    var (t, saved) := Handle(s, e);
    CommandEffect(s, e, cmd);
    FixUpOk(t);
    assert Step(s, e) == (if t.quit then t else FixUp(t), saved);
    hide Trim, Ok, Handle, Step;
  }

  lemma CommandEffect(s: State, e: Event, cmd: string)
    requires Ok(s.buf) && s.mode == Command && (e.key == KEY_ENTER || e.key == KEY_NEWLINE) && cmd == Trim(s.command)
    ensures Commanded(s, Handle(s, e).0, Handle(s, e).1, e, cmd)
  {
    NotWrites();
    hide Trim, Ok, FirstWord, VimKeys.Rest;
  }

  lemma NotWrites()
    ensures FirstWord("q") != "w" && FirstWord("q!") != "w" && FirstWord("wq") != "w" && FirstWord("x") != "w"
  {
  }

  /** A character typed joins the command if there is room; backspace takes the last one off; escape leaves. */
  lemma CommandTyped(s: State, e: Event)
    requires Ok(s.buf) && !s.quit && s.mode == Command && e.key != KEY_ENTER && e.key != KEY_NEWLINE
    ensures var (t, saved), c := Step(s, e), s.command;
            && t.buf == s.buf && !saved
            && (Printable(e.key) && |c| + 1 < CMD_MAX ==> Else(t, s.(command := c + [e.key as char])))
            && ((e.key == KEY_BACKSPACE || e.key == KEY_DEL) && c != "" ==> Else(t, s.(command := c[..|c| - 1])))
            && (e.key == KEY_ESC ==> Else(t, s.(mode := Normal, command := "")))
  {
    FixUpOk(s);
    var (t, saved) := Handle(s, e);
    assert (t, saved) == CommandKey(s, e) && t.buf == s.buf;
    FixUpOk(t);
    hide Ok, Handle, RunCommand;
    assert Step(s, e) == (if t.quit then t else FixUp(t), saved);
  }
}
