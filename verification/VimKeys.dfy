/** The editor as a state machine over keys, and what every key sequence keeps. */
module VimKeys {
  import opened Options
  import opened VimBuffer

  const VIEW_ROWS := 20
  const CMD_MAX := 128

  const KEY_ESC := 27
  const KEY_ENTER := 13
  const KEY_NEWLINE := 10
  const KEY_TAB := 9
  const KEY_BACKSPACE := 8
  const KEY_DEL := 127
  const KEY_UP := 1001
  const KEY_DOWN := 1002
  const KEY_LEFT := 1003
  const KEY_RIGHT := 1004
  const KEY_HOME := 1005
  const KEY_END := 1006

  datatype Mode = Normal | Insert | Command

  datatype State = State(buf: Buffer, scroll: nat, mode: Mode, modified: bool, quit: bool,
                         dd: bool, gg: bool, jj: bool, path: string, command: string)

  /** A key, and what the outside answers if the key runs a command: the resolved path, and whether saving works. */
  datatype Event = Event(key: int, resolved: Option<string>, saves: bool)

  predicate Printable(key: int) { 32 <= key <= 126 }

  function Letter(c: char): int { c as int }

  // ------------------------------------------------------------------- insert mode

  function Edited(s: State, r: (Buffer, bool)): State {
    if r.1 then s.(buf := r.0, modified := true) else s
  }

  function Type(s: State, ch: char): State
    requires Ok(s.buf)
  {
    Edited(s, InsertChar(s.buf, ch))
  }

  /**
    What a key may do short of saving or quitting: the buffer stays good, and a changed text is
    marked as modified.
  */
  ghost predicate Calm(s: State, t: State) {
    && Ok(t.buf) && t.quit == s.quit && (s.modified ==> t.modified) && |t.command| <= |s.command|
    && (t.modified || Text(t.buf) == Text(s.buf))
  }

  lemma CalmChain(s: State, t: State, u: State)
    requires Calm(s, t) && Calm(t, u)
    ensures Calm(s, u)
  {
    hide Ok, Text;
  }

  lemma EditIsCalm(s: State, r: (Buffer, bool))
    requires Ok(s.buf) && Ok(r.0)
    ensures Calm(s, Edited(s, r))
  {
    hide Ok, Text;
  }

  lemma TypeOk(s: State, ch: char)
    requires Ok(s.buf)
    ensures Ok(Type(s, ch).buf) && Calm(s, Type(s, ch))
  {
    InsertRefines(s.buf, ch);
    EditIsCalm(s, InsertChar(s.buf, ch));
    hide InsertChar, Ok, Calm;
  }

  function TypeFour(s: State): State
    requires Ok(s.buf)
  {
    TypeOk(s, ' ');
    var s1 := Type(s, ' ');
    TypeOk(s1, ' ');
    var s2 := Type(s1, ' ');
    TypeOk(s2, ' ');
    Type(Type(s2, ' '), ' ')
  }

  /** The keys that move the cursor in both modes. */
  function CursorKey(b: Buffer, key: int): Option<Buffer>
    requires Ok(b)
  {
    if key == KEY_LEFT then Some(MoveLeft(b))
    else if key == KEY_RIGHT then Some(MoveRight(b))
    else if key == KEY_UP then Some(MoveUp(b))
    else if key == KEY_DOWN then Some(MoveDown(b))
    else if key == KEY_HOME then Some(b.(col := 0))
    else if key == KEY_END then Some(b.(col := |Cur(b)|))
    else None
  }

  function InsertKeyPlain(s: State, key: int): State
    requires Ok(s.buf)
  {
    if key == Letter('j') then s.(jj := true)
    else if CursorKey(s.buf, key).Some? then s.(buf := CursorKey(s.buf, key).value)
    else if key == KEY_ENTER || key == KEY_NEWLINE then Edited(s, SplitLine(s.buf))
    else if key == KEY_BACKSPACE || key == KEY_DEL then Edited(s, Backspace(s.buf))
    else if key == KEY_TAB then TypeFour(s)
    else if Printable(key) then Type(s, key as char)
    else s
  }

  function InsertKey(s: State, key: int): State
    requires Ok(s.buf)
  {
    if key == KEY_ESC then s.(mode := Normal, dd := false, gg := false, jj := false)
    else if s.jj then
      if key == Letter('j') then s.(mode := Normal, dd := false, gg := false, jj := false)
      else
        TypeOk(s, 'j');
        InsertKeyPlain(Type(s, 'j').(jj := false), key)
    else InsertKeyPlain(s, key)
  }

  // ------------------------------------------------------------------- normal mode

  /** The letters that stand for cursor keys in normal mode. */
  function Alias(key: int): int {
    if key == Letter('h') then KEY_LEFT
    else if key == Letter('l') then KEY_RIGHT
    else if key == Letter('k') then KEY_UP
    else if key == Letter('j') then KEY_DOWN
    else if key == Letter('0') then KEY_HOME
    else if key == Letter('$') then KEY_END
    else key
  }

  function NormalFlag(s: State, key: int): State {
    if key == Letter('g') then s.(gg := true)
    else if key == Letter('i') then s.(mode := Insert, jj := false)
    else if key == Letter('d') then s.(dd := true)
    else if key == Letter(':') then s.(mode := Command, command := "")
    else s
  }

  /** One place to the right, within the line. */
  function Append(b: Buffer): Buffer
    requires b.line < |b.lines|
  {
    if b.col < |Cur(b)| then b.(col := b.col + 1) else b
  }

  function NormalOther(s: State, key: int): State
    requires Ok(s.buf)
  {
    if key == Letter('G') then s.(buf := Clamp(s.buf.(line := |s.buf.lines| - 1)))
    else if key == Letter('a') then s.(buf := Append(s.buf), mode := Insert, jj := false)
    else if key == Letter('o') then
      (if OpenBelow(s.buf).1 then Edited(s, OpenBelow(s.buf)).(mode := Insert, jj := false) else s.(jj := false))
    else if key == Letter('x') then Edited(s, DeleteChar(s.buf))
    else NormalFlag(s, key)
  }

  function NormalKey(s: State, key: int): State
    requires Ok(s.buf)
  {
    if s.dd then
      (if key == Letter('d') then s.(buf := DeleteLine(s.buf), modified := true, dd := false) else s.(dd := false))
    else if s.gg then
      (if key == Letter('g') then s.(buf := s.buf.(line := 0, col := 0), gg := false) else s.(gg := false))
    else if CursorKey(s.buf, Alias(key)).Some? then s.(buf := CursorKey(s.buf, Alias(key)).value)
    else NormalOther(s, key)
  }

  // ------------------------------------------------------------------ command mode

  predicate IsBlank(c: char) { c == ' ' || '\t' <= c <= '\r' }

  function TrimLeft(t: string): string { if t != "" && IsBlank(t[0]) then TrimLeft(t[1..]) else t }

  function TrimRight(t: string): string {
    if t != "" && IsBlank(t[|t| - 1]) then TrimRight(t[..|t| - 1]) else t
  }

  function Trim(t: string): string { TrimRight(TrimLeft(t)) }

  function FirstWord(t: string): string {
    if t == "" || IsBlank(t[0]) then "" else [t[0]] + FirstWord(t[1..])
  }

  function Rest(t: string): string {
    if t == "" then "" else if IsBlank(t[0]) then TrimLeft(t) else Rest(t[1..])
  }

  /** Where a save command writes; None if it cannot. */
  function SaveTarget(s: State, cmd: string, resolved: Option<string>): Option<string> {
    if cmd == "wq" || cmd == "x" then (if s.path == "" then None else Some(s.path))
    else if FirstWord(cmd) == "w" then
      if Rest(cmd) == "" then (if s.path == "" then None else Some(s.path)) else resolved
    else None
  }

  /** A command: the new state, and whether the buffer was written out. */
  function RunCommand(s: State, e: Event): (State, bool) {
    var cmd := Trim(s.command);
    if cmd == "q" then (if s.modified then s else s.(quit := true), false)
    else if cmd == "q!" then (s.(quit := true), false)
    else
      var target := SaveTarget(s, cmd, e.resolved);
      if target.None? || target.value == "" || !e.saves then (s, false)
      else (s.(path := target.value, modified := false, quit := s.quit || cmd == "wq" || cmd == "x"), true)
  }

  function CommandKey(s: State, e: Event): (State, bool) {
    var key := e.key;
    if key == KEY_ESC then (s.(mode := Normal, command := ""), false)
    else if key == KEY_BACKSPACE || key == KEY_DEL then
      (if s.command != "" then s.(command := s.command[..|s.command| - 1]) else s, false)
    else if key == KEY_ENTER || key == KEY_NEWLINE then
      var (t, saved) := RunCommand(s, e);
      (t.(mode := Normal, command := ""), saved)
    else if Printable(key) && |s.command| + 1 < CMD_MAX then (s.(command := s.command + [key as char]), false)
    else (s, false)
  }

  // ------------------------------------------------------------------------ one key

  /** Keep the cursor in the buffer and in the window. */
  function FixUp(s: State): State
    requires |s.buf.lines| > 0
  {
    var b := Clamp(s.buf);
    var scroll := if b.line < s.scroll then b.line
                  else if b.line >= s.scroll + VIEW_ROWS then b.line - VIEW_ROWS + 1 else s.scroll;
    s.(buf := b, scroll := scroll)
  }

  function Handle(s: State, e: Event): (State, bool)
    requires Ok(s.buf)
  {
    match s.mode
    case Insert => (InsertKey(s, e.key), false)
    case Command => CommandKey(s, e)
    case Normal => (NormalKey(s, e.key), false)
  }

  lemma TypeFourCalm(s: State)
    requires Ok(s.buf)
    ensures Calm(s, TypeFour(s))
  {
    TypeOk(s, ' ');
    var s1 := Type(s, ' ');
    TypeOk(s1, ' ');
    var s2 := Type(s1, ' ');
    TypeOk(s2, ' ');
    var s3 := Type(s2, ' ');
    TypeOk(s3, ' ');
    hide Type, Calm, Ok;
    CalmChain(s, s1, s2);
    CalmChain(s, s2, s3);
    CalmChain(s, s3, Type(s3, ' '));
  }

  lemma CursorKeyCalm(s: State, key: int)
    requires Ok(s.buf) && CursorKey(s.buf, key).Some?
    ensures Calm(s, s.(buf := CursorKey(s.buf, key).value))
  {
    LeftRefines(s.buf);
    RightRefines(s.buf);
    UpDownRefines(s.buf);
    hide MoveLeft, MoveRight, MoveUp, MoveDown, Join, GoodLines;
  }

  lemma PlacesCalm(s: State, line: nat, col: nat)
    requires Ok(s.buf) && line < |s.buf.lines| && col <= |s.buf.lines[line]|
    ensures Calm(s, s.(buf := Buffer(s.buf.lines, line, col)))
  {}

  /** Flags that are not about the text do not matter. */
  lemma FlagsCalm(s: State, t: State, u: State)
    requires Calm(s, t) && u.buf == t.buf && u.modified == t.modified && u.quit == t.quit && |u.command| <= |t.command|
    ensures Calm(s, u)
  {
    hide Ok, Text;
  }

  lemma StillCalm(s: State, u: State)
    requires Ok(s.buf) && u.buf == s.buf && u.modified == s.modified && u.quit == s.quit && |u.command| <= |s.command|
    ensures Calm(s, u)
  {
    hide Ok, Text;
  }

  lemma SplitCalm(s: State)
    requires Ok(s.buf)
    ensures Calm(s, Edited(s, SplitLine(s.buf)))
  {
    SplitRefines(s.buf);
    hide SplitLine, Ok, Calm, Text, Offset, Edited;
    EditIsCalm(s, SplitLine(s.buf));
  }

  lemma BackspaceCalm(s: State)
    requires Ok(s.buf)
    ensures Calm(s, Edited(s, Backspace(s.buf)))
  {
    BackspaceRefines(s.buf);
    hide Backspace, Ok, Calm, Text, Offset, Edited;
    EditIsCalm(s, Backspace(s.buf));
  }

  lemma DeleteCalm(s: State)
    requires Ok(s.buf)
    ensures Calm(s, Edited(s, DeleteChar(s.buf)))
  {
    DeleteRefines(s.buf);
    hide DeleteChar, Ok, Calm, Text, Offset, Edited;
    EditIsCalm(s, DeleteChar(s.buf));
  }

  lemma OpenCalm(s: State)
    requires Ok(s.buf)
    ensures Calm(s, Edited(s, OpenBelow(s.buf)))
  {
    OpenRefines(s.buf);
    hide OpenBelow, Ok, Calm, Text, Offset, Edited;
    EditIsCalm(s, OpenBelow(s.buf));
  }

  lemma InsertPlainCalm(s: State, key: int)
    requires Ok(s.buf)
    ensures Calm(s, InsertKeyPlain(s, key))
  {
    hide Ok, Calm, TypeFour, Type, SplitLine, Backspace, Edited, CursorKey;
    if key == Letter('j') { StillCalm(s, s.(jj := true)); }
    else if CursorKey(s.buf, key).Some? { CursorKeyCalm(s, key); }
    else if key == KEY_ENTER || key == KEY_NEWLINE { SplitCalm(s); }
    else if key == KEY_BACKSPACE || key == KEY_DEL { BackspaceCalm(s); }
    else if key == KEY_TAB { TypeFourCalm(s); }
    else if Printable(key) { TypeOk(s, key as char); }
    else { StillCalm(s, s); }
  }

  lemma InsertCalm(s: State, key: int)
    requires Ok(s.buf)
    ensures Calm(s, InsertKey(s, key))
  {
    hide InsertKeyPlain, Type, Calm, Ok;
    var t := InsertKey(s, key);
    if key == KEY_ESC || (s.jj && key == Letter('j')) {
      StillCalm(s, t);
    } else if s.jj {
      TypeOk(s, 'j');
      var u := Type(s, 'j').(jj := false);
      FlagsCalm(s, Type(s, 'j'), u);
      InsertPlainCalm(u, key);
      CalmChain(s, u, t);
    } else {
      InsertPlainCalm(s, key);
    }
  }

  lemma DeletedIsCalm(s: State, u: State)
    requires Ok(s.buf) && u.buf == DeleteLine(s.buf) && u.modified && u.quit == s.quit && u.command == s.command
    ensures Calm(s, u)
  {
    DeleteLineRefines(s.buf);
    hide Ok, Text, DeleteLine;
  }

  lemma LastLineCalm(s: State)
    requires Ok(s.buf)
    ensures Calm(s, s.(buf := Clamp(s.buf.(line := |s.buf.lines| - 1))))
  {
    var b := Clamp(s.buf.(line := |s.buf.lines| - 1));
    PlacesCalm(s, b.line, b.col);
    assert b == Buffer(s.buf.lines, b.line, b.col);
    hide Ok, Calm, Clamp;
  }

  lemma AppendCalm(s: State)
    requires Ok(s.buf)
    ensures Calm(s, s.(buf := Append(s.buf)))
  {}

  lemma NormalFlagCalm(s: State, key: int)
    requires Ok(s.buf)
    ensures Calm(s, NormalFlag(s, key))
  {
    hide Ok, Calm;
    StillCalm(s, NormalFlag(s, key));
  }

  lemma NormalOtherCalm(s: State, key: int)
    requires Ok(s.buf)
    ensures Calm(s, NormalOther(s, key))
  {
    assert s.buf.line < |s.buf.lines|;
    hide Ok, Calm, DeleteChar, OpenBelow, Edited, Clamp, NormalFlag, Append;
    var t := NormalOther(s, key);
    if key == Letter('G') { LastLineCalm(s); }
    else if key == Letter('a') { AppendCalm(s); FlagsCalm(s, s.(buf := Append(s.buf)), t); }
    else if key == Letter('o') {
      OpenCalm(s);
      if OpenBelow(s.buf).1 { FlagsCalm(s, Edited(s, OpenBelow(s.buf)), t); } else { StillCalm(s, t); }
    }
    else if key == Letter('x') { DeleteCalm(s); }
    else { NormalFlagCalm(s, key); }
  }

  lemma NormalCalm(s: State, key: int)
    requires Ok(s.buf)
    ensures Calm(s, NormalKey(s, key))
  {
    hide Calm, NormalOther, CursorKey, DeleteLine, Alias;
    var t := NormalKey(s, key);
    if s.dd && key == Letter('d') { DeletedIsCalm(s, t); }
    else if s.dd { StillCalm(s, t); }
    else if s.gg && key == Letter('g') {
      PlacesCalm(s, 0, 0);
      FlagsCalm(s, s.(buf := Buffer(s.buf.lines, 0, 0)), t);
    }
    else if s.gg { StillCalm(s, t); }
    else if CursorKey(s.buf, Alias(key)).Some? { CursorKeyCalm(s, Alias(key)); }
    else { NormalOtherCalm(s, key); }
  }

  /** A key in command mode: the buffer stays, and only saving clears the modified flag. */
  predicate CommandDone(s: State, t: State, saved: bool) {
    && t.buf == s.buf && |t.command| < CMD_MAX && t.scroll == s.scroll
    && (if saved then !t.modified else t.modified == s.modified)
    && (t.quit ==> s.quit || saved || !s.modified || Trim(s.command) == "q!")
  }

  lemma DoneClears(s: State, t: State, saved: bool)
    requires CommandDone(s, t, saved)
    ensures CommandDone(s, t.(mode := Normal, command := ""), saved)
  {
    hide Trim;
  }

  lemma DoneQuietly(s: State, t: State)
    requires t.buf == s.buf && |t.command| < CMD_MAX && t.scroll == s.scroll && t.modified == s.modified && t.quit == s.quit
    ensures CommandDone(s, t, false)
  {
    hide Trim;
  }

  lemma CommandFacts(s: State, e: Event)
    requires |s.command| < CMD_MAX
    ensures CommandDone(s, CommandKey(s, e).0, CommandKey(s, e).1)
  {
    hide Trim, RunCommand, CommandDone;
    if e.key == KEY_ENTER || e.key == KEY_NEWLINE {
      var (t, saved) := RunCommand(s, e);
      assert CommandKey(s, e) == (t.(mode := Normal, command := ""), saved);
      hide CommandKey;
      RunCommandFacts(s, e);
      DoneClears(s, t, saved);
    } else {
      DoneQuietly(s, CommandKey(s, e).0);
    }
  }

  lemma RunCommandFacts(s: State, e: Event)
    requires |s.command| < CMD_MAX
    ensures CommandDone(s, RunCommand(s, e).0, RunCommand(s, e).1)
  {
    hide Trim, SaveTarget;
  }

  /** Every key: a good buffer, and the text changed only if it is marked as modified. */
  lemma HandleFacts(s: State, e: Event)
    requires Ok(s.buf)
    ensures var (t, saved) := Handle(s, e);
            && Ok(t.buf)
            && (saved ==> s.mode == Command && t.buf == s.buf)
            && (s.mode != Command ==> Calm(s, t))
            && (s.mode == Command && |s.command| < CMD_MAX ==> CommandDone(s, t, saved))
  {
    match s.mode
    case Insert => InsertCalm(s, e.key); hide InsertKey, Text, Ok;
    case Normal => NormalCalm(s, e.key); hide NormalKey, Text, Ok;
    case Command =>
      CommandBuffer(s, e);
      if |s.command| < CMD_MAX { CommandFacts(s, e); }
      hide CommandKey, Text, Ok, Trim;
  }

  lemma CommandBuffer(s: State, e: Event)
    ensures CommandKey(s, e).0.buf == s.buf
  {
    hide Trim, SaveTarget;
  }

  predicate Visible(s: State) { s.scroll <= s.buf.line < s.scroll + VIEW_ROWS }

  /** The loop's body: handle the key and, unless quitting, fix up. */
  function Step(s: State, e: Event): (State, bool)
    requires Ok(s.buf)
  {
    HandleFacts(s, e);
    var (t, saved) := Handle(s, e);
    (if t.quit then t else FixUp(t), saved)
  }

  /** The buffer as the last save, or the load, left it. */
  function Kept(kept: string, s: State, e: Event): string
    requires Ok(s.buf)
  {
    if Step(s, e).1 then Text(s.buf) else kept
  }

  /**
    What holds between keys. kept is the text last loaded or saved: an unmodified buffer is that
    text.
  */
  predicate Inv(s: State, kept: string) {
    && Ok(s.buf) && (!s.quit ==> Visible(s)) && |s.command| < CMD_MAX
    && (!s.modified ==> Text(s.buf) == kept)
  }

  lemma FixUpOk(s: State)
    requires Ok(s.buf)
    ensures FixUp(s).buf == s.buf && Visible(FixUp(s))
  {}

  /** One key keeps the invariant. */
  lemma StepKeepsInv(s: State, kept: string, e: Event)
    requires Inv(s, kept) && !s.quit
    ensures Inv(Step(s, e).0, Kept(kept, s, e))
  {
    HandleFacts(s, e);
    FixUpOk(Handle(s, e).0);
    hide Handle, Text, Ok, FixUp, Visible, Trim;
  }

  /** Quitting loses nothing that was not saved, except with :q!. */
  lemma QuitLosesNothing(s: State, kept: string, e: Event)
    requires Inv(s, kept) && !s.quit && Step(s, e).0.quit && !(s.mode == Command && Trim(s.command) == "q!")
    ensures s.mode == Command && Text(Step(s, e).0.buf) == Kept(kept, s, e)
  {
    HandleFacts(s, e);
    assert FixUp(Handle(s, e).0).quit == Handle(s, e).0.quit;
    hide Handle, Text, Ok, FixUp, Trim;
  }

  lemma StepOk(s: State, e: Event)
    requires Ok(s.buf)
    ensures Ok(Step(s, e).0.buf)
  {
    HandleFacts(s, e);
    FixUpOk(Handle(s, e).0);
    hide Handle, Ok, FixUp;
  }

  function Run(s: State, kept: string, events: seq<Event>): (State, string)
    requires Ok(s.buf)
    decreases |events|
  {
    if events == [] || s.quit then (s, kept)
    else
      StepOk(s, events[0]);
      var t := Step(s, events[0]).0;
      Run(t, Kept(kept, s, events[0]), events[1..])
  }

  /**
    Main result: after any sequence of keys there is at least one line, lines are short and free of
    line ends, the cursor is in the buffer and in the window, and an unmodified buffer is what was
    last saved or loaded.
  */
  lemma {:induction false} RunKeepsInv(s: State, kept: string, events: seq<Event>)
    requires Inv(s, kept)
    ensures Inv(Run(s, kept, events).0, Run(s, kept, events).1)
    decreases |events|
  {
    if events != [] && !s.quit {
      StepKeepsInv(s, kept, events[0]);
      RunKeepsInv(Step(s, events[0]).0, Kept(kept, s, events[0]), events[1..]);
      hide Step, Inv, Kept;
    }
  }

  function Fresh(lines: seq<string>, path: string): State {
    State(Buffer(lines, 0, 0), 0, Normal, false, false, false, false, false, path, "")
  }

  lemma FreshInv(lines: seq<string>, path: string)
    requires GoodLines(lines)
    ensures Inv(Fresh(lines, path), Join(lines))
  {}
}
