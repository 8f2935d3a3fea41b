/** The editor struct and its handlers, line array edited in place, proved against the state machine. */
module VimEditor {
  import opened Options
  import opened VimBuffer
  import opened VimKeys
  import Descriptor
  import VimFile
  import opened Strings

  lemma SetLine(was: seq<string>, i: nat, x: string)
    requires i < |was|
    ensures was[i := x] == Splice(was, i, 1, [x])
  {}

  lemma SpliceTwo(was: seq<string>, now: seq<string>, i: nat, y: string, z: string)
    requires i < |was| && |now| == |was| + 1 && now[i] == y && now[i + 1] == z
    requires forall k | 0 <= k < i :: now[k] == was[k]
    requires forall k | i + 1 < k < |now| :: now[k] == was[k - 1]
    ensures now == Splice(was, i, 1, [y, z])
  {}

  lemma SpliceJoined(was: seq<string>, now: seq<string>, i: nat, x: string)
    requires 0 < i < |was| && |now| == |was| - 1 && now[i - 1] == x
    requires forall k | 0 <= k < i - 1 :: now[k] == was[k]
    requires forall k | i <= k < |now| :: now[k] == was[k + 1]
    ensures now == Splice(was, i - 1, 2, [x])
  {}

  lemma SpliceGone(was: seq<string>, now: seq<string>, i: nat)
    requires i < |was| && |now| == |was| - 1
    requires forall k | 0 <= k < i :: now[k] == was[k]
    requires forall k | i <= k < |now| :: now[k] == was[k + 1]
    ensures now == Splice(was, i, 1, [])
  {}

  lemma AtLine(b: Buffer)
    requires Ok(b)
    ensures b.line < |b.lines|
  {}

  lemma SplitIs(b: Buffer)
    requires Ok(b)
    ensures b.line < |b.lines| && b.col <= |b.lines[b.line]| && Ok(SplitLine(b).0)
    ensures var line := b.lines[b.line];
            SplitLine(b) == if |b.lines| >= MAX_LINES then (b, false)
                            else (Buffer(Splice(b.lines, b.line, 1, [line[..b.col], line[b.col..]]), b.line + 1, 0), true)
  {
    SplitRefines(b);
    AtLine(b);
    assert Cur(b) == b.lines[b.line];
    hide Splice, Text, Offset;
  }

  lemma OpenIs(b: Buffer)
    requires Ok(b)
    ensures b.line < |b.lines| && Ok(OpenBelow(b).0)
    ensures OpenBelow(b) == if |b.lines| >= MAX_LINES then (b, false)
                            else (Buffer(Splice(b.lines, b.line, 1, [b.lines[b.line], ""]), b.line + 1, 0), true)
  {
    OpenRefines(b);
    AtLine(b);
    hide Splice, Ok, Text, Offset;
  }

  /** A line and the one above it, when the cursor stands between them. */
  lemma JoinIs(b: Buffer)
    requires Ok(b) && b.col == 0 && b.line > 0
    ensures b.line < |b.lines| && Ok(Backspace(b).0)
    ensures var above, line := b.lines[b.line - 1], b.lines[b.line];
            Backspace(b) == if |above| + |line| >= MAX_LINE_LEN then (b, false)
                            else (Buffer(Splice(b.lines, b.line - 1, 2, [above + line]), b.line - 1, |above|), true)
  {
    BackspaceRefines(b);
    AtLine(b);
    assert Cur(b) == b.lines[b.line];
    hide Splice, Ok, Text, Offset;
  }

  lemma EraseIs(b: Buffer)
    requires Ok(b) && b.col > 0
    ensures b.line < |b.lines| && b.col <= |b.lines[b.line]| && Ok(Backspace(b).0)
    ensures var line := b.lines[b.line];
            Backspace(b) == (Buffer(b.lines[b.line := line[..b.col - 1] + line[b.col..]], b.line, b.col - 1), true)
  {
    BackspaceRefines(b);
    AtLine(b);
    assert Cur(b) == b.lines[b.line];
    SetLine(b.lines, b.line, Cur(b)[..b.col - 1] + Cur(b)[b.col..]);
    hide Splice, Text, Offset;
  }

  lemma DeleteIs(b: Buffer)
    requires Ok(b)
    ensures b.line < |b.lines| && b.col <= |b.lines[b.line]| && Ok(DeleteChar(b).0)
    ensures var line := b.lines[b.line];
            DeleteChar(b) == if b.col >= |line| then (b, false)
                             else (b.(lines := b.lines[b.line := line[..b.col] + line[b.col + 1..]]), true)
  {
    DeleteRefines(b);
    AtLine(b);
    assert Cur(b) == b.lines[b.line];
    if b.col < |Cur(b)| { SetLine(b.lines, b.line, Cur(b)[..b.col] + Cur(b)[b.col + 1..]); }
    hide Splice, Text, Offset;
  }

  lemma DropIs(b: Buffer)
    requires Ok(b)
    ensures b.line < |b.lines| && Ok(DeleteLine(b))
    ensures DeleteLine(b) == if |b.lines| == 1 then Buffer([""], 0, 0) else Clamp(b.(lines := Splice(b.lines, b.line, 1, [])))
  {
    DeleteLineRefines(b);
    AtLine(b);
    hide Splice, Ok, Text, Offset, Clamp;
  }

  class Editor {
    const lines: array<string>
    var lineCount: nat
    var cursorLine: nat
    var cursorCol: nat
    var scrollTop: nat
    var mode: Mode
    var modified: bool
    var quitRequested: bool
    var pendingDd: bool
    var pendingGg: bool
    var pendingJj: bool
    var filePath: string
    var command: string

    ghost predicate Shape()
      reads this, lines
    {
      lines.Length == MAX_LINES && 1 <= lineCount <= MAX_LINES
    }

    ghost function Buf(): Buffer
      reads this, lines
      requires Shape()
    {
      Buffer(lines[..lineCount], cursorLine, cursorCol)
    }

    ghost predicate Valid()
      reads this, lines
    {
      Shape() && Ok(Buf())
    }

    ghost function Now(): State
      reads this, lines
      requires Shape()
    {
      State(Buf(), scrollTop, mode, modified, quitRequested, pendingDd, pendingGg, pendingJj, filePath, command)
    }

    constructor ()
      ensures Valid() && Now() == Fresh([""], "") && fresh(lines)
    {
      lines := new string[MAX_LINES](_ => "");
      lineCount, cursorLine, cursorCol, scrollTop := 1, 0, 0, 0;
      mode, modified, quitRequested := Normal, false, false;
      pendingDd, pendingGg, pendingJj := false, false, false;
      filePath, command := "", "";
      new;
      assert lines[..1] == [""];
      assert GoodLine("");
    }

    // ------------------------------------------------------------------ line array

    /** Shifts the lines below down by one and leaves an empty line after index. */
    method InsertLineAfter(index: nat) returns (ok: bool)
      requires Shape() && index < lineCount
      modifies lines, `lineCount
      ensures Shape()
      ensures ok <==> old(lineCount) < MAX_LINES
      ensures lineCount == old(lineCount) + if ok then 1 else 0
      ensures forall k | 0 <= k < if ok then index + 1 else lineCount :: lines[k] == old(lines[k])
      ensures ok ==> lines[index + 1] == ""
      ensures ok ==> forall k | index + 1 < k < lineCount :: lines[k] == old(lines[k - 1])
    {
      if lineCount >= MAX_LINES {
        return false;
      }
      var i := lineCount;
      while i > index + 1
        invariant lineCount == old(lineCount) && index + 1 <= i <= lineCount
        invariant forall k | 0 <= k < i :: lines[k] == old(lines[k])
        invariant forall k | i < k <= lineCount :: lines[k] == old(lines[k - 1])
      {
        lines[i] := lines[i - 1];
        i := i - 1;
      }
      lines[index + 1] := "";
      lineCount := lineCount + 1;
      ok := true;
    }

    /** Shifts the lines below index up over it and clears the last. */
    method RemoveLine(index: nat)
      requires Shape() && index < lineCount && lineCount > 1
      modifies lines, `lineCount
      ensures Shape() && lineCount == old(lineCount) - 1
      ensures forall k | 0 <= k < index :: lines[k] == old(lines[k])
      ensures forall k | index <= k < lineCount :: lines[k] == old(lines[k + 1])
    {
      var i := index;
      while i + 1 < lineCount
        invariant lineCount == old(lineCount) && index <= i < lineCount
        invariant forall k | 0 <= k < index :: lines[k] == old(lines[k])
        invariant forall k | index <= k < i :: lines[k] == old(lines[k + 1])
        invariant forall k | i <= k < lineCount :: lines[k] == old(lines[k])
      {
        lines[i] := lines[i + 1];
        i := i + 1;
      }
      lines[lineCount - 1] := "";
      lineCount := lineCount - 1;
    }

    // ------------------------------------------------------------- moves and edits

    method KeepCursorValid()
      requires Shape()
      modifies `cursorLine, `cursorCol
      ensures Buf() == Clamp(old(Buf()))
    {
      if cursorLine >= lineCount {
        cursorLine := lineCount - 1;
      }
      if cursorCol > |lines[cursorLine]| {
        cursorCol := |lines[cursorLine]|;
      }
    }

    method EnsureCursorVisible()
      requires Shape()
      modifies `scrollTop
      ensures scrollTop == if cursorLine < old(scrollTop) then cursorLine
                           else if cursorLine >= old(scrollTop) + VIEW_ROWS then cursorLine - VIEW_ROWS + 1
                           else old(scrollTop)
    {
      if cursorLine < scrollTop {
        scrollTop := cursorLine;
      } else if cursorLine >= scrollTop + VIEW_ROWS {
        scrollTop := cursorLine - VIEW_ROWS + 1;
      }
    }

    method Left()
      requires Valid()
      modifies `cursorLine, `cursorCol
      ensures Shape() && Buf() == MoveLeft(old(Buf()))
    {
      if cursorCol > 0 {
        cursorCol := cursorCol - 1;
      } else if cursorLine > 0 {
        cursorLine := cursorLine - 1;
        cursorCol := |lines[cursorLine]|;
      }
    }

    method Right()
      requires Valid()
      modifies `cursorLine, `cursorCol
      ensures Shape() && Buf() == MoveRight(old(Buf()))
    {
      if cursorCol < |lines[cursorLine]| {
        cursorCol := cursorCol + 1;
      } else if cursorLine + 1 < lineCount {
        cursorLine := cursorLine + 1;
        cursorCol := 0;
      }
    }

    method Up()
      requires Valid()
      modifies `cursorLine, `cursorCol
      ensures Shape() && Buf() == MoveUp(old(Buf()))
    {
      if cursorLine > 0 {
        cursorLine := cursorLine - 1;
      }
      KeepCursorValid();
    }

    method Down()
      requires Valid()
      modifies `cursorLine, `cursorCol
      ensures Shape() && Buf() == MoveDown(old(Buf()))
    {
      if cursorLine + 1 < lineCount {
        cursorLine := cursorLine + 1;
      }
      KeepCursorValid();
    }

    method TypeChar(ch: char)
      requires Valid()
      modifies lines, `cursorCol, `modified
      ensures Valid() && Now() == Type(old(Now()), ch)
    {
      TypeOk(Now(), ch);
      assert cursorLine < lineCount && cursorCol <= |lines[cursorLine]|;
      if ch < ' ' {
        return;
      }
      ghost var was := lines[..lineCount];
      var line := lines[cursorLine];
      if |line| + 1 >= MAX_LINE_LEN {
        return;
      }
      hide Ok, Splice, Calm;
      lines[cursorLine] := line[..cursorCol] + [ch] + line[cursorCol..];
      assert lines[..lineCount] == was[cursorLine := lines[cursorLine]];
      SetLine(was, cursorLine, lines[cursorLine]);
      cursorCol := cursorCol + 1;
      modified := true;
    }

    /** Makes room below and moves the tail of the line there. */
    method BreakLine(index: nat, col: nat) returns (ok: bool)
      requires Shape() && index < lineCount && col <= |lines[index]|
      modifies lines, `lineCount
      ensures Shape() && (ok <==> old(lineCount) < MAX_LINES)
      ensures lines[..lineCount] ==
              if ok then Splice(old(lines[..lineCount]), index, 1, [old(lines[index])[..col], old(lines[index])[col..]])
              else old(lines[..lineCount])
    {
      hide Splice;
      ghost var was := lines[..lineCount];
      ok := InsertLineAfter(index);
      if !ok {
        return;
      }
      var line := lines[index];
      var tailLen := |line| - col;
      if tailLen > 0 {
        lines[index + 1] := line[col..];
        lines[index] := line[..col];
      }
      SpliceTwo(was, lines[..lineCount], index, line[..col], line[col..]);
    }

    /** An empty line below. */
    method AddLine(index: nat) returns (ok: bool)
      requires Shape() && index < lineCount
      modifies lines, `lineCount
      ensures Shape() && (ok <==> old(lineCount) < MAX_LINES)
      ensures lines[..lineCount] ==
              if ok then Splice(old(lines[..lineCount]), index, 1, [old(lines[index]), ""]) else old(lines[..lineCount])
    {
      hide Splice;
      ghost var was := lines[..lineCount];
      ok := InsertLineAfter(index);
      if ok { SpliceTwo(was, lines[..lineCount], index, was[index], ""); }
    }

    /** Appends a line to the one above and closes the gap. */
    method GlueLine(index: nat)
      requires Shape() && 0 < index < lineCount
      modifies lines, `lineCount
      ensures Shape()
      ensures lines[..lineCount] ==
              Splice(old(lines[..lineCount]), index - 1, 2, [old(lines[index - 1]) + old(lines[index])])
      ensures index <= lineCount && lines[index - 1] == old(lines[index - 1]) + old(lines[index])
    {
      hide Splice;
      ghost var was := lines[..lineCount];
      var prev, line := lines[index - 1], lines[index];
      lines[index - 1] := prev + line;
      RemoveLine(index);
      SpliceJoined(was, lines[..lineCount], index, prev + line);
    }

    method Split()
      requires Valid()
      modifies lines, `lineCount, `cursorLine, `cursorCol, `modified
      ensures Valid() && Now() == Edited(old(Now()), SplitLine(old(Buf())))
    {
      SplitIs(Buf());
      hide Ok, Splice, SplitLine;
      var ok := BreakLine(cursorLine, cursorCol);
      if !ok {
        return;
      }
      cursorLine := cursorLine + 1;
      cursorCol := 0;
      modified := true;
    }

    method Erase()
      requires Valid()
      modifies lines, `lineCount, `cursorLine, `cursorCol, `modified
      ensures Valid() && Now() == Edited(old(Now()), Backspace(old(Buf())))
    {
      if cursorCol == 0 && cursorLine > 0 {
        hide Ok, Backspace;
        JoinWithAbove();
        return;
      }
      if cursorCol > 0 {
        EraseIs(Buf());
        hide Ok, Backspace;
        ghost var was := lines[..lineCount];
        var line := lines[cursorLine];
        lines[cursorLine] := line[..cursorCol - 1] + line[cursorCol..];
        assert lines[..lineCount] == was[cursorLine := lines[cursorLine]];
        cursorCol := cursorCol - 1;
        modified := true;
      }
    }

    /** The case of backspace at the start of a line below the first. */
    method JoinWithAbove()
      requires Valid() && cursorCol == 0 && cursorLine > 0
      modifies lines, `lineCount, `cursorLine, `cursorCol, `modified
      ensures Valid() && Now() == Edited(old(Now()), Backspace(old(Buf())))
    {
      JoinIs(Buf());
      hide Ok, Splice, Backspace;
      var line, prev := lines[cursorLine], lines[cursorLine - 1];
      if |prev| + |line| >= MAX_LINE_LEN {
        return;
      }
      GlueLine(cursorLine);
      cursorLine := cursorLine - 1;
      cursorCol := |lines[cursorLine]| - |line|;
      modified := true;
    }

    method Delete()
      requires Valid()
      modifies lines, `modified
      ensures Valid() && Now() == Edited(old(Now()), DeleteChar(old(Buf())))
    {
      DeleteIs(Buf());
      hide Ok, DeleteChar;
      ghost var was := lines[..lineCount];
      var line := lines[cursorLine];
      if cursorCol >= |line| {
        return;
      }
      lines[cursorLine] := line[..cursorCol] + line[cursorCol + 1..];
      assert lines[..lineCount] == was[cursorLine := lines[cursorLine]];
      modified := true;
    }

    method DeleteWholeLine()
      requires Valid()
      modifies lines, `lineCount, `cursorLine, `cursorCol, `modified
      ensures Valid() && Now() == old(Now()).(buf := DeleteLine(old(Buf())), modified := true)
    {
      DropIs(Buf());
      hide Ok, Splice, Clamp, DeleteLine;
      ghost var was := lines[..lineCount];
      modified := true;
      if lineCount == 1 {
        lines[0] := "";
        cursorLine, cursorCol := 0, 0;
        assert lines[..1] == [""];
        return;
      }
      RemoveLine(cursorLine);
      SpliceGone(was, lines[..lineCount], cursorLine);
      KeepCursorValid();
    }

    method Open()
      requires Valid()
      modifies lines, `lineCount, `cursorLine, `cursorCol, `modified, `mode
      ensures Valid()
      ensures var r := OpenBelow(old(Buf()));
              Now() == if r.1 then Edited(old(Now()), r).(mode := Insert) else old(Now())
    {
      OpenIs(Buf());
      hide Ok, Splice, OpenBelow;
      var ok := AddLine(cursorLine);
      if !ok {
        return;
      }
      cursorLine := cursorLine + 1;
      cursorCol := 0;
      mode := Insert;
      modified := true;
    }
  
    // ------------------------------------------------------------------ key handlers

    /** The cursor keys that both modes share. */
    method MoveCursor(key: int) returns (moved: bool)
      requires Valid()
      modifies `cursorLine, `cursorCol
      ensures Valid() && moved == CursorKey(old(Buf()), key).Some?
      ensures Now() == if moved then old(Now()).(buf := CursorKey(old(Buf()), key).value) else old(Now())
    {
      CursorKeyOk(Now(), key);
      AtLine(Buf());
      hide Ok, MoveLeft, MoveRight, MoveUp, MoveDown;
      moved := true;
      if key == KEY_LEFT {
        Left();
      } else if key == KEY_RIGHT {
        Right();
      } else if key == KEY_UP {
        Up();
      } else if key == KEY_DOWN {
        Down();
      } else if key == KEY_HOME {
        cursorCol := 0;
      } else if key == KEY_END {
        cursorCol := |lines[cursorLine]|;
      } else {
        moved := false;
      }
    }

    method HandleInsert(key: int)
      requires Valid()
      modifies this, lines
      ensures Valid() && Now() == InsertKey(old(Now()), key)
    {
      hide Ok, InsertKeyPlain, Type;
      if key == KEY_ESC {
        mode, pendingDd, pendingGg, pendingJj := Normal, false, false, false;
        return;
      }
      if pendingJj {
        if key == Letter('j') {
          mode, pendingDd, pendingGg, pendingJj := Normal, false, false, false;
          return;
        }
        TypeChar('j');
        pendingJj := false;
      }
      HandleInsertPlain(key);
    }

    method HandleInsertPlain(key: int)
      requires Valid()
      modifies this, lines
      ensures Valid() && Now() == InsertKeyPlain(old(Now()), key)
    {
      hide Ok, Type, SplitLine, Backspace, CursorKey, Edited, TypeFour;
      if key == Letter('j') {
        pendingJj := true;
        return;
      }
      var moved := MoveCursor(key);
      if moved {
        return;
      }
      if key == KEY_ENTER || key == KEY_NEWLINE {
        Split();
      } else if key == KEY_BACKSPACE || key == KEY_DEL {
        Erase();
      } else if key == KEY_TAB {
        TypeSpaces();
      } else if Printable(key) {
        TypeChar(key as char);
      }
    }

    method TypeSpaces()
      requires Valid()
      modifies this, lines
      ensures Valid() && Now() == TypeFour(old(Now()))
    {
      hide Ok, Type;
      TypeChar(' ');
      TypeChar(' ');
      TypeChar(' ');
      TypeChar(' ');
    }

    method HandleNormal(key: int)
      requires Valid()
      modifies this, lines
      ensures Valid() && Now() == NormalKey(old(Now()), key)
    {
      NormalCalm(Now(), key);
      hide Ok, Text, DeleteLine, CursorKey, NormalOther;
      if pendingDd {
        if key == Letter('d') {
          DeleteWholeLine();
        }
        pendingDd := false;
        return;
      }
      if pendingGg {
        if key == Letter('g') {
          cursorLine, cursorCol := 0, 0;
        }
        pendingGg := false;
        return;
      }
      var moved := MoveCursor(Alias(key));
      if !moved {
        HandleNormalOther(key);
      }
    }

    method HandleNormalOther(key: int)
      requires Valid()
      modifies this, lines
      ensures Valid() && Now() == NormalOther(old(Now()), key)
    {
      NormalOtherCalm(Now(), key);
      AtLine(Buf());
      hide Ok, Text, DeleteChar, OpenBelow, Clamp, NormalFlag, Calm;
      if key == Letter('G') {
        cursorLine := lineCount - 1;
        KeepCursorValid();
      } else if key == Letter('a') {
        if cursorCol < |lines[cursorLine]| {
          cursorCol := cursorCol + 1;
        }
        mode, pendingJj := Insert, false;
      } else if key == Letter('o') {
        Open();
        pendingJj := false;
      } else if key == Letter('x') {
        Delete();
      } else {
        HandleNormalFlag(key);
      }
    }

    method HandleNormalFlag(key: int)
      requires Valid()
      modifies this
      ensures Valid() && Now() == NormalFlag(old(Now()), key)
    {
      hide Ok;
      if key == Letter('g') {
        pendingGg := true;
      } else if key == Letter('i') {
        mode, pendingJj := Insert, false;
      } else if key == Letter('d') {
        pendingDd := true;
      } else if key == Letter(':') {
        mode, command := Command, "";
      }
    }

    /** A file that nothing was written to yet, or none. */
    predicate Unwritten(out: Descriptor.Output?)
      reads out
    {
      out != null ==> out.written == "" && !out.failed
    }

    /** The file could be opened and refused no write. */
    predicate Takes(out: Descriptor.Output?)
      reads out
    {
      out != null && !out.failed
    }

    /** The whole text is in the file if it was saved, and at most a start of it otherwise. */
    predicate Holds(out: Descriptor.Output?, text: string, saved: bool)
      reads out
    {
      if saved then out != null && out.written == text else out != null ==> out.written <= text
    }

    /** A command; out is the file that opening the save target gives, null if it cannot be opened. */
    method RunCommandLine(resolved: Option<string>, out: Descriptor.Output?) returns (saved: bool)
      requires Valid() && Unwritten(out)
      modifies this, out
      ensures Valid()
      ensures (Now(), saved) == RunCommand(old(Now()), Event(KEY_ENTER, resolved, Takes(out)))
      ensures Holds(out, Text(old(Buf())), saved)
    {
      ghost var s := Now();
      saved := false;
      var cmd := Trim(command);
      if cmd == "q" {
        if !modified {
          quitRequested := true;
        }
        return;
      }
      if cmd == "q!" {
        quitRequested := true;
        return;
      }
      var target := SaveTarget(FieldsOnly(), cmd, resolved);
      assert target == SaveTarget(s, cmd, resolved);
      if target.None? || target.value == "" || out == null {
        return;
      }
      hide SaveTarget, Trim;
      saved := VimFile.SaveLines(lines[..lineCount], out);
      if !saved {
        return;
      }
      filePath := target.value;
      modified := false;
      if cmd == "wq" || cmd == "x" {
        quitRequested := true;
      }
    }

    /** The scalar fields as a state; the buffer is not part of what SaveTarget looks at. */
    function FieldsOnly(): State
      reads this
    {
      State(Buffer([], 0, 0), scrollTop, mode, modified, quitRequested, pendingDd, pendingGg, pendingJj, filePath, command)
    }

    /** The key that ends a command line, which is run. */
    method EndCommand(key: int, resolved: Option<string>, out: Descriptor.Output?) returns (saved: bool)
      requires Valid() && Unwritten(out) && (key == KEY_ENTER || key == KEY_NEWLINE)
      modifies this, out
      ensures Valid()
      ensures (Now(), saved) == CommandKey(old(Now()), Event(key, resolved, Takes(out)))
      ensures Holds(out, Text(old(Buf())), saved)
    {
      ghost var s := Now();
      hide RunCommand, CommandKey, Ok, Text;
      saved := RunCommandLine(resolved, out);
      ghost var e, t := Event(key, resolved, Takes(out)), Now();
      EventKeyIrrelevant(s, e);
      CommandEnds(s, e);
      assert CommandKey(s, e) == (t.(mode := Normal, command := ""), saved);
      LeaveCommand();
    }

    method LeaveCommand()
      requires Valid()
      modifies `mode, `command
      ensures Valid() && Now() == old(Now()).(mode := Normal, command := "")
    {
      hide Ok;
      mode, command := Normal, "";
    }

    method HandleCommand(key: int, resolved: Option<string>, out: Descriptor.Output?) returns (saved: bool)
      requires Valid() && Unwritten(out)
      modifies this, out
      ensures Valid()
      ensures (Now(), saved) == CommandKey(old(Now()), Event(key, resolved, Takes(out)))
      ensures Holds(out, Text(old(Buf())), saved)
    {
      hide RunCommand, Ok, Text;
      ghost var s := Now();
      saved := false;
      if key == KEY_ESC {
        mode, command := Normal, "";
      } else if key == KEY_BACKSPACE || key == KEY_DEL {
        if command != "" {
          command := command[..|command| - 1];
        }
      } else if key == KEY_ENTER || key == KEY_NEWLINE {
        saved := EndCommand(key, resolved, out);
        return;
      } else if Printable(key) && |command| + 1 < CMD_MAX {
        command := command + [key as char];
      }
    }

    /** One turn of the main loop: a save works exactly when its file can be opened and takes all bytes. */
    method Turn(key: int, resolved: Option<string>, out: Descriptor.Output?) returns (saved: bool)
      requires Valid() && Unwritten(out)
      modifies this, lines, out
      ensures Valid()
      ensures (Now(), saved) == VimKeys.Step(old(Now()), Event(key, resolved, Takes(out)))
      ensures Holds(out, Text(old(Buf())), saved)
    {
      ghost var s := Now();
      saved := false;
      hide InsertKey, NormalKey, CommandKey, Text, Ok;
      if mode == Insert {
        HandleInsert(key);
      } else if mode == Command {
        saved := HandleCommand(key, resolved, out);
      } else {
        HandleNormal(key);
      }
      assert (Now(), saved) == Handle(s, Event(key, resolved, Takes(out)));
      hide Handle, FixUp;
      StepIs(s, Event(key, resolved, Takes(out)), Now(), saved);
      if !quitRequested {
        FixCursor();
      }
      assert (Now(), saved) == VimKeys.Step(s, Event(key, resolved, Takes(out)));
    }

    method FixCursor()
      requires Valid()
      modifies this
      ensures Valid() && Now() == FixUp(old(Now()))
    {
      FixUpOk(Now());
      hide Ok, Clamp, Visible;
      KeepCursorValid();
      EnsureCursorVisible();
    }

    // ------------------------------------------------------------------------ loading

    /** Reading a file that comes in chunks of any size; true if something had to be left out. */
    method Load(chunks: seq<string>, path: string) returns (truncated: bool)
      requires Shape()
      modifies this, lines
      ensures Valid() && Buf() == Buffer(VimFile.LoadFile(Concat(chunks)).lines, 0, 0)
      ensures truncated == VimFile.LoadFile(Concat(chunks)).truncated
      ensures scrollTop == 0 && !modified && filePath == path
    {
      ResetBuffer();
      ghost var start := VimFile.Loading([""], false);
      assert lines[..1] == [""];
      var lineIndex: nat := 0;
      truncated := false;
      assert chunks[..|chunks|] == chunks && chunks[..0] == [];
      hide VimFile.LoadBytes, Concat;
      assert VimFile.LoadBytes(start, Concat(chunks[..0])) == start by { NoBytes(start); }
      for i := 0 to |chunks|
        invariant Shape() && lineIndex < MAX_LINES && forall k | lineIndex < k < MAX_LINES :: lines[k] == ""
        invariant VimFile.Loading(lines[..lineIndex + 1], truncated) ==
                  VimFile.LoadBytes(start, Concat(chunks[..i]))
      {
        lineIndex, truncated := LoadChunk(chunks[i], lineIndex, truncated);
        assert chunks[..i + 1] == chunks[..i] + [chunks[i]];
        VimFile.ConcatBack(chunks[..i], chunks[i]);
        VimFile.LoadSplits(start, Concat(chunks[..i]), chunks[i]);
      }
      lineCount := lineIndex + 1;
      cursorLine, cursorCol, scrollTop := 0, 0, 0;
      modified := false;
      filePath := path;
      VimFile.LoadExact(Concat(chunks));
    }

    method ResetBuffer()
      requires Shape()
      modifies this, lines
      ensures Shape() && forall k | 0 <= k < MAX_LINES :: lines[k] == ""
    {
      for i := 0 to MAX_LINES
        invariant Shape() && forall k | 0 <= k < i :: lines[k] == ""
      {
        lines[i] := "";
      }
      lineCount, cursorLine, cursorCol, scrollTop := 1, 0, 0, 0;
    }

    method LoadChunk(buf: string, at: nat, cut: bool) returns (lineIndex: nat, truncated: bool)
      requires Shape() && at < MAX_LINES && forall k | at < k < MAX_LINES :: lines[k] == ""
      modifies lines
      ensures Shape() && lineIndex < MAX_LINES && forall k | lineIndex < k < MAX_LINES :: lines[k] == ""
      ensures VimFile.Loading(lines[..lineIndex + 1], truncated) ==
              VimFile.LoadBytes(VimFile.Loading(old(lines[..at + 1]), cut), buf)
    {
      ghost var start := VimFile.Loading(lines[..at + 1], cut);
      lineIndex, truncated := at, cut;
      assert buf[..0] == "" && buf[..|buf|] == buf;
      for i := 0 to |buf|
        invariant Shape() && lineIndex < MAX_LINES && forall k | lineIndex < k < MAX_LINES :: lines[k] == ""
        invariant VimFile.Loading(lines[..lineIndex + 1], truncated) == VimFile.LoadBytes(start, buf[..i])
      {
        OneByte(start, buf, i);
        hide VimFile.LoadBytes;
        lineIndex, truncated := LoadOne(buf[i], lineIndex, truncated);
      }
    }

    method LoadOne(ch: char, at: nat, cut: bool) returns (lineIndex: nat, truncated: bool)
      requires Shape() && at < MAX_LINES && forall k | at < k < MAX_LINES :: lines[k] == ""
      modifies lines
      ensures Shape() && lineIndex < MAX_LINES && forall k | lineIndex < k < MAX_LINES :: lines[k] == ""
      ensures VimFile.Loading(lines[..lineIndex + 1], truncated) ==
              VimFile.LoadByte(VimFile.Loading(old(lines[..at + 1]), cut), ch)
    {
      lineIndex, truncated := at, cut;
      if ch == '\r' {
        return;
      }
      if ch == '\n' {
        if lineIndex + 1 < MAX_LINES {
          lineIndex := lineIndex + 1;
          assert lines[..lineIndex + 1] == lines[..at + 1] + [""];
        } else {
          truncated := true;
        }
        return;
      }
      var line := lines[lineIndex];
      if |line| + 1 < MAX_LINE_LEN {
        lines[lineIndex] := line + [ch];
        assert lines[..at + 1] == VimFile.Grow(old(lines[..at + 1]), ch);
      } else {
        truncated := true;
      }
    }
  }

  lemma StepIs(s: State, e: Event, t: State, saved: bool)
    requires Ok(s.buf) && (t, saved) == Handle(s, e)
    ensures Ok(t.buf) && VimKeys.Step(s, e) == (if t.quit then t else FixUp(t), saved)
  {
    HandleFacts(s, e);
    hide Handle, FixUp;
  }

  lemma NoBytes(s: VimFile.Loading)
    requires s.lines != []
    ensures VimFile.LoadBytes(s, Concat([])) == s
  {}

  lemma OneByte(s: VimFile.Loading, buf: string, i: nat)
    requires s.lines != [] && i < |buf|
    ensures VimFile.LoadBytes(s, buf[..i + 1]) == VimFile.LoadByte(VimFile.LoadBytes(s, buf[..i]), buf[i])
  {
    assert buf[..i + 1] == buf[..i] + [buf[i]];
    VimFile.LoadSplits(s, buf[..i], [buf[i]]);
    var m := VimFile.LoadBytes(s, buf[..i]);
    assert [buf[i]][1..] == "";
    assert VimFile.LoadBytes(m, [buf[i]]) == VimFile.LoadByte(m, buf[i]);
  }

  lemma CursorKeyOk(s: State, key: int)
    requires Ok(s.buf)
    ensures CursorKey(s.buf, key).Some? ==> Ok(CursorKey(s.buf, key).value)
  {
    hide Text, CursorKey;
    if CursorKey(s.buf, key).Some? { CursorKeyCalm(s, key); }
  }

  lemma CommandEnds(s: State, e: Event)
    requires e.key == KEY_ENTER || e.key == KEY_NEWLINE
    ensures CommandKey(s, e) == (RunCommand(s, e).0.(mode := Normal, command := ""), RunCommand(s, e).1)
  {
    hide RunCommand;
  }

  lemma EventKeyIrrelevant(s: State, e: Event)
    ensures RunCommand(s, e) == RunCommand(s, Event(KEY_ENTER, e.resolved, e.saves))
  {
    hide SaveTarget, Trim;
  }
}
