/** The formatted output engine: a format walked by a cursor, and a sink that is a file or a bounded buffer. */
module PrintfEngine {
  import opened Options
  import opened Numerals
  import opened Printf
  import opened PrintfLaws
  import opened NumberWriter
  import opened Descriptor

  const EOF: int := -1

  function Capped(n: nat): int { if n > INT_MAX then INT_MAX else n }

  // --------------------------------------------------------------------- formats

  method ReadSize(fmt: string, i: nat) returns (value: nat, j: nat)
    requires i <= |fmt|
    ensures SizeFrom(fmt, i, 0) == (value, j) && j <= |fmt|
  {
    value, j := 0, i;
    while j < |fmt| && IsDigit(fmt[j], 10)
      invariant i <= j <= |fmt| && SizeFrom(fmt, j, value) == SizeFrom(fmt, i, 0)
    {
      value := (value * 10 + DigitValue(fmt[j])) % LIMIT;
      j := j + 1;
    }
  }

  method ReadFlags(fmt: string, i: nat) returns (left: bool, zero: bool, j: nat)
    requires i <= |fmt|
    ensures i <= j == FlagsEnd(fmt, i) <= |fmt|
    ensures left == Among('-', fmt[i..j]) && zero == Among('0', fmt[i..j])
  {
    left, zero, j := false, false, i;
    while j < |fmt| && (fmt[j] == '-' || fmt[j] == '0')
      invariant i <= j <= |fmt| && FlagsEnd(fmt, j) == FlagsEnd(fmt, i)
      invariant left == Among('-', fmt[i..j]) && zero == Among('0', fmt[i..j])
    {
      assert fmt[i..j + 1] == fmt[i..j] + [fmt[j]];
      if fmt[j] == '-' {
        left := true;
      } else {
        zero := true;
      }
      j := j + 1;
    }
  }

  method ReadPrecision(fmt: string, i: nat) returns (precision: Option<nat>, j: nat)
    requires i <= |fmt|
    ensures PrecisionFrom(fmt, i) == (precision, j) && j <= |fmt|
  {
    hide SizeFrom;
    if i == |fmt| || fmt[i] != '.' {
      return None, i;
    }
    var most;
    most, j := ReadSize(fmt, i + 1);
    precision := Some(most);
  }

  method ReadLength(fmt: string, i: nat) returns (wide: bool, j: nat)
    requires i <= |fmt|
    ensures j == LengthEnd(fmt, i) && (wide <==> j > i)
  {
    wide, j := false, i;
    if j < |fmt| && fmt[j] == 'l' {
      wide, j := true, j + 1;
      if j < |fmt| && fmt[j] == 'l' {
        j := j + 1;
      }
    } else if j < |fmt| && fmt[j] == 'z' {
      wide, j := true, j + 1;
    }
  }

  /** A field from behind its percent sign; not ok if the format ends first. */
  method ReadSpec(fmt: string, i: nat) returns (ok: bool, spec: Spec, next: nat)
    requires i <= |fmt|
    ensures SpecAt(fmt, i) == if ok then Some((spec, next)) else None
  {
    hide FlagsEnd, SizeFrom, PrecisionFrom, LengthEnd, Among;
    var left, zero, flags := ReadFlags(fmt, i);
    var width, size := ReadSize(fmt, flags);
    var precision, length := ReadPrecision(fmt, size);
    var wide, end := ReadLength(fmt, length);
    assert PlacesAt(fmt, i) == Places(flags, size, length, end);
    if end == |fmt| {
      return false, Spec(left, zero, width, precision, wide, NUL), end;
    }
    return true, Spec(left, zero, width, precision, wide, fmt[end]), end + 1;
  }

  // ----------------------------------------------------------------------- sinks

  function Min(a: nat, b: nat): nat { if a < b then a else b }

  /** A buffer holds what fits of a text, one place short of its capacity; all else is as it was. */
  ghost predicate Holds(stored: string, was: string, text: string, capacity: nat) {
    && |stored| == |was|
    && forall k | 0 <= k < |stored| :: stored[k] == if k < |text| && k + 1 < capacity then text[k] else was[k]
  }

  /** A buffer holds the start of a text and a terminator; all else is as it was. */
  ghost predicate Terminated(stored: string, was: string, text: string, capacity: nat) {
    if capacity == 0 then stored == was
    else
      var n := Min(|text|, capacity - 1);
      && |stored| == |was| > n && stored[..n] == text[..n] && stored[n] == NUL && stored[n + 1..] == was[n + 1..]
  }

  /** A buffer begins with a terminator. */
  ghost function Opened(was: string, capacity: nat): string { if 0 < capacity <= |was| then was[0 := NUL] else was }

  lemma HoldsNext(stored: string, was: string, text: string, t: string, i: nat, capacity: nat)
    requires i < |t| && Holds(stored, was, text + t[..i], capacity) && |text| + i + 1 < capacity <= |stored|
    ensures Holds(stored[|text| + i := t[i]], was, text + t[..i + 1], capacity)
  {
    var longer := text + t[..i + 1];
    assert forall k | 0 <= k < |text| + i :: longer[k] == (text + t[..i])[k];
    assert longer[|text| + i] == t[i];
  }

  lemma HoldsRest(stored: string, was: string, text: string, t: string, i: nat, capacity: nat)
    requires i <= |t| && Holds(stored, was, text + t[..i], capacity) && (i == |t| || |text| + i + 1 >= capacity)
    ensures Holds(stored, was, text + t, capacity)
  {
    assert forall k | 0 <= k < |text| + i :: (text + t)[k] == (text + t[..i])[k];
  }

  lemma Ended(stored: string, was: string, text: string, capacity: nat)
    requires 0 < capacity <= |was| && Holds(stored, Opened(was, capacity), text, capacity)
    ensures var n := Min(|text|, capacity - 1); Terminated(stored[n := NUL], was, text, capacity)
  {
    var n := Min(|text|, capacity - 1);
    var ended := stored[n := NUL];
    assert forall k | 0 <= k < n :: ended[k] == text[k];
    assert forall k | n < k < |was| :: ended[k] == was[k];
  }

  /** Where formatted text goes: a file, or a buffer with a capacity (none, if it is null). */
  class Sink {
    const toFile: bool
    const output: Output
    const buffer: array?<char>
    const capacity: nat
    var count: nat
    var failed: bool
    ghost const before: string  // what the file held
    ghost const was: string     // what the buffer held
    ghost const blank: string   // what it held once opened
    ghost var text: string      // what has been emitted

    ghost predicate Valid()
      reads this, output, buffer
    {
      && !failed && count == |text| && (buffer != null ==> capacity <= buffer.Length)
      && (toFile ==> output.written == before + text)
      && (!toFile && buffer != null ==>
            |was| == buffer.Length && blank == Opened(was, capacity) && Holds(buffer[..], blank, text, capacity))
    }

    /** A write has failed, and no more than the start of a text has come through. */
    ghost predicate Broken(goal: string)
      reads this, output
    {
      toFile && failed && output.failed && before <= output.written <= before + goal
    }

    constructor ForFile(output: Output)
      ensures Valid() && toFile && text == "" && this.output == output && before == output.written && buffer == null
    {
      toFile, this.output, buffer, capacity := true, output, null, 0;
      count, failed := 0, false;
      before, was, blank, text := output.written, "", "", "";
    }

    constructor ForBuffer(buffer: array?<char>, capacity: nat)
      requires buffer != null ==> capacity <= buffer.Length
      modifies buffer
      ensures Valid() && !toFile && text == "" && this.buffer == buffer && this.capacity == capacity && fresh(output)
      ensures buffer != null ==> was == old(buffer[..])
    {
      var none := new Output();
      toFile, output, this.buffer, this.capacity := false, none, buffer, capacity;
      count, failed := 0, false;
      before, text := "", "";
      was := if buffer == null then "" else buffer[..];
      blank := Opened(if buffer == null then "" else buffer[..], capacity);
      new;
      if buffer != null && capacity > 0 {
        buffer[0] := NUL;
      }
    }

    /** The part of a text that still fits the buffer. */
    method Store(t: string)
      requires Valid() && !toFile && buffer != null
      modifies buffer
      ensures Holds(buffer[..], blank, text + t, capacity)
    {
      var writable := 0;
      if count + 1 < capacity {
        writable := capacity - 1 - count;
      }
      if |t| < writable {
        writable := |t|;
      }
      assert text + t[..0] == text;
      var i := 0;
      while i < writable
        invariant i <= writable && Holds(buffer[..], blank, text + t[..i], capacity)
      {
        HoldsNext(buffer[..], blank, text, t, i, capacity);
        ghost var next := buffer[..][count + i := t[i]];
        buffer[count + i] := t[i];
        assert buffer[..] == next;
        i := i + 1;
      }
      HoldsRest(buffer[..], blank, text, t, i, capacity);
    }

    method Emit(t: string) returns (ok: bool)
      requires Valid()
      modifies this, output, buffer
      ensures ok ==> Valid() && text == old(text) + t
      ensures !ok ==> Broken(old(text) + t)
    {
      hide Holds;
      if t == "" {
        return true;
      }
      if toFile {
        ok := output.WriteAll(t);
        Joined(before, text, t);
        if !ok {
          failed := true;
          Within(before, text, t, output.written);
          return false;
        }
      } else if buffer != null {
        Store(t);
      }
      count, text := count + |t|, text + t;
      return true;
    }

    lemma Within(before: string, text: string, t: string, written: string)
      requires before + text <= written <= before + (text + t)
      ensures before <= written
    {
      assert before == (before + text)[..|before|];
    }

    /** The next part of a text, with what is to follow it. */
    method EmitPart(part: string, ghost rest: string, ghost whole: string) returns (ok: bool)
      requires Valid() && text + (part + rest) == whole
      modifies this, output, buffer
      ensures ok ==> Valid() && text + rest == whole
      ensures !ok ==> Broken(whole)
    {
      hide Holds;
      Joined(text, part, rest);
      ghost var goal := text + part;
      ok := Emit(part);
      if !ok {
        Longer(before, goal, rest, output.written);
      }
    }

    /** One character over and over. */
    method EmitRepeat(ch: char, n: nat, ghost rest: string, ghost whole: string) returns (ok: bool)
      requires Valid() && text + (Repeat(ch, n) + rest) == whole
      modifies this, output, buffer
      ensures ok ==> Valid() && text + rest == whole
      ensures !ok ==> Broken(whole)
    {
      hide Valid, Broken;
      var left := n;
      while left > 0
        invariant Valid() && text + (Repeat(ch, left) + rest) == whole
      {
        RepeatNext(ch, left, rest);
        ok := EmitPart([ch], Repeat(ch, left - 1) + rest, whole);
        if !ok {
          return;
        }
        left := left - 1;
      }
      assert Repeat(ch, 0) + rest == rest;
      return true;
    }

    lemma CountIs()
      requires Valid()
      ensures count == |text|
    {
    }

    // ------------------------------------------------------------------ fields

    method EmitWithWidth(t: string, left: bool, pad: char, width: nat) returns (ok: bool)
      requires Valid()
      modifies this, output, buffer
      ensures var gap := Gap(width, |t|);
              var field := if left then t + Repeat(' ', gap) else Repeat(pad, gap) + t;
              if ok then Valid() && text == old(text) + field else Broken(old(text) + field)
    {
      ghost var gap := Gap(width, |t|);
      ghost var field := if left then t + Repeat(' ', gap) else Repeat(pad, gap) + t;
      ghost var whole, tail := text + field, if left then Repeat(' ', gap) else "";
      assert Repeat(' ', gap) == Repeat(' ', gap) + "" && Repeat(pad, 0) + t == t && t + "" == t;
      assert left || gap == 0 ==> field == t + tail;
      hide Valid, Broken, Repeat;
      if !left && width > |t| {
        ok := EmitRepeat(pad, width - |t|, t + tail, whole);
        if !ok {
          return;
        }
      }
      ok := EmitPart(t, tail, whole);
      if !ok {
        return;
      }
      if left && width > |t| {
        ok := EmitRepeat(' ', width - |t|, "", whole);
        if !ok {
          return;
        }
      }
      assert text + "" == text;
    }

    /** The end of a number: zeros of its precision, its digits, and spaces up to its width. */
    method EmitDigits(zeros: nat, digits: string, left: bool, gap: nat, ghost whole: string) returns (ok: bool)
      requires Valid() && text + Middle(zeros, digits, left, gap) == whole
      modifies this, output, buffer
      ensures if ok then Valid() && text == whole else Broken(whole)
    {
      ghost var tail := if left then Repeat(' ', gap) else "";
      assert Repeat(' ', gap) == Repeat(' ', gap) + "" && Repeat(' ', 0) == "";
      hide Valid, Broken, Repeat;
      ok := EmitRepeat('0', zeros, digits + tail, whole);
      if !ok {
        return;
      }
      ok := EmitPart(digits, tail, whole);
      if !ok {
        return;
      }
      if left && gap > 0 {
        ok := EmitRepeat(' ', gap, "", whole);
        if !ok {
          return;
        }
      }
      assert text + "" == text;
    }

    /** The spaces or zeros before a signed number, and its sign, which zeros follow. */
    method EmitSign(spec: Spec, sign: bool, gap: nat, ghost middle: string, ghost whole: string) returns (ok: bool)
      requires Valid() && spec.conv != 'p' && text + Fronted(spec, if sign then "-" else "", gap, middle) == whole
      modifies this, output, buffer
      ensures if ok then Valid() && text + middle == whole else Broken(whole)
    {
      ghost var prefix := if sign then "-" else "";
      assert "" + middle == middle;
      assert Repeat('0', 0) + middle == middle && Repeat(' ', 0) + (prefix + middle) == prefix + middle;
      hide Valid, Broken, Repeat;
      var emitted := false;
      if !spec.left && gap > 0 {
        if spec.zero && spec.precision == None {
          if sign {
            ok := EmitPart("-", Repeat('0', gap) + middle, whole);
            if !ok {
              return;
            }
            emitted := true;
          }
          assert "" + (Repeat('0', gap) + middle) == Repeat('0', gap) + middle;
          ok := EmitRepeat('0', gap, middle, whole);
        } else {
          ok := EmitRepeat(' ', gap, prefix + middle, whole);
        }
        if !ok {
          return;
        }
      }
      if sign && !emitted {
        ok := EmitPart("-", middle, whole);
        return;
      }
      return true;
    }

    method EmitSigned(spec: Spec, bits: Word) returns (ok: bool)
      requires Valid() && IsSigned(spec.conv)
      modifies this, output, buffer
      ensures var field := NumberText(spec, bits);
              if ok then Valid() && text == old(text) + field else Broken(old(text) + field)
    {
      hide NumberText, Signed, Shown, Prefix, Valid, Broken, Repeat, Middle, Fronted;
      var value := Signed(bits, spec.wide);
      var sign, digits := WriteSigned(spec, bits);
      if spec.precision == Some(0) && value == 0 {
        digits := "";
      }
      var zeros := if spec.precision.Some? && spec.precision.value > |digits| then spec.precision.value - |digits| else 0;
      var core := |digits| + zeros + if sign then 1 else 0;
      var gap := if spec.width > core then spec.width - core else 0;
      ghost var whole := text + NumberText(spec, bits);
      NumberRight(spec, bits, zeros, gap);
      ok := EmitSign(spec, sign, gap, Middle(zeros, digits, spec.left, gap), whole);
      if !ok {
        return;
      }
      ok := EmitDigits(zeros, digits, spec.left, gap, whole);
    }

    method EmitUnsigned(spec: Spec, bits: Word) returns (ok: bool)
      requires Valid() && spec.conv in {'u', 'x', 'X'}
      modifies this, output, buffer
      ensures var field := NumberText(spec, bits);
              if ok then Valid() && text == old(text) + field else Broken(old(text) + field)
    {
      assert Prefix(spec, bits) == "";
      hide NumberText, Unsigned, Shown, Prefix, Valid, Broken, Repeat, Middle, Digits, Magnitude;
      var digits := WriteUnsigned(spec, bits);
      var zeros := if spec.precision.Some? && spec.precision.value > |digits| then spec.precision.value - |digits| else 0;
      var core := |digits| + zeros;
      var gap := if spec.width > core then spec.width - core else 0;
      var pad := if spec.zero && spec.precision == None && !spec.left then '0' else ' ';
      ghost var whole, middle := text + NumberText(spec, bits), Middle(zeros, digits, spec.left, gap);
      NumberRight(spec, bits, zeros, gap);
      BarePad(spec, gap, middle);
      hide Fronted;
      if !spec.left && spec.width > core {
        ok := EmitRepeat(pad, gap, middle, whole);
        if !ok {
          return;
        }
      }
      ok := EmitDigits(zeros, digits, spec.left, gap, whole);
    }

    method EmitPointer(spec: Spec, bits: Word) returns (ok: bool)
      requires Valid() && spec.conv == 'p'
      modifies this, output, buffer
      ensures var field := NumberText(spec, bits);
              if ok then Valid() && text == old(text) + field else Broken(old(text) + field)
    {
      var digits := WriteNumber(bits, 16, false);
      if spec.precision == Some(0) && bits == 0 {
        digits := "";
      }
      assert digits == Shown(spec, bits) && Prefix(spec, bits) == "0x";
      hide NumberText, Shown, Prefix, Valid, Broken, Repeat, Middle, Digits;
      var zeros := if spec.precision.Some? && spec.precision.value > |digits| then spec.precision.value - |digits| else 0;
      var core := 2 + zeros + |digits|;
      var gap := if spec.width > core then spec.width - core else 0;
      ghost var whole, middle := text + NumberText(spec, bits), Middle(zeros, digits, spec.left, gap);
      NumberRight(spec, bits, zeros, gap);
      PointerPad(spec, gap, middle);
      hide Fronted;
      if !spec.left && spec.width > core {
        ok := EmitRepeat(' ', gap, "0x" + middle, whole);
        if !ok {
          return;
        }
      }
      ok := EmitPart("0x", middle, whole);
      if !ok {
        return;
      }
      ok := EmitDigits(zeros, digits, spec.left, gap, whole);
    }

    /** A field; how many arguments it took, and the count it stored, if any. */
    method EmitField(spec: Spec, args: seq<Arg>) returns (ok: bool, taken: nat, stored: seq<nat>)
      requires Valid() && Suits(Field(spec), args)
      modifies this, output, buffer
      ensures var field := PieceText(Field(spec), args);
              if ok then Valid() && text == old(text) + field else Broken(old(text) + field)
      ensures taken <= |args| && args[taken..] == Rest(Field(spec), args)
      ensures stored == Stored(Field(spec), args, |old(text)|)
    {
      hide NumberText, Valid, Broken, Repeat;
      taken, stored := 1, [];
      assert text + "" == text;
      if spec.conv == 's' {
        var t := if args[0].value.Some? then args[0].value.value else "(null)";
        if spec.precision.Some? && spec.precision.value < |t| {
          t := t[..spec.precision.value];
        }
        ok := EmitWithWidth(t, spec.left, ' ', spec.width);
      } else if spec.conv == 'c' {
        ok := EmitWithWidth([(args[0].bits % 256) as char], spec.left, ' ', spec.width);
      } else if spec.conv == 'd' || spec.conv == 'i' {
        ok := EmitSigned(spec, args[0].bits);
      } else if spec.conv == 'u' || spec.conv == 'x' || spec.conv == 'X' {
        ok := EmitUnsigned(spec, args[0].bits);
      } else if spec.conv == 'p' {
        ok := EmitPointer(spec, args[0].bits);
      } else if spec.conv == 'n' {
        if args[0].present {
          assert count == |text| by { CountIs(); }
          stored := [if count > INT_MAX then INT_MAX else count];
        }
        ok := true;
      } else {
        taken := 0;
        ghost var whole := text + PieceText(Field(spec), args);
        assert PieceText(Field(spec), args) == "%" + ([spec.conv] + "");
        ok := EmitPart("%", [spec.conv] + "", whole);
        if ok {
          ok := EmitPart([spec.conv], "", whole);
        }
        assert text + "" == text;
      }
    }

    // ----------------------------------------------------------------- formats

    /** One piece of a format; no more, if the format ends inside a field. */
    method FormatPiece(fmt: string, cursor: nat, args: seq<Arg>)
      returns (ok: bool, more: bool, next: nat, taken: nat, stored: seq<nat>)
      requires Valid() && cursor < |fmt| && (PieceAt(fmt, cursor).Some? ==> Suits(PieceAt(fmt, cursor).value.0, args))
      modifies this, output, buffer
      ensures match PieceAt(fmt, cursor)
              case None => ok && !more && stored == [] && Valid() && text == old(text)
              case Some(p) =>
                && more && next == p.1 <= |fmt| && taken <= |args| && args[taken..] == Rest(p.0, args)
                && stored == Stored(p.0, args, |old(text)|)
                && var t := old(text) + PieceText(p.0, args); if ok then Valid() && text == t else Broken(t)
    {
      hide Valid, Broken, SpecAt, FieldText;
      more, taken, stored := true, 0, [];
      if fmt[cursor] != '%' {
        ok := Emit([fmt[cursor]]);
        next := cursor + 1;
      } else if cursor + 1 < |fmt| && fmt[cursor + 1] == '%' {
        ok := Emit("%");
        next := cursor + 2;
      } else {
        var complete, spec;
        complete, spec, next := ReadSpec(fmt, cursor + 1);
        if !complete {
          return true, false, cursor, 0, [];
        }
        ok, taken, stored := EmitField(spec, args);
      }
    }

    method FinalizeBuffer()
      requires Valid()
      modifies buffer
      ensures toFile ==> Valid()
      ensures !toFile && buffer != null ==> Terminated(buffer[..], was, text, capacity)
    {
      if toFile || buffer == null || capacity == 0 {
        return;
      }
      Ended(buffer[..], was, text, capacity);
      ghost var ended := buffer[..][Min(|text|, capacity - 1) := NUL];
      if count < capacity {
        buffer[count] := NUL;
      } else {
        buffer[capacity - 1] := NUL;
      }
      assert buffer[..] == ended;
    }

    lemma BrokenMore(before: string, p: Piece, args: seq<Arg>, goal: string)
      requires Suits(p, args) && before + PieceText(p, args) <= goal && Broken(before + PieceText(p, args))
      ensures Broken(goal)
    {
      var short := before + PieceText(p, args);
      hide PieceText;
      Longer(this.before, short, goal[|short|..], output.written);
      assert goal == short + goal[|short|..];
    }

    /** A piece of a format on the way to a page. */
    method Advance(fmt: string, cursor: nat, args: seq<Arg>, counts: seq<nat>, ghost page: Page)
      returns (ok: bool, more: bool, next: nat, taken: nat, counted: seq<nat>)
      requires Valid() && cursor < |fmt| && Underway(fmt, cursor, args, page, Page(text, counts))
      modifies this, output, buffer
      ensures !ok ==> Broken(page.text)
      ensures ok ==> Valid()
      ensures ok && !more ==> Page(text, counted) == page
      ensures ok && more ==>
                cursor < next <= |fmt| && taken <= |args| && Underway(fmt, next, args[taken..], page, Page(text, counted))
    {
      ghost var done := Page(text, counts);
      NextPiece(fmt, cursor, args, page, done);
      hide Valid, Broken, PieceAt, PieceText, Suits, Stored, Rest, Underway, Takes;
      var stored;
      ok, more, next, taken, stored := FormatPiece(fmt, cursor, args);
      counted := counts + stored;
      assert counts + [] == counts;
      if !ok {
        BrokenMore(done.text, PieceAt(fmt, cursor).value.0, args, page.text);
      }
    }

    /** The pieces of a format one by one. */
    method Walk(fmt: string, args: seq<Arg>) returns (ok: bool, counts: seq<nat>)
      requires Valid() && text == "" && Served(Pieces(fmt, 0), args)
      modifies this, output, buffer
      ensures var page := Formatted(fmt, args);
              if ok then Valid() && page == Page(text, counts) else Broken(page.text)
    {
      var cursor: nat, left := 0, args;
      var more := true;
      counts := [];
      ghost var page := Formatted(fmt, args);
      assert Underway(fmt, 0, left, page, BLANK);
      hide *;
      while cursor < |fmt| && more
        invariant Valid() && cursor <= |fmt|
        invariant more ==> Underway(fmt, cursor, left, page, Page(text, counts))
        invariant !more ==> Page(text, counts) == page
        decreases |fmt| - cursor, more
      {
        var next, taken;
        ok, more, next, taken, counts := Advance(fmt, cursor, left, counts, page);
        if !ok {
          return;
        }
        if more {
          cursor, left := next, left[taken..];
        }
      }
      if more { AllDone(fmt, left, page, Page(text, counts)); }
      return true, counts;
    }

    /** A format with its arguments; the length of the text, as an int. */
    method Format(fmt: string, args: seq<Arg>) returns (rc: int, counts: seq<nat>)
      requires Valid() && text == "" && Served(Pieces(fmt, 0), args)
      modifies this, output, buffer
      ensures var page := Formatted(fmt, args);
              if rc == EOF then Broken(page.text) else rc == Capped(|page.text|) && page == Page(text, counts)
      ensures rc != EOF && toFile ==> output.written == before + text
      ensures rc != EOF && !toFile && buffer != null ==> Terminated(buffer[..], was, text, capacity)
    {
      var ok;
      ok, counts := Walk(fmt, args);
      hide Formatted, Terminated, Holds;
      if !ok {
        return EOF, counts;
      }
      FinalizeBuffer();
      rc := Capped(count);
    }
  }

  /**
   * Main result: printing to a buffer returns the length of the whole text, and leaves in the buffer as much of it as
   * fits before a terminator; nothing else of the buffer changes, and a buffer that is null or empty is left alone.
   */
  method Vsnprintf(out: array?<char>, size: nat, fmt: string, args: seq<Arg>) returns (rc: int, counts: seq<nat>)
    requires (out != null ==> size <= out.Length) && Served(Pieces(fmt, 0), args)
    modifies out
    ensures var page := Formatted(fmt, args); rc == Capped(|page.text|) && counts == page.counts
    ensures out != null ==> Terminated(out[..], old(out[..]), Formatted(fmt, args).text, size)
  {
    hide Formatted, Terminated, Served;
    var sink := new Sink.ForBuffer(out, size);
    rc, counts := sink.Format(fmt, args);
  }

  /** Main result: printing to a file writes the whole text, or fails after the start of it. */
  method Vdprintf(output: Output, fmt: string, args: seq<Arg>) returns (rc: int, counts: seq<nat>)
    requires Served(Pieces(fmt, 0), args)
    modifies output
    ensures var page := Formatted(fmt, args);
            if rc == EOF
            then output.failed && old(output.written) <= output.written <= old(output.written) + page.text
            else rc == Capped(|page.text|) && counts == page.counts && output.written == old(output.written) + page.text
  {
    hide Formatted, Terminated, Served;
    var sink := new Sink.ForFile(output);
    rc, counts := sink.Format(fmt, args);
  }

  /** What a buffer holds before its terminator is the start of what the same call writes to a file. */
  lemma SameBytes(stored: string, was: string, size: nat, before: string, written: string, fmt: string, args: seq<Arg>)
    requires Served(Pieces(fmt, 0), args) && 0 < size <= |was|
    requires Terminated(stored, was, Formatted(fmt, args).text, size) && written == before + Formatted(fmt, args).text
    ensures var n := Min(|written| - |before|, size - 1);
            stored[..n] == written[|before|..|before| + n] && stored[n] == NUL
  {
    hide Formatted, Served;
    var n := Min(|written| - |before|, size - 1);
    assert written[|before|..] == Formatted(fmt, args).text;
    assert written[|before|..][..n] == written[|before|..|before| + n];
  }

  /** What is done of a page, and what the rest of a format brings, make the page. */
  ghost predicate Underway(fmt: string, cursor: nat, args: seq<Arg>, page: Page, done: Page) {
    cursor <= |fmt| && Served(Pieces(fmt, cursor), args) && Rendered(Pieces(fmt, cursor), args, done) == page
  }

  lemma AllDone(fmt: string, args: seq<Arg>, page: Page, done: Page)
    requires Underway(fmt, |fmt|, args, page, done)
    ensures done == page
  {
  }

  lemma NextPiece(fmt: string, cursor: nat, args: seq<Arg>, page: Page, done: Page)
    requires cursor < |fmt| && Underway(fmt, cursor, args, page, done)
    ensures match PieceAt(fmt, cursor)
            case None => done == page
            case Some(p) =>
              Suits(p.0, args) && Underway(fmt, p.1, Rest(p.0, args), page, Step(p.0, args, done))
              && done.text + PieceText(p.0, args) <= page.text
  {
    hide PieceAt, PieceText;
    if PieceAt(fmt, cursor).Some? {
      var p := PieceAt(fmt, cursor).value;
      var pieces := Pieces(fmt, cursor);
      assert pieces[0] == p.0 && pieces[1..] == Pieces(fmt, p.1);
      RenderedExtends(pieces[1..], Rest(p.0, args), Step(p.0, args, done));
    }
  }

  // -------------------------------------------------------------- number fields

  /** A number written out on its own; it always fits. */
  method WriteNumber(value: Word, base: nat, upper: bool) returns (digits: string)
    requires 2 <= base <= 16
    ensures digits == Digits(value, base, upper)
  {
    var number := new char[96];
    WordPower();
    DigitsShort(value, base, upper, 64, LIMIT);
    hide SomeDigits, Power;
    var len := U64ToBase(value, base, upper, number, 0);
    digits := number[..len];
    assert number[0..0 + len] == digits;
  }

  method WriteUnsigned(spec: Spec, bits: Word) returns (digits: string)
    requires spec.conv in {'u', 'x', 'X'}
    ensures digits == Shown(spec, bits)
  {
    hide Unsigned, Digits;
    var base, upper := if spec.conv == 'u' then 10 else 16, spec.conv == 'X';
    var value := Unsigned(bits, spec.wide);
    digits := WriteNumber(value, base, upper);
    if spec.precision == Some(0) && value == 0 {
      digits := "";
    }
  }

  lemma SignedFits(value: int)
    requires -(LIMIT / 2) <= value < LIMIT / 2
    ensures |SignedDigits(value)| < 96
  {
    var magnitude: nat := if value < 0 then -value else value;
    WordPower();
    DigitsShort(magnitude, 10, false, 64, LIMIT);
    hide SomeDigits, Power;
  }

  /** The sign and the digits of a signed number, apart. */
  method WriteSigned(spec: Spec, bits: Word) returns (sign: bool, digits: string)
    requires IsSigned(spec.conv)
    ensures Prefix(spec, bits) == if sign then "-" else ""
    ensures Shown(spec, bits) == if spec.precision == Some(0) && Signed(bits, spec.wide) == 0 then "" else digits
  {
    var value := Signed(bits, spec.wide);
    var number := new char[96];
    var len := I64ToDec(value, number);
    SignedFits(value);
    hide Signed, SomeDigits;
    assert value >= 0 ==> IsDigit(Digits(value, 10, false)[0], 10);
    assert number[..len][0] == number[0];
    sign := number[0] == '-';
    assert sign <==> value < 0;
    digits := if sign then number[1..len] else number[..len];
    assert sign ==> digits == number[..len][1..];
  }

  /** A number from its leading zeros on. */
  ghost function Middle(zeros: nat, digits: string, left: bool, gap: nat): string {
    Repeat('0', zeros) + (digits + if left then Repeat(' ', gap) else "")
  }

  /** What stands before: spaces and a sign, or a sign and zeros. */
  ghost function Fronted(spec: Spec, prefix: string, gap: nat, middle: string): string {
    if spec.left then prefix + middle
    else if ZeroFills(spec) then prefix + (Repeat('0', gap) + middle)
    else Repeat(' ', gap) + (prefix + middle)
  }

  lemma NumberRight(spec: Spec, bits: Word, zeros: nat, gap: nat)
    requires zeros == Leading(spec, |Shown(spec, bits)|)
    requires gap == Gap(spec.width, |Prefix(spec, bits)| + zeros + |Shown(spec, bits)|)
    ensures NumberText(spec, bits)
            == Fronted(spec, Prefix(spec, bits), gap, Middle(zeros, Shown(spec, bits), spec.left, gap))
  {
    hide Prefix, Shown, Leading, ZeroFills;
  }

  lemma BarePad(spec: Spec, gap: nat, middle: string)
    requires spec.conv != 'p'
    ensures spec.left || gap == 0 ==> Fronted(spec, "", gap, middle) == middle
    ensures !spec.left ==>
              Fronted(spec, "", gap, middle) == Repeat(if spec.zero && spec.precision == None then '0' else ' ', gap) + middle
  {
    assert Repeat(' ', 0) == "" && Repeat('0', 0) == "";
  }

  lemma PointerPad(spec: Spec, gap: nat, middle: string)
    requires spec.conv == 'p'
    ensures spec.left || gap == 0 ==> Fronted(spec, "0x", gap, middle) == "0x" + middle
    ensures !spec.left ==> Fronted(spec, "0x", gap, middle) == Repeat(' ', gap) + ("0x" + middle)
  {
    assert Repeat(' ', 0) == "";
  }

  lemma RepeatNext(ch: char, n: nat, rest: string)
    requires n > 0
    ensures Repeat(ch, n) + rest == [ch] + (Repeat(ch, n - 1) + rest)
  {
  }

  lemma Longer(before: string, goal: string, rest: string, written: string)
    requires written <= before + goal
    ensures written <= before + (goal + rest)
  {
    Joined(before, goal, rest);
  }
}
