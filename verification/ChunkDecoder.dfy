/** The chunked-transfer decoder as the program runs it, in place, proved against the byte machine. */
module ChunkDecoder {
  import opened Chunked
  import opened Descriptor

  /** A feed that has put out text and has rest still to do comes to whole. */
  predicate Resumes(whole: Fed, text: string, rest: Fed) {
    whole.out == text + rest.out && whole.ok == rest.ok && (whole.ok ==> whole.state == rest.state)
  }

  /** Saved bytes written past before, with rest still to do. */
  predicate At(whole: Fed, before: string, written: string, saved: nat, rest: Fed) {
    before <= written && |written| == |before| + saved && Resumes(whole, written[|before|..], rest)
  }

  lemma AtStart(whole: Fed, before: string)
    ensures At(whole, before, before, 0, whole)
  {
  }

  lemma Onward(whole: Fed, before: string, written: string, saved: nat, rest: Fed, run: string, later: Fed)
    requires At(whole, before, written, saved, rest) && Resumes(rest, run, later)
    ensures At(whole, before, written + run, saved + |run|, later)
    ensures run == "" ==> At(whole, before, written, saved, later)
  {
    var text := written[|before|..];
    assert (written + run)[|before|..] == text + run;
    assert text + (run + later.out) == text + run + later.out;
    assert run == "" ==> written + run == written;
  }

  lemma Halted(whole: Fed, before: string, written: string, saved: nat, rest: Fed)
    requires At(whole, before, written, saved, rest)
    ensures before <= written <= before + whole.out && whole.ok == rest.ok
    ensures rest.ok && rest.out == "" ==> written == before + whole.out && saved == |whole.out| && whole.state == rest.state
  {
    assert written == before + written[|before|..];
    assert before + whole.out == written + rest.out;
  }

  lemma FeedStops(s: State, data: string)
    requires s.done || data == ""
    ensures Feed(s, data) == Fed(s, "", true)
  {
  }

  lemma Chain(whole: Fed, before: string, written: string, saved: nat, rest: Fed, now: string, n: nat, later: Fed)
    requires At(whole, before, written, saved, rest) && At(rest, written, now, n, later)
    ensures At(whole, before, now, saved + n, later)
  {
    assert now == written + now[|written|..];
    Onward(whole, before, written, saved, rest, now[|written|..], later);
  }

  lemma CutShort(whole: Fed, before: string, written: string, saved: nat, rest: Fed, now: string)
    requires At(whole, before, written, saved, rest) && written <= now <= written + rest.out
    ensures before <= now <= before + whole.out
  {
    assert written == before + written[|before|..];
    assert before + whole.out == written + rest.out;
  }

  lemma Unfinished(whole: Fed, before: string, written: string, saved: nat, rest: Fed, run: string, now: string)
    requires At(whole, before, written, saved, rest) && run <= rest.out && written <= now <= written + run
    ensures before <= now <= before + whole.out
  {
    assert rest.out == run + rest.out[|run|..];
    assert written == before + written[|before|..];
    assert before + whole.out == written + run + rest.out[|run|..];
  }

  function AfterRun(s: State, n: nat): State
    requires n <= s.remaining
  {
    s.(remaining := s.remaining - n, phase := if n == s.remaining then DataLf else Data)
  }

  lemma RunOf(s: State, data: string, i: nat, n: nat)
    requires s.phase == Data && !s.done && 0 < n <= s.remaining && i + n <= |data|
    ensures Resumes(Feed(s, data[i..]), data[i..i + n], Feed(AfterRun(s, n), data[i + n..]))
    ensures data[i..i + n] <= Feed(s, data[i..]).out
  {
    var run, later := data[i..i + n], data[i + n..];
    DataRun(s, run);
    assert Feed(s, run) == Fed(AfterRun(s, n), run, true);
    hide Feed, AfterRun, Takes;
    FeedSplits(s, run, later);
    assert run + later == data[i..];
  }

  lemma ByteOf(s: State, data: string, i: nat)
    requires s.phase != Data && !s.done && i < |data|
    ensures Step(s, data[i]).Go? ==> Resumes(Feed(s, data[i..]), "", Feed(Step(s, data[i]).state, data[i + 1..]))
    ensures Step(s, data[i]).Reject? ==> Feed(s, data[i..]) == Fed(s, "", false)
  {
    assert data[i..][0] == data[i] && data[i..][1..] == data[i + 1..];
  }

  lemma NoDataLeft(s: State, data: string)
    requires s.phase == Data && s.remaining == 0 && !s.done && data != ""
    ensures Resumes(Feed(s, data), "", Feed(s.(phase := DataLf), data))
  {
  }

  /** The decoder as the program runs it: its fields updated byte by byte, chunk data written in runs. */
  class Decoder {
    var phase: Phase
    var remaining: nat
    var sizeAcc: nat
    var trailerLineLen: nat
    var hasDigit: bool
    var inExtension: bool
    var done: bool

    constructor ()
      ensures Value() == START
    {
      phase, remaining, sizeAcc, trailerLineLen := Size, 0, 0, 0;
      hasDigit, inExtension, done := false, false, false;
    }

    function Value(): State
      reads this
    {
      State(phase, remaining, sizeAcc, trailerLineLen, hasDigit, inExtension, done)
    }

    method FinishSizeLine() returns (ok: bool)
      modifies this
      ensures ok == Chunked.FinishSizeLine(old(Value())).Go?
      ensures ok ==> Chunked.FinishSizeLine(old(Value())) == Go(Value(), "")
    {
      if !hasDigit {
        return false;
      }
      remaining := sizeAcc;
      sizeAcc, hasDigit, inExtension := 0, false, false;
      if remaining == 0 {
        trailerLineLen := 0;
        phase := Trailer;
      } else {
        phase := Data;
      }
      return true;
    }

    method TakeSizeByte(ch: char) returns (ok: bool)
      requires phase == Size
      modifies this
      ensures ok == SizeByte(old(Value()), ch).Go?
      ensures ok ==> SizeByte(old(Value()), ch) == Go(Value(), "")
    {
      if ch == '\r' {
        phase := SizeLf;
        return true;
      }
      if ch == '\n' {
        ok := FinishSizeLine();
        return;
      }
      if ch == ';' {
        if !hasDigit {
          return false;
        }
        inExtension := true;
        return true;
      }
      if inExtension || ch == ' ' || ch == '\t' {
        return true;
      }
      var v: nat := 0;
      if '0' <= ch <= '9' {
        v := ch as int - '0' as int;
      } else if 'a' <= ch <= 'f' {
        v := ch as int - 'a' as int + 10;
      } else if 'A' <= ch <= 'F' {
        v := ch as int - 'A' as int + 10;
      } else {
        return false;
      }
      if sizeAcc > (SIZE_LIMIT - 1) / 16 {
        return false;
      }
      sizeAcc := sizeAcc * 16 + v;
      hasDigit := true;
      return true;
    }

    /** One byte that is not chunk data. */
    method TakeByte(ch: char) returns (ok: bool)
      requires phase != Data
      modifies this
      ensures ok == Step(old(Value()), ch).Go?
      ensures ok ==> Step(old(Value()), ch) == Go(Value(), "")
    {
      match phase
      case Size =>
        ok := TakeSizeByte(ch);
      case SizeLf =>
        if ch != '\n' {
          return false;
        }
        ok := FinishSizeLine();
      case DataLf =>
        if ch == '\r' {
          return true;
        }
        if ch != '\n' {
          return false;
        }
        phase := Size;
        return true;
      case Trailer =>
        if ch == '\r' {
          phase := TrailerLf;
        } else if ch == '\n' {
          if trailerLineLen == 0 {
            done := true;
          } else {
            trailerLineLen := 0;
          }
        } else {
          trailerLineLen := trailerLineLen + 1;
        }
        return true;
      case TrailerLf =>
        if ch != '\n' {
          return false;
        }
        if trailerLineLen == 0 {
          done := true;
        } else {
          trailerLineLen := 0;
          phase := Trailer;
        }
        return true;
    }

    /** A run of chunk data, written in one go. */
    method WriteRun(run: string, out: Output) returns (ok: bool)
      requires phase == Data && 0 < |run| <= remaining
      modifies this, out
      ensures ok ==> Value() == old(AfterRun(Value(), |run|))
      ensures ok ==> out.written == old(out.written) + run && out.failed == old(out.failed)
      ensures !ok ==> out.failed && old(out.written) <= out.written <= old(out.written) + run
    {
      ok := out.WriteAll(run);
      if ok {
        remaining := remaining - |run|;
        if remaining == 0 {
          phase := DataLf;
        }
      }
    }

    /** What is at hand of the current chunk's data; or, when none is left of it, nothing. */
    method TakeData(data: string, i: nat, out: Output) returns (ok: bool, n: nat)
      requires phase == Data && !done && i < |data| && !out.failed
      modifies this, out
      ensures ok ==> !out.failed && i + n <= |data| && (n > 0 || phase != Data)
      ensures ok ==> At(Chunked.Feed(old(Value()), data[i..]), old(out.written), out.written, n,
                        Chunked.Feed(Value(), data[i + n..]))
      ensures !ok ==> out.failed && old(out.written) <= out.written
                      && out.written <= old(out.written) + Chunked.Feed(old(Value()), data[i..]).out
    {
      hide Chunked.Feed, Step, Resumes, AfterRun;
      ghost var s, rest, written := Value(), Chunked.Feed(Value(), data[i..]), out.written;
      AtStart(rest, written);
      n := remaining;
      if n > |data| - i {
        n := |data| - i;
      }
      if n == 0 {
        phase := DataLf;
        NoDataLeft(s, data[i..]);
        Onward(rest, written, written, 0, rest, "", Chunked.Feed(Value(), data[i..]));
        return true, 0;
      }
      RunOf(s, data, i, n);
      var run := data[i..i + n];
      ok := WriteRun(run, out);
      if ok {
        Onward(rest, written, written, 0, rest, run, Chunked.Feed(Value(), data[i + n..]));
      } else {
        Unfinished(rest, written, written, 0, rest, run, out.written);
      }
    }

    /** A byte, or what is at hand of a chunk's data, on the way through a feed. */
    method TakeNext(data: string, i: nat, out: Output, ghost f: Fed, ghost before: string, ghost saved: nat)
      returns (ok: bool, taken: nat, stored: nat)
      requires i < |data| && !done && !out.failed
      requires At(f, before, out.written, saved, Chunked.Feed(Value(), data[i..]))
      modifies this, out
      ensures ok ==> !out.failed && i + taken <= |data| && (taken > 0 || (old(phase) == Data && phase != Data))
      ensures ok ==> At(f, before, out.written, saved + stored, Chunked.Feed(Value(), data[i + taken..]))
      ensures !ok ==> before <= out.written <= before + f.out && (f.ok ==> out.failed)
      ensures old(phase) != Data ==> stored == 0 && out.failed == old(out.failed)
    {
      hide Chunked.Feed, Step, At, Resumes;
      ghost var s, written, rest := Value(), out.written, Chunked.Feed(Value(), data[i..]);
      if phase == Data {
        ok, taken := TakeData(data, i, out);
        stored := taken;
        if ok {
          Chain(f, before, written, saved, rest, out.written, taken, Chunked.Feed(Value(), data[i + taken..]));
        } else {
          CutShort(f, before, written, saved, rest, out.written);
        }
        return;
      }
      ByteOf(s, data, i);
      ok := TakeByte(data[i]);
      taken, stored := 1, 0;
      if ok {
        Onward(f, before, written, saved, rest, "", Chunked.Feed(Value(), data[i + 1..]));
      } else {
        Halted(f, before, written, saved, rest);
      }
    }

    /**
      Main result: the decoder does what the byte machine does. It fails exactly when the machine
      rejects or a write was refused, and even then what it wrote is a prefix of the machine's output.
    */
    method Feed(data: string, out: Output) returns (ok: bool, saved: nat)
      requires !out.failed
      modifies this, out
      ensures ok == (Chunked.Feed(old(Value()), data).ok && !out.failed)
      ensures var f := Chunked.Feed(old(Value()), data);
              ok ==> Value() == f.state && out.written == old(out.written) + f.out && saved == |f.out|
      ensures old(out.written) <= out.written <= old(out.written) + Chunked.Feed(old(Value()), data).out
    {
      ghost var f, before := Chunked.Feed(Value(), data), out.written;
      var i: nat := 0;
      saved := 0;
      assert data[i..] == data;
      AtStart(f, before);
      hide Chunked.Feed, Step, At, Resumes;
      while i < |data| && !done
        invariant i <= |data| && !out.failed
        invariant At(f, before, out.written, saved, Chunked.Feed(Value(), data[i..]))
        decreases |data| - i, phase == Data
      {
        var taken, stored;
        ok, taken, stored := TakeNext(data, i, out, f, before, saved);
        if !ok {
          return;
        }
        i, saved := i + taken, saved + stored;
      }
      Halted(f, before, out.written, saved, Chunked.Feed(Value(), data[i..]));
      FeedStops(Value(), data[i..]);
      return true, saved;
    }
  }
}
