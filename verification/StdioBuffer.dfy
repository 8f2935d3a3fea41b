/** Buffered output: what is written through the buffer arrives in order, all of it once flushed. */
module StdioBuffer {
  import opened Descriptor
  import opened PrintfLaws
  import opened PrintfEngine

  const SIZE: nat := 1024

  class Stream {
    const output: Output
    const buffer: array<char>
    var len: nat

    ghost predicate Valid()
      reads this, buffer
    {
      buffer.Length == SIZE && len <= SIZE
    }

    ghost function Pending(): string
      reads this, buffer
      requires Valid()
    {
      buffer[..len]
    }

    /** All that was put into the stream, in the file or still on its way. */
    ghost function Total(): string
      reads this, buffer, output
      requires Valid()
    {
      output.written + Pending()
    }

    constructor (output: Output)
      ensures Valid() && this.output == output && fresh(buffer) && Pending() == ""
    {
      this.output := output;
      buffer := new char[SIZE];
      len := 0;
    }

    /** What waits is forgotten even if it cannot be written. */
    method Flush() returns (ok: bool)
      requires Valid()
      modifies this, output
      ensures Valid() && len == 0
      ensures ok ==> output.written == old(Total()) && Total() == old(Total()) && output.failed == old(output.failed)
      ensures !ok ==> output.failed && old(output.written) <= output.written <= old(Total())
    {
      if len == 0 {
        assert output.written + "" == output.written;
        return true;
      }
      var text := buffer[..len];
      len := 0;
      ok := output.WriteAll(text);
      assert output.written + "" == output.written;
    }

    /** Bytes that fit, behind those that wait. */
    method Append(chunk: string)
      requires Valid() && len + |chunk| <= SIZE
      modifies this, buffer
      ensures Valid() && len == old(len) + |chunk| && Pending() == old(Pending()) + chunk
    {
      ghost var was := Pending();
      for i := 0 to |chunk|
        invariant len == old(len) && Valid() && buffer[..len + i] == was + chunk[..i]
      {
        buffer[len + i] := chunk[i];
        assert buffer[..len + i + 1] == buffer[..len + i] + [chunk[i]];
        Joined(was, chunk[..i], [chunk[i]]);
        assert chunk[..i] + [chunk[i]] == chunk[..i + 1];
      }
      len := len + |chunk|;
      assert chunk[..|chunk|] == chunk;
    }

    /** As much of a text as there is room for, after making room; whole buffers go past an empty one. */
    method Push(text: string, offset: nat) returns (ok: bool, chunk: nat)
      requires Valid() && offset < |text|
      modifies this, buffer, output
      ensures Valid() && 0 < chunk <= |text| - offset
      ensures ok ==> Total() == old(Total()) + text[offset..offset + chunk]
      ensures ok ==> old(output.written) <= output.written && output.failed == old(output.failed)
      ensures !ok ==> output.failed && old(output.written) <= output.written <= old(Total()) + text[offset..offset + chunk]
      ensures old(len) + |text| - offset < SIZE ==>
                ok && output.written == old(output.written) && len == old(len) + chunk && chunk == |text| - offset
    {
      ghost var total := Total();
      var space := SIZE - len;
      chunk := |text| - offset;
      if space == 0 {
        ok := Flush();
        if !ok {
          Longer("", total, text[offset..offset + chunk], output.written);
          assert "" + total == total && "" + (total + text[offset..offset + chunk]) == total + text[offset..offset + chunk];
          return;
        }
        space := SIZE;
      }
      if chunk > space {
        chunk := space;
      }
      ghost var piece := text[offset..offset + chunk];
      if chunk == SIZE && len == 0 {
        assert output.written + "" == output.written;
        ok := output.WriteAll(text[offset..offset + chunk]);
        assert output.written + "" == output.written;
      } else {
        Joined(output.written, Pending(), piece);
        Append(text[offset..offset + chunk]);
        ok := true;
      }
    }

    /**
      Main result: what is written through the buffer comes behind all that was, in the file or waiting;
      when a write to the file fails, the file holds a start of it. Short texts wait for more.
    */
    method Write(text: string) returns (rc: int)
      requires Valid()
      modifies this, buffer, output
      ensures Valid()
      ensures rc != EOF ==> rc == Capped(|text|) && Total() == old(Total()) + text && output.failed == old(output.failed)
      ensures rc == EOF ==> output.failed && old(output.written) <= output.written <= old(Total()) + text
      ensures old(len) + |text| < SIZE ==> rc != EOF && output.written == old(output.written)
    {
      ghost var total, before := Total(), output.written;
      var offset: nat := 0;
      assert total + text[..0] == total;
      hide Total, Pending;
      while offset < |text|
        invariant Valid() && offset <= |text| && Total() == total + text[..offset]
        invariant before <= output.written && output.failed == old(output.failed)
        invariant old(len) + |text| < SIZE ==> output.written == before && len == old(len) + offset
      {
        ghost var now := Total();
        var ok, chunk := Push(text, offset);
        assert output.written <= now + text[offset..offset + chunk] || ok;
        Onward(total, text, offset, chunk);
        if !ok {
          return EOF;
        }
        offset := offset + chunk;
      }
      assert text[..|text|] == text;
      rc := Capped(|text|);
    }

    lemma Onward(total: string, text: string, offset: nat, chunk: nat)
      requires offset + chunk <= |text|
      ensures total + text[..offset] + text[offset..offset + chunk] == total + text[..offset + chunk] <= total + text
    {
      assert text[..offset] + text[offset..offset + chunk] == text[..offset + chunk];
      assert text == text[..offset + chunk] + text[offset + chunk..];
    }

    /** A line; the count of its characters and the line feed. */
    method Puts(text: string) returns (rc: int)
      requires Valid()
      modifies this, buffer, output
      ensures Valid()
      ensures rc != EOF ==> rc == Capped(|text|) + 1 && Total() == old(Total()) + text + "\n"
      ensures rc == EOF ==> output.failed
    {
      hide Total, Pending;
      var wrote := Write(text);
      if wrote == EOF {
        return EOF;
      }
      rc := Write("\n");
      if rc == EOF {
        return EOF;
      }
      return wrote + 1;
    }
  }
}
