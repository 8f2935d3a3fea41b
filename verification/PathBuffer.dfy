/** Path resolution as the program does it: one buffer, components pushed and popped at its end. */
module PathBuffer {
  import opened Options
  import opened Paths

  const NUL := 0 as char

  lemma RenderPush(stack: Stack, c: string)
    ensures Render(stack + [c]) == if stack == [] then "/" + c else Render(stack) + "/" + c
    ensures |Render(stack)| == 1 <==> stack == [] || Render(stack) == "/"
  {
    assert (stack + [c])[..|stack|] == stack && (stack + [c])[|stack|] == c;
  }

  lemma {:induction false} RenderLength(stack: Stack)
    requires Named(stack) && stack != []
    ensures |Render(stack)| > 1
  {
    assert stack[|stack| - 1] != "";
  }

  /** The last component of a rendering is what follows its last slash. */
  lemma LastComponent(stack: Stack)
    requires Named(stack) && stack != []
    ensures var n, c, path := |stack|, stack[|stack| - 1], Render(stack);
            var k := |path| - |c|;
            && c != "" && k >= 1 && path[k..] == c && '/' !in c && path[k - 1] == '/'
            && path[..if k == 1 then 1 else k - 1] == Render(stack[..n - 1])
  {
    var n, c, path := |stack|, stack[|stack| - 1], Render(stack);
    assert c != "" && '/' !in c;
    if n == 1 {
      assert path == "/" + c && stack[..0] == [];
    } else {
      assert path == Render(stack[..n - 1]) + "/" + c;
    }
    hide Render;
  }

  class Buffer {
    const text: array<char>
    var len: nat

    /** The buffer holds the rendering of a stack of names, and the byte that ends the string. */
    ghost predicate Holds(stack: Stack)
      reads this, text
    {
      Named(stack) && len < text.Length && text[..len] == Render(stack) && text[len] == NUL
    }

    constructor (size: nat)
      ensures text.Length == size && fresh(text)
    {
      text := new char[size](_ => NUL);
      len := 0;
    }

    method Reset()
      requires text.Length >= 2
      modifies this, text
      ensures Holds([])
    {
      text[0], text[1] := '/', NUL;
      len := 1;
    }

    /** The bytes of a component from a place in the buffer on, and the end of the string. */
    method Store(at: nat, component: string)
      requires at + |component| < text.Length
      modifies this, text
      ensures len == at + |component| && text[len] == NUL
      ensures text[..at] == old(text[..at]) && text[at..len] == component
    {
      for i := 0 to |component|
        invariant text[..at] == old(text[..at]) && text[at..at + i] == component[..i]
      {
        ghost var was := text[at..at + i];
        text[at + i] := component[i];
        assert text[at..at + i + 1] == was + [component[i]];
      }
      len := at + |component|;
      text[len] := NUL;
      assert text[at..len] == component[..|component|] == component;
    }

    method Push(component: string, ghost stack: Stack) returns (ok: bool)
      requires Holds(stack) && component != "" && '/' !in component
      modifies this, text
      ensures ok <==> |Render(stack + [component])| < text.Length
      ensures ok ==> Holds(stack + [component])
    {
      ghost var path := text[..len];
      RenderPush(stack, component);
      if stack != [] { RenderLength(stack); }
      hide Render;
      if len == 1 {
        if len + |component| >= text.Length {
          return false;
        }
        assert stack == [];
        Store(1, component);
        assert text[..len] == text[..1] + text[1..len] && text[..1] == path;
        return true;
      }
      if len + 1 + |component| >= text.Length {
        return false;
      }
      text[len] := '/';
      assert text[..len + 1] == path + "/";
      ghost var k := len + 1;
      Store(len + 1, component);
      assert text[..len] == text[..k] + text[k..len];
      return true;
    }

    /** Back to behind the last slash, or to the first byte. */
    method DropComponent()
      requires 1 < len < text.Length
      modifies `len
      ensures 1 <= len <= old(len) && (len > 1 ==> text[len - 1] == '/')
      ensures forall k | len <= k < old(len) :: text[k] != '/'
    {
      while len > 1 && text[len - 1] != '/'
        invariant 1 <= len <= old(len) && forall k | len <= k < old(len) :: text[k] != '/'
      {
        len := len - 1;
      }
    }

    lemma LastSlash(path: string, c: string, end: nat)
      requires 1 <= end <= |path| && |c| < |path| && path[|path| - |c|..] == c && '/' !in c && path[|path| - |c| - 1] == '/'
      requires end > 1 ==> path[end - 1] == '/'
      requires forall k | end <= k < |path| :: path[k] != '/'
      ensures end == |path| - |c|
    {
      var k := |path| - |c|;
      assert forall j | k <= j < |path| :: path[j] == path[k..][j - k] != '/';
    }

    method Pop(ghost stack: Stack)
      requires Holds(stack)
      modifies this, text
      ensures Holds(Step(stack, ".."))
    {
      if stack != [] { LastComponent(stack); RenderLength(stack); }
      ghost var path := text[..len];
      ghost var c := if stack == [] then "" else stack[|stack| - 1];
      hide Render;
      if len <= 1 {
        assert stack == [];
        text[0], text[1] := '/', NUL;
        len := 1;
        assert text[..1] == path;
        return;
      }
      DropComponent();
      assert forall k | 0 <= k < |path| :: path[k] == text[k];
      LastSlash(path, c, len);
      if len > 1 {
        len := len - 1;
      }
      text[len] := NUL;
      assert text[..len] == path[..len];
    }

    /** One component: a dot changes nothing, two dots go up, anything else is pushed if it fits. */
    method Apply(component: string, ghost stack: Stack, ghost rest: seq<string>) returns (ok: bool, ghost next: Stack)
      requires Holds(stack) && component != "" && '/' !in component
      modifies this, text
      ensures ok ==> Holds(next) && Fold(stack, [component] + rest, text.Length) == Fold(next, rest, text.Length)
      ensures !ok ==> Fold(stack, [component] + rest, text.Length) == None
    {
      FoldFirst(stack, component, rest, text.Length);
      hide Fold, Render, Step, Named;
      if |component| == 1 && component[0] == '.' {
        assert component == ".";
        return true, stack;
      }
      if |component| == 2 && component[0] == '.' && component[1] == '.' {
        assert component == "..";
        Pop(stack);
        return true, Step(stack, "..");
      }
      ok := Push(component, stack);
      next := stack + [component];
    }

    /** All components of a text, applied to what the buffer holds. */
    method ParseInto(src: string, ghost stack: Stack) returns (ok: bool, ghost result: Stack)
      requires Holds(stack)
      modifies this, text
      ensures Fold(stack, Components(src), text.Length) == if ok then Some(result) else None
      ensures ok ==> Holds(result)
    {
      ghost var size := text.Length;
      var i: nat := 0;
      if src != "" && src[0] == '/' {
        i := 1;
      }
      assert src[0..] == src;
      result := stack;
      FoldNothing(stack, size);
      hide Fold, Components, Holds;
      while i < |src|
        invariant i <= |src| && Holds(result)
        invariant Fold(stack, Components(src), size) == Fold(result, Components(src[i..]), size)
      {
        var start, end := NextComponent(src, i);
        if start == |src| {
          FoldNothing(result, size);
          return true, result;
        }
        ok, result := Apply(src[start..end], result, Components(src[end..]));
        if !ok {
          return;
        }
        i := end;
      }
      assert src[i..] == "";
      FoldNothing(result, size);
      return true, result;
    }

    /**
      Main result: resolution succeeds exactly when every path on the way fits the buffer, and leaves
      there the path that the components make up.
    */
    method ResolvePath(cwd: string, arg: string) returns (ok: bool)
      modifies this, text
      ensures ok <==> Resolve(cwd, arg, text.Length).Some?
      ensures ok ==> len < text.Length && text[..len] == Resolve(cwd, arg, text.Length).value && text[len] == NUL
    {
      if text.Length < 2 {
        return false;
      }
      Reset();
      FoldSplits([], Components(cwd), Components(arg), text.Length);
      hide Fold, Render, Components;
      ghost var stack;
      if arg == "" {
        ok, stack := ParseInto(cwd, []);
        return;
      }
      ghost var before: Stack := [];
      if arg[0] != '/' {
        ok, before := ParseInto(cwd, []);
        if !ok {
          return;
        }
      }
      ok, stack := ParseInto(arg, before);
    }
  }

  /** The next component of a text: past slashes, up to the next one. */
  method NextComponent(src: string, i: nat) returns (start: nat, end: nat)
    requires i < |src|
    ensures i <= start <= end <= |src|
    ensures start == |src| ==> Components(src[i..]) == []
    ensures start < |src| ==> start < end && src[start..end] != "" && '/' !in src[start..end]
                              && Components(src[i..]) == [src[start..end]] + Components(src[end..])
  {
    start := i;
    while start < |src| && src[start] == '/'
      invariant i <= start <= |src| && Components(src[start..]) == Components(src[i..])
    {
      assert src[start..][0] == '/' && src[start..][1..] == src[start + 1..];
      start := start + 1;
    }
    end := start;
    if start == |src| {
      assert src[start..] == "";
      return;
    }
    hide Components;
    while end < |src| && src[end] != '/'
      invariant start <= end <= |src| && forall k | start <= k < end :: src[k] != '/'
    {
      end := end + 1;
    }
    FirstComponent(src, start, end);
  }

  lemma FirstComponent(src: string, start: nat, i: nat)
    requires start < i <= |src| && (forall k | start <= k < i :: src[k] != '/') && (i < |src| ==> src[i] == '/')
    ensures Components(src[start..]) == [src[start..i]] + Components(src[i..])
    ensures src[start..i] != "" && '/' !in src[start..i]
  {
    var s, c := src[start..], src[start..i];
    assert s == c + src[i..] && forall k | 0 <= k < |c| :: c[k] == src[start + k];
    SegmentThen(c, src[i..]);
    assert s[..i - start] == c && s[i - start..] == src[i..];
    hide Segment;
  }

  lemma FoldFirst(stack: Stack, c: string, rest: seq<string>, size: nat)
    requires c != ""
    ensures c == "." ==> Fold(stack, [c] + rest, size) == Fold(stack, rest, size)
    ensures c == ".." ==> Fold(stack, [c] + rest, size) == Fold(Step(stack, ".."), rest, size)
    ensures c != "." && c != ".." ==>
              Fold(stack, [c] + rest, size) ==
              if |Render(stack + [c])| >= size then None else Fold(stack + [c], rest, size)
  {
    assert ([c] + rest)[1..] == rest;
    hide Render;
  }

  lemma FoldNothing(stack: Stack, size: nat)
    ensures Components("") == [] && Fold(stack, [], size) == Some(stack)
  {
  }
}
