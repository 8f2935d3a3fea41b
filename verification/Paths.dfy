/** What a path means: a stack of components. Resolution, its laws, and the prefix tests on it. */
module Paths {
  import opened Options
  import opened PathPrefix

  type Stack = seq<string>

  /** Where a component of a text ends: at the next slash. */
  function Segment(s: string): (n: nat)
    ensures n <= |s| && (n < |s| ==> s[n] == '/')
    ensures forall k | 0 <= k < n :: s[k] != '/'
  {
    if s == "" || s[0] == '/' then 0 else 1 + Segment(s[1..])
  }

  /** The components of a text: what lies between slashes, empty ones left out. */
  function Components(s: string): seq<string>
    decreases |s|
  {
    if s == "" then []
    else if s[0] == '/' then Components(s[1..])
    else
      var n := Segment(s);
      [s[..n]] + Components(s[n..])
  }

  function Step(stack: Stack, c: string): Stack {
    if c == "." then stack
    else if c == ".." then (if stack == [] then [] else stack[..|stack| - 1])
    else stack + [c]
  }

  function Render(stack: Stack): (path: string)
    ensures path != "" && path[0] == '/'
  {
    if stack == [] then "/"
    else if |stack| == 1 then "/" + stack[0]
    else Render(stack[..|stack| - 1]) + "/" + stack[|stack| - 1]
  }

  /** Components folded into a stack, as long as what is pushed fits a buffer of a size. */
  function Fold(stack: Stack, cs: seq<string>, size: nat): Option<Stack>
    decreases |cs|
  {
    if cs == [] then Some(stack)
    else
      var next := Step(stack, cs[0]);
      if |next| > |stack| && |Render(next)| >= size then None else Fold(next, cs[1..], size)
  }

  /** The components that an argument and a working directory make up. */
  function Sources(cwd: string, arg: string): seq<string> {
    if arg == "" then Components(cwd)
    else if arg[0] == '/' then Components(arg)
    else Components(cwd) + Components(arg)
  }

  /** Resolving an argument against a working directory. */
  function Resolve(cwd: string, arg: string, size: nat): Option<string> {
    if size < 2 then None
    else match Fold([], Sources(cwd, arg), size)
         case None => None
         case Some(stack) => Some(Render(stack))
  }

  // ------------------------------------------------------------------- canonical

  predicate IsName(c: string) { c != "" && '/' !in c && c != "." && c != ".." }

  predicate Clean(stack: Stack) { forall i | 0 <= i < |stack| :: IsName(stack[i]) }

  /** Components as a text gives them: not empty, without slashes. */
  predicate Named(cs: seq<string>) { forall i | 0 <= i < |cs| :: cs[i] != "" && '/' !in cs[i] }

  lemma StepClean(stack: Stack, cs: seq<string>)
    requires Clean(stack) && Named(cs) && cs != []
    ensures Clean(Step(stack, cs[0])) && Named(cs[1..])
  {
    assert forall i | 0 <= i < |cs[1..]| :: cs[1..][i] == cs[i + 1];
  }

  lemma NamedBoth(a: seq<string>, b: seq<string>)
    requires Named(a) && Named(b)
    ensures Named(a + b)
  {
  }

  /** A path that resolution gives: it is what its components spell, and none of them is empty or dots. */
  predicate Canonical(path: string) { Clean(Components(path)) && path == Render(Components(path)) }

  lemma {:induction false} ComponentsNamed(s: string)
    ensures Named(Components(s))
    decreases |s|
  {
    if s == "" {
    } else if s[0] == '/' {
      ComponentsNamed(s[1..]);
    } else {
      var n := Segment(s);
      ComponentsNamed(s[n..]);
      assert s[..n] != "" && forall k | 0 <= k < n :: s[..n][k] == s[k] != '/';
      hide Segment;
      NamedBoth([s[..n]], Components(s[n..]));
    }
  }

  lemma {:induction false} FoldClean(stack: Stack, cs: seq<string>, size: nat)
    requires Clean(stack) && Named(cs) && Fold(stack, cs, size).Some?
    ensures Clean(Fold(stack, cs, size).value)
    decreases |cs|
  {
    if cs != [] {
      StepClean(stack, cs);
      hide Step, Clean, Render;
      FoldClean(Step(stack, cs[0]), cs[1..], size);
    }
  }

  lemma SegmentThen(a: string, b: string)
    requires '/' !in a && (b == "" || b[0] == '/')
    ensures Segment(a + b) == |a|
  {
    var s := a + b;
    assert forall k | 0 <= k < |a| :: s[k] == a[k] != '/';
    assert b != "" ==> s[|a|] == '/';
  }

  /** Components of a text that goes on with a slash. */
  lemma {:induction false} ComponentsSplit(a: string, b: string)
    requires b == "" || b[0] == '/'
    ensures Components(a + b) == Components(a) + Components(b)
    decreases |a|
  {
    if a == "" {
      assert a + b == b;
    } else {
      ComponentsUnfold(a);
      ComponentsStep(a, b);
      hide Components, Segment;
      if a[0] == '/' {
        ComponentsSplit(a[1..], b);
      } else {
        var n := Segment(a);
        ComponentsSplit(a[n..], b);
        Grouped(a[..n], Components(a[n..]), Components(b));
      }
    }
  }

  lemma ComponentsStep(a: string, b: string)
    requires a != "" && (b == "" || b[0] == '/')
    ensures Components(a + b)
            == if a[0] == '/' then Components(a[1..] + b) else [a[..Segment(a)]] + Components(a[Segment(a)..] + b)
  {
    ComponentsUnfold(a + b);
    SegmentSplit(a, b);
    Parted(a, b, if a[0] == '/' then 1 else Segment(a));
    hide Components, Segment;
  }

  lemma Parted(a: string, b: string, n: nat)
    requires n <= |a|
    ensures (a + b)[..n] == a[..n] && (a + b)[n..] == a[n..] + b
  {
  }

  lemma Grouped(c: string, a: seq<string>, b: seq<string>)
    ensures [c] + (a + b) == [c] + a + b
  {
  }

  lemma ComponentsUnfold(s: string)
    requires s != ""
    ensures Components(s) == if s[0] == '/' then Components(s[1..]) else [s[..Segment(s)]] + Components(s[Segment(s)..])
  {
    hide Segment;
  }

  lemma SegmentSplit(a: string, b: string)
    requires b == "" || b[0] == '/'
    ensures Segment(a + b) == Segment(a)
  {
    var n := Segment(a);
    assert a + b == a[..n] + (a[n..] + b);
    SegmentThen(a[..n], a[n..] + b);
  }

  lemma ComponentsOfOne(c: string)
    requires c != "" && '/' !in c
    ensures Components("/" + c) == [c]
  {
    assert ("/" + c)[1..] == c && c + "" == c;
    SegmentThen(c, "");
    assert c[..|c|] == c && Components(c[|c|..]) == [];
  }

  /** Rendering a stack of names and taking it apart again. */
  lemma {:induction false} RenderKept(stack: Stack)
    requires Named(stack)
    ensures Components(Render(stack)) == stack
    decreases |stack|
  {
    if stack == [] {
      assert Components("/") == Components("") == [];
    } else {
      var n := |stack|;
      assert stack[n - 1] != "" && '/' !in stack[n - 1];
      assert stack == stack[..n - 1] + [stack[n - 1]];
      ComponentsOfOne(stack[n - 1]);
      if n > 1 {
        RenderKept(stack[..n - 1]);
        ComponentsSplit(Render(stack[..n - 1]), "/" + stack[n - 1]);
        assert Render(stack) == Render(stack[..n - 1]) + ("/" + stack[n - 1]);
      }
      hide Components, Render;
    }
  }

  lemma CleanNamed(stack: Stack)
    requires Clean(stack)
    ensures Named(stack)
  {
  }

  lemma SourcesNamed(cwd: string, arg: string)
    ensures Named(Sources(cwd, arg))
  {
    ComponentsNamed(cwd);
    ComponentsNamed(arg);
    NamedBoth(Components(cwd), Components(arg));
    hide Components;
  }

  /** Main result: what resolution gives is canonical. */
  lemma ResolvedCanonical(cwd: string, arg: string, size: nat)
    requires Resolve(cwd, arg, size).Some?
    ensures Canonical(Resolve(cwd, arg, size).value)
  {
    SourcesNamed(cwd, arg);
    hide Sources;
    FoldClean([], Sources(cwd, arg), size);
    var stack := Fold([], Sources(cwd, arg), size).value;
    CleanNamed(stack);
    RenderKept(stack);
    hide Components, Render, Fold, Clean;
  }

  // -------------------------------------------------------- folding a clean path

  lemma RenderGrows(stack: Stack, c: string)
    requires c != ""
    ensures |Render(stack)| <= |Render(stack + [c])|
  {
    assert (stack + [c])[..|stack|] == stack;
  }

  lemma {:induction false} FoldSplits(stack: Stack, a: seq<string>, b: seq<string>, size: nat)
    ensures Fold(stack, a + b, size) ==
            match Fold(stack, a, size) case None => None case Some(t) => Fold(t, b, size)
    decreases |a|
  {
    if a == [] {
      assert a + b == b;
    } else {
      assert (a + b)[1..] == a[1..] + b;
      FoldSplits(Step(stack, a[0]), a[1..], b, size);
      hide Step, Render;
    }
  }

  lemma {:induction false} FoldNames(done: Stack, rest: Stack, size: nat)
    requires Clean(rest) && |Render(done + rest)| < size
    ensures Fold(done, rest, size) == Some(done + rest)
    decreases |rest|
  {
    if rest == [] {
      assert done + rest == done;
    } else {
      var c := rest[0];
      assert IsName(c) && Step(done, c) == done + [c];
      assert done + rest == (done + [c]) + rest[1..];
      RenderPrefix(done + [c], rest[1..]);
      assert forall i | 0 <= i < |rest[1..]| :: rest[1..][i] == rest[i + 1];
      FoldNames(done + [c], rest[1..], size);
      hide Render, Step, IsName;
    }
  }

  lemma {:induction false} RenderPrefix(a: Stack, b: Stack)
    requires Clean(b)
    ensures |Render(a)| <= |Render(a + b)|
    decreases |b|
  {
    if b == [] {
      assert a + b == a;
    } else {
      var init, last := b[..|b| - 1], b[|b| - 1];
      assert IsName(last);
      RenderPrefix(a, init);
      RenderGrows(a + init, last);
      assert a + b == (a + init) + [last];
      hide Render;
    }
  }

  /** Main result: resolution is idempotent; a canonical path that fits stands for itself. */
  lemma Idempotent(cwd: string, path: string, size: nat)
    requires Canonical(path) && |path| < size && size >= 2
    ensures Resolve(cwd, path, size) == Some(path)
  {
    var stack := Components(path);
    assert [] + stack == stack;
    FoldNames([], stack, size);
    hide Components, Fold, Render;
  }

  lemma OneName(c: string)
    requires c != "" && '/' !in c
    ensures Components(c) == [c]
  {
    SegmentThen(c, "");
    assert c + "" == c && c[..|c|] == c && c[|c|..] == "";
  }

  /** One component against a canonical directory. */
  lemma FoldOne(dir: string, c: string, size: nat)
    requires Canonical(dir) && |dir| < size && size >= 2 && c != "" && '/' !in c
    ensures var stack := Components(dir); var next := Step(stack, c);
            Resolve(dir, c, size) == if |next| > |stack| && |Render(next)| >= size then None else Some(Render(next))
  {
    var stack := Components(dir);
    OneName(c);
    assert [] + stack == stack;
    hide Components, Render, Step, Clean;
    FoldNames([], stack, size);
    FoldSplits([], stack, [c], size);
    assert Fold(Step(stack, c), [], size) == Some(Step(stack, c));
  }

  /** Where a name below a directory leads. */
  function Below(dir: string, c: string): string { if dir == "/" then "/" + c else dir + "/" + c }

  lemma RenderBelow(stack: Stack, c: string)
    requires Clean(stack)
    ensures Render(stack + [c]) == Below(Render(stack), c)
  {
    assert (stack + [c])[..|stack|] == stack;
    if stack != [] { NotRoot(stack); }
  }

  lemma NotRoot(stack: Stack)
    requires Clean(stack) && stack != []
    ensures Render(stack) != "/"
  {
    assert IsName(stack[|stack| - 1]);
  }

  lemma BelowCanonical(dir: string, c: string)
    requires Canonical(dir) && IsName(c)
    ensures Canonical(Below(dir, c)) && Components(Below(dir, c)) == Components(dir) + [c]
  {
    var stack := Components(dir);
    RenderBelow(stack, c);
    assert Clean(stack + [c]);
    CleanNamed(stack + [c]);
    RenderKept(stack + [c]);
    hide Components, Render, Clean, Below;
  }

  lemma NameLeads(dir: string, c: string, size: nat)
    requires Canonical(dir) && |dir| < size && size >= 2 && IsName(c)
    ensures Resolve(dir, c, size) == if |Below(dir, c)| < size then Some(Below(dir, c)) else None
  {
    var stack := Components(dir);
    FoldOne(dir, c, size);
    RenderBelow(stack, c);
    assert Step(stack, c) == stack + [c];
    hide Components, Render, Resolve, Below, Clean;
  }

  lemma UpLeads(dir: string, c: string, size: nat)
    requires Canonical(dir) && IsName(c) && |Below(dir, c)| < size && size >= 2
    ensures Resolve(Below(dir, c), "..", size) == Some(dir)
  {
    var stack := Components(dir);
    BelowCanonical(dir, c);
    FoldOne(Below(dir, c), "..", size);
    assert (stack + [c])[..|stack|] == stack;
    assert Step(stack + [c], "..") == stack;
    hide Components, Render, Resolve, Below, Clean;
  }

  lemma DotStays(dir: string, size: nat)
    requires Canonical(dir) && |dir| < size && size >= 2
    ensures Resolve(dir, ".", size) == Some(dir)
  {
    FoldOne(dir, ".", size);
    assert Step(Components(dir), ".") == Components(dir);
    hide Components, Render, Resolve, Clean;
  }

  lemma RootStays(size: nat)
    requires size >= 2
    ensures Resolve("/", "..", size) == Some("/")
  {
    RootIs();
    FoldOne("/", "..", size);
    assert Step([], "..") == [];
    hide Components, Resolve, Canonical;
  }

  /** Main result: a dot stays in a directory, a name leads below it if that fits, two dots lead back up. */
  lemma ComponentLeads(dir: string, c: string, size: nat)
    requires Canonical(dir) && |dir| < size && size >= 2 && IsName(c)
    ensures Resolve(dir, ".", size) == Some(dir)
    ensures Resolve(dir, c, size) == if |Below(dir, c)| < size then Some(Below(dir, c)) else None
    ensures Canonical(Below(dir, c)) && (|Below(dir, c)| < size ==> Resolve(Below(dir, c), "..", size) == Some(dir))
    ensures Resolve("/", "..", size) == Some("/")
  {
    hide *;
    DotStays(dir, size);
    NameLeads(dir, c, size);
    BelowCanonical(dir, c);
    if |Below(dir, c)| < size { UpLeads(dir, c, size); }
    RootStays(size);
  }

  lemma RootIs()
    ensures Components("/") == [] && Canonical("/")
  {
    assert Components("") == [];
  }

  /** An absolute path is resolved from the root, wherever one is; nothing at all is where one is. */
  lemma FromRoot(cwd: string, s: string, size: nat)
    ensures Resolve(cwd, "/" + s, size) == Resolve("/", s, size)
    ensures Canonical(cwd) && |cwd| < size && size >= 2 ==> Resolve(cwd, "", size) == Some(cwd)
  {
    RootIs();
    assert ("/" + s)[1..] == s;
    assert Components("/" + s) == Components(s);
    assert [] + Components(s) == Components(s);
    hide Components, Fold, Render;
    if Canonical(cwd) && |cwd| < size && size >= 2 {
      var stack := Components(cwd);
      assert [] + stack == stack;
      FoldNames([], stack, size);
    }
  }

  /** Main result: a path resolves as its first part, and then the rest against that. */
  lemma Compositional(cwd: string, a: string, b: string, size: nat)
    requires a != "" && (b == "" || b[0] != '/')
    ensures Resolve(cwd, a + "/" + b, size) ==
            match Resolve(cwd, a, size) case None => None case Some(p) => Resolve(p, b, size)
  {
    hide Sources, Fold, Render, Components;
    SourcesAfter(cwd, a, b);
    if size >= 2 {
      FoldSplits([], Sources(cwd, a), Components(b), size);
      if Fold([], Sources(cwd, a), size).Some? {
        var stack := Fold([], Sources(cwd, a), size).value;
        ResolvedFold(cwd, a, size);
        SourcesAgainst(Render(stack), b);
        FoldSplits([], stack, Components(b), size);
      }
    }
  }

  lemma SourcesAfter(cwd: string, a: string, b: string)
    requires a != ""
    ensures Sources(cwd, a + "/" + b) == Sources(cwd, a) + Components(b)
  {
    assert a + "/" + b == a + ("/" + b) && ("/" + b)[1..] == b && (a + "/" + b)[0] == a[0];
    ComponentsSplit(a, "/" + b);
    assert Components("/" + b) == Components(b);
    hide Components;
    assert Components(cwd) + (Components(a) + Components(b)) == (Components(cwd) + Components(a)) + Components(b);
  }

  lemma SourcesAgainst(cwd: string, b: string)
    requires b == "" || b[0] != '/'
    ensures Sources(cwd, b) == Components(cwd) + Components(b)
  {
    assert b == "" ==> Components(b) == [];
    hide Components;
    assert Components(cwd) + [] == Components(cwd);
  }

  /** The stack a resolution ends with is found again from its rendering. */
  lemma ResolvedFold(cwd: string, a: string, size: nat)
    requires size >= 2 && Fold([], Sources(cwd, a), size).Some?
    ensures var stack := Fold([], Sources(cwd, a), size).value;
            Components(Render(stack)) == stack && Fold([], stack, size) == Some(stack)
  {
    SourcesNamed(cwd, a);
    hide Sources;
    var stack := Fold([], Sources(cwd, a), size).value;
    FoldClean([], Sources(cwd, a), size);
    CleanNamed(stack);
    RenderKept(stack);
    FoldFits([], Sources(cwd, a), size);
    assert [] + stack == stack;
    hide Components, Fold, Render;
    FoldNames([], stack, size);
  }

  lemma StepFits(stack: Stack, cs: seq<string>, size: nat)
    requires |Render(stack)| < size && Clean(stack) && Named(cs) && cs != []
    requires var next := Step(stack, cs[0]); |next| <= |stack| || |Render(next)| < size
    ensures |Render(Step(stack, cs[0]))| < size
  {
    var next := Step(stack, cs[0]);
    if |next| < |stack| {
      var n := |stack|;
      assert stack == next + [stack[n - 1]] && IsName(stack[n - 1]);
      RenderGrows(next, stack[n - 1]);
    }
    hide Render;
  }

  lemma {:induction false} FoldFits(stack: Stack, cs: seq<string>, size: nat)
    requires |Render(stack)| < size && Clean(stack) && Named(cs) && Fold(stack, cs, size).Some?
    ensures |Render(Fold(stack, cs, size).value)| < size
    decreases |cs|
  {
    if cs != [] {
      hide Render, Clean, Named, Step;
      StepClean(stack, cs);
      StepFits(stack, cs, size);
      FoldFits(Step(stack, cs[0]), cs[1..], size);
    }
  }

  // ---------------------------------------------------------------- prefix tests

  lemma {:induction false} RenderExtends(a: Stack, b: Stack)
    requires a != [] && b != []
    ensures Render(a) + "/" <= Render(a + b)
    decreases |b|
  {
    var init, last := b[..|b| - 1], b[|b| - 1];
    assert a + b == (a + init) + [last] && (a + b)[..|a + b| - 1] == a + init;
    if init == [] {
      assert a + init == a;
    } else {
      RenderExtends(a, init);
      hide Render;
    }
  }

  /** Main result: on canonical paths the string prefix test is the component prefix test. */
  lemma UnderIff(path: string, prefix: string)
    requires Canonical(path) && Canonical(prefix) && prefix != "/"
    ensures IsUnder(path, prefix) <==> Components(prefix) <= Components(path)
  {
    var p, q := Components(path), Components(prefix);
    assert q != [];
    if q <= p {
      var rest := p[|q|..];
      assert p == q + rest;
      if rest == [] { assert p == q; } else { RenderExtends(q, rest); }
    }
    if IsUnder(path, prefix) {
      var rest := path[|prefix|..];
      assert path == prefix + rest;
      ComponentsSplit(prefix, rest);
    }
    hide Components, Render;
  }

  // ------------------------------------------------------------------- permission

  /** Whether a user may change a path: root any; others below the shared area and their own home. */
  predicate CanModify(uid: nat, user: string, path: string) {
    uid == 0 || IsUnder(path, "/temp") || (user != "" && IsUnder(path, "/home/" + user))
  }

  lemma RenderOne(c: string)
    ensures Render([c]) == "/" + c
  {
  }

  lemma RenderTwo(a: string, b: string)
    ensures Render([a, b]) == "/" + a + "/" + b
  {
    assert [a, b][..1] == [a];
  }

  lemma NamedCanonical(stack: Stack)
    requires Clean(stack)
    ensures Canonical(Render(stack)) && Components(Render(stack)) == stack
  {
    CleanNamed(stack);
    RenderKept(stack);
  }

  /**
    Main result: of the paths that resolution gives, a user other than root may change exactly those
    whose components begin with the shared area or with the user's home.
  */
  lemma MayModifyIff(cwd: string, arg: string, size: nat, uid: nat, user: string)
    requires Resolve(cwd, arg, size).Some? && IsName(user)
    ensures var path := Resolve(cwd, arg, size).value;
            CanModify(uid, user, path) <==>
            uid == 0 || ["temp"] <= Components(path) || ["home", user] <= Components(path)
  {
    var path := Resolve(cwd, arg, size).value;
    ResolvedCanonical(cwd, arg, size);
    ScopeNames(user);
    hide Canonical, Components, Render, Resolve, IsUnder;
    UnderIff(path, "/temp");
    UnderIff(path, "/home/" + user);
  }

  lemma ScopeNames(user: string)
    requires IsName(user)
    ensures Canonical("/temp") && Components("/temp") == ["temp"]
    ensures Canonical("/home/" + user) && Components("/home/" + user) == ["home", user]
  {
    assert IsName("temp") && IsName("home");
    NamedCanonical(["temp"]);
    NamedCanonical(["home", user]);
    RenderOne("temp");
    RenderTwo("home", user);
    assert "/" + "temp" == "/temp" && "/" + "home" + "/" + user == "/home/" + user;
    hide Canonical, Components, Render;
  }
}
