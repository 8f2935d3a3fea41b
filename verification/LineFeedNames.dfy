/** A source whose name holds a line feed, and an update that succeeds on it and does not verify. */
module LineFeedNames {
  import opened Options
  import opened Numerals
  import opened Manifest
  import opened InstallFiles
  import opened ManifestFile
  import opened PathPrefix
  import opened VerifyInstall
  import opened ShellUpdate

  const CONTENT := "a"
  const PLAIN_NAME := "/shell/x"

  /** A directory below /shell whose name reads as the end of a line. */
  function BrokenDirectory(): string { PLAIN_NAME + "|1|" + HashOf(CONTENT) + "\n" }

  /** A file far below it, whose line in a manifest reads as two. */
  function BrokenName(): string { BrokenDirectory() + MANIFEST_NAME }

  /** Three files of the same content, and the directories they lie in. */
  function Sources(): Tree {
    map["/" := Directory, "/shell" := Directory, "/system" := Directory,
        BrokenDirectory() := Directory, BrokenDirectory() + "/system" := Directory,
        PLAIN_NAME := File(CONTENT), BrokenName() := File(CONTENT), MANIFEST_NAME := File(CONTENT)]
  }

  function EntryAt(path: string): Entry { Entry(path, 1, HashOf(CONTENT)) }

  function Scanned(): seq<Entry> { [EntryAt(PLAIN_NAME), EntryAt(BrokenName())] }

  function Loaded(): seq<Entry> { [EntryAt(PLAIN_NAME), EntryAt(PLAIN_NAME), EntryAt(MANIFEST_NAME)] }

  lemma Lengths()
    ensures |BrokenDirectory()| == 76 && |BrokenName()| == 103 && |MANIFEST_NAME| == 27 && |PLAIN_NAME| == 8
  {
    hide HashOf;
    assert |PLAIN_NAME| == 8 && |"|1|"| == 3 && |"\n"| == 1;
  }

  lemma FilesAre(path: string)
    ensures IsFile(Sources(), path) <==> path in {PLAIN_NAME, BrokenName(), MANIFEST_NAME}
    ensures IsFile(Sources(), path) ==> Sources()[path] == File(CONTENT)
  {
    Lengths();
    hide BrokenName, BrokenDirectory, HashOf;
    assert |BrokenDirectory() + "/system"| == 83 && |"/"| == 1 && |"/shell"| == 6 && |"/system"| == 7;
  }

  lemma NameIsWanted()
    ensures ShellIncluded(PLAIN_NAME) && ShellIncluded(BrokenName())
    ensures GoodPath(PLAIN_NAME) && GoodPath(BrokenName()) && GoodPath(MANIFEST_NAME)
  {
    Lengths();
    var h := HashOf(CONTENT);
    hide HashOf;
    assert BrokenName()[..6] == "/shell" && BrokenName()[6] == '/' && BrokenName()[1] == 's' && BrokenName()[2] == 'h';
    assert forall k | 0 <= k < |BrokenName()| :: BrokenName()[k] != NUL by {
      assert NUL !in h && NUL !in PLAIN_NAME && NUL !in "|1|" && NUL !in MANIFEST_NAME;
    }
  }

  lemma {:induction false} ReachesFile(t: Tree, logical: string, names: seq<string>)
    requires Reaches(t, "/", logical, names)
    ensures IsFile(t, RealPath("/", PathOf(logical, names)))
    decreases |names|
  {
    if names != [] { ReachesFile(t, Join(logical, names[0]), names[1..]); }
  }

  lemma LineIs(path: string)
    ensures LineOf(EntryAt(path)) == path + "|1|" + HashOf(CONTENT)
    ensures |LineOf(EntryAt(path))| == |path| + 67
  {
    var h := HashOf(CONTENT);
    hide HashOf;
    OneIs();
    hide Decimal;
    BarsAround(path, h);
  }

  lemma OneIs()
    ensures Decimal(1) == "1"
  {
  }

  lemma BarsAround(path: string, h: string)
    ensures path + [BAR] + "1" + [BAR] + h == path + "|1|" + h
  {
  }

  /** The line of the broken name is two good lines. */
  lemma LineBreaks()
    ensures LineOf(EntryAt(BrokenName())) == LineOf(EntryAt(PLAIN_NAME)) + "\n" + LineOf(EntryAt(MANIFEST_NAME))
  {
    var p, h, m := PLAIN_NAME, HashOf(CONTENT), MANIFEST_NAME;
    LineIs(p);
    LineIs(m);
    LineIs(BrokenName());
    assert BrokenName() == p + "|1|" + h + "\n" + m;
    hide *;
    Regroup(p + "|1|" + h + "\n", m, "|1|", h);
  }

  lemma Regroup(a: string, m: string, bars: string, h: string)
    ensures a + m + bars + h == a + (m + bars + h)
  {
  }

  lemma LoadsBroken()
    ensures Load(Render(Scanned())) == Some(Loaded())
  {
    LoadedLoads();
    LineBreaks();
    RenderTwo(EntryAt(PLAIN_NAME), EntryAt(BrokenName()));
    RenderThree(EntryAt(PLAIN_NAME), EntryAt(PLAIN_NAME), EntryAt(MANIFEST_NAME));
    assert Scanned() == [EntryAt(PLAIN_NAME), EntryAt(BrokenName())];
    assert Loaded() == [EntryAt(PLAIN_NAME), EntryAt(PLAIN_NAME), EntryAt(MANIFEST_NAME)];
    hide *;
    Twice(LineOf(EntryAt(PLAIN_NAME)), LineOf(EntryAt(MANIFEST_NAME)));
  }

  lemma Twice(x: string, m: string)
    ensures x + "\n" + (x + "\n" + m) + "\n" == x + "\n" + x + "\n" + m + "\n"
  {
  }

  lemma NamesPlain()
    ensures Plain(PLAIN_NAME) && Plain(MANIFEST_NAME)
  {
  }

  lemma EntryWritten(path: string)
    requires GoodPath(path)
    ensures Written(EntryAt(path))
  {
    hide HashOf;
  }

  lemma LoadedWritten()
    ensures forall e | e in Loaded() :: Written(e) && Plain(e.path)
  {
    hide HashOf, Written, Plain, GoodPath, ShellIncluded, BrokenName;
    NameIsWanted();
    NamesPlain();
    EntryWritten(PLAIN_NAME);
    EntryWritten(MANIFEST_NAME);
    hide PLAIN_NAME, MANIFEST_NAME, CONTENT;
  }

  lemma LoadedLoads()
    ensures Load(Render(Loaded())) == Some(Loaded())
  {
    LoadedWritten();
    Lengths();
    LineIs(PLAIN_NAME);
    LineIs(MANIFEST_NAME);
    RenderThree(EntryAt(PLAIN_NAME), EntryAt(PLAIN_NAME), EntryAt(MANIFEST_NAME));
    assert |Loaded()| == 3 && Loaded() == [EntryAt(PLAIN_NAME), EntryAt(PLAIN_NAME), EntryAt(MANIFEST_NAME)];
    hide *;
    LoadExact(Loaded());
  }

  lemma RenderTwo(a: Entry, b: Entry)
    ensures Render([a, b]) == LineOf(a) + "\n" + LineOf(b) + "\n"
  {
    assert [a, b][1..] == [b] && [b][1..] == [];
    hide LineOf;
    assert Render([b]) == LineOf(b) + "\n" + "";
  }

  lemma RenderThree(a: Entry, b: Entry, c: Entry)
    ensures Render([a, b, c]) == LineOf(a) + "\n" + LineOf(b) + "\n" + LineOf(c) + "\n"
  {
    assert [a, b, c][1..] == [b, c];
    RenderTwo(b, c);
    hide LineOf;
    assert Render([a, b, c]) == LineOf(a) + "\n" + Render([b, c]);
  }

  /** The scan of these sources is right and complete, and every entry loaded from it is true of its source. */
  lemma ScanIsRight()
    ensures Kept(Sources(), "/", true, Scanned()) && Covers(Sources(), "/", true, "/", Scanned())
    ensures forall e | e in Loaded() :: Described(Sources(), e.path, e)
  {
    NameIsWanted();
    FilesAre(PLAIN_NAME);
    FilesAre(BrokenName());
    FilesAre(MANIFEST_NAME);
    hide Sources, HashOf, BrokenName, ShellIncluded;
    forall names | Reaches(Sources(), "/", "/", names) && Wanted(true, PathOf("/", names))
      ensures Lists(Scanned(), PathOf("/", names))
    {
      var path := PathOf("/", names);
      ReachesFile(Sources(), "/", names);
      FilesAre(path);
      ShellNotManifest(path);
      assert EntryAt(path) in Scanned();
    }
  }

  // ------------------------------------------------------------ an updated disk

  function Single(): Entry { EntryAt(PLAIN_NAME) }

  /** The manifest's own line is made when two lines are written. */
  function TwoLines(): string { Render([Single(), Single()]) }

  function Own(): Entry { Entry(MANIFEST_NAME, |TwoLines()|, HashOf(TwoLines())) }

  function Refreshment(): seq<Entry> { [Single(), Single(), Own()] }

  /** A disk with a file and a manifest. */
  function TwoFiles(path: string, content: string, manifest: string): Tree {
    map[Target(path) := File(content), Target(MANIFEST_NAME) := File(manifest)]
  }

  /** The disk with its manifest refreshed. */
  function Result(): Tree { TwoFiles(PLAIN_NAME, CONTENT, Render(Refreshment())) }

  lemma OwnLine()
    ensures |TwoLines()| == 152 && |LineOf(Own())| == 96
  {
    Lengths();
    LineIs(PLAIN_NAME);
    RenderTwo(Single(), Single());
    var h := HashOf(TwoLines());
    hide HashOf, Render;
    DecimalIs();
    hide Decimal;
    assert |LineOf(Own())| == 27 + 1 + 3 + 1 + 64;
  }

  lemma DecimalIs()
    ensures Decimal(152) == "152"
  {
    assert Decimal(1) == "1" && Decimal(15) == "15";
  }

  lemma Fits()
    ensures |Render(Refreshment())| == 249
  {
    OwnLine();
    Lengths();
    LineIs(PLAIN_NAME);
    RenderThree(Single(), Single(), Own());
    hide LineOf, Render, HashOf;
  }

  ghost predicate Installable(e: Entry) { Written(e) && Plain(e.path) && |Target(e.path)| < PATH_MAX }

  lemma TwoAre(path: string, content: string, manifest: string)
    requires path != MANIFEST_NAME
    ensures var (plain, own, t) := (Target(path), Target(MANIFEST_NAME), TwoFiles(path, content, manifest));
            && plain != own && t.Keys == {plain, own} && t[plain] == File(content) && t[own] == File(manifest)
  {
    TargetsApart(path, MANIFEST_NAME);
    hide Target, MANIFEST_NAME;
  }

  lemma RefreshedTwo(t: Tree, x: Entry, o: Entry)
    requires IsFile(t, Target(MANIFEST_NAME)) && t[Target(MANIFEST_NAME)].content == Render([x, x, o])
    requires Installable(x) && Described(t, Target(x.path), x)
    requires Installable(o) && o.size < |Render([x, x, o])| <= BYTES_MAX
    requires x.path != MANIFEST_NAME && o.path == MANIFEST_NAME
    ensures Refreshed(t, [x, x, o])
  {
    hide Render, Written, Plain, Target, Described, MANIFEST_NAME;
  }

  lemma AgreeTwo(t: Tree, x: Entry, n: Entry, o: Entry)
    requires Matches(t, x) && Matches(t, n) && x.path != n.path && n.path == o.path
    ensures LastMatch(t, [x, x, n], 3)
    ensures PathsOf([x, x, o]) == PathsOf([x, x, n])
  {
    hide Matches;
    assert [x, x, o][..2] == [x, x] && [x, x, n][..2] == [x, x];
  }

  lemma NoMarks(t: Tree, path: string)
    requires t.Keys == {Target(path), Target(MANIFEST_NAME)} && path != STATE_NAME && path != NEW_NAME
    ensures !IsFile(t, Target(STATE_NAME)) && !IsFile(t, Target(NEW_NAME))
  {
    NamesDiffer();
    hide MANIFEST_NAME, STATE_NAME, NEW_NAME;
    TargetsApart(path, STATE_NAME);
    TargetsApart(path, NEW_NAME);
    TargetsApart(MANIFEST_NAME, STATE_NAME);
    TargetsApart(MANIFEST_NAME, NEW_NAME);
    hide Target;
  }

  /** Copying a file and the manifest, and refreshing the latter. */
  lemma TwoUpdated(content: string, x: Entry, n: Entry, o: Entry)
    requires x.path != MANIFEST_NAME && n.path == o.path == MANIFEST_NAME
    requires x.size == n.size == |content| && x.hash == n.hash == HashOf(content)
    requires Installable(x) && Installable(n) && Installable(o) && o.size < |Render([x, x, o])| <= BYTES_MAX
    ensures Updated(TwoFiles(x.path, content, Render([x, x, o])), [], [x, x, n])
  {
    var c, t := TwoFiles(x.path, content, content), TwoFiles(x.path, content, Render([x, x, o]));
    TwoAre(x.path, content, content);
    TwoAre(x.path, content, Render([x, x, o]));
    hide TwoFiles, HashOf, Render, MANIFEST_NAME, Target;
    RefreshedTwo(t, x, o);
    AgreeTwo(c, x, n, o);
    assert Confined(c, t, iset{Target(MANIFEST_NAME)});
    hide LastMatch, Confined, Refreshed, PathsOf, Written, Installable;
    FromScratch(c, t, [x, x, o], [x, x, n]);
  }

  lemma FromScratch(c: Tree, t: Tree, es: seq<Entry>, news: seq<Entry>)
    requires LastMatch(c, news, |news|) && Confined(c, t, iset{Target(MANIFEST_NAME)})
    requires forall p | p in t && p != Target(MANIFEST_NAME) :: p in c
    requires Refreshed(t, es) && PathsOf(es) == PathsOf(news)
    ensures Updated(t, [], news)
  {
    assert Confined(c, c, Obsoletes([], news));
    assert KeptPaths(t, []) == [];
    hide *;
    var olds: seq<Entry> := [];
    assert forall o | o in olds :: false;
    UpdateDone(c, c, t, t, es, olds, news);
  }

  lemma AllInstallable()
    ensures Installable(Single()) && Installable(EntryAt(MANIFEST_NAME)) && Installable(Own())
  {
    NameIsWanted();
    NamesPlain();
    EntryWritten(PLAIN_NAME);
    EntryWritten(MANIFEST_NAME);
    OwnLine();
    Lengths();
    hide HashOf, TwoLines, Plain, GoodPath, BrokenName;
  }

  /** Copying and refreshing step by step end in this disk: it meets all that a successful update promises, and does not verify. */
  lemma ResultUpdated()
    ensures Updated(Result(), [], Loaded())
    ensures !IsFile(Result(), Target(STATE_NAME)) && !IsFile(Result(), Target(NEW_NAME))
    ensures !Verified(Result(), MOUNT)
  {
    AllInstallable();
    Fits();
    OwnLine();
    var x, n, o := Single(), EntryAt(MANIFEST_NAME), Own();
    NamesApart();
    hide PLAIN_NAME, MANIFEST_NAME, CONTENT, HashOf, Render, TwoFiles, Installable, TwoLines, Target, Updated, Verified,
         STATE_NAME, NEW_NAME;
    assert Refreshment() == [x, x, o] && Loaded() == [x, x, n];
    assert Result() == TwoFiles(x.path, CONTENT, Render([x, x, o]));
    hide Refreshment, Loaded, Result;
    TwoUpdated(CONTENT, x, n, o);
    TwoAre(PLAIN_NAME, CONTENT, Render([x, x, o]));
    NoMarks(Result(), PLAIN_NAME);
    SucceedsUnverified(Result(), []);
  }

  lemma NamesApart()
    ensures PLAIN_NAME != MANIFEST_NAME && PLAIN_NAME != STATE_NAME && PLAIN_NAME != NEW_NAME && |CONTENT| == 1
  {
    Lengths();
  }

  /** Main result: after an update of these sources that succeeds and clears its marks, the disk does not verify. */
  lemma SucceedsUnverified(t: Tree, olds: seq<Entry>)
    requires Updated(t, olds, Loaded()) && !IsFile(t, Target(STATE_NAME)) && !IsFile(t, Target(NEW_NAME))
    ensures Kept(Sources(), "/", true, Scanned()) && Covers(Sources(), "/", true, "/", Scanned())
    ensures Load(Render(Scanned())) == Some(Loaded()) && forall e | e in Loaded() :: Described(Sources(), e.path, e)
    ensures !Verified(t, MOUNT)
  {
    ScanIsRight();
    LoadsBroken();
    assert EntryAt(MANIFEST_NAME) in Loaded();
    hide Updated, Verified, Target, Load, Render, HashOf, Sources;
    VerifiedExactly(t, olds, Loaded());
  }
}
