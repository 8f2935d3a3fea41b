/** The shell update: plan, copy, delete what is obsolete, rewrite the manifest, clean up. */
module ShellUpdate {
  import opened Options
  import opened Manifest
  import opened InstallFiles
  import opened InstallCopy
  import opened ManifestFile
  import opened PathPrefix
  import opened VerifyInstall

  const MOUNT := "/temp/disk"
  const NEW_NAME := "/system/install_manifest.new"
  const PREV_NAME := "/system/install_manifest.prev"
  const STATE_NAME := "/system/update_state.db"
  const DRYRUN_MANIFEST := "/temp/install2disk_manifest.new"
  const STATE_TEXT := "shell-update\n"

  function Target(path: string): string { MOUNT + path }

  predicate IsStateName(path: string) {
    path == MANIFEST_NAME || path == NEW_NAME || path == PREV_NAME || path == STATE_NAME
  }

  /** The disk has a file as an entry says. */
  predicate Matches(t: Tree, e: Entry) { |Target(e.path)| < PATH_MAX && Described(t, Target(e.path), e) }

  function FindEntry(es: seq<Entry>, path: string): (r: Option<Entry>)
    ensures r == None <==> !Lists(es, path)
    ensures r.Some? ==> r.value in es && r.value.path == path
  {
    if es == [] then None
    else if es[0].path == path then Some(es[0])
    else
      var r := FindEntry(es[1..], path);
      assert Lists(es, path) <==> Lists(es[1..], path) by {
        assert forall e | e in es :: e == es[0] || e in es[1..];
        assert forall e | e in es[1..] :: e in es;
      }
      r
  }

  // ------------------------------------------------------------------- places

  ghost function Targets(es: seq<Entry>): iset<string> { iset e | e in es :: Target(e.path) }

  predicate Obsolete(o: Entry, news: seq<Entry>) { ShellIncluded(o.path) && !Lists(news, o.path) }

  ghost function Obsoletes(olds: seq<Entry>, news: seq<Entry>): iset<string> {
    iset o | o in olds && Obsolete(o, news) :: Target(o.path)
  }

  ghost function StatePlaces(): iset<string> {
    iset{Target(MANIFEST_NAME), Target(NEW_NAME), Target(PREV_NAME), Target(STATE_NAME), DRYRUN_MANIFEST}
  }

  /** All that an update may change, new directories apart. */
  ghost function Touched(olds: seq<Entry>, news: seq<Entry>): iset<string> {
    StatePlaces() + Targets(news) + Obsoletes(olds, news)
  }

  lemma TargetsDiffer(p: string, q: string)
    requires Target(p) == Target(q)
    ensures p == q
  {
    assert Target(p)[|MOUNT|..] == p && Target(q)[|MOUNT|..] == q;
  }

  lemma DryRunApart(p: string)
    ensures Target(p) != DRYRUN_MANIFEST
  {
    assert Target(p)[7] == 'i' && DRYRUN_MANIFEST[7] == 'n';
  }

  lemma NamesDiffer()
    ensures MANIFEST_NAME != NEW_NAME && MANIFEST_NAME != PREV_NAME && MANIFEST_NAME != STATE_NAME
    ensures NEW_NAME != PREV_NAME && NEW_NAME != STATE_NAME && PREV_NAME != STATE_NAME
  {
    assert |MANIFEST_NAME| == 27 && |NEW_NAME| == 28 && |PREV_NAME| == 29 && |STATE_NAME| == 23;
  }

  // -------------------------------------------------------------------- copying

  method TargetMatches(disk: Disk, e: Entry) returns (ok: bool)
    requires Sized(disk.tree) && GoodPath(e.path)
    modifies disk
    ensures disk.tree == old(disk.tree) && disk.faults >= old(disk.faults)
    ensures ok ==> Matches(disk.tree, e)
    ensures !ok && disk.faults == old(disk.faults) ==> !Matches(disk.tree, e)
  {
    hide HashOf, Sized;
    var target := RootJoin(MOUNT, e.path);
    if target == None || disk.StatType(target.value) != 1 || disk.StatSize(target.value) != Some(e.size) {
      return false;
    }
    var hashed, hash := disk.HashFile(target.value);
    return hashed && hash == e.hash;
  }

  /** Whether an entry needs copying: it is new, or differs from the old one, or the target is not as it says. */
  method PlanCopy(disk: Disk, e: Entry, was: Option<Entry>) returns (copy: bool)
    requires Sized(disk.tree) && GoodPath(e.path)
    modifies disk
    ensures disk.tree == old(disk.tree) && disk.faults >= old(disk.faults)
    ensures !copy ==> was.Some? && was.value.size == e.size && was.value.hash == e.hash && Matches(disk.tree, e)
    ensures copy && disk.faults == old(disk.faults) ==>
              was == None || was.value.size != e.size || was.value.hash != e.hash || !Matches(disk.tree, e)
  {
    if was == None || was.value.size != e.size || was.value.hash != e.hash {
      return true;
    }
    var matches := TargetMatches(disk, e);
    copy := !matches;
  }

  method CopyEntry(disk: Disk, e: Entry) returns (ok: bool)
    requires Sized(disk.tree) && GoodPath(e.path)
    modifies disk
    ensures Sized(disk.tree) && disk.faults >= old(disk.faults)
    ensures Confined(old(disk.tree), disk.tree, iset{Target(e.path)})
    ensures ok ==> Matches(disk.tree, e)
  {
    hide Sized, Matches, Confined;
    ghost var before := disk.tree;
    Unchanged(before, iset{Target(e.path)});
    var source, target := RootJoin("/", e.path), RootJoin(MOUNT, e.path);
    if source == None || target == None {
      return false;
    }
    ok := MakeParents(disk, target.value);
    ghost var now := disk.tree;
    ConfinedWithin(before, now, iset{}, iset{Target(e.path)});
    if !ok {
      return;
    }
    assert |target.value| > |source.value|;
    ok := CopyFile(disk, source.value, target.value);
    ConfinedAgain(before, now, disk.tree, iset{Target(e.path)});
    if ok {
      ok := TargetMatches(disk, e);
    }
  }

  /** No later entry among the first i has the path of entry j. */
  predicate IsLast(es: seq<Entry>, j: nat, i: nat) {
    j < i <= |es| && forall k | j < k < i :: es[k].path != es[j].path
  }

  ghost predicate LastMatch(t: Tree, es: seq<Entry>, i: nat) {
    forall j: nat | IsLast(es, j, i) :: Matches(t, es[j])
  }

  lemma LastMatchNext(a: Tree, b: Tree, es: seq<Entry>, i: nat)
    requires i < |es| && LastMatch(a, es, i) && Matches(b, es[i])
    requires Confined(a, b, iset{Target(es[i].path)})
    ensures LastMatch(b, es, i + 1)
  {
    hide Matches, Target, Confined;
    forall j: nat | IsLast(es, j, i + 1)
      ensures Matches(b, es[j])
    {
      if j < i {
        assert IsLast(es, j, i);
        OtherStillMatches(a, b, es[i].path, es[j]);
      }
    }
  }

  lemma OtherStillMatches(a: Tree, b: Tree, path: string, e: Entry)
    requires Matches(a, e) && e.path != path && Confined(a, b, iset{Target(path)})
    ensures Matches(b, e)
  {
    hide HashOf;
    TargetsApart(e.path, path);
    hide Target;
  }

  lemma Inside(es: seq<Entry>, e: Entry)
    requires e in es
    ensures iset{Target(e.path)} <= Targets(es)
  {
  }

  /** The copies of all entries that need it; afterwards every path is as its last entry says. */
  method CopyAll(disk: Disk, olds: seq<Entry>, news: seq<Entry>) returns (ok: bool)
    requires Sized(disk.tree) && forall e | e in news :: GoodPath(e.path)
    modifies disk
    ensures Sized(disk.tree) && disk.faults >= old(disk.faults)
    ensures Confined(old(disk.tree), disk.tree, Targets(news))
    ensures ok ==> LastMatch(disk.tree, news, |news|)
  {
    hide Sized, Confined, Matches, FindEntry, Targets, LastMatch;
    ghost var before := disk.tree;
    Unchanged(before, Targets(news));
    NoneYet(before, news);
    for i := 0 to |news|
      invariant Sized(disk.tree) && disk.faults >= old(disk.faults)
      invariant Confined(before, disk.tree, Targets(news)) && LastMatch(disk.tree, news, i)
    {
      ghost var now := disk.tree;
      var copy := PlanCopy(disk, news[i], FindEntry(olds, news[i].path));
      ok := true;
      if copy {
        ok := CopyEntry(disk, news[i]);
      } else {
        Unchanged(now, iset{Target(news[i].path)});
      }
      Inside(news, news[i]);
      ConfinedWithin(now, disk.tree, iset{Target(news[i].path)}, Targets(news));
      ConfinedAgain(before, now, disk.tree, Targets(news));
      if !ok {
        return;
      }
      LastMatchNext(now, disk.tree, news, i);
    }
    return true;
  }

  lemma NoneYet(t: Tree, es: seq<Entry>)
    ensures LastMatch(t, es, 0)
  {
  }

  // ------------------------------------------------------------------- deleting

  /** Targets of the old entries that the update drops are removed, when they are files. */
  method DeleteObsolete(disk: Disk, olds: seq<Entry>, news: seq<Entry>, dryRun: bool) returns (ok: bool, deleted: nat)
    requires Sized(disk.tree)
    modifies disk
    ensures Sized(disk.tree) && disk.faults >= old(disk.faults)
    ensures dryRun ==> disk.tree == old(disk.tree)
    ensures Confined(old(disk.tree), disk.tree, Obsoletes(olds, news))
    ensures ok && !dryRun ==> forall o | o in olds && Obsolete(o, news) :: !IsFile(disk.tree, Target(o.path))
  {
    hide Sized, Confined, ShellIncluded, Obsoletes;
    ghost var before := disk.tree;
    Unchanged(before, Obsoletes(olds, news));
    deleted := 0;
    for i := 0 to |olds|
      invariant Sized(disk.tree) && disk.faults >= old(disk.faults)
      invariant dryRun ==> disk.tree == before
      invariant Confined(before, disk.tree, Obsoletes(olds, news))
      invariant !dryRun ==> forall j | 0 <= j < i && Obsolete(olds[j], news) :: !IsFile(disk.tree, Target(olds[j].path))
    {
      if ShellIncluded(olds[i].path) && FindEntry(news, olds[i].path) == None {
        var target := RootJoin(MOUNT, olds[i].path);
        if target == None {
          return false, deleted;
        }
        if disk.StatType(target.value) == 1 {
          ghost var now := disk.tree;
          if !dryRun {
            var removed := disk.Remove(target.value);
            if !removed {
              return false, deleted;
            }
            RemovedOnly(now, disk.tree, olds, news, olds[i]);
            ConfinedAgain(before, now, disk.tree, Obsoletes(olds, news));
          }
          deleted := deleted + 1;
        }
      }
    }
    return true, deleted;
  }

  lemma RemovedOnly(a: Tree, b: Tree, olds: seq<Entry>, news: seq<Entry>, o: Entry)
    requires o in olds && Obsolete(o, news) && b == a - {Target(o.path)}
    ensures Confined(a, b, Obsoletes(olds, news))
  {
    hide ShellIncluded, Lists;
  }

  // ---------------------------------------------------------- marking and clean-up

  ghost function MarkPlaces(): iset<string> { iset{Target(NEW_NAME), Target(PREV_NAME), Target(STATE_NAME)} }

  /** The disk carries the mark of an update under way. */
  predicate IsMarked(t: Tree) { Target(STATE_NAME) in t && t[Target(STATE_NAME)] == File(STATE_TEXT) }

  /** The mark of an update under way. */
  method WriteMark(disk: Disk) returns (ok: bool)
    requires Sized(disk.tree)
    modifies disk
    ensures Sized(disk.tree) && disk.faults >= old(disk.faults)
    ensures Confined(old(disk.tree), disk.tree, iset{Target(STATE_NAME)})
    ensures ok ==> IsMarked(disk.tree)
  {
    hide Sized, Confined, Target;
    ghost var before, places := disk.tree, iset{Target(STATE_NAME)};
    ok := MakeDirectory(disk, MOUNT + "/system");
    ghost var now := disk.tree;
    ConfinedWithin(before, now, iset{}, places);
    if !ok {
      return;
    }
    ok := disk.Write(Target(STATE_NAME), STATE_TEXT);
    WrittenOnly(now, disk.tree, Target(STATE_NAME), STATE_TEXT, ok);
    ConfinedAgain(before, now, disk.tree, places);
  }

  lemma KeptApart(a: Tree, b: Tree, place: string, name: string)
    requires Confined(a, b, iset{Target(name)}) && place != Target(name)
    ensures place in a ==> place in b && b[place] == a[place]
    ensures IsFile(b, place) ==> IsFile(a, place)
  {
    hide Target;
  }

  lemma MarkApart(name: string)
    requires name == MANIFEST_NAME || name == PREV_NAME || name == NEW_NAME
    ensures Target(name) != Target(STATE_NAME)
  {
    NamesDiffer();
    TargetsApart(name, STATE_NAME);
    hide Target;
  }

  /** The mark of an update under way, and copies of the manifests before and after. */
  method WriteStateFiles(disk: Disk) returns (ok: bool)
    requires Sized(disk.tree)
    modifies disk
    ensures Sized(disk.tree) && disk.faults >= old(disk.faults)
    ensures Confined(old(disk.tree), disk.tree, MarkPlaces())
    ensures ok ==> IsMarked(disk.tree)
    ensures ok ==> KeepsPrevious(old(disk.tree), disk.tree)
  {
    hide Sized, Confined;
    NamesDiffer();
    ghost var before, places := disk.tree, MarkPlaces();
    TargetsApart(MANIFEST_NAME, PREV_NAME);
    TargetsApart(NEW_NAME, PREV_NAME);
    MarkApart(MANIFEST_NAME);
    MarkApart(PREV_NAME);
    MarkApart(NEW_NAME);
    DryRunApart(NEW_NAME);
    hide Target;
    ok := WriteMark(disk);
    ghost var now := disk.tree;
    ConfinedWithin(before, now, iset{Target(STATE_NAME)}, places);
    KeptApart(before, now, Target(MANIFEST_NAME), STATE_NAME);
    if !ok {
      return;
    }
    if disk.StatType(Target(MANIFEST_NAME)) == 1 {
      ok := CopyFile(disk, Target(MANIFEST_NAME), Target(PREV_NAME));
      ConfinedWithin(now, disk.tree, iset{Target(PREV_NAME)}, places);
      ConfinedAgain(before, now, disk.tree, places);
      KeptApart(now, disk.tree, Target(STATE_NAME), PREV_NAME);
      now := disk.tree;
      if !ok {
        return;
      }
    }
    ok := CopyFile(disk, DRYRUN_MANIFEST, Target(NEW_NAME));
    ConfinedWithin(now, disk.tree, iset{Target(NEW_NAME)}, places);
    ConfinedAgain(before, now, disk.tree, places);
    KeptApart(now, disk.tree, Target(STATE_NAME), NEW_NAME);
    KeptApart(now, disk.tree, Target(PREV_NAME), NEW_NAME);
  }

  lemma TargetsApart(p: string, q: string)
    requires p != q
    ensures Target(p) != Target(q)
  {
    if Target(p) == Target(q) { TargetsDiffer(p, q); }
  }

  lemma WrittenOnly(a: Tree, b: Tree, path: string, text: string, ok: bool)
    requires if ok then b == a[path := File(text)] else Confined(a, b, iset{path})
    ensures Confined(a, b, iset{path})
  {
  }

  /** Files whose removal is tried at the end; a failure to remove is ignored. */
  method RemoveIfFile(disk: Disk, path: string)
    requires Sized(disk.tree)
    modifies disk
    ensures Sized(disk.tree) && disk.faults >= old(disk.faults)
    ensures disk.tree == old(disk.tree) || disk.tree == old(disk.tree) - {path}
    ensures disk.faults == old(disk.faults) ==> !IsFile(disk.tree, path)
  {
    if disk.StatType(path) == 1 {
      var removed := disk.Remove(path);
    }
  }

  method CleanUp(disk: Disk)
    requires Sized(disk.tree)
    modifies disk
    ensures Sized(disk.tree) && disk.faults >= old(disk.faults)
    ensures forall p | p in disk.tree :: p in old(disk.tree) && disk.tree[p] == old(disk.tree)[p]
    ensures forall p | p in old(disk.tree) && p !in iset{Target(STATE_NAME), Target(NEW_NAME), DRYRUN_MANIFEST} :: p in disk.tree
    ensures disk.faults == old(disk.faults) ==> !IsFile(disk.tree, Target(STATE_NAME)) && !IsFile(disk.tree, Target(NEW_NAME))
  {
    hide Sized, Target;
    RemoveIfFile(disk, Target(STATE_NAME));
    RemoveIfFile(disk, Target(NEW_NAME));
    RemoveIfFile(disk, DRYRUN_MANIFEST);
  }

  // --------------------------------------------------------- the new manifest

  /** An old entry that the new manifest keeps: described by the installation, but not by the shell. */
  predicate Carried(e: Entry) { Included(e.path) && !ShellIncluded(e.path) }

  /**
    The manifest holds what was logged. An entry is true of its file, but for one of the manifest
    itself, which was true only before its line was added.
  */
  ghost predicate Refreshed(t: Tree, es: seq<Entry>) {
    && IsFile(t, Target(MANIFEST_NAME)) && t[Target(MANIFEST_NAME)].content == Render(es) && |Render(es)| <= BYTES_MAX
    && forall e | e in es :: Written(e) && Plain(e.path) && Current(t, e)
  }

  predicate Current(t: Tree, e: Entry)
    requires IsFile(t, Target(MANIFEST_NAME))
  {
    && |Target(e.path)| < PATH_MAX
    && if e.path == MANIFEST_NAME then e.size < |t[Target(MANIFEST_NAME)].content| else Described(t, Target(e.path), e)
  }

  lemma RefreshedMore(a: Tree, b: Tree, es: seq<Entry>, e: Entry)
    requires Refreshed(a, es) && Extended(a, b, Target(MANIFEST_NAME))
    requires b[Target(MANIFEST_NAME)].content == Render(es + [e]) && |Render(es + [e])| <= BYTES_MAX
    requires Written(e) && Plain(e.path) && |Target(e.path)| < PATH_MAX && Described(a, Target(e.path), e)
    ensures Refreshed(b, es + [e])
  {
    RenderBack(es, e);
    hide Render, LineOf, Described;
    forall x | x in es + [e]
      ensures Current(b, x)
    {
      if x in es { CurrentStays(a, b, x); } else { CurrentNow(a, b, e); }
    }
  }

  lemma CurrentStays(a: Tree, b: Tree, x: Entry)
    requires Extended(a, b, Target(MANIFEST_NAME)) && Current(a, x)
    requires |b[Target(MANIFEST_NAME)].content| > |a[Target(MANIFEST_NAME)].content|
    ensures Current(b, x)
  {
    hide HashOf;
    if x.path != MANIFEST_NAME { TargetsApart(x.path, MANIFEST_NAME); }
    hide Target;
  }

  lemma CurrentNow(a: Tree, b: Tree, e: Entry)
    requires Extended(a, b, Target(MANIFEST_NAME))
    requires |b[Target(MANIFEST_NAME)].content| > |a[Target(MANIFEST_NAME)].content|
    requires |Target(e.path)| < PATH_MAX && Described(a, Target(e.path), e)
    ensures Current(b, e)
  {
    hide HashOf;
    if e.path != MANIFEST_NAME { TargetsApart(e.path, MANIFEST_NAME); }
    hide Target;
  }

  ghost predicate CarriedFrom(es: seq<Entry>, olds: seq<Entry>, news: seq<Entry>) {
    forall e | e in es :: Lists(news, e.path) || (Lists(olds, e.path) && Carried(e))
  }

  ghost predicate ListsAll(es: seq<Entry>, paths: seq<Entry>) { forall n | n in paths :: Lists(es, n.path) }

  function PathsOf(es: seq<Entry>): (paths: seq<string>)
    ensures |paths| == |es|
  {
    if es == [] then [] else PathsOf(es[..|es| - 1]) + [es[|es| - 1].path]
  }

  /** An old entry that the new manifest keeps is of a file that is there. */
  predicate Keeps(t: Tree, o: Entry) { Carried(o) && IsFile(t, Target(o.path)) }

  /** The paths of the old entries that are kept, in their order. */
  function KeptPaths(t: Tree, olds: seq<Entry>): seq<string> {
    if olds == [] then []
    else
      var last := olds[|olds| - 1];
      KeptPaths(t, olds[..|olds| - 1]) + if Keeps(t, last) then [last.path] else []
  }

  lemma {:induction false} PathsListed(es: seq<Entry>)
    ensures forall path :: path in PathsOf(es) <==> Lists(es, path)
    decreases |es|
  {
    if es != [] {
      var init, last := es[..|es| - 1], es[|es| - 1];
      PathsListed(init);
      assert es == init + [last];
      assert forall e | e in es :: e in init || e == last;
      assert forall e | e in init :: e in es;
    }
  }

  lemma {:induction false} KeptListed(t: Tree, olds: seq<Entry>)
    ensures forall o | o in olds && Keeps(t, o) :: o.path in KeptPaths(t, olds)
    ensures forall path | path in KeptPaths(t, olds) :: exists o :: o in olds && o.path == path && Keeps(t, o)
    decreases |olds|
  {
    if olds != [] {
      var init, last := olds[..|olds| - 1], olds[|olds| - 1];
      KeptListed(t, init);
      hide Keeps;
      assert olds == init + [last];
      assert forall o | o in olds :: o in init || o == last;
      forall path | path in KeptPaths(t, olds)
        ensures exists o :: o in olds && o.path == path && Keeps(t, o)
      {
        if path in KeptPaths(t, init) {
          var o :| o in init && o.path == path && Keeps(t, o);
          assert o in olds;
        }
      }
    }
  }

  lemma {:induction false} SameKept(a: Tree, b: Tree, olds: seq<Entry>)
    requires forall o | o in olds :: Keeps(a, o) <==> Keeps(b, o)
    ensures KeptPaths(a, olds) == KeptPaths(b, olds)
    decreases |olds|
  {
    if olds != [] { SameKept(a, b, olds[..|olds| - 1]); }
    hide Keeps;
  }

  /** Lines for the kept old entries and then for all new ones are the lines to have. */
  lemma LinesList(t: Tree, es: seq<Entry>, olds: seq<Entry>, news: seq<Entry>)
    requires PathsOf(es) == KeptPaths(t, olds) + PathsOf(news)
    ensures CarriedFrom(es, olds, news) && ListsAll(es, news)
    ensures forall o | o in olds && Keeps(t, o) :: Lists(es, o.path)
  {
    PathsListed(es);
    PathsListed(news);
    KeptListed(t, olds);
    hide KeptPaths, PathsOf, Carried;
    forall e | e in es
      ensures Lists(news, e.path) || (Lists(olds, e.path) && Carried(e))
    {
      assert Lists(es, e.path);
      if e.path !in PathsOf(news) {
        var o :| o in olds && o.path == e.path && Keeps(t, o);
        SamePathCarried(o, e);
      }
    }
    forall n | n in news
      ensures Lists(es, n.path)
    {
      assert Lists(news, n.path);
    }
  }

  lemma SamePathCarried(o: Entry, e: Entry)
    requires o.path == e.path
    ensures Carried(o) == Carried(e)
  {
    hide Included, ShellIncluded;
  }

  lemma KeepsStay(a: Tree, b: Tree, o: Entry)
    requires Extended(a, b, Target(MANIFEST_NAME))
    ensures Keeps(a, o) <==> Keeps(b, o)
  {
    hide Target, Carried;
  }

  /** One line for a path of a loaded manifest. */
  method RefreshLine(disk: Disk, path: string, w: Writer) returns (ok: bool)
    requires Sized(disk.tree) && GoodPath(path) && Plain(path)
    requires Logged(disk.tree, Target(MANIFEST_NAME), w) && Refreshed(disk.tree, w.entries)
    modifies disk, w
    ensures Sized(disk.tree) && disk.faults >= old(disk.faults)
    ensures Confined(old(disk.tree), disk.tree, iset{Target(MANIFEST_NAME)})
    ensures ok ==> Extended(old(disk.tree), disk.tree, Target(MANIFEST_NAME))
    ensures ok ==> Logged(disk.tree, Target(MANIFEST_NAME), w) && Refreshed(disk.tree, w.entries)
    ensures ok ==> PathsOf(w.entries) == old(PathsOf(w.entries)) + [path]
  {
    hide Sized, Confined, Extended, Refreshed, Described, Written;
    ghost var before, entries := disk.tree, w.entries;
    Unchanged(before, iset{Target(MANIFEST_NAME)});
    var target := RootJoin(MOUNT, path);
    if target == None {
      return false;
    }
    ok := AppendEntry(disk, Target(MANIFEST_NAME), target.value, path, w);
    if ok {
      ghost var e := w.entries[|w.entries| - 1];
      assert w.entries == entries + [e];
      RefreshedMore(before, disk.tree, entries, e);
    }
  }

  /** The lines of the old entries that are carried over. */
  method RefreshOld(disk: Disk, olds: seq<Entry>, w: Writer) returns (ok: bool)
    requires Sized(disk.tree) && forall e | e in olds :: GoodPath(e.path) && Plain(e.path)
    requires Logged(disk.tree, Target(MANIFEST_NAME), w) && Refreshed(disk.tree, w.entries) && w.entries == []
    modifies disk, w
    ensures Sized(disk.tree) && disk.faults >= old(disk.faults)
    ensures Confined(old(disk.tree), disk.tree, iset{Target(MANIFEST_NAME)})
    ensures ok ==> Extended(old(disk.tree), disk.tree, Target(MANIFEST_NAME))
    ensures ok ==> Logged(disk.tree, Target(MANIFEST_NAME), w) && Refreshed(disk.tree, w.entries)
    ensures ok ==> PathsOf(w.entries) == KeptPaths(old(disk.tree), olds)
  {
    hide Sized, Confined, Extended, Refreshed, Included, ShellIncluded;
    ghost var before, manifest := disk.tree, Target(MANIFEST_NAME);
    Unchanged(before, iset{manifest});
    ExtendedStart(before, manifest);
    for i := 0 to |olds|
      invariant Sized(disk.tree) && disk.faults >= old(disk.faults)
      invariant Confined(before, disk.tree, iset{manifest}) && Extended(before, disk.tree, manifest)
      invariant Logged(disk.tree, manifest, w) && Refreshed(disk.tree, w.entries)
      invariant PathsOf(w.entries) == KeptPaths(before, olds[..i])
    {
      var e := olds[i];
      KeepsStay(before, disk.tree, e);
      assert olds[..i + 1][..i] == olds[..i];
      if !ShellIncluded(e.path) && Included(e.path) {
        var target := RootJoin(MOUNT, e.path);
        if target == None {
          return false;
        }
        if disk.StatType(target.value) == 1 {
          ghost var now, entries := disk.tree, w.entries;
          ok := RefreshLine(disk, e.path, w);
          ConfinedAgain(before, now, disk.tree, iset{manifest});
          if !ok {
            return;
          }
          ExtendedThen(before, now, disk.tree, manifest);
        }
      }
    }
    assert olds[..|olds|] == olds;
    return true;
  }

  /** The lines of all new entries. */
  method RefreshNew(disk: Disk, news: seq<Entry>, w: Writer) returns (ok: bool)
    requires Sized(disk.tree) && forall e | e in news :: GoodPath(e.path) && Plain(e.path)
    requires Logged(disk.tree, Target(MANIFEST_NAME), w) && Refreshed(disk.tree, w.entries)
    modifies disk, w
    ensures Sized(disk.tree) && disk.faults >= old(disk.faults)
    ensures Confined(old(disk.tree), disk.tree, iset{Target(MANIFEST_NAME)})
    ensures ok ==> Extended(old(disk.tree), disk.tree, Target(MANIFEST_NAME))
    ensures ok ==> Logged(disk.tree, Target(MANIFEST_NAME), w) && Refreshed(disk.tree, w.entries)
    ensures ok ==> PathsOf(w.entries) == old(PathsOf(w.entries)) + PathsOf(news)
  {
    hide Sized, Confined, Extended, Refreshed;
    ghost var before, manifest := disk.tree, Target(MANIFEST_NAME);
    Unchanged(before, iset{manifest});
    ExtendedStart(before, manifest);
    for i := 0 to |news|
      invariant Sized(disk.tree) && disk.faults >= old(disk.faults)
      invariant Confined(before, disk.tree, iset{manifest}) && Extended(before, disk.tree, manifest)
      invariant Logged(disk.tree, manifest, w) && Refreshed(disk.tree, w.entries)
      invariant PathsOf(w.entries) == old(PathsOf(w.entries)) + PathsOf(news[..i])
    {
      ghost var now, entries := disk.tree, w.entries;
      ok := RefreshLine(disk, news[i].path, w);
      ConfinedAgain(before, now, disk.tree, iset{manifest});
      if !ok {
        return;
      }
      ExtendedThen(before, now, disk.tree, manifest);
      assert news[..i + 1][..i] == news[..i];
    }
    assert news[..|news|] == news;
    return true;
  }

  method RefreshManifest(disk: Disk, olds: seq<Entry>, news: seq<Entry>) returns (ok: bool, ghost entries: seq<Entry>)
    requires Sized(disk.tree)
    requires forall e | e in olds :: GoodPath(e.path) && Plain(e.path)
    requires forall e | e in news :: GoodPath(e.path) && Plain(e.path)
    modifies disk
    ensures Sized(disk.tree) && disk.faults >= old(disk.faults)
    ensures Confined(old(disk.tree), disk.tree, iset{Target(MANIFEST_NAME)})
    ensures ok ==> Refreshed(disk.tree, entries) && PathsOf(entries) == KeptPaths(disk.tree, olds) + PathsOf(news)
    ensures ok ==> forall p | p in disk.tree && p != Target(MANIFEST_NAME) :: p in old(disk.tree)
  {
    hide Sized, Confined, Extended, Refreshed, PathsOf, KeptPaths;
    ghost var before, manifest := disk.tree, Target(MANIFEST_NAME);
    entries := [];
    ok := EmptyFile(disk, Target(MANIFEST_NAME));
    if !ok {
      return;
    }
    ghost var emptied := disk.tree;
    EmptyRefreshed(emptied);
    ExtendedStart(emptied, manifest);
    var w := new Writer();
    ok := RefreshOld(disk, olds, w);
    ghost var now := disk.tree;
    ConfinedAgain(before, emptied, now, iset{manifest});
    if !ok {
      return;
    }
    ok := RefreshNew(disk, news, w);
    ConfinedAgain(before, now, disk.tree, iset{manifest});
    if !ok {
      return;
    }
    ExtendedThen(emptied, now, disk.tree, manifest);
    NothingNew(before, emptied, disk.tree, manifest);
    StillKept(emptied, disk.tree, olds);
    entries := w.entries;
    ok := w.files != 0;
  }

  lemma StillKept(a: Tree, b: Tree, olds: seq<Entry>)
    requires Extended(a, b, Target(MANIFEST_NAME))
    ensures KeptPaths(a, olds) == KeptPaths(b, olds)
  {
    hide Keeps, Extended;
    forall o | o in olds
      ensures Keeps(a, o) <==> Keeps(b, o)
    {
      KeepsStay(a, b, o);
    }
    SameKept(a, b, olds);
  }

  lemma NothingNew(a: Tree, b: Tree, c: Tree, manifest: string)
    requires b == a[manifest := File("")] && Extended(b, c, manifest)
    ensures forall p | p in c && p != manifest :: p in a
  {
  }

  lemma EmptyRefreshed(t: Tree)
    requires IsFile(t, Target(MANIFEST_NAME)) && t[Target(MANIFEST_NAME)].content == ""
    ensures Refreshed(t, [])
  {
    assert Render([]) == "";
    hide Target;
  }

  // ----------------------------------------------------------------- the update

  /** Neither the manifest nor a file that cleaning up removed. */
  predicate Survives(t: Tree, e: Entry) { e.path != MANIFEST_NAME && Target(e.path) in t }

  /** Paths whose files a successful update does not leave as it copied them: the manifest's, and the marks'. */
  predicate Doomed(path: string) { path == MANIFEST_NAME || path == STATE_NAME || path == NEW_NAME }

  predicate NoneDoomed(es: seq<Entry>) { forall e | e in es :: !Doomed(e.path) }

  /**
    The manifest loads, by its own reader, as one line for each old entry kept and then one for each new
    entry, and what it says of files that are there is true, but of the manifest itself.
  */
  ghost predicate Recorded(t: Tree, olds: seq<Entry>, news: seq<Entry>) {
    && IsFile(t, Target(MANIFEST_NAME)) && Load(t[Target(MANIFEST_NAME)].content).Some?
    && var es := Load(t[Target(MANIFEST_NAME)].content).value;
       && PathsOf(es) == KeptPaths(t, olds) + PathsOf(news)
       && forall e | e in es && Survives(t, e) :: Described(t, Target(e.path), e)
  }

  /** The manifest that a tree holds lists a path. */
  ghost predicate ManifestLists(t: Tree, path: string) {
    && IsFile(t, Target(MANIFEST_NAME)) && Load(t[Target(MANIFEST_NAME)].content).Some?
    && Lists(Load(t[Target(MANIFEST_NAME)].content).value, path)
  }

  /** Files of the installation that are not the shell's are still there and still listed. */
  ghost predicate CarriesOver(t0: Tree, t: Tree, olds: seq<Entry>) {
    forall o | o in olds && Keeps(t0, o) :: Keeps(t, o) && ManifestLists(t, o.path)
  }

  /** New files are there as described, obsolete ones are gone, and it is known when the whole verifies. */
  ghost predicate Replaced(t: Tree, olds: seq<Entry>, news: seq<Entry>) {
    && (forall j: nat | IsLast(news, j, |news|) && Survives(t, news[j]) :: Matches(t, news[j]))
    && (forall o | o in olds && Obsolete(o, news) :: !IsFile(t, Target(o.path)))
    && (forall n | n in news && !Doomed(n.path) :: Survives(t, n))
    && (Verified(t, MOUNT) <==> forall n | n in news :: Survives(t, n))
  }

  /** What a successful update promises, whatever the disk and its old manifest held. */
  ghost predicate Updated(t: Tree, olds: seq<Entry>, news: seq<Entry>) {
    Replaced(t, olds, news) && Recorded(t, olds, news)
  }

  lemma NotObsolete(olds: seq<Entry>, news: seq<Entry>, n: Entry)
    requires n in news
    ensures Target(n.path) !in Obsoletes(olds, news)
  {
    hide ShellIncluded, Target;
    assert Lists(news, n.path);
    if Target(n.path) in Obsoletes(olds, news) {
      var o :| o in olds && Obsolete(o, news) && Target(o.path) == Target(n.path);
      TargetsDiffer(o.path, n.path);
    }
  }

  lemma MatchesStill(a: Tree, b: Tree, places: iset<string>, n: Entry)
    requires Matches(a, n) && Confined(a, b, places) && Target(n.path) !in places
    ensures Matches(b, n)
  {
    hide Target, HashOf;
  }

  lemma MatchesKept(b: Tree, c: Tree, e: Entry)
    requires Matches(b, e) && Target(e.path) in c && forall p | p in c :: p in b && c[p] == b[p]
    ensures Matches(c, e)
  {
    hide Target, HashOf;
  }

  /** Refreshing and cleaning up keep what copying and deleting achieved. */
  lemma StillMatches(a: Tree, b: Tree, c: Tree, e: Entry)
    requires Matches(a, e) && Survives(c, e)
    requires Confined(a, b, iset{Target(MANIFEST_NAME)}) && forall p | p in c :: p in b && c[p] == b[p]
    ensures Matches(c, e)
  {
    hide Target, Matches, Confined, MANIFEST_NAME;
    TargetsApart(e.path, MANIFEST_NAME);
    MatchesStill(a, b, iset{Target(MANIFEST_NAME)}, e);
    MatchesKept(b, c, e);
  }

  lemma DeletionKeeps(a: Tree, b: Tree, olds: seq<Entry>, news: seq<Entry>)
    requires LastMatch(a, news, |news|) && Confined(a, b, Obsoletes(olds, news))
    ensures LastMatch(b, news, |news|)
  {
    hide Matches, Obsoletes, Target, Confined;
    forall j: nat | IsLast(news, j, |news|)
      ensures Matches(b, news[j])
    {
      NotObsolete(olds, news, news[j]);
      MatchesStill(a, b, Obsoletes(olds, news), news[j]);
    }
  }

  lemma CarriedSurvives(b: Tree, c: Tree, e: Entry)
    requires Carried(e) && IsFile(b, Target(MANIFEST_NAME)) && Current(b, e)
    requires forall p | p in b && p !in iset{Target(STATE_NAME), Target(NEW_NAME), DRYRUN_MANIFEST} :: p in c
    ensures Survives(c, e)
  {
    assert e.path != MANIFEST_NAME && e.path != STATE_NAME && e.path != NEW_NAME;
    hide Included, ShellIncluded, IsUnder, HashOf;
    TargetsApart(e.path, STATE_NAME);
    TargetsApart(e.path, NEW_NAME);
    DryRunApart(e.path);
    hide Target;
  }

  /** After clean-up a line of the new manifest holds exactly when its file survived. */
  lemma HoldsIffSurvives(b: Tree, c: Tree, e: Entry)
    requires IsFile(b, Target(MANIFEST_NAME)) && Current(b, e) && GoodPath(e.path)
    requires IsFile(c, Target(MANIFEST_NAME)) && forall p | p in c :: p in b && c[p] == b[p]
    ensures EntryHolds(c, MOUNT, e) <==> Survives(c, e)
  {
    assert RootJoin(MOUNT, e.path) == Some(Target(e.path));
    hide HashOf, Target;
  }

  lemma VerifiedIff(b: Tree, c: Tree, es: seq<Entry>, olds: seq<Entry>, news: seq<Entry>)
    requires Refreshed(b, es) && CarriedFrom(es, olds, news) && ListsAll(es, news)
    requires forall p | p in c :: p in b && c[p] == b[p]
    requires forall p | p in b && p !in iset{Target(STATE_NAME), Target(NEW_NAME), DRYRUN_MANIFEST} :: p in c
    ensures Verified(c, MOUNT) <==> forall n | n in news :: Survives(c, n)
  {
    NamesDiffer();
    TargetsApart(MANIFEST_NAME, STATE_NAME);
    TargetsApart(MANIFEST_NAME, NEW_NAME);
    DryRunApart(MANIFEST_NAME);
    assert RootJoin(MOUNT, MANIFEST_NAME) == Some(Target(MANIFEST_NAME));
    hide Target, Render, Included, ShellIncluded, Verified, EntryHolds;
    RenderedVerifies(c, MOUNT, Target(MANIFEST_NAME), es);
    forall e | e in es
      ensures EntryHolds(c, MOUNT, e) <==> Survives(c, e)
      ensures Survives(c, e) || exists n :: n in news && n.path == e.path
    {
      HoldsIffSurvives(b, c, e);
      if Lists(news, e.path) {
        var n :| n in news && n.path == e.path;
      } else {
        CarriedSurvives(b, c, e);
      }
    }
    hide Current;
    if forall n | n in news :: Survives(c, n) {
    } else {
      var n :| n in news && !Survives(c, n);
      assert Lists(es, n.path);
    }
  }

  ghost predicate NoStateNames(news: seq<Entry>) { forall n | n in news :: !IsStateName(n.path) }

  /** Copying, deleting and refreshing leave the other state files alone, unless an entry names one. */
  lemma StateApart(a: Tree, b: Tree, places: iset<string>, olds: seq<Entry>, news: seq<Entry>, name: string)
    requires IsStateName(name) && name != MANIFEST_NAME && NoStateNames(news)
    requires Confined(a, b, places)
    requires places == Targets(news) || places == Obsoletes(olds, news) || places == iset{Target(MANIFEST_NAME)}
    ensures Target(name) in a ==> Target(name) in b && b[Target(name)] == a[Target(name)]
  {
    TargetsApart(name, MANIFEST_NAME);
    if Target(name) in Targets(news) {
      var n :| n in news && Target(n.path) == Target(name);
      TargetsDiffer(n.path, name);
    }
    if Target(name) in Obsoletes(olds, news) {
      var o :| o in olds && Obsolete(o, news) && Target(o.path) == Target(name);
      TargetsDiffer(o.path, name);
      ShellNotManifest(o.path);
    }
    hide Target, Lists, ShellIncluded;
  }

  lemma {:induction false} RenderedLong(es: seq<Entry>)
    requires forall e | e in es :: Written(e)
    ensures |Render(es)| >= 69 * |es|
    decreases |es|
  {
    if es != [] {
      RenderedLong(es[1..]);
      assert Written(es[0]) && |LineOf(es[0])| >= 68;
    }
  }

  /** A manifest refreshed is never too long to be loaded. */
  lemma RefreshedLoads(t: Tree, es: seq<Entry>)
    requires Refreshed(t, es)
    ensures Load(t[Target(MANIFEST_NAME)].content) == Some(es)
  {
    hide Current, Render, Written, Plain, Load, Target;
    RenderedLong(es);
    LoadExact(es);
  }

  lemma CleaningKeeps(b: Tree, c: Tree, o: Entry)
    requires forall p | p in c :: p in b && c[p] == b[p]
    requires forall p | p in b && p !in iset{Target(STATE_NAME), Target(NEW_NAME), DRYRUN_MANIFEST} :: p in c
    ensures Keeps(b, o) <==> Keeps(c, o)
  {
    if Carried(o) {
      assert o.path != STATE_NAME && o.path != NEW_NAME;
      hide Included, ShellIncluded;
      TargetsApart(o.path, STATE_NAME);
      TargetsApart(o.path, NEW_NAME);
      DryRunApart(o.path);
      hide Target;
    }
  }

  lemma RecordedHere(b: Tree, c: Tree, es: seq<Entry>, olds: seq<Entry>, news: seq<Entry>)
    requires Refreshed(b, es) && PathsOf(es) == KeptPaths(b, olds) + PathsOf(news)
    requires forall p | p in c :: p in b && c[p] == b[p]
    requires forall p | p in b && p !in iset{Target(STATE_NAME), Target(NEW_NAME), DRYRUN_MANIFEST} :: p in c
    ensures Recorded(c, olds, news)
  {
    NamesDiffer();
    TargetsApart(MANIFEST_NAME, STATE_NAME);
    TargetsApart(MANIFEST_NAME, NEW_NAME);
    DryRunApart(MANIFEST_NAME);
    RefreshedLoads(b, es);
    hide Target, Keeps, Load, Render, Written, Plain, PathsOf, KeptPaths;
    forall o | o in olds
      ensures Keeps(b, o) <==> Keeps(c, o)
    {
      CleaningKeeps(b, c, o);
    }
    SameKept(b, c, olds);
  }

  lemma ReplacedDone(copied: Tree, deleted: Tree, b: Tree, c: Tree, es: seq<Entry>, olds: seq<Entry>, news: seq<Entry>)
    requires LastMatch(copied, news, |news|) && Confined(copied, deleted, Obsoletes(olds, news))
    requires forall o | o in olds && Obsolete(o, news) :: !IsFile(deleted, Target(o.path))
    requires Confined(deleted, b, iset{Target(MANIFEST_NAME)}) && forall p | p in b && p != Target(MANIFEST_NAME) :: p in deleted
    requires Refreshed(b, es) && CarriedFrom(es, olds, news) && ListsAll(es, news)
    requires forall p | p in c :: p in b && c[p] == b[p]
    requires forall p | p in b && p !in iset{Target(STATE_NAME), Target(NEW_NAME), DRYRUN_MANIFEST} :: p in c
    ensures Replaced(c, olds, news)
  {
    hide Target, Verified, Included, Obsoletes, Matches, Survives, Current, Render, Written, Plain;
    VerifiedIff(b, c, es, olds, news);
    DeletionKeeps(copied, deleted, olds, news);
    forall j: nat | IsLast(news, j, |news|) && Survives(c, news[j])
      ensures Matches(c, news[j])
    {
      StillMatches(deleted, b, c, news[j]);
    }
    forall o | o in olds && Obsolete(o, news)
      ensures !IsFile(c, Target(o.path))
    {
      ShellNotManifest(o.path);
      TargetsApart(o.path, MANIFEST_NAME);
    }
    forall n | n in news && !Doomed(n.path)
      ensures Survives(c, n)
    {
      var e :| e in es && e.path == n.path;
      OrdinarySurvives(b, c, e, n);
    }
  }

  lemma UpdateDone(copied: Tree, deleted: Tree, b: Tree, c: Tree, es: seq<Entry>, olds: seq<Entry>, news: seq<Entry>)
    requires LastMatch(copied, news, |news|) && Confined(copied, deleted, Obsoletes(olds, news))
    requires forall o | o in olds && Obsolete(o, news) :: !IsFile(deleted, Target(o.path))
    requires Confined(deleted, b, iset{Target(MANIFEST_NAME)}) && forall p | p in b && p != Target(MANIFEST_NAME) :: p in deleted
    requires Refreshed(b, es) && PathsOf(es) == KeptPaths(b, olds) + PathsOf(news)
    requires forall p | p in c :: p in b && c[p] == b[p]
    requires forall p | p in b && p !in iset{Target(STATE_NAME), Target(NEW_NAME), DRYRUN_MANIFEST} :: p in c
    ensures Updated(c, olds, news)
  {
    LinesList(b, es, olds, news);
    RecordedHere(b, c, es, olds, news);
    hide LastMatch, Confined, Refreshed, CarriedFrom, ListsAll, PathsOf, KeptPaths, Replaced, Recorded, Obsolete, Target, IsFile;
    ReplacedDone(copied, deleted, b, c, es, olds, news);
  }

  lemma ShellNotManifest(path: string)
    requires ShellIncluded(path)
    ensures !IsStateName(path)
  {
  }

  lemma OrdinarySurvives(b: Tree, c: Tree, e: Entry, n: Entry)
    requires IsFile(b, Target(MANIFEST_NAME)) && Current(b, e) && !Doomed(e.path) && n.path == e.path
    requires forall p | p in b && p !in iset{Target(STATE_NAME), Target(NEW_NAME), DRYRUN_MANIFEST} :: p in c
    ensures Survives(c, n)
  {
    hide HashOf;
    TargetsApart(e.path, STATE_NAME);
    TargetsApart(e.path, NEW_NAME);
    DryRunApart(e.path);
    hide Target;
  }

  lemma CarriedIsNeither(o: Entry)
    requires Carried(o)
    ensures !IsStateName(o.path) && !ShellIncluded(o.path)
  {
  }

  lemma NotTarget(path: string, news: seq<Entry>)
    requires !Lists(news, path)
    ensures Target(path) !in Targets(news)
  {
    hide Target;
    if Target(path) in Targets(news) {
      var n :| n in news && Target(n.path) == Target(path);
      TargetsDiffer(n.path, path);
    }
  }

  lemma NotShell(path: string, olds: seq<Entry>, news: seq<Entry>)
    requires !ShellIncluded(path)
    ensures Target(path) !in Obsoletes(olds, news)
  {
    hide Target, ShellIncluded, Lists;
    if Target(path) in Obsoletes(olds, news) {
      var o :| o in olds && Obsolete(o, news) && Target(o.path) == Target(path);
      TargetsDiffer(o.path, path);
    }
  }

  /** An old entry that is carried over lies apart from what an update touches, unless the new ones list it too. */
  lemma CarriedApart(o: Entry, olds: seq<Entry>, news: seq<Entry>)
    requires Carried(o) && !Lists(news, o.path)
    ensures Target(o.path) !in Touched(olds, news)
  {
    CarriedIsNeither(o);
    hide Carried, ShellIncluded, Lists, Obsoletes, Targets, Target, IsStateName;
    NotTarget(o.path, news);
    NotShell(o.path, olds, news);
    NotStatePlace(o.path);
    hide StatePlaces;
  }

  lemma NotStatePlace(path: string)
    requires !IsStateName(path)
    ensures Target(path) !in StatePlaces()
  {
    hide Target, MANIFEST_NAME, NEW_NAME, PREV_NAME, STATE_NAME;
    TargetsApart(path, MANIFEST_NAME);
    TargetsApart(path, NEW_NAME);
    TargetsApart(path, PREV_NAME);
    TargetsApart(path, STATE_NAME);
    DryRunApart(path);
  }

  /**
    Main result: an old entry of the installation that the shell does not own, and whose file was there
    before the update, has its file and its line after it.
  */
  lemma CarriesAll(t0: Tree, t: Tree, olds: seq<Entry>, news: seq<Entry>)
    requires Updated(t, olds, news) && Confined(t0, t, Touched(olds, news))
    ensures CarriesOver(t0, t, olds)
  {
    hide Carried, Touched, Verified, Load, Obsoletes, Targets;
    forall o | o in olds && Keeps(t0, o)
      ensures Keeps(t, o) && ManifestLists(t, o.path)
    {
      CarriedFile(t0, t, olds, news, o);
      ListedAgain(t, olds, news, o);
    }
  }

  lemma CarriedFile(t0: Tree, t: Tree, olds: seq<Entry>, news: seq<Entry>, o: Entry)
    requires Updated(t, olds, news) && Confined(t0, t, Touched(olds, news)) && Keeps(t0, o)
    ensures Keeps(t, o)
  {
    assert !Doomed(o.path);
    hide Included, ShellIncluded, Touched, Verified, HashOf, Doomed, Recorded, Target;
    if Lists(news, o.path) {
      var n :| n in news && n.path == o.path;
      var j :| 0 <= j < |news| && news[j] == n;
      SomeLast(news, j);
      var k: nat :| IsLast(news, k, |news|) && news[k].path == n.path;
      assert news[k] in news && Survives(t, news[k]) && Matches(t, news[k]);
    } else {
      CarriedApart(o, olds, news);
    }
  }

  lemma ListedAgain(t: Tree, olds: seq<Entry>, news: seq<Entry>, o: Entry)
    requires Recorded(t, olds, news) && o in olds && Keeps(t, o)
    ensures ManifestLists(t, o.path)
  {
    hide Target, Keeps, Load, Survives, PathsOf, KeptPaths, Lists;
    var es := Load(t[Target(MANIFEST_NAME)].content).value;
    LinesList(t, es, olds, news);
  }

  /**
    Main result: once the marks are cleared, the updated disk verifies exactly when no new entry
    names the manifest or a mark. That can be told from the new entries, before anything is copied.
  */
  lemma VerifiedExactly(t: Tree, olds: seq<Entry>, news: seq<Entry>)
    requires Updated(t, olds, news) && !IsFile(t, Target(STATE_NAME)) && !IsFile(t, Target(NEW_NAME))
    ensures Verified(t, MOUNT) <==> NoneDoomed(news)
  {
    hide Verified, Target, Obsolete, HashOf;
    forall n | n in news && Doomed(n.path)
      ensures !Survives(t, n)
    {
      var j :| 0 <= j < |news| && news[j] == n;
      SomeLast(news, j);
      var k: nat :| IsLast(news, k, |news|) && news[k].path == n.path;
      assert Survives(t, news[k]) ==> Matches(t, news[k]);
    }
  }

  // ------------------------------------------------------------------- planning

  /** An entry for which the update has nothing to copy. */
  predicate Settled(t: Tree, olds: seq<Entry>, e: Entry) {
    var was := FindEntry(olds, e.path);
    was.Some? && was.value.size == e.size && was.value.hash == e.hash && Matches(t, e)
  }

  function CountAdded(olds: seq<Entry>, news: seq<Entry>): nat {
    if news == [] then 0
    else CountAdded(olds, news[..|news| - 1]) + if FindEntry(olds, news[|news| - 1].path) == None then 1 else 0
  }

  function CountSettled(t: Tree, olds: seq<Entry>, news: seq<Entry>): nat {
    if news == [] then 0
    else CountSettled(t, olds, news[..|news| - 1]) + if Settled(t, olds, news[|news| - 1]) then 1 else 0
  }

  /** The plan counts every new entry once, and without failing system calls counts it rightly. */
  method Plan(disk: Disk, olds: seq<Entry>, news: seq<Entry>) returns (added: nat, updated: nat, settled: nat)
    requires Sized(disk.tree) && forall e | e in news :: GoodPath(e.path)
    modifies disk
    ensures disk.tree == old(disk.tree) && disk.faults >= old(disk.faults)
    ensures added + updated + settled == |news|
    ensures disk.faults == old(disk.faults) ==> settled == CountSettled(disk.tree, olds, news)
    ensures disk.faults == old(disk.faults) ==> added == CountAdded(olds, news)
  {
    hide Matches, FindEntry, Sized;
    added, updated, settled := 0, 0, 0;
    for i := 0 to |news|
      invariant disk.tree == old(disk.tree) && disk.faults >= old(disk.faults)
      invariant added + updated + settled == i
      invariant disk.faults == old(disk.faults) ==> settled == CountSettled(disk.tree, olds, news[..i])
      invariant disk.faults == old(disk.faults) ==> added == CountAdded(olds, news[..i])
    {
      assert news[..i + 1][..i] == news[..i];
      var was := FindEntry(olds, news[i].path);
      var copy := PlanCopy(disk, news[i], was);
      if !copy {
        settled := settled + 1;
      } else if was == None {
        added := added + 1;
      } else {
        updated := updated + 1;
      }
    }
    assert news[..|news|] == news;
  }

  // -------------------------------------------------------------------- the run

  lemma ShellApart()
    ensures Apart("/", true, DRYRUN_MANIFEST)
  {
    forall p | ShellIncluded(p)
      ensures p != DRYRUN_MANIFEST
    {
      assert IsUnder(DRYRUN_MANIFEST, "/temp");
    }
  }

  /** A scan that changed only its own manifest was as true and complete of the tree before. */
  lemma ScannedBefore(a: Tree, b: Tree, es: seq<Entry>)
    requires Confined(a, b, iset{DRYRUN_MANIFEST}) && IsFile(b, DRYRUN_MANIFEST)
    requires DRYRUN_MANIFEST in a ==> a[DRYRUN_MANIFEST].File?
    ensures Kept(b, "/", true, es) ==> Kept(a, "/", true, es)
    ensures Covers(b, "/", true, "/", es) ==> Covers(a, "/", true, "/", es)
  {
    ShellApart();
    hide HashOf, Written, Wanted, Lists, PathOf;
    if Covers(b, "/", true, "/", es) {
      forall names | Reaches(a, "/", "/", names) && Wanted(true, PathOf("/", names))
        ensures Lists(es, PathOf("/", names))
      {
        ReachesSame(a, b, DRYRUN_MANIFEST, "/", "/", names);
      }
    }
    hide Reaches;
  }

  lemma TouchedParts(olds: seq<Entry>, news: seq<Entry>)
    ensures iset{DRYRUN_MANIFEST} <= StatePlaces() <= Touched(olds, news)
    ensures Targets(news) <= Touched(olds, news) && Obsoletes(olds, news) <= Touched(olds, news)
    ensures iset{Target(MANIFEST_NAME)} <= Touched(olds, news)
  {
    hide Target, Targets, Obsoletes;
  }

  lemma CleanedConfined(a: Tree, b: Tree)
    requires forall p | p in b :: p in a && b[p] == a[p]
    requires forall p | p in a && p !in iset{Target(STATE_NAME), Target(NEW_NAME), DRYRUN_MANIFEST} :: p in b
    ensures Confined(a, b, StatePlaces())
  {
    hide Target;
  }

  /** The entries of the manifest found on the disk; none if there is none. */
  predicate OldManifest(t: Tree, olds: seq<Entry>) {
    if IsFile(t, Target(MANIFEST_NAME)) then Load(t[Target(MANIFEST_NAME)].content) == Some(olds) else olds == []
  }

  lemma OldManifestBefore(a: Tree, b: Tree, olds: seq<Entry>)
    requires Confined(a, b, iset{DRYRUN_MANIFEST}) && OldManifest(b, olds)
    ensures OldManifest(a, olds)
  {
    DryRunApart(MANIFEST_NAME);
    hide Load, Target;
    OtherFile(a, b, Target(MANIFEST_NAME));
  }

  lemma OldPaths(t: Tree, olds: seq<Entry>)
    requires OldManifest(t, olds)
    ensures forall e | e in olds :: GoodPath(e.path) && Plain(e.path)
  {
    if olds != [] { LoadedPaths(t[Target(MANIFEST_NAME)].content, olds); }
    hide Load, Plain;
  }

  /** The new manifest is made and both manifests loaded; only the former is written. */
  method Prepare(disk: Disk) returns (ok: bool, olds: seq<Entry>, news: seq<Entry>, ghost scanned: seq<Entry>)
    requires Sized(disk.tree)
    modifies disk
    ensures Sized(disk.tree) && disk.faults >= old(disk.faults)
    ensures Confined(old(disk.tree), disk.tree, iset{DRYRUN_MANIFEST})
    ensures ok ==> Kept(old(disk.tree), "/", true, scanned) && Load(Render(scanned)) == Some(news)
    ensures ok && disk.faults == old(disk.faults) ==> Covers(old(disk.tree), "/", true, "/", scanned)
    ensures ok ==> OldManifest(old(disk.tree), olds)
  {
    ghost var before := disk.tree;
    ShellApart();
    hide Sized, Confined, Kept, Covers, Apart, Load, Render, Target, DRYRUN_MANIFEST, MANIFEST_NAME;
    olds, news := [], [];
    ok, scanned := GenerateManifest(disk, "/", DRYRUN_MANIFEST, true);
    if !ok {
      return;
    }
    ScannedBefore(before, disk.tree, scanned);
    var found := LoadManifest(disk, Target(MANIFEST_NAME), true);
    if found == None {
      return false, [], [], scanned;
    }
    assert OldManifest(disk.tree, found.value);
    hide OldManifest;
    OldManifestBefore(before, disk.tree, found.value);
    olds := found.value;
    var made := LoadManifest(disk, DRYRUN_MANIFEST, false);
    if made == None || made.value == [] {
      return false, olds, [], scanned;
    }
    news := made.value;
  }

  class Installer {
    const disk: Disk
    var oldEntries: seq<Entry>
    var newEntries: seq<Entry>

    constructor (disk: Disk)
      ensures this.disk == disk && oldEntries == [] && newEntries == []
    {
      this.disk, oldEntries, newEntries := disk, [], [];
    }

    /**
      Main result. An update, successful or not, changes nothing but the targets of new entries, those
      of obsolete ones and its own files; a dry run only its manifest. When it succeeds the new entries
      are those of the scanned sources, and the disk is as an update promises.
    */
    method UpdateShell(dryRun: bool) returns (ok: bool, ghost scanned: seq<Entry>)
      requires Sized(disk.tree)
      modifies this, disk
      ensures Sized(disk.tree) && disk.faults >= old(disk.faults)
      ensures Confined(old(disk.tree), disk.tree, if dryRun then iset{DRYRUN_MANIFEST} else Touched(oldEntries, newEntries))
      ensures ok ==> Kept(old(disk.tree), "/", true, scanned) && Load(Render(scanned)) == Some(newEntries)
      ensures ok && disk.faults == old(disk.faults) ==> Covers(old(disk.tree), "/", true, "/", scanned)
      ensures ok ==> OldManifest(old(disk.tree), oldEntries)
      ensures ok && !dryRun ==> Updated(disk.tree, oldEntries, newEntries)
      ensures ok && !dryRun ==> CarriesOver(old(disk.tree), disk.tree, oldEntries)
      ensures ok && !dryRun ==> Finished(old(disk.tree), disk.tree, newEntries, disk.faults == old(disk.faults))
      ensures ok && !dryRun && disk.faults == old(disk.faults) ==> (Verified(disk.tree, MOUNT) <==> NoneDoomed(newEntries))
      ensures !ok && NoStateNames(newEntries) ==>
                Confined(old(disk.tree), disk.tree, MarkPlaces() + iset{DRYRUN_MANIFEST}) || IsMarked(disk.tree)
    {
      hide Sized, Confined, Kept, Covers, Load, Render, Target, Touched, StatePlaces, Updated, OldManifest,
           Finished, NoStateNames, IsMarked, MarkPlaces, Verified, NoneDoomed, CarriesOver;
      ghost var before := disk.tree;
      Unchanged(before, iset{DRYRUN_MANIFEST});
      TouchedParts(oldEntries, newEntries);
      ConfinedWithin(before, before, iset{DRYRUN_MANIFEST}, Touched(oldEntries, newEntries));
      ConfinedWithin(before, before, iset{DRYRUN_MANIFEST}, MarkPlaces() + iset{DRYRUN_MANIFEST});
      var mounted := disk.Granted();  // a disk is there, is not the one booted from, and mounts
      if !mounted {
        return false, [];
      }
      var olds, news;
      ok, olds, news, scanned := Prepare(disk);
      if ok {
        oldEntries, newEntries := olds, news;
      }
      TouchedParts(oldEntries, newEntries);
      ConfinedWithin(before, disk.tree, iset{DRYRUN_MANIFEST}, Touched(oldEntries, newEntries));
      ConfinedWithin(before, disk.tree, iset{DRYRUN_MANIFEST}, MarkPlaces() + iset{DRYRUN_MANIFEST});
      if !ok {
        return;
      }
      LoadedPaths(Render(scanned), newEntries);
      OldPaths(before, oldEntries);
      var added, updated, settled := Plan(disk, oldEntries, newEntries);
      var removed;
      ok, removed := DeleteObsolete(disk, oldEntries, newEntries, true);
      if !ok || dryRun {
        return;
      }
      ghost var now, faults := disk.tree, disk.faults;
      ok := Apply();
      ConfinedAgain(before, now, disk.tree, Touched(oldEntries, newEntries));
      AfterDryRun(before, now, disk.tree, newEntries, disk.faults == old(disk.faults), disk.faults == faults);
      if ok { CarriesAll(before, disk.tree, oldEntries, newEntries); }
      if ok && disk.faults == faults { MarksGone(now, disk.tree, oldEntries, newEntries); }
    }

    /**
      The steps that change the installed system. A step that fails leaves the mark of an update under
      way on the disk, unless nothing but the marking itself was begun.
    */
    method Apply() returns (ok: bool)
      requires Sized(disk.tree)
      requires forall e | e in newEntries :: GoodPath(e.path) && Plain(e.path)
      requires forall e | e in oldEntries :: GoodPath(e.path) && Plain(e.path)
      modifies disk
      ensures Sized(disk.tree) && disk.faults >= old(disk.faults)
      ensures Confined(old(disk.tree), disk.tree, Touched(oldEntries, newEntries))
      ensures ok ==> Updated(disk.tree, oldEntries, newEntries)
      ensures !ok && NoStateNames(newEntries) ==> Confined(old(disk.tree), disk.tree, MarkPlaces()) || IsMarked(disk.tree)
      ensures ok ==> Finished(old(disk.tree), disk.tree, newEntries, disk.faults == old(disk.faults))
    {
      hide Sized, Confined, Target, Touched, Targets, Obsoletes, LastMatch, Refreshed, Updated, PathsOf, KeptPaths,
           Lists, NoStateNames, Finished, MarkPlaces, PREV_NAME;
      var olds, news := oldEntries, newEntries;
      ghost var before := disk.tree;
      ok := WriteStateFiles(disk);
      ghost var marked := disk.tree;
      MarkedParts(before, marked, olds, news);
      if !ok {
        return;
      }
      ok := CopyAll(disk, olds, news);
      ghost var copied := disk.tree;
      StepTaken(before, marked, copied, Targets(news), olds, news);
      if !ok {
        return;
      }
      var removed;
      ok, removed := DeleteObsolete(disk, olds, news, false);
      ghost var deleted := disk.tree;
      StepTaken(before, copied, deleted, Obsoletes(olds, news), olds, news);
      if !ok {
        return;
      }
      ghost var entries;
      ok, entries := RefreshManifest(disk, olds, news);
      ghost var refreshed := disk.tree;
      StepTaken(before, deleted, refreshed, iset{Target(MANIFEST_NAME)}, olds, news);
      if !ok {
        return;
      }
      CleanUp(disk);
      CleanedUp(before, refreshed, disk.tree, olds, news, disk.faults == old(disk.faults));
      UpdateDone(copied, deleted, refreshed, disk.tree, entries, olds, news);
    }
  }

  /** At the end the manifest before the update is kept, and the marks are gone if all went well. */
  ghost predicate Finished(t0: Tree, t: Tree, news: seq<Entry>, noFault: bool) {
    && (NoStateNames(news) ==> KeepsPrevious(t0, t))
    && (noFault ==> !IsFile(t, Target(STATE_NAME)) && !IsFile(t, Target(NEW_NAME)))
  }

  ghost predicate KeepsPrevious(t0: Tree, t: Tree) {
    IsFile(t0, Target(MANIFEST_NAME)) ==> Target(PREV_NAME) in t && t[Target(PREV_NAME)] == t0[Target(MANIFEST_NAME)]
  }

  lemma MarksGone(a: Tree, b: Tree, olds: seq<Entry>, news: seq<Entry>)
    requires Updated(b, olds, news) && Finished(a, b, news, true)
    ensures Verified(b, MOUNT) <==> NoneDoomed(news)
  {
    hide Target, Updated, Verified, NoneDoomed, NoStateNames;
    VerifiedExactly(b, olds, news);
  }

  lemma MarkedParts(a: Tree, b: Tree, olds: seq<Entry>, news: seq<Entry>)
    requires Confined(a, b, MarkPlaces())
    ensures Confined(a, b, Touched(olds, news))
  {
    hide Target, Targets, Obsoletes;
  }

  /** A step confined to one kind of place, after the marking. */
  lemma StepTaken(a: Tree, b: Tree, c: Tree, places: iset<string>, olds: seq<Entry>, news: seq<Entry>)
    requires Confined(a, b, Touched(olds, news)) && Confined(b, c, places)
    requires places == Targets(news) || places == Obsoletes(olds, news) || places == iset{Target(MANIFEST_NAME)}
    ensures Confined(a, c, Touched(olds, news))
    ensures NoStateNames(news) && IsMarked(b) ==> IsMarked(c)
    ensures NoStateNames(news) && KeepsPrevious(a, b) ==> KeepsPrevious(a, c)
  {
    TouchedParts(olds, news);
    NamesDiffer();
    hide Target, Targets, Obsoletes, Touched;
    if NoStateNames(news) {
      StateApart(b, c, places, olds, news, STATE_NAME);
      StateApart(b, c, places, olds, news, PREV_NAME);
    }
    ConfinedWithin(b, c, places, Touched(olds, news));
    ConfinedAgain(a, b, c, Touched(olds, news));
  }

  lemma CleanedUp(a: Tree, b: Tree, c: Tree, olds: seq<Entry>, news: seq<Entry>, noFault: bool)
    requires Confined(a, b, Touched(olds, news))
    requires forall p | p in c :: p in b && c[p] == b[p]
    requires forall p | p in b && p !in iset{Target(STATE_NAME), Target(NEW_NAME), DRYRUN_MANIFEST} :: p in c
    requires noFault ==> !IsFile(c, Target(STATE_NAME)) && !IsFile(c, Target(NEW_NAME))
    requires NoStateNames(news) ==> KeepsPrevious(a, b)
    ensures Confined(a, c, Touched(olds, news))
    ensures Finished(a, c, news, noFault)
  {
    TouchedParts(olds, news);
    NamesDiffer();
    TargetsApart(PREV_NAME, STATE_NAME);
    TargetsApart(PREV_NAME, NEW_NAME);
    DryRunApart(PREV_NAME);
    CleanedConfined(b, c);
    hide Target, Touched, StatePlaces, NoStateNames;
    ConfinedWithin(b, c, StatePlaces(), Touched(olds, news));
    ConfinedAgain(a, b, c, Touched(olds, news));
  }

  lemma AfterDryRun(a: Tree, b: Tree, c: Tree, news: seq<Entry>, sinceA: bool, sinceB: bool)
    requires Confined(a, b, iset{DRYRUN_MANIFEST}) && (sinceA ==> sinceB)
    ensures Confined(b, c, MarkPlaces()) ==> Confined(a, c, MarkPlaces() + iset{DRYRUN_MANIFEST})
    ensures Finished(b, c, news, sinceB) ==> Finished(a, c, news, sinceA)
  {
    DryRunApart(MANIFEST_NAME);
    OtherFile(a, b, Target(MANIFEST_NAME));
    hide Target, NoStateNames;
  }

  lemma OtherFile(a: Tree, b: Tree, path: string)
    requires Confined(a, b, iset{DRYRUN_MANIFEST}) && path != DRYRUN_MANIFEST
    ensures IsFile(a, path) <==> IsFile(b, path)
    ensures IsFile(a, path) ==> b[path] == a[path]
  {
  }

  lemma LoadedPaths(text: string, es: seq<Entry>)
    requires Load(text) == Some(es)
    ensures forall e | e in es :: GoodPath(e.path) && Plain(e.path)
  {
    LoadedPlain(text);
    hide Load, Plain;
  }

  // ------------------------------------------------------- updates of plain names

  lemma ScannedFits(scanned: seq<Entry>, news: seq<Entry>)
    requires Load(Render(scanned)) == Some(news) && forall e | e in scanned :: Written(e) && Plain(e.path)
    ensures news == scanned
  {
    LinesOfRender(scanned);
    LoadExact(scanned);
    hide Lines, Render, Parse, Written, Plain;
  }

  lemma {:induction false} SomeLast(es: seq<Entry>, j: nat)
    requires j < |es|
    ensures exists k: nat :: IsLast(es, k, |es|) && es[k].path == es[j].path
    decreases |es| - j
  {
    if !IsLast(es, j, |es|) {
      var k :| j < k < |es| && es[k].path == es[j].path;
      SomeLast(es, k);
    }
  }

  lemma AllMatch(t0: Tree, t: Tree, olds: seq<Entry>, news: seq<Entry>, e: Entry)
    requires Kept(t0, "/", true, news) && Updated(t, olds, news) && e in news
    ensures Matches(t, e)
  {
    hide ShellIncluded, Included, HashOf, Target, Verified, Recorded, Matches;
    var j :| 0 <= j < |news| && news[j] == e;
    SomeLast(news, j);
    var k: nat :| IsLast(news, k, |news|) && news[k].path == e.path;
    ShellNotManifest(news[k].path);
    assert news[k] in news && Survives(t, news[k]) && Matches(t, news[k]);
    SameFileSameEntry(t0, news[k], e);
  }

  lemma SameFileSameEntry(t: Tree, a: Entry, b: Entry)
    requires a.path == b.path && Described(t, a.path, a) && Described(t, b.path, b)
    ensures a == b
  {
    hide HashOf;
  }

  /**
    Main result: when no scanned path holds a bar or a line feed, a successful update leaves a disk
    that verifies, every scanned source with its size and digest both at its source and on the disk.
  */
  lemma PlainUpdate(t0: Tree, t: Tree, scanned: seq<Entry>, olds: seq<Entry>, news: seq<Entry>)
    requires Kept(t0, "/", true, scanned) && Load(Render(scanned)) == Some(news)
    requires forall e | e in scanned :: Plain(e.path)
    requires Updated(t, olds, news) && Confined(t0, t, Touched(olds, news))
    ensures news == scanned && Verified(t, MOUNT)
    ensures forall e | e in scanned :: Matches(t, e) && Described(t, e.path, e)
  {
    ScannedFits(scanned, news);
    hide Load, Render, Verified, Touched, Plain;
    forall e | e in scanned
      ensures Matches(t, e) && Described(t, e.path, e) && Survives(t, e)
    {
      AllMatch(t0, t, olds, news, e);
      ShellNotManifest(e.path);
      SourceApart(olds, news, e.path);
      hide Matches, HashOf, Updated;
    }
    hide Described, Matches, Kept;
  }

  lemma SourceApart(olds: seq<Entry>, news: seq<Entry>, path: string)
    requires ShellIncluded(path)
    ensures path !in Touched(olds, news)
  {
    if path in Touched(olds, news) {
      TouchedBelow(olds, news, path);
      assert IsUnder(path, "/temp");
    }
  }

  lemma TouchedBelow(olds: seq<Entry>, news: seq<Entry>, path: string)
    requires path in Touched(olds, news)
    ensures "/temp/" <= path
  {
    if path != DRYRUN_MANIFEST {
      TouchedIsTarget(olds, news, path);
      var p :| path == Target(p);
      assert MOUNT[..6] == "/temp/" && path[..6] == MOUNT[..6];
    } else {
      assert DRYRUN_MANIFEST[..6] == "/temp/";
    }
  }

  lemma TouchedIsTarget(olds: seq<Entry>, news: seq<Entry>, path: string)
    requires path in Touched(olds, news) && path != DRYRUN_MANIFEST
    ensures exists p :: path == Target(p)
  {
    hide ShellIncluded, Lists, Target;
  }

  /**
    Main result: an update whose new entries lie in the shell's areas keeps everything else on the
    disk, its own four files apart: home directories, accounts, packages and untracked files.
  */
  lemma KeepsTheRest(olds: seq<Entry>, news: seq<Entry>, path: string)
    requires forall n | n in news :: ShellIncluded(n.path)
    requires !ShellIncluded(path) && !IsStateName(path)
    ensures Target(path) !in Touched(olds, news)
  {
    hide ShellIncluded;
    DryRunApart(path);
    TargetsApart(path, MANIFEST_NAME);
    TargetsApart(path, NEW_NAME);
    TargetsApart(path, PREV_NAME);
    TargetsApart(path, STATE_NAME);
    if Target(path) in Targets(news) {
      var n :| n in news && Target(n.path) == Target(path);
      TargetsDiffer(n.path, path);
    }
    if Target(path) in Obsoletes(olds, news) {
      var o :| o in olds && Obsolete(o, news) && Target(o.path) == Target(path);
      TargetsDiffer(o.path, path);
    }
    hide Target;
  }

  lemma RestExamples(name: string)
    ensures !ShellIncluded("/home" + "/" + name) && !ShellIncluded("/system/pkg" + "/" + name)
    ensures !ShellIncluded("/system/users.db") && !ShellIncluded("/kernel.elf")
  {
    assert IsUnder("/home" + "/" + name, "/home") && IsUnder("/system/pkg" + "/" + name, "/system/pkg");
  }
}
