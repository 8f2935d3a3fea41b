/** Manifests on disk: what belongs in one, scanning a tree into one, and loading one. */
module ManifestFile {
  import opened Options
  import opened Manifest
  import opened InstallFiles
  import opened InstallCopy
  import opened PathPrefix
  import Numerals

  const DEPTH_MAX: nat := 32
  const LINE_MAX: nat := PATH_MAX + HASH_LENGTH + 64

  // ----------------------------------------------------------------- path sets

  /** Areas no manifest describes. */
  predicate Skipped(path: string) {
    || IsUnder(path, "/proc") || IsUnder(path, "/dev") || IsUnder(path, "/temp")
    || IsUnder(path, "/home") || IsUnder(path, "/system/pkg")
  }

  /** Paths that a manifest of a whole installation describes. */
  predicate Included(path: string) {
    && path != "" && path[0] == '/'
    && path != "/system/install_manifest.db" && path != "/system/install_manifest.new"
    && path != "/system/install_manifest.prev" && path != "/system/update_state.db"
    && path != "/system/users.db" && path != "/kernel.elf"
    && !Skipped(path)
    && (|| IsUnder(path, "/boot") || IsUnder(path, "/system") || IsUnder(path, "/shell")
        || IsUnder(path, "/driver") || IsUnder(path, "/limine")
        || path == "/limine.conf" || path == "/limine-bios.sys")
  }

  /** Paths that a shell update replaces. */
  predicate ShellIncluded(path: string) {
    Included(path) && (IsUnder(path, "/shell") || IsUnder(path, "/driver") || IsUnder(path, "/system"))
  }

  predicate Wanted(shell: bool, path: string) { if shell then ShellIncluded(path) else Included(path) }

  /** Where a logical path lies under a root. */
  function RealPath(root: string, logical: string): string {
    if root == "/" then logical else if logical == "/" then root else root + logical
  }

  function RootJoin(root: string, logical: string): Option<string> {
    if logical == "" || logical[0] != '/' then None
    else
      var joined := if root == "/" then logical else root + logical;
      if |joined| < PATH_MAX then Some(joined) else None
  }

  // ------------------------------------------------------------------- writing

  /** The counters of a manifest being written, and the entries written so far. */
  class Writer {
    var files: nat
    var manifestBytes: nat
    ghost var entries: seq<Entry>

    constructor ()
      ensures files == 0 && manifestBytes == 0 && entries == []
    {
      files, manifestBytes, entries := 0, 0, [];
    }
  }

  ghost predicate Logged(t: Tree, path: string, w: Writer)
    reads w
  {
    && IsFile(t, path) && t[path].content == Render(w.entries)
    && w.manifestBytes == |t[path].content| <= BYTES_MAX && w.files == |w.entries|
  }

  /** A file is as an entry says. */
  predicate Described(t: Tree, place: string, e: Entry) {
    IsFile(t, place) && |t[place].content| == e.size && HashOf(t[place].content) == e.hash
  }

  /** What a scan leaves: the manifest extended, and nothing else changed. */
  ghost predicate Extended(a: Tree, b: Tree, manifest: string) {
    && IsFile(a, manifest) && IsFile(b, manifest)
    && (forall p | p in a && p != manifest :: p in b && b[p] == a[p])
    && (forall p | p in b && p != manifest :: p in a)
  }

  lemma ExtendedThen(a: Tree, b: Tree, c: Tree, manifest: string)
    requires Extended(a, b, manifest) && Extended(b, c, manifest)
    ensures Extended(a, c, manifest)
  {
  }

  predicate GoodPath(path: string) { path != "" && path[0] == '/' && |path| < PATH_MAX && NUL !in path }

  /** The entry of a file as it now is. */
  method DescribeFile(disk: Disk, place: string, logical: string) returns (ok: bool, e: Entry)
    requires Sized(disk.tree) && GoodPath(logical)
    modifies disk
    ensures disk.tree == old(disk.tree) && disk.faults >= old(disk.faults)
    ensures ok ==> e.path == logical && Written(e) && Described(disk.tree, place, e)
  {
    hide HashOf;
    var size := disk.StatSize(place);
    if size == None {
      return false, Entry("", 0, "");
    }
    var hashed, hash := disk.HashFile(place);
    return hashed, Entry(logical, size.value, hash);
  }

  lemma LoggedMore(t: Tree, path: string, w: Writer, e: Entry, line: string)
    requires Logged(t, path, w) && line == LineOf(e) + "\n"
    ensures t[path].content + line == Render(w.entries + [e])
  {
    hide LineOf, Render;
    RenderBack(w.entries, e);
    assert Render(w.entries) + line == Render(w.entries) + LineOf(e) + "\n";
  }

  /** A line for a file, as the file is before the line is added. */
  method AppendEntry(disk: Disk, manifest: string, place: string, logical: string, w: Writer) returns (ok: bool)
    requires Sized(disk.tree) && GoodPath(logical) && Logged(disk.tree, manifest, w)
    modifies disk, w
    ensures Sized(disk.tree) && disk.faults >= old(disk.faults)
    ensures Confined(old(disk.tree), disk.tree, iset{manifest})
    ensures ok ==> Extended(old(disk.tree), disk.tree, manifest)
    ensures ok ==> Logged(disk.tree, manifest, w) && |w.entries| == old(|w.entries|) + 1
                   && w.entries[..|w.entries| - 1] == old(w.entries)
    ensures ok ==> var e := w.entries[|w.entries| - 1];
                   e.path == logical && Written(e) && Described(old(disk.tree), place, e)
  {
    hide LineOf, Render, HashOf, Sized, Described, Written;
    ghost var before := disk.tree;
    var described, e := DescribeFile(disk, place, logical);
    if !described {
      return false;
    }
    var line := LineOf(e) + "\n";
    if |line| >= LINE_MAX || w.manifestBytes + |line| > BYTES_MAX {
      return false;
    }
    LoggedMore(before, manifest, w, e, line);
    ok := disk.Append(manifest, line);
    if ok {
      w.files := w.files + 1;
      w.manifestBytes := w.manifestBytes + |line|;
      w.entries := w.entries + [e];
    }
  }

  // ------------------------------------------------------------------ scanning

  predicate IsDots(name: string) { name == "." || name == ".." }

  /** The path that names lead to from a logical path. */
  function PathOf(logical: string, names: seq<string>): string
    decreases |names|
  {
    if names == [] then logical else PathOf(Join(logical, names[0]), names[1..])
  }

  /** Names lead down through directories to a file. */
  ghost predicate Reaches(t: Tree, root: string, logical: string, names: seq<string>)
    decreases |names|
  {
    if names == [] then IsFile(t, RealPath(root, logical))
    else
      && RealPath(root, logical) in t && t[RealPath(root, logical)].Directory?
      && IsName(names[0]) && !IsDots(names[0])
      && Reaches(t, root, Join(logical, names[0]), names[1..])
  }

  predicate Lists(es: seq<Entry>, path: string) { exists e | e in es :: e.path == path }

  /** Every wanted file below a logical path has an entry. */
  ghost predicate Covers(t: Tree, root: string, shell: bool, logical: string, es: seq<Entry>) {
    forall names | Reaches(t, root, logical, names) && Wanted(shell, PathOf(logical, names)) :: Lists(es, PathOf(logical, names))
  }

  /** Every entry is of a wanted file, and true of it. */
  ghost predicate Kept(t: Tree, root: string, shell: bool, es: seq<Entry>) {
    forall e | e in es :: Written(e) && Wanted(shell, e.path) && Described(t, RealPath(root, e.path), e)
  }

  /** No file that is described is the manifest itself. */
  ghost predicate Apart(root: string, shell: bool, manifest: string) {
    forall p | Wanted(shell, p) :: RealPath(root, p) != manifest
  }

  lemma RealJoin(root: string, logical: string, name: string)
    requires root != "" && root[0] == '/' && logical != "" && logical[0] == '/' && name != ""
    ensures Join(RealPath(root, logical), name) == RealPath(root, Join(logical, name))
  {
    if root == "/" {
    } else if logical == "/" {
      assert |root| > 1;
      assert root + "/" + name == root + ("/" + name) && "/" + "" + name == "/" + name;
    } else {
      assert |logical| > 1;
      assert root + logical + "/" + name == root + (logical + "/" + name);
    }
  }

  lemma {:induction false} StaysUnder(logical: string, names: seq<string>, prefix: string)
    requires IsUnder(logical, prefix) && |prefix| > 1
    ensures IsUnder(PathOf(logical, names), prefix)
    decreases |names|
  {
    if names != [] {
      assert Join(logical, names[0])[..|logical|] == logical;
      StaysUnder(Join(logical, names[0]), names[1..], prefix);
    }
  }

  lemma SkippedCovers(t: Tree, root: string, shell: bool, logical: string, es: seq<Entry>)
    requires Skipped(logical)
    ensures Covers(t, root, shell, logical, es)
  {
    forall names | Reaches(t, root, logical, names)
      ensures !Wanted(shell, PathOf(logical, names))
    {
      if IsUnder(logical, "/proc") { StaysUnder(logical, names, "/proc"); }
      if IsUnder(logical, "/dev") { StaysUnder(logical, names, "/dev"); }
      if IsUnder(logical, "/temp") { StaysUnder(logical, names, "/temp"); }
      if IsUnder(logical, "/home") { StaysUnder(logical, names, "/home"); }
      if IsUnder(logical, "/system/pkg") { StaysUnder(logical, names, "/system/pkg"); }
      hide PathOf, IsUnder, Reaches;
    }
  }

  lemma FileCovers(t: Tree, root: string, shell: bool, logical: string, es: seq<Entry>)
    requires RealPath(root, logical) !in t || !t[RealPath(root, logical)].Directory?
    requires IsFile(t, RealPath(root, logical)) && Wanted(shell, logical) ==> Lists(es, logical)
    ensures Covers(t, root, shell, logical, es)
  {
    forall names | Reaches(t, root, logical, names) && Wanted(shell, PathOf(logical, names))
      ensures Lists(es, PathOf(logical, names))
    {
      assert names == [];
      hide Wanted;
    }
  }

  lemma ReachesStart(t: Tree, root: string, logical: string, names: seq<string>)
    requires Reaches(t, root, logical, names)
    ensures RealPath(root, logical) in t
  {
  }

  /** A directory is covered when each of its names is. */
  lemma DirectoryCovers(t: Tree, root: string, shell: bool, logical: string, children: seq<string>, es: seq<Entry>)
    requires root != "" && root[0] == '/' && logical != "" && logical[0] == '/'
    requires IsDirectory(t, RealPath(root, logical))
    requires forall n | IsName(n) && Join(RealPath(root, logical), n) in t :: n in children
    requires forall n | n in children && !IsDots(n) :: Covers(t, root, shell, Join(logical, n), es)
    ensures Covers(t, root, shell, logical, es)
  {
    forall names | Reaches(t, root, logical, names) && Wanted(shell, PathOf(logical, names))
      ensures Lists(es, PathOf(logical, names))
    {
      assert names != [];
      var n := names[0];
      RealJoin(root, logical, n);
      ReachesStart(t, root, Join(logical, n), names[1..]);
      assert Covers(t, root, shell, Join(logical, n), es);
      hide Wanted, Lists, Join, RealPath;
    }
  }

  predicate IsDirectory(t: Tree, path: string) { path in t && t[path].Directory? }

  lemma {:induction false} ReachesSame(a: Tree, b: Tree, path: string, root: string, logical: string, names: seq<string>)
    requires (path in a ==> a[path].File?) && IsFile(b, path) && (forall p | p in a && p != path :: p in b && b[p] == a[p])
    requires Reaches(a, root, logical, names)
    ensures Reaches(b, root, logical, names)
    decreases |names|
  {
    if names != [] {
      ReachesSame(a, b, path, root, Join(logical, names[0]), names[1..]);
    }
    hide Join, RealPath;
  }

  /** Covering depends on the tree's shape only, and more entries cover as much. */
  lemma CoversMore(a: Tree, b: Tree, manifest: string, root: string, shell: bool, logical: string, es: seq<Entry>, more: seq<Entry>)
    requires Covers(a, root, shell, logical, es) && es <= more
    requires IsFile(a, manifest) && IsFile(b, manifest) && (forall p | p in b && p != manifest :: p in a && a[p] == b[p])
    ensures Covers(b, root, shell, logical, more)
  {
    forall names | Reaches(b, root, logical, names) && Wanted(shell, PathOf(logical, names))
      ensures Lists(more, PathOf(logical, names))
    {
      ReachesSame(b, a, manifest, root, logical, names);
      hide Wanted, Reaches;
    }
  }

  lemma KeptSame(a: Tree, b: Tree, manifest: string, root: string, shell: bool, es: seq<Entry>)
    requires Kept(a, root, shell, es) && Apart(root, shell, manifest)
    requires forall p | p in a && p != manifest :: p in b && b[p] == a[p]
    ensures Kept(b, root, shell, es)
  {
    hide Wanted, HashOf, RealPath;
  }

  /**
    Main result: a scan adds to the manifest an entry, true of its file, for nothing but wanted files;
    and when no system call failed, for every wanted file below.
  */
  method ScanTree(disk: Disk, root: string, place: string, logical: string, w: Writer, depth: nat,
                  manifest: string, shell: bool) returns (ok: bool)
    requires Sized(disk.tree) && Logged(disk.tree, manifest, w) && Kept(disk.tree, root, shell, w.entries)
    requires Apart(root, shell, manifest) && root != "" && root[0] == '/'
    requires GoodPath(logical) && place == RealPath(root, logical) && depth <= DEPTH_MAX + 1
    modifies disk, w
    ensures Sized(disk.tree) && disk.faults >= old(disk.faults)
    ensures Confined(old(disk.tree), disk.tree, iset{manifest})
    ensures ok ==> Logged(disk.tree, manifest, w) && Extended(old(disk.tree), disk.tree, manifest)
    ensures ok ==> Kept(disk.tree, root, shell, w.entries) && old(w.entries) <= w.entries
    ensures ok && disk.faults == old(disk.faults) ==> Covers(disk.tree, root, shell, logical, w.entries)
    decreases DEPTH_MAX + 1 - depth, 1
  {
    if depth > DEPTH_MAX {
      return false;
    }
    hide Kept, Covers, Apart, Wanted, RealPath;
    if Skipped(logical) {
      SkippedCovers(disk.tree, root, shell, logical, w.entries);
      return true;
    }
    var kind := disk.StatType(place);
    if kind == 1 {
      ok := ScanFile(disk, root, place, logical, w, manifest, shell);
      return;
    }
    if kind != 2 {
      FileCovers(disk.tree, root, shell, logical, w.entries);
      return true;
    }
    ok := ScanDirectory(disk, root, place, logical, w, depth, manifest, shell);
  }

  ghost predicate CoversAll(t: Tree, root: string, shell: bool, logical: string, names: seq<string>, es: seq<Entry>) {
    forall n | n in names && !IsDots(n) :: Covers(t, root, shell, Join(logical, n), es)
  }

  lemma DotsCovered(t: Tree, root: string, shell: bool, logical: string, done: seq<string>, n: string, es: seq<Entry>)
    requires IsDots(n)
    ensures CoversAll(t, root, shell, logical, done, es) ==> CoversAll(t, root, shell, logical, done + [n], es)
  {
    hide Covers;
  }

  lemma NameCovered(a: Tree, b: Tree, manifest: string, root: string, shell: bool, logical: string,
                    done: seq<string>, n: string, es: seq<Entry>, more: seq<Entry>)
    requires CoversAll(a, root, shell, logical, done, es) && Covers(b, root, shell, Join(logical, n), more)
    requires Extended(a, b, manifest) && es <= more
    ensures CoversAll(b, root, shell, logical, done + [n], more)
  {
    hide Covers;
    forall m | m in done && !IsDots(m)
      ensures Covers(b, root, shell, Join(logical, m), more)
    {
      CoversMore(a, b, manifest, root, shell, Join(logical, m), es, more);
    }
  }

  lemma AllCovered(a: Tree, b: Tree, manifest: string, root: string, shell: bool, logical: string,
                   names: seq<string>, es: seq<Entry>)
    requires root != "" && root[0] == '/' && logical != "" && logical[0] == '/'
    requires IsDirectory(a, RealPath(root, logical)) && Extended(a, b, manifest)
    requires forall n | IsName(n) && Join(RealPath(root, logical), n) in a :: n in names
    requires CoversAll(b, root, shell, logical, names, es)
    ensures Covers(b, root, shell, logical, es)
  {
    hide Covers, RealPath, Join;
    DirectoryCovers(b, root, shell, logical, names, es);
  }

  lemma Unchanged(t: Tree, places: iset<string>)
    ensures Confined(t, t, places)
  {
  }

  lemma ExtendedStart(t: Tree, manifest: string)
    requires IsFile(t, manifest)
    ensures Extended(t, t, manifest)
  {
  }

  method ScanFile(disk: Disk, root: string, place: string, logical: string, w: Writer, manifest: string, shell: bool)
    returns (ok: bool)
    requires Sized(disk.tree) && Logged(disk.tree, manifest, w) && Kept(disk.tree, root, shell, w.entries)
    requires Apart(root, shell, manifest)
    requires GoodPath(logical) && place == RealPath(root, logical) && IsFile(disk.tree, place)
    modifies disk, w
    ensures Sized(disk.tree) && disk.faults >= old(disk.faults)
    ensures Confined(old(disk.tree), disk.tree, iset{manifest})
    ensures ok ==> Logged(disk.tree, manifest, w) && Extended(old(disk.tree), disk.tree, manifest)
    ensures ok ==> Kept(disk.tree, root, shell, w.entries) && old(w.entries) <= w.entries
    ensures ok && disk.faults == old(disk.faults) ==> Covers(disk.tree, root, shell, logical, w.entries)
  {
    hide Wanted, RealPath, Sized, HashOf, Written;
    if !Wanted(shell, logical) {
      FileCovers(disk.tree, root, shell, logical, w.entries);
      return true;
    }
    ghost var before, entries := disk.tree, w.entries;
    ok := AppendEntry(disk, manifest, place, logical, w);
    if ok {
      KeptSame(before, disk.tree, manifest, root, shell, entries);
      assert w.entries == entries + [w.entries[|w.entries| - 1]];
      assert Lists(w.entries, logical);
      FileCovers(disk.tree, root, shell, logical, w.entries);
    }
  }

  method ScanDirectory(disk: Disk, root: string, place: string, logical: string, w: Writer, depth: nat,
                       manifest: string, shell: bool) returns (ok: bool)
    requires Sized(disk.tree) && Logged(disk.tree, manifest, w) && Kept(disk.tree, root, shell, w.entries)
    requires Apart(root, shell, manifest) && root != "" && root[0] == '/'
    requires GoodPath(logical) && place == RealPath(root, logical) && depth <= DEPTH_MAX
    requires IsDirectory(disk.tree, place)
    modifies disk, w
    ensures Sized(disk.tree) && disk.faults >= old(disk.faults)
    ensures Confined(old(disk.tree), disk.tree, iset{manifest})
    ensures ok ==> Logged(disk.tree, manifest, w) && Extended(old(disk.tree), disk.tree, manifest)
    ensures ok ==> Kept(disk.tree, root, shell, w.entries) && old(w.entries) <= w.entries
    ensures ok && disk.faults == old(disk.faults) ==> Covers(disk.tree, root, shell, logical, w.entries)
    decreases DEPTH_MAX + 1 - depth, 0
  {
    hide Kept, Covers, Apart, Wanted, RealPath, Sized, Confined, Extended;
    ghost var before, faults := disk.tree, disk.faults;
    var listed, names := disk.List(place);
    if !listed {
      Unchanged(before, iset{manifest});
      return false;
    }
    Unchanged(before, iset{manifest});
    ExtendedStart(before, manifest);
    for i := 0 to |names|
      invariant Sized(disk.tree) && disk.faults >= faults
      invariant Logged(disk.tree, manifest, w) && Extended(before, disk.tree, manifest)
      invariant Confined(before, disk.tree, iset{manifest})
      invariant Kept(disk.tree, root, shell, w.entries) && old(w.entries) <= w.entries
      invariant disk.faults == faults ==> CoversAll(disk.tree, root, shell, logical, names[..i], w.entries)
    {
      assert names[..i + 1] == names[..i] + [names[i]];
      var given := disk.Granted();
      if !given {
        disk.Fault();
      } else if IsDots(names[i]) {
        DotsCovered(disk.tree, root, shell, logical, names[..i], names[i], w.entries);
      } else {
        var childPlace, childLogical := Join(place, names[i]), Join(logical, names[i]);
        if |childPlace| >= PATH_MAX || |childLogical| >= PATH_MAX {
          return false;
        }
        RealJoin(root, logical, names[i]);
        ghost var now, entries := disk.tree, w.entries;
        var scanned := ScanTree(disk, root, childPlace, childLogical, w, depth + 1, manifest, shell);
        ConfinedAgain(before, now, disk.tree, iset{manifest});
        if !scanned {
          return false;
        }
        ExtendedThen(before, now, disk.tree, manifest);
        if disk.faults == faults {
          NameCovered(now, disk.tree, manifest, root, shell, logical, names[..i], names[i], entries, w.entries);
        }
      }
    }
    assert names[..|names|] == names;
    if disk.faults == faults {
      AllCovered(before, disk.tree, manifest, root, shell, logical, names, w.entries);
    }
    return true;
  }

  /** A fresh manifest of what lies under a root. */
  method GenerateManifest(disk: Disk, root: string, manifest: string, shell: bool)
    returns (ok: bool, ghost entries: seq<Entry>)
    requires Sized(disk.tree) && Apart(root, shell, manifest)
    modifies disk
    ensures Sized(disk.tree) && disk.faults >= old(disk.faults)
    ensures Confined(old(disk.tree), disk.tree, iset{manifest})
    ensures ok ==> IsFile(disk.tree, manifest) && disk.tree[manifest].content == Render(entries)
    ensures ok && manifest in old(disk.tree) ==> old(disk.tree)[manifest].File?
    ensures ok ==> |Render(entries)| <= BYTES_MAX && entries != [] && Kept(disk.tree, root, shell, entries)
    ensures ok && disk.faults == old(disk.faults) ==> Covers(disk.tree, root, shell, "/", entries)
  {
    hide Kept, Covers, Apart, Sized, Render, Confined, Extended;
    ghost var before := disk.tree;
    entries := [];
    Unchanged(before, iset{manifest});
    Unchanged(before, iset{});
    if root == "" || root[0] != '/' {
      return false, [];
    }
    var system := RootJoin(root, "/system");
    if system == None {
      return false, [];
    }
    if root != "/" {
      var there := MakeDirectory(disk, system.value);
      ConfinedWithin(before, disk.tree, iset{}, iset{manifest});
      if !there {
        return false, [];
      }
    }
    ghost var made := disk.tree;
    MadeBefore(before, made, manifest);
    var emptied := EmptyFile(disk, manifest);
    ConfinedAgain(before, made, disk.tree, iset{manifest});
    if !emptied {
      return false, [];
    }
    ghost var now := disk.tree;
    var w := new Writer();
    NoEntries(now, manifest, root, shell);
    assert RealPath(root, "/") == root && |root| < PATH_MAX;
    ok := ScanTree(disk, root, root, "/", w, 0, manifest, shell);
    ConfinedAgain(before, now, disk.tree, iset{manifest});
    entries := w.entries;
    if ok {
      ok := w.files != 0;
    }
  }

  lemma MadeBefore(a: Tree, b: Tree, manifest: string)
    requires Confined(a, b, iset{}) || a == b
    ensures manifest in a ==> manifest in b && a[manifest] == b[manifest]
  {
  }

  lemma NoEntries(t: Tree, manifest: string, root: string, shell: bool)
    ensures Render([]) == "" && Kept(t, root, shell, [])
  {
  }

  /** An old manifest is removed before the new one is begun. */
  method EmptyFile(disk: Disk, path: string) returns (ok: bool)
    requires Sized(disk.tree)
    modifies disk
    ensures Sized(disk.tree) && disk.faults >= old(disk.faults)
    ensures Confined(old(disk.tree), disk.tree, iset{path})
    ensures ok ==> disk.tree == old(disk.tree)[path := File("")]
    ensures ok && path in old(disk.tree) ==> old(disk.tree)[path].File?
  {
    if disk.StatType(path) == 1 {
      var removed := disk.Remove(path);
      if !removed {
        return false;
      }
    }
    ok := disk.Write(path, "");
  }

  // ------------------------------------------------------------------- loading

  /** The lines before a place in a text, and the text after it, make up the lines of the text. */
  ghost predicate CutAt(text: string, start: nat, done: seq<string>) {
    start <= |text| && Lines(text) == done + Lines(text[start..])
  }

  lemma NextLine(text: string, start: nat, done: seq<string>, i: nat)
    requires CutAt(text, start, done) && start <= i <= |text|
    requires (forall k | start <= k < i :: !EndsLine(text[k])) && (i < |text| ==> EndsLine(text[i]))
    ensures var line := Trimmed(text[start..i]);
            var more := if line == "" then done else done + [line];
            if i < |text| then CutAt(text, i + 1, more) else Lines(text) == more
  {
    hide Lines, Trimmed, LineLength, EndsLine;
    LineAt(text, start, i);
    LinesFirst(text[start..], i - start);
    var after := if i < |text| then Lines(text[i + 1..]) else [];
    Shift(Lines(text), done, Lines(text[start..]), Trimmed(text[start..i]), after);
  }

  lemma Shift(whole: seq<string>, done: seq<string>, rest: seq<string>, line: string, after: seq<string>)
    requires whole == done + rest && rest == if line == "" then after else [line] + after
    ensures whole == (if line == "" then done else done + [line]) + after
    ensures after == [] ==> whole == if line == "" then done else done + [line]
  {
  }

  lemma LineAt(text: string, start: nat, i: nat)
    requires start <= i <= |text|
    requires (forall k | start <= k < i :: !EndsLine(text[k])) && (i < |text| ==> EndsLine(text[i]))
    ensures LineLength(text[start..]) == i - start && text[start..][..i - start] == text[start..i]
    ensures i < |text| ==> text[start..][i - start + 1..] == text[i + 1..]
  {
    var rest := text[start..];
    assert forall k | 0 <= k < i - start :: rest[k] == text[start + k];
    assert i < |text| ==> rest[i - start] == text[i];
  }

  lemma LinesFirst(text: string, n: nat)
    requires n == LineLength(text)
    ensures var line := Trimmed(text[..n]);
            var rest := if n == |text| then [] else Lines(text[n + 1..]);
            Lines(text) == if line == "" then rest else [line] + rest
  {
    hide LineLength, Trimmed;
  }

  lemma {:induction false} ParseThen(a: seq<string>, b: seq<string>)
    ensures Parse(a + b) == if Parse(a) == None || Parse(b) == None then None else Some(Parse(a).value + Parse(b).value)
    decreases |a|
  {
    if a == [] {
      assert a + b == b;
      if Parse(b).Some? { assert [] + Parse(b).value == Parse(b).value; }
    } else {
      assert (a + b)[1..] == a[1..] + b && (a + b)[0] == a[0];
      ParseThen(a[1..], b);
      hide ParseLine;
      if ParseLine(a[0]).Some? && Parse(a[1..]).Some? && Parse(b).Some? {
        var e, x, y := ParseLine(a[0]).value, Parse(a[1..]).value, Parse(b).value;
        assert [e] + (x + y) == ([e] + x) + y;
      }
    }
  }

  lemma ParseOne(line: string)
    ensures Parse([line]) == match ParseLine(line) case None => None case Some(e) => Some([e])
  {
    assert [line][1..] == [] && Parse([]) == Some([]);
    hide ParseLine;
    if ParseLine(line).Some? { assert [ParseLine(line).value] + [] == [ParseLine(line).value]; }
  }

  /** The lines of a buffer, one after the other, into entries; refused at the first that is not one. */
  method ReadEntries(text: string) returns (r: Option<seq<Entry>>)
    requires |text| <= BYTES_MAX
    ensures r == Load(text)
  {
    hide Lines, Parse, ParseLine, Trimmed;
    var entries: seq<Entry> := [];
    ghost var done: seq<string> := [];
    var start: nat := 0;
    var i: nat := 0;
    assert text[0..] == text;
    NothingParsed();
    while i <= |text|
      invariant start <= i <= |text| + 1 && (i == |text| + 1 <==> start == |text| + 1)
      invariant if i <= |text| then CutAt(text, start, done) else Lines(text) == done
      invariant i <= |text| ==> forall k | start <= k < i :: !EndsLine(text[k])
      invariant Parse(done) == Some(entries) && |entries| == |done| <= ENTRIES_MAX
    {
      if i == |text| || EndsLine(text[i]) {
        var line := Trimmed(text[start..i]);
        NextLine(text, start, done, i);
        if line != "" {
          ghost var rest := if i < |text| then Lines(text[i + 1..]) else [];
          OneMore(text, done, entries, line, rest);
          if |entries| >= ENTRIES_MAX {
            return None;
          }
          var entry := ParseLine(line);
          if entry == None {
            return None;
          }
          entries := entries + [entry.value];
          done := done + [line];
        }
        start := i + 1;
      }
      i := i + 1;
    }
    return Some(entries);
  }

  lemma NothingParsed()
    ensures Parse([]) == Some([])
  {
  }

  lemma OneMore(text: string, done: seq<string>, entries: seq<Entry>, line: string, rest: seq<string>)
    requires Parse(done) == Some(entries) && |entries| == |done| <= ENTRIES_MAX
    requires Lines(text) == done + [line] + rest
    ensures |entries| >= ENTRIES_MAX ==> Load(text) == None
    ensures ParseLine(line) == None ==> Load(text) == None
    ensures ParseLine(line).Some? ==> Parse(done + [line]) == Some(entries + [ParseLine(line).value])
  {
    ParseOne(line);
    ParseThen(done, [line]);
    ParseThen(done + [line], rest);
    hide Lines, Parse, ParseLine;
  }

  /** A file of known size, read whole. */
  method ReadWhole(disk: Disk, path: string, size: nat) returns (ok: bool, text: string)
    requires IsFile(disk.tree, path) && size == |disk.tree[path].content|
    modifies disk
    ensures disk.tree == old(disk.tree) && disk.faults >= old(disk.faults)
    ensures ok ==> text == disk.tree[path].content
    ensures !ok ==> disk.faults > old(disk.faults)
  {
    text := "";
    ok := disk.Open(path);
    if !ok {
      return;
    }
    while |text| < size
      invariant disk.tree == old(disk.tree) && disk.faults >= old(disk.faults)
      invariant |text| <= size && text == disk.tree[path].content[..|text|]
    {
      var read, got := disk.Read(path, |text|, size - |text|);
      if !read || got == "" {
        return false, text;
      }
      assert text + got == disk.tree[path].content[..|text| + |got|];
      text := text + got;
    }
    assert text == disk.tree[path].content;
    return true, text;
  }

  /** A manifest's entries; a missing one may count as empty. Only a failing call stops a good one from loading. */
  method LoadManifest(disk: Disk, path: string, missingOk: bool) returns (r: Option<seq<Entry>>)
    modifies disk
    ensures disk.tree == old(disk.tree) && disk.faults >= old(disk.faults)
    ensures r.Some? ==> if IsFile(disk.tree, path) then r == Load(disk.tree[path].content) else missingOk && r.value == []
    ensures r == None && disk.faults == old(disk.faults) ==>
              if IsFile(disk.tree, path) then Load(disk.tree[path].content) == None else !missingOk
  {
    var size := disk.StatSize(path);
    if size == None {
      return if missingOk then Some([]) else None;
    }
    if size.value > BYTES_MAX {
      return None;
    }
    hide Load;
    var buffer := disk.Granted();  // the allocation of a buffer can fail
    if !buffer {
      disk.Fault();
      return None;
    }
    var read, text := ReadWhole(disk, path, size.value);
    if !read {
      return None;
    }
    r := ReadEntries(text);
  }
}
