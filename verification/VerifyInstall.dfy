/** Checking an installation against its manifest. */
module VerifyInstall {
  import opened Options
  import opened Manifest
  import opened InstallFiles
  import opened ManifestFile

  const MANIFEST_NAME := "/system/install_manifest.db"

  /** A line is an entry whose file is there, of its size and digest. */
  predicate LineHolds(t: Tree, root: string, line: string) {
    match ReadLine(line)
    case None => false
    case Some(e) => EntryHolds(t, root, e)
  }

  predicate EntryHolds(t: Tree, root: string, e: Entry) {
    RootJoin(root, e.path).Some? && Described(t, RootJoin(root, e.path).value, e)
  }

  /** The manifest under a root is there, and all its lines hold. */
  ghost predicate Verified(t: Tree, root: string) {
    var path := RootJoin(root, MANIFEST_NAME);
    && path.Some? && IsFile(t, path.value) && |t[path.value].content| <= BYTES_MAX
    && forall line | line in Lines(t[path.value].content) :: LineHolds(t, root, line)
  }

  method VerifyLine(disk: Disk, root: string, line: string) returns (ok: bool)
    requires Sized(disk.tree)
    modifies disk
    ensures disk.tree == old(disk.tree) && disk.faults >= old(disk.faults)
    ensures ok ==> LineHolds(disk.tree, root, line)
    ensures !ok && disk.faults == old(disk.faults) ==> !LineHolds(disk.tree, root, line)
  {
    hide ReadLine, HashOf, Sized;
    var entry := ReadLine(line);
    if entry == None {
      return false;
    }
    var place := RootJoin(root, entry.value.path);
    if place == None || disk.StatType(place.value) != 1 {
      return false;
    }
    if disk.StatSize(place.value) != Some(entry.value.size) {
      return false;
    }
    var hashed, hash := disk.HashFile(place.value);
    return hashed && hash == entry.value.hash;
  }

  /** Every line of a text is checked, whether or not an earlier one failed. */
  method VerifyLines(disk: Disk, root: string, text: string) returns (ok: bool)
    requires Sized(disk.tree)
    modifies disk
    ensures disk.tree == old(disk.tree) && disk.faults >= old(disk.faults)
    ensures ok ==> forall line | line in Lines(text) :: LineHolds(disk.tree, root, line)
    ensures !ok && disk.faults == old(disk.faults) ==> exists line | line in Lines(text) :: !LineHolds(disk.tree, root, line)
  {
    hide Lines, Trimmed, LineHolds, Sized;
    ghost var done: seq<string> := [];
    var start: nat := 0;
    var i: nat := 0;
    ok := true;
    assert text[0..] == text;
    while i <= |text|
      invariant disk.tree == old(disk.tree) && disk.faults >= old(disk.faults)
      invariant start <= i <= |text| + 1 && (i == |text| + 1 <==> start == |text| + 1)
      invariant if i <= |text| then CutAt(text, start, done) else Lines(text) == done
      invariant i <= |text| ==> forall k | start <= k < i :: !EndsLine(text[k])
      invariant ok ==> forall line | line in done :: LineHolds(disk.tree, root, line)
      invariant !ok && disk.faults == old(disk.faults) ==> exists line | line in done :: !LineHolds(disk.tree, root, line)
    {
      if i == |text| || EndsLine(text[i]) {
        var line := Trimmed(text[start..i]);
        NextLine(text, start, done, i);
        if line != "" {
          var holds := VerifyLine(disk, root, line);
          if !holds {
            ok := false;
          }
          ghost var before := done;
          done := done + [line];
          assert line in done && forall l | l in before :: l in done;
        }
        start := i + 1;
      }
      i := i + 1;
    }
  }

  /** Main result: without failing system calls, verification succeeds exactly on a verified tree. */
  method VerifyManifest(disk: Disk, root: string) returns (ok: bool)
    requires Sized(disk.tree)
    modifies disk
    ensures disk.tree == old(disk.tree) && disk.faults >= old(disk.faults)
    ensures ok ==> Verified(disk.tree, root)
    ensures !ok && disk.faults == old(disk.faults) ==> !Verified(disk.tree, root)
  {
    hide Lines, LineHolds, Sized;
    var path := RootJoin(root, MANIFEST_NAME);
    if path == None {
      return false;
    }
    var size := disk.StatSize(path.value);
    if size == None || size.value > BYTES_MAX {
      return false;
    }
    var buffer := disk.Granted();
    if !buffer {
      disk.Fault();
      return false;
    }
    var read, text := ReadWhole(disk, path.value, size.value);
    if !read {
      return false;
    }
    ok := VerifyLines(disk, root, text);
  }

  lemma {:induction false} LinesAre(es: seq<Entry>)
    ensures forall line | line in LinesOf(es) :: exists e :: e in es && line == LineOf(e)
    ensures forall e | e in es :: LineOf(e) in LinesOf(es)
    decreases |es|
  {
    if es != [] {
      LinesAre(es[1..]);
      hide LineOf;
      forall line | line in LinesOf(es)
        ensures exists e :: e in es && line == LineOf(e)
      {
        if line == LineOf(es[0]) {
          assert es[0] in es;
        } else {
          var e :| e in es[1..] && line == LineOf(e);
          assert e in es;
        }
      }
    }
  }

  /** A rendered manifest verifies exactly when each of its entries holds. */
  lemma RenderedVerifies(t: Tree, root: string, path: string, es: seq<Entry>)
    requires RootJoin(root, MANIFEST_NAME) == Some(path) && IsFile(t, path)
    requires t[path].content == Render(es) && |Render(es)| <= BYTES_MAX
    requires forall e | e in es :: Written(e) && Plain(e.path)
    ensures Verified(t, root) <==> forall e | e in es :: EntryHolds(t, root, e)
  {
    LinesOfRender(es);
    LinesAre(es);
    forall e | e in es
      ensures LineHolds(t, root, LineOf(e)) <==> EntryHolds(t, root, e)
    {
      LineKept(e);
    }
    hide Lines, Render, LineHolds, EntryHolds, LineOf, ReadLine;
  }
}
