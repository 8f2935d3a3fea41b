/** Copying files and making the directories above them. */
module InstallCopy {
  import opened Options
  import opened InstallFiles
  import Manifest

  method MakeDirectory(disk: Disk, path: string) returns (ok: bool)
    requires Sized(disk.tree)
    modifies disk
    ensures Sized(disk.tree) && disk.faults >= old(disk.faults)
    ensures Confined(old(disk.tree), disk.tree, iset{})
    ensures ok ==> disk.StatType(path) == 2
  {
    if disk.StatType(path) == 2 {
      return true;
    }
    ok := disk.Mkdir(path);
  }

  /** Every directory above a file, from the top down. */
  method MakeParents(disk: Disk, path: string) returns (ok: bool)
    requires Sized(disk.tree)
    modifies disk
    ensures Sized(disk.tree) && disk.faults >= old(disk.faults)
    ensures Confined(old(disk.tree), disk.tree, iset{})
    ensures ok ==> forall i | 1 <= i < |path| && path[i] == '/' :: disk.StatType(path[..i]) == 2
  {
    if path == "" || path[0] != '/' || |path| >= Manifest.PATH_MAX {
      return false;
    }
    for i := 1 to |path|
      invariant Sized(disk.tree) && disk.faults >= old(disk.faults)
      invariant Confined(old(disk.tree), disk.tree, iset{})
      invariant forall j | 1 <= j < i && path[j] == '/' :: disk.StatType(path[..j]) == 2
    {
      if path[i] == '/' {
        label before:
        var made := MakeDirectory(disk, path[..i]);
        ConfinedAgain(old(disk.tree), old@before(disk.tree), disk.tree, iset{});
        if !made {
          return false;
        }
      }
    }
    return true;
  }

  /** A small file, read whole into memory and written in one go. */
  method CopyWhole(disk: Disk, src: string, dst: string, size: nat) returns (ok: bool)
    requires Sized(disk.tree) && src != dst && IsFile(disk.tree, src) && size == |disk.tree[src].content|
    modifies disk
    ensures Sized(disk.tree) && disk.faults >= old(disk.faults)
    ensures Confined(old(disk.tree), disk.tree, iset{dst})
    ensures ok ==> disk.tree == old(disk.tree)[dst := old(disk.tree)[src]]
  {
    var readable := disk.Open(src);
    if !readable {
      return false;
    }
    var whole := "";
    while |whole| < size
      invariant disk.tree == old(disk.tree) && disk.faults >= old(disk.faults)
      invariant |whole| <= size && whole == disk.tree[src].content[..|whole|]
    {
      var want := size - |whole|;
      if want > CHUNK {
        want := CHUNK;
      }
      var read, got := disk.Read(src, |whole|, want);
      if !read || got == "" {
        return false;
      }
      assert whole + got == disk.tree[src].content[..|whole| + |got|];
      whole := whole + got;
    }
    assert whole == disk.tree[src].content;
    ok := disk.Write(dst, whole);
    if ok {
      ok := disk.StatSize(dst) == Some(size);
    }
  }

  /** Any file, piece by piece onto the end of an emptied target. */
  method CopyStream(disk: Disk, src: string, dst: string, size: nat) returns (ok: bool)
    requires Sized(disk.tree) && src != dst && IsFile(disk.tree, src) && size == |disk.tree[src].content|
    modifies disk
    ensures Sized(disk.tree) && disk.faults >= old(disk.faults)
    ensures Confined(old(disk.tree), disk.tree, iset{dst})
    ensures ok ==> disk.tree == old(disk.tree)[dst := old(disk.tree)[src]]
  {
    var readable := disk.Open(src);
    if !readable {
      return false;
    }
    ghost var before := disk.tree;
    var content := before[src].content;
    var emptied := disk.Write(dst, "");
    if !emptied {
      return false;
    }
    var offset: nat := 0;
    while true
      invariant Sized(disk.tree) && disk.faults >= old(disk.faults) && offset <= |content|
      invariant disk.tree == before[dst := File(content[..offset])]
      decreases |content| - offset
    {
      var read, got := disk.Read(src, offset, CHUNK);
      if !read {
        return false;
      }
      if got == "" {
        break;
      }
      var appended := disk.Append(dst, got);
      if !appended {
        return false;
      }
      assert content[..offset] + got == content[..offset + |got|];
      offset := offset + |got|;
    }
    assert content[..offset] == content;
    return disk.StatSize(dst) == Some(size);
  }

  /** A copy replaces the target by the source's content, or fails and may leave the target in any state. */
  method CopyFile(disk: Disk, src: string, dst: string) returns (ok: bool)
    requires Sized(disk.tree) && src != dst
    modifies disk
    ensures Sized(disk.tree) && disk.faults >= old(disk.faults)
    ensures Confined(old(disk.tree), disk.tree, iset{dst})
    ensures ok ==> IsFile(old(disk.tree), src) && disk.tree == old(disk.tree)[dst := old(disk.tree)[src]]
  {
    ghost var before := disk.tree;
    var size := disk.StatSize(src);
    if size == None || disk.StatType(dst) == 2 {
      return false;
    }
    if disk.StatType(dst) == 1 {
      var removed := disk.Remove(dst);
      if !removed {
        return false;
      }
    }
    if size.value == 0 {
      ok := disk.Write(dst, "");
      if ok {
        assert before[src] == File("");
        ok := disk.StatSize(dst) == Some(0);
      }
      return;
    }
    if size.value <= WHOLE_FILE_LIMIT {
      var buffer := disk.Granted();  // the allocation of a buffer can fail
      if buffer {
        ok := CopyWhole(disk, src, dst, size.value);
        return;
      }
    }
    ok := CopyStream(disk, src, dst, size.value);
  }
}
