/** The files the installer works on: an abstract tree, system calls that may fail, hashing and copying. */
module InstallFiles {
  import opened Options
  import opened HashContext
  import Sha256
  import Manifest

  /** Characters stand for bytes. */
  datatype Node = Directory | File(content: string) | Other

  type Tree = map<string, Node>

  const FILE_LIMIT: nat := 0x2000_0000_0000_0000  // 2^61 bytes
  const CHUNK: nat := 8192
  const WHOLE_FILE_LIMIT: nat := 128 * 1024

  function Bytes(text: string): (b: seq<Sha256.Byte>)
    ensures |b| == |text|
  {
    seq(|text|, i requires 0 <= i < |text| => text[i] as int % 256)
  }

  lemma BytesSplit(a: string, b: string)
    ensures Bytes(a + b) == Bytes(a) + Bytes(b)
  {
  }

  lemma BytesRead(content: string, position: nat, piece: string)
    requires position + |piece| <= |content| && piece == content[position..position + |piece|]
    ensures Bytes(content[..position + |piece|]) == Bytes(content[..position]) + Bytes(piece)
  {
    assert content[..position] + piece == content[..position + |piece|];
    BytesSplit(content[..position], piece);
  }

  /** The digest of a text in hexadecimal. */
  function HashOf(text: string): (h: string)
    ensures Manifest.IsHash(h)
  {
    Sha256.Hex(Sha256.Digest(Bytes(text)))
  }

  lemma HashOfBytes(text: string)
    ensures HashOf(text) == Sha256.Hex(Sha256.Digest(Bytes(text)))
  {
  }

  predicate IsFile(t: Tree, path: string) { path in t && t[path].File? }

  predicate Sized(t: Tree) { forall p | p in t && t[p].File? :: |t[p].content| < FILE_LIMIT }

  /** From a to b nothing changed outside places, except that directories may be new. */
  ghost predicate Confined(a: Tree, b: Tree, places: iset<string>) {
    && (forall p | p in a && p !in places :: p in b && b[p] == a[p])
    && (forall p | p in b && p !in a && p !in places :: b[p] == Directory)
  }

  lemma ConfinedAgain(a: Tree, b: Tree, c: Tree, places: iset<string>)
    requires Confined(a, b, places) && Confined(b, c, places)
    ensures Confined(a, c, places)
  {
  }

  lemma ConfinedWithin(a: Tree, b: Tree, places: iset<string>, more: iset<string>)
    requires Confined(a, b, places) && places <= more
    ensures Confined(a, b, more)
  {
  }

  const NAME_MAX: nat := 96

  /** A name as the file system gives it: a C string without a slash. */
  predicate IsName(name: string) { 0 < |name| < NAME_MAX && '/' !in name && Manifest.NUL !in name }

  /** The path of a name in a directory. */
  function Join(base: string, name: string): string {
    base + (if |base| > 1 then "/" else "") + name
  }

  predicate IsChild(base: string, path: string) {
    |Join(base, "")| <= |path| && IsName(NameIn(base, path)) && path == Join(base, NameIn(base, path))
  }

  function NameIn(base: string, path: string): string
    requires |Join(base, "")| <= |path|
  {
    path[|Join(base, "")|..]
  }

  class Disk {
    var tree: Tree
    var faults: nat  // system calls that failed so far

    constructor (tree: Tree)
      ensures this.tree == tree && faults == 0
    {
      this.tree, this.faults := tree, 0;
    }

    /** 1 for a file, 2 for a directory, 3 for anything else, -1 for nothing. */
    function StatType(path: string): int
      reads this
    {
      if path !in tree then -1 else match tree[path] case File(_) => 1 case Directory => 2 case Other => 3
    }

    function StatSize(path: string): Option<nat>
      reads this
    {
      if IsFile(tree, path) then Some(|tree[path].content|) else None
    }

    /** Whether the system carries out a call. */
    method Granted() returns (yes: bool)
    {
      yes := *;
    }

    method Fault()
      modifies this
      ensures tree == old(tree) && faults > old(faults)
    {
      faults := faults + 1;
    }

    method Mkdir(path: string) returns (ok: bool)
      requires Sized(tree)
      modifies this
      ensures Sized(tree) && faults >= old(faults)
      ensures ok ==> path !in old(tree) && tree == old(tree)[path := Directory]
      ensures !ok ==> tree == old(tree) && faults > old(faults)
    {
      var granted := Granted();
      if path !in tree && granted {
        tree := tree[path := Directory];
        return true;
      }
      Fault();
      return false;
    }

    method Remove(path: string) returns (ok: bool)
      requires Sized(tree)
      modifies this
      ensures Sized(tree) && faults >= old(faults)
      ensures ok ==> IsFile(old(tree), path) && tree == old(tree) - {path}
      ensures !ok ==> tree == old(tree) && faults > old(faults)
    {
      var granted := Granted();
      if IsFile(tree, path) && granted {
        tree := tree - {path};
        return true;
      }
      Fault();
      return false;
    }

    /** Create or replace a file; a write cut short leaves part of the text. */
    method Write(path: string, text: string) returns (ok: bool)
      requires Sized(tree)
      modifies this
      ensures Sized(tree) && faults >= old(faults)
      ensures ok ==> tree == old(tree)[path := File(text)] && (path in old(tree) ==> old(tree)[path].File?)
      ensures !ok ==> Confined(old(tree), tree, iset{path}) && faults > old(faults)
    {
      if |text| < FILE_LIMIT && (path !in tree || tree[path].File?) {
        var granted := Granted();
        if granted {
          tree := tree[path := File(text)];
          return true;
        }
        if * {
          var part :| 0 <= part <= |text|;
          tree := tree[path := File(text[..part])];
        }
      }
      Fault();
      return false;
    }

    /** Extend a file. */
    method Append(path: string, text: string) returns (ok: bool)
      requires Sized(tree)
      modifies this
      ensures Sized(tree) && faults >= old(faults)
      ensures ok ==> IsFile(old(tree), path) && tree == old(tree)[path := File(old(tree)[path].content + text)]
      ensures !ok ==> Confined(old(tree), tree, iset{path}) && faults > old(faults)
    {
      if IsFile(tree, path) && |tree[path].content| + |text| < FILE_LIMIT {
        var part: nat := |text|;
        if * {
          part :| 0 <= part <= |text|;
        }
        tree := tree[path := File(tree[path].content + text[..part])];
        if part == |text| {
          assert text[..part] == text;
          return true;
        }
      }
      Fault();
      return false;
    }

    /** A read of an open file, as short as the system likes; nothing only at the end of the file. */
    method Read(path: string, position: nat, want: nat) returns (ok: bool, piece: string)
      requires IsFile(tree, path) && position <= |tree[path].content| && want > 0
      modifies this
      ensures tree == old(tree) && faults >= old(faults)
      ensures ok ==> |piece| <= want && position + |piece| <= |tree[path].content|
                     && piece == tree[path].content[position..position + |piece|]
                     && (piece == "" <==> position == |tree[path].content|)
      ensures !ok ==> faults > old(faults)
    {
      if * {
        Fault();
        return false, "";
      }
      var content := tree[path].content;
      if position == |content| {
        return true, "";
      }
      var got :| 1 <= got <= want && position + got <= |content|;
      return true, content[position..position + got];
    }

    /** Opening for reading can fail, and fails on anything but a file. */
    method Open(path: string) returns (ok: bool)
      modifies this
      ensures tree == old(tree) && faults >= old(faults)
      ensures ok ==> IsFile(tree, path)
      ensures !ok && IsFile(tree, path) ==> faults > old(faults)
    {
      var granted := Granted();
      if IsFile(tree, path) && granted {
        return true;
      }
      Fault();
      return false;
    }

    /** One read of a file, fed to a hash that holds what came before. */
    method HashPiece(path: string, position: nat, ctx: Context) returns (ok: bool, got: nat)
      requires IsFile(tree, path) && position <= |tree[path].content|
      requires ctx.Holds(Bytes(tree[path].content[..position]))
      modifies this, ctx, ctx.data, ctx.state
      ensures tree == old(tree) && faults >= old(faults)
      ensures ok ==> position + got <= |tree[path].content| && (got == 0 <==> position == |tree[path].content|)
      ensures ok ==> ctx.Holds(Bytes(tree[path].content[..position + got]))
      ensures !ok ==> faults > old(faults)
    {
      hide Bytes, Context.Holds;
      var piece;
      ok, piece := Read(path, position, CHUNK);
      if !ok {
        return false, 0;
      }
      got := |piece|;
      if got > 0 {
        BytesRead(tree[path].content, position, piece);
        ctx.Update(Bytes(piece), Bytes(tree[path].content[..position]));
      }
    }

    /** All of a file, fed in whatever pieces the reads give. */
    method HashContent(path: string, ctx: Context) returns (ok: bool)
      requires IsFile(tree, path) && ctx.Holds([])
      modifies this, ctx, ctx.data, ctx.state
      ensures tree == old(tree) && faults >= old(faults)
      ensures ok ==> ctx.Holds(Bytes(tree[path].content))
      ensures !ok ==> faults > old(faults)
    {
      ghost var content := tree[path].content;
      assert Bytes(content[..0]) == [] && content[..|content|] == content;
      hide Bytes, Context.Holds;
      var position: nat := 0;
      var got: nat := 1;
      while got > 0
        invariant tree == old(tree) && faults >= old(faults)
        invariant position <= |content| && ctx.Holds(Bytes(content[..position]))
        invariant got == 0 ==> position == |content|
        decreases |content| - position, got
      {
        ok, got := HashPiece(path, position, ctx);
        if !ok {
          return;
        }
        position := position + got;
      }
      return true;
    }

    /** The names of what lies directly in a directory, in some order. */
    method List(path: string) returns (ok: bool, names: seq<string>)
      modifies this
      ensures tree == old(tree) && faults >= old(faults)
      ensures ok ==> forall n | IsName(n) && Join(path, n) in tree :: n in names
      ensures ok ==> forall n | n in names :: IsName(n)
      ensures !ok ==> faults > old(faults)
    {
      var granted := Granted();
      if !granted {
        Fault();
        return false, [];
      }
      var left := set p | p in tree && IsChild(path, p);
      names := [];
      while left != {}
        invariant tree == old(tree) && faults == old(faults)
        invariant forall n | IsName(n) && Join(path, n) in tree :: n in names || Join(path, n) in left
        invariant forall p | p in left :: IsChild(path, p)
        invariant forall n | n in names :: IsName(n)
        decreases |left|
      {
        var p :| p in left;
        names := names + [NameIn(path, p)];
        left := left - {p};
      }
      return true, names;
    }

    /** A file's digest in hexadecimal. */
    method HashFile(path: string) returns (ok: bool, hex: string)
      requires Sized(tree)
      modifies this
      ensures tree == old(tree) && faults >= old(faults)
      ensures ok ==> IsFile(tree, path) && hex == HashOf(tree[path].content)
      ensures !ok && IsFile(tree, path) ==> faults > old(faults)
    {
      ok := Open(path);
      if !ok {
        return false, "";
      }
      HashOfBytes(tree[path].content);
      assert |Bytes(tree[path].content)| < FILE_LIMIT;
      hide Bytes, HashOf, Sized;
      ok, hex := HashOpened(path);
    }

    method HashOpened(path: string) returns (ok: bool, hex: string)
      requires IsFile(tree, path) && |Bytes(tree[path].content)| < FILE_LIMIT
      modifies this
      ensures tree == old(tree) && faults >= old(faults)
      ensures ok ==> hex == Sha256.Hex(Sha256.Digest(Bytes(tree[path].content)))
      ensures !ok ==> faults > old(faults)
    {
      ghost var content := tree[path].content;
      hide Bytes, Context.Holds, Sha256.Digest, Sha256.Hex, IsFile;
      hex := "";
      var ctx := new Context();
      ok := HashContent(path, ctx);
      if ok {
        hex := ctx.FinalHex(Bytes(content));
      }
    }
  }
}
