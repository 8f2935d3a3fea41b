/** Resizing, and whole runs of allocation calls: what every sequence of legal calls keeps. */
module HeapRuns {
  import opened Options
  import opened HeapLayout

  // ------------------------------------------------------------------ resizing

  /** The block of a live pointer. */
  predicate LiveAt(s: Layout, i: nat, p: int) {
    i < |s| && s[i].Payload() == p && !s[i].free
  }

  lemma LiveStays(s: Layout, t: Layout, i: nat, extra: (int, nat))
    requires WellFormed(s) && WellFormed(t) && i < |s| && !s[i].free && Live(t) == Live(s) + {extra}
    ensures Index(t, s[i].addr) < |t|
    ensures t[Index(t, s[i].addr)] == s[i]
  {
    assert (s[i].addr, s[i].size) in Live(t);
    var j :| 0 <= j < |t| && !t[j].free && (t[j].addr, t[j].size) == (s[i].addr, s[i].size);
    IndexUnique(t, j);
  }

  /** A live block given a new size: the pointer q, and all other live blocks as they were. */
  ghost predicate Resized(s: Layout, i: nat, t: Layout, q: int, size: nat)
    requires i < |s|
  {
    var k := Index(t, q - HEADER);
    && WellFormed(t) && k < |t| && t[k].Payload() == q && !t[k].free && t[k].size >= size
    && t[k].size < AlignUp(size) + HEADER + SLACK
    && Live(t) == Live(s) - {(s[i].addr, s[i].size)} + {(t[k].addr, t[k].size)}
    && (q == s[i].Payload() || t[k].End() <= s[i].addr || s[i].End() <= t[k].addr)
  }

  lemma ShrinkKeeps(s: Layout, i: nat, size: nat)
    requires WellFormed(s) && i < |s| && !s[i].free && s[i].size >= size
    ensures var t := Split(s, i, AlignUp(size));
            && WellFormed(t) && i < |t| && t[i].addr == s[i].addr && !t[i].free && t[i].size >= size
            && Index(t, s[i].addr) == i
            && Live(t) == Live(s) - {(s[i].addr, s[i].size)} + {(s[i].addr, t[i].size)}
            && Resized(s, i, t, s[i].Payload(), size)
  {
    AlignUpIs(size);
    var need := AlignUp(size);
    hide AlignUp;
    SplitWellFormed(s, i, need);
    SplitLive(s, i, need);
    IndexUnique(Split(s, i, need), i);
    SplitHead(s, i, need);
    hide WellFormed, Index, Split, Live;
  }

  lemma SplitHead(s: Layout, i: nat, size: nat)
    requires i < |s|
    ensures var t := Split(s, i, size);
            i < |t| && t[i] == if s[i].size < size + HEADER + SLACK then s[i] else s[i].(size := size)
  {}

  lemma MergeKeeps(s: Layout, i: nat)
    requires WellFormed(s) && i < |s| && !s[i].free && i + 1 < |s| && s[i + 1].free
    ensures var t := MergeNext(s, i);
            && WellFormed(t) && i < |t| && t[i].addr == s[i].addr && !t[i].free
            && t[i].size == s[i].size + HEADER + s[i + 1].size
            && Live(t) == Live(s) - {(s[i].addr, s[i].size)} + {(s[i].addr, t[i].size)}
  {
    MergeWellFormed(s, i);
    MergeLive(s, i);
  }

  lemma OneLiveAtAddr(s: Layout, i: nat, size: nat)
    requires WellFormed(s) && i < |s| && (s[i].addr, size) in Live(s)
    ensures s[i].size == size && !s[i].free
  {
    var j :| 0 <= j < |s| && !s[j].free && (s[j].addr, s[j].size) == (s[i].addr, size);
    IndexUnique(s, i);
    IndexUnique(s, j);
  }

  lemma GrowKeeps(s: Layout, i: nat, size: nat)
    requires WellFormed(s) && i < |s| && !s[i].free && ResizeWay(s, i, size) == Grow
    ensures Resized(s, i, Split(MergeNext(s, i), i, AlignUp(size)), s[i].Payload(), size)
  {
    var u := MergeNext(s, i);
    MergeKeeps(s, i);
    if (u[i].addr, u[i].size) in Live(s) { OneLiveAtAddr(s, i, u[i].size); assert false; }
    hide MergeNext, WellFormed, Live, Index, AlignUp, Split;
    ShrinkKeeps(u, i, size);
  }

  lemma ResizedIntro(s: Layout, i: nat, m: Layout, t: Layout, b: Block, size: nat)
    requires i < |s| && WellFormed(t) && Index(t, b.addr) < |t| && t[Index(t, b.addr)] == b
    requires !b.free && size <= b.size < AlignUp(size) + HEADER + SLACK && b.addr != s[i].addr
    requires b.End() <= s[i].addr || s[i].End() <= b.addr
    requires Live(m) == Live(s) + {(b.addr, b.size)} && Live(t) == Live(m) - {(s[i].addr, s[i].size)}
    ensures Resized(s, i, t, b.Payload(), size)
  {
    hide WellFormed, Index, Live;
    assert (b.addr, b.size) != (s[i].addr, s[i].size);
    assert Live(t) == Live(s) - {(s[i].addr, s[i].size)} + {(b.addr, b.size)};
  }

  /** Freeing one live block leaves another where it is. */
  lemma FreeOther(m: Layout, j: nat, b: Block)
    requires WellFormed(m) && j < |m| && (b.addr, b.size) in Live(m) && !b.free && b.addr != m[j].addr
    ensures WellFormed(FreeAt(m, j)) && Live(FreeAt(m, j)) == Live(m) - {(m[j].addr, m[j].size)}
    ensures Index(FreeAt(m, j), b.addr) < |FreeAt(m, j)| && FreeAt(m, j)[Index(FreeAt(m, j), b.addr)] == b
  {
    hide FreeAt, WellFormed, Live, Index;
    FreeWellFormed(m, j);
    FreeLive(m, j);
    LiveIndex(FreeAt(m, j), b.addr, b.size);
  }

  lemma NewIsApart(s: Layout, t: Layout, q: int, size: nat, i: nat)
    requires Serves(s, t, q, size) && i < |s| && !s[i].free
    ensures Index(t, q - HEADER) < |t|
    ensures var b := t[Index(t, q - HEADER)];
            && b.Payload() == q && !b.free && size <= b.size < AlignUp(size) + HEADER + SLACK && b.addr != s[i].addr
            && (b.End() <= s[i].addr || s[i].End() <= b.addr)
            && (b.addr, b.size) in Live(t)
  {}

  lemma MoveKeeps(s: Layout, i: nat, size: nat, grant: int)
    requires WellFormed(s) && Contiguous(s, grant) && i < |s| && !s[i].free && size > 0
    ensures var (m, q) := Malloc(s, size, grant);
            q != 0 ==> Resized(s, i, Free(m, s[i].Payload()), q, size)
  {
    hide Malloc, FreeAt, WellFormed, Live, Index, AlignUp, Contiguous, Serves, Resized;
    var (m, q) := Malloc(s, size, grant);
    if q != 0 {
      MallocServes(s, size, grant);
      MallocLive(s, size, grant);
      NewIsApart(s, m, q, size, i);
      var b := m[Index(m, q - HEADER)];
      LiveStays(s, m, i, (q - HEADER, b.size));
      var j := Index(m, s[i].addr);
      FreeOther(m, j, b);
      ResizedIntro(s, i, m, FreeAt(m, j), b, size);
      PositiveAt(s, i);
    }
  }

  lemma PositiveAt(s: Layout, i: nat)
    requires WellFormed(s) && i < |s|
    ensures s[i].addr > 0
  {}

  lemma LiveIndex(t: Layout, addr: int, size: nat)
    requires WellFormed(t) && (addr, size) in Live(t)
    ensures Index(t, addr) < |t| && t[Index(t, addr)] == Block(addr, size, false)
  {
    var j :| 0 <= j < |t| && !t[j].free && (t[j].addr, t[j].size) == (addr, size);
    IndexUnique(t, j);
  }

  /** What resizing comes to for the block found. */
  lemma ReallocAt(s: Layout, i: nat, size: nat, grant: int)
    requires i < |s| && Index(s, s[i].addr) == i && s[i].Payload() != 0 && size > 0
    ensures Realloc(s, s[i].Payload(), size, grant) ==
            match ResizeWay(s, i, size)
            case Shrink => (Split(s, i, AlignUp(size)), s[i].Payload())
            case Grow => (Split(MergeNext(s, i), i, AlignUp(size)), s[i].Payload())
            case Move =>
              var (t, q) := Malloc(s, size, grant);
              if q == 0 then (s, 0) else (Free(t, s[i].Payload()), q)
  {
    hide Split, MergeNext, Index, AlignUp, Malloc, Free;
  }

  lemma MovesAway(s: Layout, i: nat, size: nat, grant: int)
    requires WellFormed(s) && Contiguous(s, grant) && i < |s| && !s[i].free && size > 0
    ensures Malloc(s, size, grant).1 != s[i].Payload()
  {
    hide Malloc, Contiguous, Serves, Index;
    PositiveAt(s, i);
    var (m, q) := Malloc(s, size, grant);
    MallocServes(s, size, grant);
    if q != 0 { NewIsApart(s, m, q, size, i); }
  }

  /**
    Resizing a live block: on success the pointer returned owns a live block of the size asked for,
    and of the live blocks exactly the old one is replaced by it; on failure nothing changes. The pointer
    stays exactly if the block is large enough, or is so together with a free one behind it.
  */
  lemma ReallocServes(s: Layout, i: nat, size: nat, grant: int)
    requires WellFormed(s) && Contiguous(s, grant) && i < |s| && !s[i].free && size > 0
    ensures var (t, q) := Realloc(s, s[i].Payload(), size, grant);
            if q == 0 then t == s else Resized(s, i, t, q, size)
    ensures Realloc(s, s[i].Payload(), size, grant).1 == s[i].Payload() <==>
            || s[i].size >= size
            || (i + 1 < |s| && s[i + 1].free && s[i].size + HEADER + s[i + 1].size >= size)
  {
    if ResizeWay(s, i, size) == Move { MovesAway(s, i, size, grant); }
    assert Tiles(s);
    hide Split, MergeNext, WellFormed, Tiles, Index, AlignUp, Resized, Malloc, Free, Contiguous;
    IndexUnique(s, i);
    PositiveAt(s, i);
    ReallocAt(s, i, size, grant);
    hide Realloc;
    match ResizeWay(s, i, size)
    case Shrink => ShrinkKeeps(s, i, size);
    case Grow => GrowKeeps(s, i, size);
    case Move => MoveKeeps(s, i, size, grant);
  }

  // ------------------------------------------------------- resizing and coalescing

  /** Shrinking cuts off a free block in front of a free block. */
  predicate LeavesGap(s: Layout, i: nat, size: nat)
    requires i < |s|
  {
    s[i].size >= AlignUp(size) + HEADER + SLACK && i + 1 < |s| && s[i + 1].free
  }

  lemma SplitLiveCoalesced(s: Layout, i: nat, size: nat)
    requires Coalesced(s) && i < |s| && !s[i].free
    ensures Coalesced(Split(s, i, size)) <==> !(s[i].size >= size + HEADER + SLACK && i + 1 < |s| && s[i + 1].free)
  {
    var t := Split(s, i, size);
    if t != s {
      if i + 1 < |s| { assert t[i + 2] == s[i + 1] && t[i + 1].free; }
      forall k | 0 <= k < |t| - 1 && k != i + 1 ensures !(t[k].free && t[k + 1].free) {
        if k < i { assert !(s[k].free && s[k + 1].free); }
        if k > i + 1 { assert t[k] == s[k - 1] && t[k + 1] == s[k]; assert !(s[k - 1].free && s[(k - 1) + 1].free); }
      }
    }
  }

  lemma MergeLiveCoalesced(s: Layout, i: nat)
    requires Coalesced(s) && i < |s| && !s[i].free
    ensures Coalesced(MergeNext(s, i))
    ensures i + 1 < |s| && s[i + 1].free && i + 2 < |s| ==> !MergeNext(s, i)[i + 1].free
  {
    var t := MergeNext(s, i);
    if t != s {
      if i + 2 < |s| { assert !(s[i + 1].free && s[(i + 1) + 1].free); }
      forall k | 0 <= k < |t| - 1 ensures !(t[k].free && t[k + 1].free) {
        if k < i { assert !(s[k].free && s[k + 1].free); }
        if k > i { assert !(s[k + 1].free && s[(k + 1) + 1].free); }
      }
    }
  }

  lemma GrowCoalesced(s: Layout, i: nat, size: nat)
    requires Coalesced(s) && i < |s| && !s[i].free && i + 1 < |s| && s[i + 1].free
    ensures Coalesced(Split(MergeNext(s, i), i, size))
  {
    var u := MergeNext(s, i);
    MergeLiveCoalesced(s, i);
    assert u[i] == s[i].(size := s[i].size + HEADER + s[i + 1].size);
    assert |u| == |s| - 1;
    hide MergeNext, Split, Coalesced;
    SplitLiveCoalesced(u, i, size);
  }

  lemma MoveCoalesced(s: Layout, p: int, size: nat, grant: int)
    requires Coalesced(s)
    ensures Coalesced(Free(Malloc(s, size, grant).0, p))
  {
    MallocCoalesced(s, size, grant);
    hide Malloc, Coalesced;
    FreePointerCoalesced(Malloc(s, size, grant).0, p);
    hide Free;
  }

  /** Resizing keeps the heap coalesced except, exactly, when shrinking leaves such a gap. */
  lemma ReallocCoalesced(s: Layout, i: nat, size: nat, grant: int)
    requires WellFormed(s) && Coalesced(s) && i < |s| && !s[i].free && size > 0
    ensures Coalesced(Realloc(s, s[i].Payload(), size, grant).0) <==> !LeavesGap(s, i, size)
  {
    IndexUnique(s, i);
    PositiveAt(s, i);
    AlignUpIs(size);
    hide WellFormed, Coalesced, Split, MergeNext, Malloc, Free, AlignUp, Index;
    match ResizeWay(s, i, size)
    case Shrink => SplitLiveCoalesced(s, i, AlignUp(size));
    case Grow => GrowCoalesced(s, i, AlignUp(size));
    case Move => MoveCoalesced(s, s[i].Payload(), size, grant);
  }

  // ------------------------------------------------------------ merging across a gap

  /** The addresses of a block, header included. */
  predicate Covers(b: Block, a: int) { b.addr <= a < b.End() }

  /**
    Merging does not look at addresses: the merged block covers exactly the two blocks if and only
    if they are adjacent. Chunks from different places break it.
  */
  lemma MergeNeedsAdjacency(s: Layout, i: nat)
    requires i + 1 < |s| && s[i + 1].free
    ensures (forall a :: Covers(MergeNext(s, i)[i], a) <==> Covers(s[i], a) || Covers(s[i + 1], a)) <==>
            s[i].End() == s[i + 1].addr
  {
    var m := MergeNext(s, i)[i];
    assert m.addr == s[i].addr && m.End() == s[i].End() + HEADER + s[i + 1].size;
    if forall a :: Covers(m, a) <==> Covers(s[i], a) || Covers(s[i + 1], a) {
      assert Covers(m, m.addr) && Covers(m, m.End() - 1) && !Covers(m, m.End());
      assert Covers(s[i + 1], s[i + 1].addr) && Covers(s[i + 1], s[i + 1].End() - 1);
      assert Covers(m, s[i].End()) <==> Covers(s[i], s[i].End()) || Covers(s[i + 1], s[i].End());
    }
  }

  // ------------------------------------------------------------------ whole runs

  datatype Op =
    | DoMalloc(size: nat, grant: int)
    | DoCalloc(count: nat, size: nat, grant: int)
    | DoFree(p: int)
    | DoRealloc(p: int, size: nat, grant: int)

  function Boot(start: int, end: int): Layout {
    if end - start <= HEADER then [] else [Block(start, end - start - HEADER, true)]
  }

  function Calloc(s: Layout, count: nat, size: nat, grant: int): (Layout, int) {
    if count != 0 && size > (WORD - 1) / count then (s, 0) else Malloc(s, count * size, grant)
  }

  function Apply(s: Layout, op: Op): (Layout, int) {
    match op
    case DoMalloc(size, grant) => Malloc(s, size, grant)
    case DoCalloc(count, size, grant) => Calloc(s, count, size, grant)
    case DoFree(p) => (Free(s, p), 0)
    case DoRealloc(p, size, grant) => Realloc(s, p, size, grant)
  }

  /** What the caller holds afterwards, given the pointer returned. */
  function Hold(held: set<int>, op: Op, q: int): set<int> {
    match op
    case DoMalloc(_, _) => if q == 0 then held else held + {q}
    case DoCalloc(_, _, _) => if q == 0 then held else held + {q}
    case DoFree(p) => held - {p}
    case DoRealloc(p, size, _) =>
      if p == 0 then (if q == 0 then held else held + {q})
      else if size == 0 then held - {p}
      else if q == 0 then held
      else held - {p} + {q}
  }

  /** Callers free and resize only what they hold; the system extends the arena at its end. */
  predicate Legal(s: Layout, held: set<int>, op: Op) {
    match op
    case DoMalloc(size, grant) => size <= REQUEST_LIMIT && Contiguous(s, grant)
    case DoCalloc(count, size, grant) =>
      (count * size <= REQUEST_LIMIT || count * size >= WORD) && Contiguous(s, grant)
    case DoFree(p) => p == 0 || p in held
    case DoRealloc(p, size, grant) => (p == 0 || p in held) && size <= REQUEST_LIMIT && Contiguous(s, grant)
  }

  /** The pointers that own live blocks. */
  function Owners(s: Layout): set<int> {
    set i | 0 <= i < |s| && !s[i].free :: s[i].Payload()
  }

  predicate Inv(s: Layout, held: set<int>) { WellFormed(s) && Owners(s) == held }

  /** Some live block starts at this address. */
  ghost predicate HasLive(s: Layout, addr: int) { exists n: nat :: (addr, n) in Live(s) }

  lemma OwnersFromLive(s: Layout)
    ensures forall p :: p in Owners(s) <==> HasLive(s, p - HEADER)
  {
    forall p ensures p in Owners(s) <==> HasLive(s, p - HEADER) {
      if p in Owners(s) {
        var i :| 0 <= i < |s| && !s[i].free && s[i].Payload() == p;
        assert (s[i].addr, s[i].size) in Live(s);
      }
      if HasLive(s, p - HEADER) {
        var a := p - HEADER;
        var n: nat :| (a, n) in Live(s);
        var i :| 0 <= i < |s| && !s[i].free && (s[i].addr, s[i].size) == (a, n);
        assert s[i].Payload() == p;
      }
    }
  }

  lemma OwnersAdd(s: Layout, t: Layout, q: int, n: nat)
    requires Live(t) == Live(s) + {(q - HEADER, n)}
    ensures Owners(t) == Owners(s) + {q}
  {
    OwnersFromLive(s);
    OwnersFromLive(t);
    assert (q - HEADER, n) in Live(t);
    forall p | p in Owners(t) && p != q ensures p in Owners(s) {
      var a := p - HEADER;
      var k: nat :| (a, k) in Live(t);
      assert (a, k) in Live(s);
    }
    forall p | p in Owners(s) ensures p in Owners(t) {
      var a := p - HEADER;
      var k: nat :| (a, k) in Live(s);
      assert (a, k) in Live(t);
    }
  }

  lemma OwnersRemove(s: Layout, t: Layout, i: nat)
    requires WellFormed(s) && i < |s| && Live(t) == Live(s) - {(s[i].addr, s[i].size)}
    ensures Owners(t) == Owners(s) - {s[i].Payload()}
  {
    OwnersFromLive(s);
    OwnersFromLive(t);
    forall p | p in Owners(t) ensures p in Owners(s) && p != s[i].Payload() {
      var a := p - HEADER;
      var n: nat :| (a, n) in Live(t);
      if p == s[i].Payload() { OneLiveAtAddr(s, i, n); }
      assert (a, n) in Live(s);
    }
    forall p | p in Owners(s) && p != s[i].Payload() ensures p in Owners(t) {
      var a := p - HEADER;
      var n: nat :| (a, n) in Live(s);
      if n == s[i].size && a == s[i].addr { assert false; }
      assert (a, n) in Live(t);
    }
  }

  lemma MallocKeepsInv(s: Layout, held: set<int>, size: nat, grant: int)
    requires Inv(s, held) && Contiguous(s, grant)
    ensures var (t, q) := Malloc(s, size, grant);
            Inv(t, if q == 0 then held else held + {q})
  {
    hide Malloc, Live, WellFormed, Owners;
    MallocServes(s, size, grant);
    MallocLive(s, size, grant);
    var (t, q) := Malloc(s, size, grant);
    if q != 0 { OwnersAdd(s, t, q, t[Index(t, q - HEADER)].size); }
  }

  lemma HeldIndex(s: Layout, held: set<int>, p: int) returns (i: nat)
    requires Inv(s, held) && p in held
    ensures LiveAt(s, i, p) && Index(s, p - HEADER) == i && p != 0
  {
    i :| 0 <= i < |s| && !s[i].free && s[i].Payload() == p;
    IndexUnique(s, i);
    assert 0 < s[i].addr;
  }

  lemma FreeKeepsInv(s: Layout, held: set<int>, p: int)
    requires Inv(s, held) && (p == 0 || p in held)
    ensures Inv(Free(s, p), held - {p})
  {
    if p != 0 {
      var i := HeldIndex(s, held, p);
      hide Live, WellFormed, Owners, FreeAt, Index;
      FreeWellFormed(s, i);
      FreeLive(s, i);
      OwnersRemove(s, FreeAt(s, i), i);
    } else {
      if 0 in held { var i := HeldIndex(s, held, 0); }
      assert held - {p} == held;
    }
  }

  lemma ReallocKeepsInv(s: Layout, held: set<int>, p: int, size: nat, grant: int)
    requires Inv(s, held) && p in held && size > 0 && Contiguous(s, grant)
    ensures var (t, q) := Realloc(s, p, size, grant);
            Inv(t, if q == 0 then held else held - {p} + {q})
  {
    var i := HeldIndex(s, held, p);
    hide Live, WellFormed, Owners, Realloc, Index;
    ReallocServes(s, i, size, grant);
    var (t, q) := Realloc(s, p, size, grant);
    if q != 0 {
      OwnersReplace(s, t, i, q, t[Index(t, q - HEADER)].size);
    }
  }

  lemma OwnersReplace(s: Layout, t: Layout, i: nat, q: int, n: nat)
    requires WellFormed(s) && i < |s| && !s[i].free
    requires Live(t) == Live(s) - {(s[i].addr, s[i].size)} + {(q - HEADER, n)}
    ensures Owners(t) == Owners(s) - {s[i].Payload()} + {q}
  {
    OwnersFromLive(s);
    OwnersFromLive(t);
    assert (q - HEADER, n) in Live(t);
    forall p | p in Owners(t) && p != q ensures p in Owners(s) && p != s[i].Payload() {
      var a := p - HEADER;
      var k: nat :| (a, k) in Live(t);
      if p == s[i].Payload() { OneLiveAtAddr(s, i, k); }
      assert (a, k) in Live(s);
    }
    forall p | p in Owners(s) && p != s[i].Payload() ensures p in Owners(t) {
      var a := p - HEADER;
      var k: nat :| (a, k) in Live(s);
      assert (a, k) in Live(t);
    }
  }

  /** One legal call keeps the heap well formed and its live blocks exactly what the caller holds. */
  lemma CallKeepsInv(s: Layout, held: set<int>, op: Op)
    requires Inv(s, held) && Legal(s, held, op)
    ensures var (t, q) := Apply(s, op); Inv(t, Hold(held, op, q))
  {
    hide Inv, Malloc, Free;
    match op
    case DoMalloc(size, grant) => MallocKeepsInv(s, held, size, grant);
    case DoCalloc(count, size, grant) => MallocKeepsInv(s, held, count * size, grant);
    case DoFree(p) => FreeKeepsInv(s, held, p);
    case DoRealloc(p, size, grant) =>
      if p == 0 { MallocKeepsInv(s, held, size, grant); }
      else if size == 0 { FreeKeepsInv(s, held, p); }
      else { ReallocKeepsInv(s, held, p, size, grant); hide Realloc; }
  }

  function Run(s: Layout, held: set<int>, ops: seq<Op>): (Layout, set<int>)
    decreases |ops|
  {
    if ops == [] then (s, held)
    else
      var (t, q) := Apply(s, ops[0]);
      Run(t, Hold(held, ops[0], q), ops[1..])
  }

  predicate LegalRun(s: Layout, held: set<int>, ops: seq<Op>)
    decreases |ops|
  {
    ops == [] ||
    (Legal(s, held, ops[0]) &&
     var (t, q) := Apply(s, ops[0]); LegalRun(t, Hold(held, ops[0], q), ops[1..]))
  }

  /**
    Main result: after any legal run from the initial arena the blocks tile memory, are aligned,
    and the live ones are exactly those the caller holds.
  */
  lemma {:induction false} RunSafe(s: Layout, held: set<int>, ops: seq<Op>)
    requires Inv(s, held) && LegalRun(s, held, ops)
    ensures Inv(Run(s, held, ops).0, Run(s, held, ops).1)
    decreases |ops|
  {
    if ops != [] {
      CallKeepsInv(s, held, ops[0]);
      var (t, q) := Apply(s, ops[0]);
      hide Inv, Apply, Legal, Hold;
      RunSafe(t, Hold(held, ops[0], q), ops[1..]);
    }
  }

  lemma BootSafe(start: int, end: int)
    requires 0 < start && AlignedAt(start)
    ensures Inv(Boot(start, end), {}) && Coalesced(Boot(start, end))
  {}

  /** No resize in the run leaves a gap. */
  predicate Tidy(s: Layout, held: set<int>, ops: seq<Op>)
    decreases |ops|
  {
    ops == [] ||
    ((ops[0].DoRealloc? && ops[0].p != 0 && ops[0].size > 0 ==>
        Index(s, ops[0].p - HEADER) < |s| && !LeavesGap(s, Index(s, ops[0].p - HEADER), ops[0].size)) &&
     var (t, q) := Apply(s, ops[0]); Tidy(t, Hold(held, ops[0], q), ops[1..]))
  }

  predicate NoRealloc(ops: seq<Op>) {
    forall k | 0 <= k < |ops| :: !ops[k].DoRealloc?
  }

  lemma {:induction false} NoReallocIsTidy(s: Layout, held: set<int>, ops: seq<Op>)
    requires NoRealloc(ops)
    ensures Tidy(s, held, ops)
    decreases |ops|
  {
    if ops != [] {
      var (t, q) := Apply(s, ops[0]);
      hide Apply, Hold;
      NoReallocIsTidy(t, Hold(held, ops[0], q), ops[1..]);
    }
  }

  lemma CallKeepsCoalesced(s: Layout, held: set<int>, op: Op)
    requires Inv(s, held) && Legal(s, held, op) && Coalesced(s)
    requires op.DoRealloc? && op.p != 0 && op.size > 0 ==>
               Index(s, op.p - HEADER) < |s| && !LeavesGap(s, Index(s, op.p - HEADER), op.size)
    ensures Coalesced(Apply(s, op).0)
  {
    hide Coalesced, Malloc, FreeAt, LeavesGap;
    match op
    case DoMalloc(size, grant) => MallocCoalesced(s, size, grant);
    case DoCalloc(count, size, grant) => MallocCoalesced(s, count * size, grant);
    case DoFree(p) => FreePointerCoalesced(s, p);
    case DoRealloc(p, size, grant) =>
      if p == 0 { MallocCoalesced(s, size, grant); }
      else if size == 0 { FreePointerCoalesced(s, p); }
      else {
        var i := HeldIndex(s, held, p);
        ReallocCoalesced(s, i, size, grant);
        hide Realloc, Contiguous, Inv;
      }
  }

  lemma FreePointerCoalesced(s: Layout, p: int)
    requires Coalesced(s)
    ensures Coalesced(Free(s, p))
  {
    var i := Index(s, p - HEADER);
    if i < |s| { FreeCoalesced(s, i); }
    hide Coalesced, FreeAt, Index;
  }

  /** Main result: a run in which no resize leaves a gap never has two neighbouring free blocks. */
  lemma {:induction false} RunCoalesced(s: Layout, held: set<int>, ops: seq<Op>)
    requires Inv(s, held) && LegalRun(s, held, ops) && Coalesced(s) && Tidy(s, held, ops)
    ensures Coalesced(Run(s, held, ops).0)
    decreases |ops|
  {
    if ops != [] {
      CallKeepsInv(s, held, ops[0]);
      CallKeepsCoalesced(s, held, ops[0]);
      var (t, q) := Apply(s, ops[0]);
      hide Inv, Apply, Legal, Hold, Coalesced, LeavesGap, Index;
      RunCoalesced(t, Hold(held, ops[0], q), ops[1..]);
    }
  }

  /** A block is asked for and then made smaller, with the rest of the arena free behind it. */
  const SHRINKING: seq<Op> := [DoMalloc(256, 0), DoRealloc(48, 16, 0)]

  const ASKED: Layout := [Block(16, 256, false), Block(304, 64, true)]
  const SHRUNK: Layout := [Block(16, 16, false), Block(64, 208, true), Block(304, 64, true)]

  lemma SplitFirst(b: Block, rest: Layout, size: nat)
    requires b.size >= size + HEADER + SLACK
    ensures Split([b] + rest, 0, size)
            == [b.(size := size), Block(b.addr + HEADER + size, b.size - size - HEADER, true)] + rest
  {
    var s := [b] + rest;
    assert s[0] == b && s[..0] == [] && s[1..] == rest;
  }

  lemma AskedFirst()
    ensures Malloc(Boot(16, 400), 256, 0) == (ASKED, 48)
  {
    var b := Block(16, 352, true);
    assert Boot(16, 400) == [b] && [b] + [] == [b] && AlignUp(256) == 256;
    hide Split, AlignUp, Boot;
    assert FirstFit([b], 256) == 0;
    hide FirstFit;
    SplitFirst(b, [], 256);
    assert Take([b], 0, 256) == ASKED;
    hide Take;
  }

  lemma ThenShrunk()
    ensures WellFormed(ASKED) && Coalesced(ASKED) && LeavesGap(ASKED, 0, 16)
    ensures Realloc(ASKED, 48, 16, 0) == (SHRUNK, 48) && !Coalesced(SHRUNK)
  {
    assert Index(ASKED, 16) == 0 && AlignUp(16) == 16;
    assert SHRUNK[1].free && SHRUNK[1 + 1].free;
    hide Split, Index, AlignUp, Realloc;
    SplitFirst(ASKED[0], [ASKED[1]], 16);
    assert ASKED == [ASKED[0]] + [ASKED[1]];
    assert Split(ASKED, 0, 16) == SHRUNK;
    ReallocAt(ASKED, 0, 16, 0);
  }

  /** The gap is real: this legal run from a first arena leaves two free neighbours. */
  lemma GapExample()
    ensures LegalRun(Boot(16, 400), {}, SHRINKING) && LeavesGap(ASKED, 0, 16)
    ensures Run(Boot(16, 400), {}, SHRINKING[..1]) == (ASKED, {48})
    ensures Run(Boot(16, 400), {}, SHRINKING) == (SHRUNK, {48}) && !Coalesced(SHRUNK)
  {
    AskedFirst();
    ThenShrunk();
    var s, op, op' := Boot(16, 400), SHRINKING[0], SHRINKING[1];
    assert SHRINKING[..1] == [op] && SHRINKING[1..] == [op'] && [op][1..] == [] && [op'][1..] == [];
    hide Malloc, Realloc, LeavesGap, Coalesced, Boot;
    assert Hold({}, op, 48) == {48} && Hold({48}, op', 48) == {48};
    assert Run(ASKED, {48}, []) == (ASKED, {48}) && Run(SHRUNK, {48}, []) == (SHRUNK, {48});
    assert LegalRun(SHRUNK, {48}, []);
    assert Apply(s, op) == (ASKED, 48) && Apply(ASKED, op') == (SHRUNK, 48);
    hide Apply, Hold;
    assert Run(ASKED, {48}, [op']) == (SHRUNK, {48}) && LegalRun(ASKED, {48}, [op']);
  }

  // ---------------------------------------------------------------- conservation

  lemma FreePointerConserves(s: Layout, p: int)
    ensures Bytes(Free(s, p)) == Bytes(s)
  {
    var i := Index(s, p - HEADER);
    if i < |s| { FreeConserves(s, i); }
    hide FreeAt, Index, Bytes;
  }

  /** The bytes that a call gets from the system. */
  function Granted(s: Layout, op: Op): int {
    match op
    case DoMalloc(size, grant) => ChunkFor(s, size, grant)
    case DoCalloc(count, size, grant) =>
      if count != 0 && size > (WORD - 1) / count then 0 else ChunkFor(s, count * size, grant)
    case DoFree(_) => 0
    case DoRealloc(p, size, grant) =>
      if p == 0 then ChunkFor(s, size, grant)
      else if size == 0 || Index(s, p - HEADER) == |s| || ResizeWay(s, Index(s, p - HEADER), size) != Move then 0
      else if Malloc(s, size, grant).1 == 0 then 0
      else ChunkFor(s, size, grant)
  }

  lemma ReallocConserves(s: Layout, p: int, size: nat, grant: int)
    ensures Bytes(Realloc(s, p, size, grant).0) == Bytes(s) + Granted(s, DoRealloc(p, size, grant))
  {
    AlignUpIs(size);
    hide Malloc, Free, Split, MergeNext, Index, AlignUp, Bytes, ChunkFor;
    var i := Index(s, p - HEADER);
    if p == 0 {
      MallocConserves(s, size, grant);
    } else if size == 0 {
      FreePointerConserves(s, p);
    } else if i < |s| {
      match ResizeWay(s, i, size)
      case Shrink => SplitConserves(s, i, AlignUp(size));
      case Grow =>
        MergeConserves(s, i);
        MergeHead(s, i);
        SplitConserves(MergeNext(s, i), i, AlignUp(size));
      case Move =>
        MallocConserves(s, size, grant);
        FreePointerConserves(Malloc(s, size, grant).0, p);
    }
  }

  lemma MergeHead(s: Layout, i: nat)
    requires i < |s|
    ensures i < |MergeNext(s, i)|
  {
  }

  lemma CallConserves(s: Layout, op: Op)
    ensures Bytes(Apply(s, op).0) == Bytes(s) + Granted(s, op)
  {
    hide Malloc, Free, Bytes, ChunkFor;
    match op
    case DoMalloc(size, grant) => MallocConserves(s, size, grant);
    case DoCalloc(count, size, grant) => MallocConserves(s, count * size, grant);
    case DoFree(p) => FreePointerConserves(s, p);
    case DoRealloc(p, size, grant) =>
      ReallocConserves(s, p, size, grant);
      hide Realloc, Granted;
  }

  function GrantedInRun(s: Layout, ops: seq<Op>): int
    decreases |ops|
  {
    if ops == [] then 0 else Granted(s, ops[0]) + GrantedInRun(Apply(s, ops[0]).0, ops[1..])
  }

  /**
    Main result: headers and payloads together are always what the arena began with and the chunks
    that the system granted since, whatever the calls and wherever the chunks lie.
  */
  lemma {:induction false} RunConserves(s: Layout, held: set<int>, ops: seq<Op>)
    ensures Bytes(Run(s, held, ops).0) == Bytes(s) + GrantedInRun(s, ops)
    decreases |ops|
  {
    if ops != [] {
      CallConserves(s, ops[0]);
      var (t, q) := Apply(s, ops[0]);
      hide Apply, Hold, Granted, Bytes;
      RunConserves(t, Hold(held, ops[0], q), ops[1..]);
    }
  }
}
