/**
  What the heap does, on layouts: the list of blocks in address order, each a 32-byte header and
  the payload behind it. The class ClibHeap is proved against these functions.
*/
module HeapLayout {
  import opened Options

  const HEADER := 32
  const SLACK := 16
  const CHUNK_MIN := 64 * 1024
  const CHUNK_MAX := 4 * 1024 * 1024
  const WORD := 0x1_0000_0000_0000_0000

  /** Requests up to this size stay clear of wrap-around in the size computations. */
  const REQUEST_LIMIT := WORD - 64

  datatype Block = Block(addr: int, size: nat, free: bool) {
    function Payload(): int { addr + HEADER }
    function End(): int { addr + HEADER + size }
    predicate Owns(a: int) { Payload() <= a < End() }
  }

  type Layout = seq<Block>

  function AlignUp(value: int): int
    requires value >= 0
  {
    (value + 15) / 16 * 16
  }

  /** How large a chunk is asked for, before alignment. */
  function ChunkRequest(need: nat): (n: nat)
    ensures n >= need + HEADER && n >= CHUNK_MIN
  {
    var usual := if CHUNK_MAX < CHUNK_MIN then CHUNK_MIN else CHUNK_MAX;
    if usual < need + HEADER then need + HEADER else usual
  }

  function ChunkSize(need: nat): int {
    AlignUp(ChunkRequest(need))
  }

  // ---------------------------------------------------------------- operations

  function Split(s: Layout, i: nat, size: nat): Layout
    requires i < |s|
  {
    if s[i].size < size + HEADER + SLACK then s
    else s[..i] + [s[i].(size := size), Block(s[i].addr + HEADER + size, s[i].size - size - HEADER, true)] + s[i + 1..]
  }

  function MergeNext(s: Layout, i: nat): Layout
    requires i < |s|
  {
    if i + 1 < |s| && s[i + 1].free then
      s[..i] + [s[i].(size := s[i].size + HEADER + s[i + 1].size)] + s[i + 2..]
    else s
  }

  function Take(s: Layout, i: nat, need: nat): Layout
    requires i < |s|
  {
    var t := Split(s, i, need);
    t[i := t[i].(free := false)]
  }

  function FirstFit(s: Layout, need: nat): (i: nat)
    ensures i <= |s|
    ensures i < |s| ==> s[i].free && s[i].size >= need
    ensures forall j | 0 <= j < i :: !(s[j].free && s[j].size >= need)
  {
    if s == [] then 0
    else if s[0].free && s[0].size >= need then 0
    else
      var k := FirstFit(s[1..], need);
      assert forall j | 1 <= j < k + 1 :: s[j] == s[1..][j - 1];
      k + 1
  }

  /** One more block at the end: a chunk that the system granted. */
  function Extend(s: Layout, need: nat, grant: int): Layout {
    s + [Block(grant, ChunkSize(need) - HEADER, true)]
  }

  /** Allocation: the new layout and the payload address, 0 for none. grant is what the system gives. */
  function Malloc(s: Layout, size: nat, grant: int): (Layout, int) {
    if size == 0 then (s, 0)
    else
      var need := AlignUp(size);
      var i := FirstFit(s, need);
      if i < |s| then (Take(s, i, need), s[i].Payload())
      else if grant == 0 then (s, 0)
      else (Take(Extend(s, need, grant), |s|, need), grant + HEADER)
  }

  function Index(s: Layout, addr: int): (i: nat)
    ensures i <= |s|
    ensures i < |s| ==> s[i].addr == addr
    ensures forall j | 0 <= j < i :: s[j].addr != addr
  {
    if s == [] then 0
    else if s[0].addr == addr then 0
    else
      var k := Index(s[1..], addr);
      assert forall j | 1 <= j < k + 1 :: s[j] == s[1..][j - 1];
      k + 1
  }

  function FreeAt(s: Layout, i: nat): Layout
    requires i < |s|
  {
    var t := MergeNext(s[i := s[i].(free := true)], i);
    if i > 0 && t[i - 1].free then MergeNext(t, i - 1) else t
  }

  function Free(s: Layout, p: int): Layout {
    if p == 0 || Index(s, p - HEADER) == |s| then s else FreeAt(s, Index(s, p - HEADER))
  }

  datatype Way = Shrink | Grow | Move

  /** Which of the three ways a block is resized. */
  function ResizeWay(s: Layout, i: nat, size: nat): Way
    requires i < |s|
  {
    if s[i].size >= size then Shrink
    else if i + 1 < |s| && s[i + 1].free && s[i].size + HEADER + s[i + 1].size >= size then Grow
    else Move
  }

  function Realloc(s: Layout, p: int, size: nat, grant: int): (Layout, int) {
    if p == 0 then Malloc(s, size, grant)
    else if size == 0 then (Free(s, p), 0)
    else
      var i := Index(s, p - HEADER);
      if i == |s| then (s, 0)
      else match ResizeWay(s, i, size)
           case Shrink => (Split(s, i, AlignUp(size)), p)
           case Grow => (Split(MergeNext(s, i), i, AlignUp(size)), p)
           case Move =>
             var (t, q) := Malloc(s, size, grant);
             if q == 0 then (s, 0) else (Free(t, p), q)
  }

  // -------------------------------------------------------------------- tiling

  /** Every block starts where the one before it ends. */
  predicate Tiles(s: Layout) {
    forall i | 0 <= i < |s| - 1 :: s[i].End() == s[i + 1].addr
  }

  function End(s: Layout): int
    requires s != []
  {
    s[|s| - 1].End()
  }

  predicate AlignedAt(a: int) { a % 16 == 0 }

  predicate Aligned(s: Layout) {
    forall i | 0 <= i < |s| :: AlignedAt(s[i].addr)
  }

  predicate Positive(s: Layout) {
    forall i | 0 <= i < |s| :: 0 < s[i].addr
  }

  /** The system extends the arena where it ends, with aligned memory. */
  predicate Contiguous(s: Layout, grant: int) {
    grant == 0 || (0 < grant && AlignedAt(grant) && (s != [] ==> grant == End(s)))
  }

  predicate WellFormed(s: Layout) { Tiles(s) && Aligned(s) && Positive(s) }

  /** The arena: from the first header to the end of the last payload. */
  predicate SameArena(s: Layout, t: Layout) {
    && (s == [] <==> t == [])
    && (s != [] ==> s[0].addr == t[0].addr && End(s) == End(t))
  }

  lemma {:induction false} InOrder(s: Layout, i: nat, j: nat)
    requires Tiles(s) && i < j < |s|
    ensures s[i].End() <= s[j].addr
    decreases j - i
  {
    if i + 1 < j {
      InOrder(s, i + 1, j);
      assert s[i].End() == s[i + 1].addr;
    }
  }

  /** Payloads of different blocks are disjoint, and no payload contains a header. */
  lemma Disjoint(s: Layout, i: nat, j: nat)
    requires Tiles(s) && i < |s| && j < |s| && i != j
    ensures s[i].End() <= s[j].addr || s[j].End() <= s[i].addr
  {
    if i < j { InOrder(s, i, j); } else { InOrder(s, j, i); }
  }

  lemma IndexUnique(s: Layout, i: nat)
    requires Tiles(s) && i < |s|
    ensures Index(s, s[i].addr) == i
  {
    var k := Index(s, s[i].addr);
    if k < i { InOrder(s, k, i); }
  }

  lemma AlignUpIs(value: nat)
    ensures value <= AlignUp(value) < value + 16 && AlignUp(value) % 16 == 0
  {}

  lemma SplitWellFormed(s: Layout, i: nat, size: nat)
    requires WellFormed(s) && i < |s| && size % 16 == 0
    ensures WellFormed(Split(s, i, size)) && SameArena(s, Split(s, i, size))
  {
    var t := Split(s, i, size);
    if t != s {
      forall k | 0 <= k < |t| - 1 ensures t[k].End() == t[k + 1].addr {
        if k < i { assert t[k].End() == s[k].End() == s[k + 1].addr; }
        if k > i {
          assert s[k - 1].End() == s[k].addr;
          assert t[k].End() == s[k - 1].End();
        }
      }
      assert AlignedAt(s[i].addr);
      forall k | 0 <= k < |t| ensures AlignedAt(t[k].addr) && 0 < t[k].addr {
        if k < i { assert t[k] == s[k]; }
        if k > i + 1 { assert t[k] == s[k - 1]; }
      }
    }
  }

  lemma MergeWellFormed(s: Layout, i: nat)
    requires WellFormed(s) && i < |s|
    ensures WellFormed(MergeNext(s, i)) && SameArena(s, MergeNext(s, i))
  {
    var t := MergeNext(s, i);
    if t != s {
      assert s[i].End() == s[i + 1].addr;
      forall k | 0 <= k < |t| - 1 ensures t[k].End() == t[k + 1].addr {
        if k < i { assert t[k].End() == s[k].End() == s[k + 1].addr; }
        if k == i { assert s[i + 1].End() == s[i + 2].addr; }
        if k > i { assert s[k + 1].End() == s[k + 2].addr; }
      }
    }
  }

  lemma TakeWellFormed(s: Layout, i: nat, need: nat)
    requires WellFormed(s) && i < |s| && need % 16 == 0
    ensures WellFormed(Take(s, i, need)) && SameArena(s, Take(s, i, need))
  {
    SplitWellFormed(s, i, need);
    RetagWellFormed(Split(s, i, need), i, false);
  }

  lemma RetagWellFormed(s: Layout, i: nat, free: bool)
    requires WellFormed(s) && i < |s|
    ensures WellFormed(s[i := s[i].(free := free)]) && SameArena(s, s[i := s[i].(free := free)])
  {
    var t := s[i := s[i].(free := free)];
    forall k | 0 <= k < |t| - 1 ensures t[k].End() == t[k + 1].addr {
      assert s[k].End() == s[k + 1].addr;
    }
  }

  lemma FreeWellFormed(s: Layout, i: nat)
    requires WellFormed(s) && i < |s|
    ensures WellFormed(FreeAt(s, i)) && SameArena(s, FreeAt(s, i))
  {
    var u := s[i := s[i].(free := true)];
    RetagWellFormed(s, i, true);
    MergeWellFormed(u, i);
    var t := MergeNext(u, i);
    if i > 0 && t[i - 1].free { MergeWellFormed(t, i - 1); }
  }

  lemma Extended(s: Layout, need: nat, grant: int)
    ensures var t := Extend(s, need, grant);
            |t| == |s| + 1 && t[..|s|] == s && t[|s|].addr == grant && t[|s|].free && t[|s|].size >= need
    ensures forall i | 0 <= i < |s| :: Extend(s, need, grant)[i] == s[i]
  {}

  lemma ExtendWellFormed(s: Layout, need: nat, grant: int)
    requires WellFormed(s) && Contiguous(s, grant) && grant != 0
    ensures WellFormed(Extend(s, need, grant))
  {
    var t := Extend(s, need, grant);
    forall k | 0 <= k < |t| - 1 ensures t[k].End() == t[k + 1].addr {
      if k < |s| - 1 { assert s[k].End() == s[k + 1].addr; }
    }
  }

  // ------------------------------------------------------------ what malloc gives

  /** The block taken: in place, big enough but not by as much as could be split off, and clear of every live block. */
  ghost predicate Serves(s: Layout, t: Layout, p: int, size: nat) {
    var i := Index(t, p - HEADER);
    && WellFormed(t) && i < |t| && t[i].Payload() == p && AlignedAt(p) && !t[i].free && t[i].size >= size
    && t[i].size < AlignUp(size) + HEADER + SLACK
    && forall j | 0 <= j < |s| && !s[j].free :: s[j].End() <= t[i].addr || t[i].End() <= s[j].addr
  }

  lemma TakenBlock(s: Layout, k: nat, need: nat)
    requires k < |s| && s[k].free && s[k].size >= need
    ensures var t := Take(s, k, need);
            k < |t| && t[k].addr == s[k].addr && !t[k].free && need <= t[k].size < need + HEADER + SLACK && t[k].End() <= s[k].End()
  {}

  lemma LiveBlocksClear(s: Layout, k: nat, start: int, end: int)
    requires Tiles(s) && k < |s| && s[k].free && s[k].addr <= start && end <= s[k].End()
    ensures forall j | 0 <= j < |s| && !s[j].free :: s[j].End() <= start || end <= s[j].addr
  {
    forall j | 0 <= j < |s| && !s[j].free ensures s[j].End() <= start || end <= s[j].addr {
      Disjoint(s, j, k);
    }
  }

  lemma ServesIntro(s: Layout, t: Layout, k: nat, size: nat)
    requires WellFormed(t) && k < |t| && Index(t, t[k].addr) == k
    requires AlignedAt(t[k].Payload()) && !t[k].free && size <= t[k].size < AlignUp(size) + HEADER + SLACK
    requires forall j | 0 <= j < |s| && !s[j].free :: s[j].End() <= t[k].addr || t[k].End() <= s[j].addr
    ensures Serves(s, t, t[k].Payload(), size)
  {
    hide WellFormed, Index, AlignedAt;
  }

  lemma PayloadAligned(s: Layout, k: nat)
    requires Aligned(s) && k < |s|
    ensures AlignedAt(s[k].Payload())
  {
    assert AlignedAt(s[k].addr);
  }

  lemma TakeServes(s: Layout, k: nat, need: nat, size: nat)
    requires WellFormed(s) && k < |s| && s[k].free && s[k].size >= need >= size && need % 16 == 0 && need == AlignUp(size)
    ensures Serves(s, Take(s, k, need), s[k].Payload(), size)
  {
    hide Take, Index, Tiles, Aligned, Positive, AlignedAt;
    var t := Take(s, k, need);
    TakeWellFormed(s, k, need);
    TakenBlock(s, k, need);
    IndexUnique(t, k);
    PayloadAligned(t, k);
    LiveBlocksClear(s, k, t[k].addr, t[k].End());
    ServesIntro(s, t, k, size);
    assert t[k].Payload() == s[k].Payload();
    hide Serves;
  }

  /**
    Allocation gives nothing only if the request is empty or neither a free block nor the system
    can serve it; otherwise it gives an aligned payload, big enough and clear of all live blocks.
  */
  lemma MallocServes(s: Layout, size: nat, grant: int)
    requires WellFormed(s) && Contiguous(s, grant)
    ensures var (t, p) := Malloc(s, size, grant);
            && (p == 0 <==> size == 0 || (grant == 0 && forall i | 0 <= i < |s| :: !s[i].free || s[i].size < AlignUp(size)))
            && (p == 0 ==> t == s)
            && (p != 0 ==> Serves(s, t, p, size))
            && WellFormed(t)
  {
    if size > 0 {
      var need := AlignUp(size);
      AlignUpIs(size);
      assert forall i | 0 <= i < |s| :: 0 < s[i].addr;
      hide AlignUp, Take, WellFormed, Extend, FirstFit, Index, Contiguous, Serves;
      var i := FirstFit(s, need);
      if i < |s| {
        TakeServes(s, i, need, size);
        ServesWellFormed(s, Take(s, i, need), s[i].Payload(), size);
      } else if grant != 0 {
        GrowServes(s, need, size, grant);
      }
    }
  }

  lemma ServesWellFormed(s: Layout, t: Layout, p: int, size: nat)
    requires Serves(s, t, p, size)
    ensures WellFormed(t)
  {
  }

  /** Clear of all live blocks of a layout is clear of those of its beginning. */
  lemma ServesPrefix(s: Layout, more: Layout, t: Layout, p: int, size: nat)
    requires Serves(more, t, p, size) && s <= more
    ensures Serves(s, t, p, size)
  {
    hide WellFormed, Index;
    forall j | 0 <= j < |s| && !s[j].free
      ensures s[j].End() <= t[Index(t, p - HEADER)].addr || t[Index(t, p - HEADER)].End() <= s[j].addr
    {
      assert s[j] == more[j];
    }
  }

  lemma GrowServes(s: Layout, need: nat, size: nat, grant: int)
    requires WellFormed(s) && Contiguous(s, grant) && grant != 0 && need >= size && need % 16 == 0 && need == AlignUp(size)
    ensures var t := Take(Extend(s, need, grant), |s|, need);
            Serves(s, t, grant + HEADER, size) && WellFormed(t) && grant + HEADER != 0
  {
    var more := Extend(s, need, grant);
    ExtendWellFormed(s, need, grant);
    Extended(s, need, grant);
    assert s <= more;
    hide Take, WellFormed, Extend, Serves;
    TakeServes(more, |s|, need, size);
    ServesPrefix(s, more, Take(more, |s|, need), grant + HEADER, size);
    ServesWellFormed(s, Take(more, |s|, need), grant + HEADER, size);
  }

  // ---------------------------------------------------------------- conservation

  /** All bytes of a layout, headers included. */
  function Bytes(s: Layout): nat {
    if s == [] then 0 else HEADER + s[0].size + Bytes(s[1..])
  }

  lemma {:induction false} BytesAppend(s: Layout, t: Layout)
    ensures Bytes(s + t) == Bytes(s) + Bytes(t)
    decreases |s|
  {
    if s == [] {
      assert s + t == t;
    } else {
      assert (s + t)[1..] == s[1..] + t;
      BytesAppend(s[1..], t);
    }
  }

  lemma BytesOfOne(b: Block)
    ensures Bytes([b]) == HEADER + b.size
  {
    assert [b][1..] == [];
  }

  /** Blocks replaced by others of as many bytes. */
  lemma BytesReplace(s: Layout, i: nat, n: nat, with: Layout)
    requires i + n <= |s| && Bytes(with) == Bytes(s[i..i + n])
    ensures Bytes(s[..i] + with + s[i + n..]) == Bytes(s)
  {
    assert s == s[..i] + s[i..i + n] + s[i + n..];
    BytesAppend(s[..i], s[i..i + n]);
    BytesAppend(s[..i] + s[i..i + n], s[i + n..]);
    BytesAppend(s[..i], with);
    BytesAppend(s[..i] + with, s[i + n..]);
    hide Bytes;
  }

  lemma SplitConserves(s: Layout, i: nat, size: nat)
    requires i < |s|
    ensures Bytes(Split(s, i, size)) == Bytes(s)
  {
    if s[i].size >= size + HEADER + SLACK {
      var a, b := s[i].(size := size), Block(s[i].addr + HEADER + size, s[i].size - size - HEADER, true);
      assert s[i..i + 1] == [s[i]] && [a, b] == [a] + [b];
      hide Bytes;
      BytesOfOne(s[i]);
      BytesOfOne(a);
      BytesOfOne(b);
      BytesAppend([a], [b]);
      BytesReplace(s, i, 1, [a, b]);
    }
  }

  lemma MergeConserves(s: Layout, i: nat)
    requires i < |s|
    ensures Bytes(MergeNext(s, i)) == Bytes(s)
  {
    if i + 1 < |s| && s[i + 1].free {
      var m := s[i].(size := s[i].size + HEADER + s[i + 1].size);
      assert s[i..i + 2] == [s[i]] + [s[i + 1]];
      hide Bytes;
      BytesOfOne(s[i]);
      BytesOfOne(s[i + 1]);
      BytesOfOne(m);
      BytesAppend([s[i]], [s[i + 1]]);
      BytesReplace(s, i, 2, [m]);
    }
  }

  lemma RetagConserves(s: Layout, i: nat, free: bool)
    requires i < |s|
    ensures Bytes(s[i := s[i].(free := free)]) == Bytes(s)
  {
    var b := s[i].(free := free);
    assert s[i := b] == s[..i] + [b] + s[i + 1..] && s[i..i + 1] == [s[i]];
    hide Bytes;
    BytesOfOne(s[i]);
    BytesOfOne(b);
    BytesReplace(s, i, 1, [b]);
  }

  lemma TakeConserves(s: Layout, i: nat, need: nat)
    requires i < |s|
    ensures Bytes(Take(s, i, need)) == Bytes(s)
  {
    SplitConserves(s, i, need);
    RetagConserves(Split(s, i, need), i, false);
    hide Split, Bytes;
  }

  /** The bytes of the chunk that an allocation gets from the system, if it needs and gets one. */
  function ChunkFor(s: Layout, size: nat, grant: int): int {
    if size > 0 && grant != 0 && FirstFit(s, AlignUp(size)) == |s| then ChunkSize(AlignUp(size)) else 0
  }

  /** Allocation adds the bytes of the chunk it asked the system for, if any, and no others. */
  lemma MallocConserves(s: Layout, size: nat, grant: int)
    ensures Bytes(Malloc(s, size, grant).0) == Bytes(s) + ChunkFor(s, size, grant)
  {
    if size > 0 {
      var need := AlignUp(size);
      hide AlignUp, Take, FirstFit, Bytes, Extend, ChunkSize;
      var i := FirstFit(s, need);
      if i < |s| {
        TakeConserves(s, i, need);
      } else if grant != 0 {
        GrowConserves(s, need, grant);
      }
    }
  }

  lemma GrowConserves(s: Layout, need: nat, grant: int)
    ensures Bytes(Take(Extend(s, need, grant), |s|, need)) == Bytes(s) + ChunkSize(need)
  {
    AlignUpIs(ChunkRequest(need));
    var b := Block(grant, ChunkSize(need) - HEADER, true);
    hide Bytes, Take, ChunkSize;
    BytesAppend(s, [b]);
    BytesOfOne(b);
    TakeConserves(Extend(s, need, grant), |s|, need);
  }

  /** Freeing conserves the bytes, adjacent or not. */
  lemma FreeConserves(s: Layout, i: nat)
    requires i < |s|
    ensures Bytes(FreeAt(s, i)) == Bytes(s)
  {
    var u := s[i := s[i].(free := true)];
    RetagConserves(s, i, true);
    MergeConserves(u, i);
    var t := MergeNext(u, i);
    if i > 0 && t[i - 1].free { MergeConserves(t, i - 1); }
    hide MergeNext, Bytes;
  }

  // ------------------------------------------------------------------ coalescing

  /** No two neighbours are both free. */
  predicate Coalesced(s: Layout) {
    forall i | 0 <= i < |s| - 1 :: !(s[i].free && s[i + 1].free)
  }

  /** Taking a free block keeps the rest coalesced; free neighbours before it do not matter any more. */
  lemma TakeCoalesced(s: Layout, i: nat, need: nat)
    requires i < |s| && s[i].free
    requires forall k | 0 <= k < |s| - 1 && k != i - 1 :: !(s[k].free && s[k + 1].free)
    ensures Coalesced(Take(s, i, need))
  {
    var t := Take(s, i, need);
    assert !t[i].free;
    if i + 1 < |s| { assert !(s[i].free && s[i + 1].free); }
    forall k | 0 <= k < |t| - 1 ensures !(t[k].free && t[k + 1].free) {
      if k + 1 < i {
        assert t[k] == s[k] && t[k + 1] == s[k + 1];
      } else if k > i {
        if |t| == |s| {
          assert t[k] == s[k] && t[k + 1] == s[k + 1];
        } else {
          assert t[k + 1] == s[k];
          if k > i + 1 { assert t[k] == s[k - 1]; assert !(s[k - 1].free && s[(k - 1) + 1].free); }
        }
      }
    }
  }

  /** Allocation keeps the heap coalesced. */
  lemma MallocCoalesced(s: Layout, size: nat, grant: int)
    requires Coalesced(s)
    ensures Coalesced(Malloc(s, size, grant).0)
  {
    if size > 0 {
      var need := AlignUp(size);
      hide AlignUp, Take, FirstFit;
      var i := FirstFit(s, need);
      if i < |s| {
        TakeCoalesced(s, i, need);
      } else if grant != 0 {
        var more := Extend(s, need, grant);
        Extended(s, need, grant);
        hide Extend;
        forall k | 0 <= k < |more| - 1 && k != |s| - 1 ensures !(more[k].free && more[k + 1].free) {
          assert more[k] == s[k] && more[k + 1] == s[k + 1];
        }
        TakeCoalesced(more, |s|, need);
      }
    }
  }

  /** Merging a block with a free one after it, when all other neighbours are apart. */
  lemma MergeCoalesces(s: Layout, i: nat)
    requires i < |s|
    requires forall k | 0 <= k < |s| - 1 && k != i && k != i - 1 :: !(s[k].free && s[k + 1].free)
    ensures var t := MergeNext(s, i);
            i < |t| && t[i].free == s[i].free && (forall k | 0 <= k < i :: t[k] == s[k])
            && forall k | 0 <= k < |t| - 1 && k != i - 1 :: !(t[k].free && t[k + 1].free)
  {
    var t := MergeNext(s, i);
    forall k | 0 <= k < |t| - 1 && k != i - 1 ensures !(t[k].free && t[k + 1].free) {
      if k < i {
        assert t[k] == s[k] && t[k + 1].free == s[k + 1].free;
      } else if t != s {
        assert !(s[k + 1].free && s[(k + 1) + 1].free);
        assert t[k + 1] == s[k + 2];
        if k > i { assert t[k] == s[k + 1]; }
      } else if k > i {
        assert t[k] == s[k] && t[k + 1] == s[k + 1];
      }
    }
  }

  /** Freeing keeps the heap coalesced. */
  lemma FreeCoalesced(s: Layout, i: nat)
    requires Coalesced(s) && i < |s|
    ensures Coalesced(FreeAt(s, i))
  {
    var u := s[i := s[i].(free := true)];
    forall k | 0 <= k < |u| - 1 && k != i && k != i - 1 ensures !(u[k].free && u[k + 1].free) {
      assert u[k] == s[k] && u[k + 1] == s[k + 1];
    }
    MergeCoalesces(u, i);
    var t := MergeNext(u, i);
    hide MergeNext;
    if i > 0 && t[i - 1].free {
      forall k | 0 <= k < |t| - 1 && k == i - 2 ensures !(t[k].free && t[k + 1].free) {
        assert t[k] == s[k] && t[k + 1] == s[k + 1];
      }
      MergeCoalesces(t, i - 1);
      LastGap(s, t, MergeNext(t, i - 1), i);
    }
  }

  lemma LastGap(s: Layout, t: Layout, m: Layout, i: nat)
    requires Coalesced(s) && 0 < i < |t| && i < |s| && forall k | 0 <= k < i :: t[k] == s[k]
    requires i - 1 < |m| && m[i - 1].free == t[i - 1].free && forall k | 0 <= k < i - 1 :: m[k] == t[k]
    requires forall k | 0 <= k < |m| - 1 && k != i - 2 :: !(m[k].free && m[k + 1].free)
    ensures Coalesced(m)
  {
    forall k | 0 <= k < |m| - 1 ensures !(m[k].free && m[k + 1].free) {
      if k == i - 2 {
        assert m[k] == s[k] && m[k + 1].free == s[k + 1].free;
      }
    }
  }

  // ----------------------------------------------------------------- live blocks

  /** Addresses and sizes of the blocks in use. */
  function Live(s: Layout): set<(int, nat)> {
    set i | 0 <= i < |s| && !s[i].free :: (s[i].addr, s[i].size)
  }

  /** Splitting changes the size of the block split, if that is live, and nothing else. */
  lemma SplitLive(s: Layout, i: nat, size: nat)
    requires WellFormed(s) && i < |s|
    ensures var t := Split(s, i, size);
            i < |t| && t[i].addr == s[i].addr && t[i].free == s[i].free
            && Live(t) == if s[i].free then Live(s) else Live(s) - {(s[i].addr, s[i].size)} + {(s[i].addr, t[i].size)}
  {
    var t := Split(s, i, size);
    if t != s {
      forall k | 0 <= k < |s| && k != i && !s[k].free ensures (s[k].addr, s[k].size) in Live(t) {
        if k < i { assert t[k] == s[k]; } else { assert t[k + 1] == s[k]; }
      }
      forall k | 0 <= k < |t| && k != i && !t[k].free
        ensures (t[k].addr, t[k].size) in Live(s) && t[k].addr != s[i].addr
      {
        var j := if k < i then k else k - 1;
        assert t[k] == s[j];
        Disjoint(s, j, i);
      }
    }
  }

  lemma MergeLive(s: Layout, i: nat)
    requires WellFormed(s) && i < |s|
    ensures var t := MergeNext(s, i);
            i < |t| && t[i].addr == s[i].addr && t[i].free == s[i].free
            && Live(t) == if s[i].free then Live(s) else Live(s) - {(s[i].addr, s[i].size)} + {(s[i].addr, t[i].size)}
  {
    var t := MergeNext(s, i);
    if t != s {
      forall k | 0 <= k < |s| && k != i && !s[k].free ensures (s[k].addr, s[k].size) in Live(t) {
        if k < i { assert t[k] == s[k]; } else { assert t[k - 1] == s[k]; }
      }
      forall k | 0 <= k < |t| && k != i && !t[k].free
        ensures (t[k].addr, t[k].size) in Live(s) && t[k].addr != s[i].addr
      {
        var j := if k < i then k else k + 1;
        assert t[k] == s[j];
        Disjoint(s, j, i);
      }
    }
  }

  lemma RetagLive(s: Layout, i: nat, free: bool)
    requires WellFormed(s) && i < |s|
    ensures Live(s[i := s[i].(free := free)]) ==
            if free then Live(s) - {(s[i].addr, s[i].size)} else Live(s) + {(s[i].addr, s[i].size)}
  {
    var t := s[i := s[i].(free := free)];
    forall k | 0 <= k < |s| && k != i && !s[k].free
      ensures (s[k].addr, s[k].size) in Live(t) && s[k].addr != s[i].addr
    {
      assert t[k] == s[k];
      Disjoint(s, k, i);
    }
    forall k | 0 <= k < |t| && k != i && !t[k].free ensures (t[k].addr, t[k].size) in Live(s) {
      assert t[k] == s[k];
    }
    if !free { assert t[i] == s[i].(free := false); }
  }

  /** Allocation adds one live block, the one handed out, and touches no other. */
  lemma MallocLive(s: Layout, size: nat, grant: int)
    requires WellFormed(s) && Contiguous(s, grant)
    ensures var (t, p) := Malloc(s, size, grant);
            var i := Index(t, p - HEADER);
            if p == 0 then t == s else i < |t| && Live(t) == Live(s) + {(p - HEADER, t[i].size)}
  {
    hide AlignUp, Live, Take, WellFormed, Extend, FirstFit, Index, Contiguous;
    AlignUpIs(size);
    if size > 0 {
      var need := AlignUp(size);
      var i := FirstFit(s, need);
      if i < |s| {
        AddressPositive(s, i);
        TakeLive(s, i, need);
      } else if grant != 0 {
        GrowLive(s, need, grant);
      }
    }
  }

  lemma AddressPositive(s: Layout, i: nat)
    requires WellFormed(s) && i < |s|
    ensures 0 < s[i].addr
  {
  }

  lemma GrowLive(s: Layout, need: nat, grant: int)
    requires WellFormed(s) && Contiguous(s, grant) && grant != 0 && need > 0 && need % 16 == 0
    ensures grant > 0
    ensures var t := Take(Extend(s, need, grant), |s|, need);
            Index(t, grant) < |t| && Live(t) == Live(s) + {(grant, t[Index(t, grant)].size)}
  {
    ExtendWellFormed(s, need, grant);
    Extended(s, need, grant);
    ExtendLive(s, need, grant);
    hide Live, Take, WellFormed, Index, Contiguous;
    TakeLive(Extend(s, need, grant), |s|, need);
  }

  lemma ExtendLive(s: Layout, need: nat, grant: int)
    ensures Live(Extend(s, need, grant)) == Live(s)
  {
    var t := Extend(s, need, grant);
    forall k | 0 <= k < |s| && !s[k].free ensures (s[k].addr, s[k].size) in Live(t) { assert t[k] == s[k]; }
  }

  lemma TakeLive(s: Layout, i: nat, need: nat)
    requires WellFormed(s) && i < |s| && s[i].free && s[i].size >= need && need % 16 == 0
    ensures var t := Take(s, i, need);
            Index(t, s[i].addr) < |t| && Live(t) == Live(s) + {(s[i].addr, t[Index(t, s[i].addr)].size)}
  {
    var u := Split(s, i, need);
    SplitWellFormed(s, i, need);
    SplitLive(s, i, need);
    RetagLive(u, i, false);
    TakeWellFormed(s, i, need);
    TakenBlock(s, i, need);
    IndexUnique(Take(s, i, need), i);
  }

  /** Freeing removes that one live block and touches no other. */
  lemma FreeLive(s: Layout, i: nat)
    requires WellFormed(s) && i < |s|
    ensures Live(FreeAt(s, i)) == Live(s) - {(s[i].addr, s[i].size)}
  {
    var u := s[i := s[i].(free := true)];
    RetagWellFormed(s, i, true);
    RetagLive(s, i, true);
    MergeWellFormed(u, i);
    MergeLive(u, i);
    var t := MergeNext(u, i);
    if i > 0 && t[i - 1].free { MergeLive(t, i - 1); }
  }
}
