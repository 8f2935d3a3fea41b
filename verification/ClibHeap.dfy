/** The allocation calls, each proved against the layout functions and against what it may touch. */
module ClibHeap {
  import opened HeapLayout
  import opened HeapRuns
  import opened HeapMemory

  // ------------------------------------------------------------------ what a call keeps

  predicate SameByte(before: map<int, u8>, after: map<int, u8>, a: int) {
    (a in before <==> a in after) && (a in before ==> before[a] == after[a])
  }

  ghost predicate SameOutside(before: map<int, u8>, after: map<int, u8>, p: int, n: int) {
    forall a | !(p <= a < p + n) :: SameByte(before, after, a)
  }

  predicate CopiedByte(before: map<int, u8>, after: map<int, u8>, dst: int, src: int, k: int) {
    src + k in before ==> dst + k in after && after[dst + k] == before[src + k]
  }

  /** The first n bytes from src are at dst, as far as they were ever written. */
  ghost predicate Copied(before: map<int, u8>, after: map<int, u8>, dst: int, src: int, n: int) {
    forall k | 0 <= k < n :: CopiedByte(before, after, dst, src, k)
  }

  lemma PutOutside(before: map<int, u8>, now: map<int, u8>, p: int, n: int, a: int, b: u8)
    requires SameOutside(before, now, p, n) && p <= a < p + n
    ensures SameOutside(before, now[a := b], p, n)
  {
    var after := now[a := b];
    forall x | !(p <= x < p + n) ensures SameByte(before, after, x) { assert SameByte(before, now, x); }
  }

  lemma PutCopied(before: map<int, u8>, now: map<int, u8>, dst: int, src: int, k: int, b: u8)
    requires Copied(before, now, dst, src, k) && (src + k in before ==> before[src + k] == b)
    ensures Copied(before, now[dst + k := b], dst, src, k + 1)
  {
    var after := now[dst + k := b];
    forall j | 0 <= j < k + 1 ensures CopiedByte(before, after, dst, src, j) {
      if j < k { assert CopiedByte(before, now, dst, src, j); }
    }
  }

  lemma TakeIs(s: Layout, i: nat, need: nat)
    requires i < |s|
    ensures i < |Split(s, i, need)| && Take(s, i, need) == Split(s, i, need)[i := Split(s, i, need)[i].(free := false)]
  {
  }

  /** The payload bytes of every live block are as they were, except of the block at one address. */
  ghost predicate Keeps(s: Layout, before: map<int, u8>, after: map<int, u8>, except: int) {
    forall i, a | 0 <= i < |s| && !s[i].free && s[i].addr != except && s[i].Owns(a) :: SameByte(before, after, a)
  }

  /** A header stored inside block i touches no other live payload. */
  lemma HeaderInsideKeeps(s: Layout, bytes: map<int, u8>, i: nat, t: int)
    requires Tiles(s) && i < |s| && s[i].addr <= t && t + HEADER <= s[i].End()
    ensures Keeps(s, bytes, Without(bytes, t, HEADER), s[i].addr)
    ensures s[i].free ==> Keeps(s, bytes, Without(bytes, t, HEADER), 0)
  {
    forall j, a | 0 <= j < |s| && j != i && s[j].Owns(a) ensures SameByte(bytes, Without(bytes, t, HEADER), a) {
      Disjoint(s, i, j);
    }
  }

  lemma HeaderBeyondKeeps(s: Layout, bytes: map<int, u8>, t: int)
    requires Tiles(s) && (s != [] ==> End(s) <= t)
    ensures Keeps(s, bytes, Without(bytes, t, HEADER), 0)
  {
    forall j, a | 0 <= j < |s| && s[j].Owns(a) ensures SameByte(bytes, Without(bytes, t, HEADER), a) {
      if j < |s| - 1 { InOrder(s, j, |s| - 1); }
    }
  }

  lemma FirstFitIs(s: Layout, need: nat, i: nat)
    requires i <= |s| && (i < |s| ==> s[i].free && s[i].size >= need)
    requires forall j | 0 <= j < i :: !(s[j].free && s[j].size >= need)
    ensures FirstFit(s, need) == i
  {}

  /** Storing a byte in a payload leaves every header of the list in place. */
  lemma PutByteRep(ram: Ram, blocks: seq<int>, i: nat, a: int, b: u8)
    requires Rep(ram.headers, blocks) && i < |blocks| && View(ram.headers, blocks)[i].Owns(a)
    ensures Rep(ram.PutByte(a, b).headers, blocks)
    ensures View(ram.PutByte(a, b).headers, blocks) == View(ram.headers, blocks)
  {
    var h, h' := ram.headers, ram.PutByte(a, b).headers;
    forall j | 0 <= j < |blocks|
      ensures Linked(h', blocks, j) && View(h', blocks)[j] == View(h, blocks)[j]
    {
      RepAt(h, blocks, j);
      PayloadClear(h, blocks, i, j, a, 1);
      ViewAt(h', blocks, j);
    }
    assert View(h', blocks) == View(h, blocks);
  }

  lemma RemovedEnds(blocks: seq<int>, i: nat)
    requires i + 1 < |blocks|
    ensures var bs := Removed(blocks, i);
            && i < |bs| && bs[i] == blocks[i] && (i > 0 ==> bs[i - 1] == blocks[i - 1])
            && At(bs, 0) == At(blocks, 0)
            && At(bs, |bs| - 1) == if i + 2 == |blocks| then blocks[i] else At(blocks, |blocks| - 1)
    ensures At(blocks, i + 1) == blocks[i + 1] && (i + 2 == |blocks| ==> At(blocks, i + 2) == 0)
    ensures i + 2 < |blocks| ==> At(blocks, i + 2) == blocks[i + 2]
  {}

  lemma InsertedEnds(blocks: seq<int>, i: nat, t: int)
    requires i < |blocks|
    ensures var bs := Inserted(blocks, i, t);
            && i < |bs| && bs[i] == blocks[i]
            && At(bs, 0) == At(blocks, 0)
            && At(bs, |bs| - 1) == if i + 1 == |blocks| then t else At(blocks, |blocks| - 1)
  {}

  lemma MergeHeadersAre(h: Headers, block: int)
    requires block in h && h[block].next in h
    ensures var was, n := h[block], h[h[block].next];
            var h1 := h[block := was.(size := was.size + HEADER + n.size, next := n.next)];
            MergeHeaders(h, block) == if n.next != 0 && n.next in h1 then h1[n.next := h1[n.next].(prev := block)] else h1
  {}

  lemma BlockFacts(h: Headers, blocks: seq<int>, i: nat)
    requires Rep(h, blocks) && i < |blocks|
    ensures blocks[i] in h && blocks[i] > 0 && h[blocks[i]].next == At(blocks, i + 1)
    ensures h[blocks[i]].next == 0 <==> i + 1 == |blocks|
    ensures i + 1 < |blocks| ==> h[blocks[i]].next == blocks[i + 1] && blocks[i + 1] in h
    ensures i + 1 == |blocks| || !h[blocks[i + 1]].free ==> MergeNext(View(h, blocks), i) == View(h, blocks)
  {
    RepAt(h, blocks, i);
    if i + 1 < |blocks| { RepAt(h, blocks, i + 1); }
  }

  lemma SplitGuard(h: Headers, blocks: seq<int>, i: nat, size: nat)
    requires Rep(h, blocks) && i < |blocks| && blocks[i] in h
    ensures View(h, blocks)[i].size == h[blocks[i]].size
    ensures h[blocks[i]].size < size + HEADER + SLACK ==> Split(View(h, blocks), i, size) == View(h, blocks)
  {
    RepAt(h, blocks, i);
  }

  /** All that splitting a big enough block changes. */
  lemma SplitFacts(h: Headers, blocks: seq<int>, i: nat, size: nat)
    requires Rep(h, blocks) && i < |blocks| && blocks[i] in h
    requires h[blocks[i]].size >= size + HEADER + SLACK && size % 16 == 0
    ensures var was, t := h[blocks[i]], blocks[i] + HEADER + size;
            var bs := Inserted(blocks, i, t);
            var h1 := Without(h, t - HEADER + 1, 2 * HEADER - 1)[t := Header(was.size - size - HEADER, true, was.next, blocks[i])];
            var h2 := if was.next != 0 && was.next in h1 then h1[was.next := h1[was.next].(prev := t)] else h1;
            var h3 := h2[blocks[i] := was.(size := size, next := t)];
            && (was.next != 0 ==> was.next in h1)
            && Rep(h3, bs) && View(h3, bs) == Split(View(h, blocks), i, size)
            && At(bs, 0) == At(blocks, 0)
            && At(bs, |bs| - 1) == (if was.next == 0 then t else At(blocks, |blocks| - 1))
            && i < |bs| && bs[i] == blocks[i]
  {
    RepAt(h, blocks, i);
    SplitRep(h, blocks, i, size);
    InsertedEnds(blocks, i, blocks[i] + HEADER + size);
    if i + 1 < |blocks| {
      RepAt(h, blocks, i + 1);
      PayloadClear(h, blocks, i, i + 1, blocks[i] + HEADER + size, HEADER);
    }
    hide Rep, View, Split, Inserted;
  }

  /** All that merging with the next, free block changes. */
  lemma MergeFacts(h: Headers, blocks: seq<int>, i: nat)
    requires Rep(h, blocks) && i + 1 < |blocks| && blocks[i] in h && blocks[i + 1] in h
    requires h[blocks[i]].next == blocks[i + 1] && h[blocks[i + 1]].free
    ensures var was, n, bs := h[blocks[i]], h[blocks[i + 1]], Removed(blocks, i);
            var h1 := h[blocks[i] := was.(size := was.size + HEADER + n.size, next := n.next)];
            var h2 := if n.next != 0 && n.next in h1 then h1[n.next := h1[n.next].(prev := blocks[i])] else h1;
            && (n.next != 0 ==> n.next in h1)
            && Rep(h2, bs) && View(h2, bs) == MergeNext(View(h, blocks), i)
            && At(bs, 0) == At(blocks, 0)
            && At(bs, |bs| - 1) == (if n.next == 0 then blocks[i] else At(blocks, |blocks| - 1))
            && i < |bs| && bs[i] == blocks[i] && (i > 0 ==> bs[i - 1] == blocks[i - 1])
  {
    RepAt(h, blocks, i);
    RepAt(h, blocks, i + 1);
    MergeRep(h, blocks, i);
    MergeHeadersAre(h, blocks[i]);
    RemovedEnds(blocks, i);
    if i + 2 < |blocks| { RepAt(h, blocks, i + 2); }
    hide Rep, View, MergeNext, Removed, MergeHeaders;
  }

  // ---------------------------------------------------------------------------- the heap

  class Heap {
    const heapStart: int
    const heapEnd: int
    var head: int
    var tail: int
    var ram: Ram
    ghost var blocks: seq<int>

    ghost predicate Valid()
      reads this
    {
      && 0 < heapStart && AlignedAt(heapStart)
      && Rep(ram.headers, blocks)
      && head == At(blocks, 0) && tail == At(blocks, |blocks| - 1)
    }

    ghost function Layout(): Layout
      reads this
    {
      View(ram.headers, blocks)
    }

    /** The layout once the first call has set up the static arena. */
    ghost function Booted(): Layout
      reads this
    {
      if Layout() == [] then Boot(heapStart, heapEnd) else Layout()
    }

    constructor (start: int, end: int, bytes: map<int, u8>)
      requires 0 < start && AlignedAt(start)
      ensures Valid() && Layout() == [] && heapStart == start && heapEnd == end
    {
      heapStart, heapEnd := start, end;
      head, tail := 0, 0;
      ram := Ram(map[], bytes);
      blocks := [];
    }

    method Init()
      requires Valid()
      modifies this
      ensures Valid() && Layout() == old(Booted())
      ensures Keeps(old(Layout()), old(ram.bytes), ram.bytes, 0)
      ensures old(Layout()) != [] ==> ram == old(ram)
    {
      if head != 0 {
        return;
      }
      if |blocks| > 0 { RepAt(ram.headers, blocks, 0); }
      var total := heapEnd - heapStart;
      if total <= HEADER {
        return;
      }
      ram := ram.PutHeader(heapStart, Header(total - HEADER, true, 0, 0));
      head, tail := heapStart, heapStart;
      blocks := [heapStart];
      ViewAt(ram.headers, blocks, 0);
      assert Linked(ram.headers, blocks, 0);
    }

    method SplitBlock(block: int, size: nat, ghost i: nat)
      requires Valid() && i < |blocks| && blocks[i] == block && size % 16 == 0
      modifies this
      ensures Valid() && Layout() == Split(old(Layout()), i, size)
      ensures i < |blocks| && blocks[i] == block
      ensures ram.bytes == old(ram.bytes) ||
              (old(Layout())[i].size >= size + HEADER + SLACK &&
               ram.bytes == Without(old(ram.bytes), block + HEADER + size, HEADER))
    {
      hide WellFormed, View, Split, Chain, Rep, SplitHeaders, Inserted, At, Linked;
      BlockFacts(ram.headers, blocks, i);
      SplitGuard(ram.headers, blocks, i, size);
      if block == 0 || ram.headers[block].size < size + HEADER + SLACK {
        return;
      }
      SplitFacts(ram.headers, blocks, i, size);
      var tailAddr := block + HEADER + size;
      var was := ram.headers[block];
      ram := ram.PutHeader(tailAddr, Header(was.size - size - HEADER, true, was.next, block));
      var h := ram.headers;
      if was.next != 0 {
        h := h[was.next := h[was.next].(prev := tailAddr)];
      } else {
        tail := tailAddr;
      }
      h := h[block := was.(size := size, next := tailAddr)];
      ram := ram.(headers := h);
      blocks := Inserted(blocks, i, tailAddr);
    }

    method MergeWithNext(block: int, ghost i: nat)
      requires Valid() && i < |blocks| && blocks[i] == block
      modifies this
      ensures Valid() && Layout() == MergeNext(old(Layout()), i) && ram.bytes == old(ram.bytes)
      ensures i < |blocks| && blocks[i] == block && (i > 0 ==> blocks[i - 1] == old(blocks[i - 1]))
    {
      hide WellFormed, View, MergeNext, Chain, Rep, MergeHeaders, Removed, At, Linked;
      BlockFacts(ram.headers, blocks, i);
      if block == 0 {
        return;
      }
      var next := ram.headers[block].next;
      if next == 0 || !ram.headers[next].free {
        return;
      }
      MergeFacts(ram.headers, blocks, i);
      var h := ram.headers;
      var was, n := h[block], h[next];
      h := h[block := was.(size := was.size + HEADER + n.size, next := n.next)];
      if n.next != 0 {
        h := h[n.next := h[n.next].(prev := block)];
      } else {
        tail := block;
      }
      ram := ram.(headers := h);
      blocks := Removed(blocks, i);
    }

    method SetFree(block: int, free: bool, ghost i: nat)
      requires Valid() && i < |blocks| && blocks[i] == block
      modifies this
      ensures Valid() && Layout() == old(Layout())[i := old(Layout())[i].(free := free)]
      ensures ram.bytes == old(ram.bytes) && blocks == old(blocks)
    {
      RepAt(ram.headers, blocks, i);
      RetagRep(ram.headers, blocks, i, free);
      ram := ram.(headers := ram.headers[block := ram.headers[block].(free := free)]);
    }

    /** Asking the system for a chunk; grant is its answer, 0 for a refusal. */
    method RequestChunk(need: nat, grant: int) returns (block: int)
      requires Valid() && Contiguous(Layout(), grant)
      modifies this
      ensures Valid() && block == grant
      ensures grant == 0 ==> Layout() == old(Layout()) && ram == old(ram)
      ensures grant != 0 ==> Layout() == Extend(old(Layout()), need, grant) && blocks == old(blocks) + [grant]
      ensures Keeps(old(Layout()), old(ram.bytes), ram.bytes, 0)
    {
      if grant == 0 {
        return 0;
      }
      block := grant;
      ChunkRep(ram.headers, blocks, need, grant);
      HeaderBeyondKeeps(Layout(), ram.bytes, grant);
      if |blocks| > 0 {
        RepAt(ram.headers, blocks, |blocks| - 1);
        ChunkEntry(ram.headers, blocks, grant, ChunkSize(need) - HEADER, |blocks| - 1);
      }
      hide WellFormed, View, Extend, Chain, Keeps;
      ram := ram.PutHeader(grant, Header(ChunkSize(need) - HEADER, true, 0, tail));
      if tail != 0 {
        ram := ram.(headers := ram.headers[tail := ram.headers[tail].(next := block)]);
      } else {
        head := block;
      }
      assert ram.headers == ChunkHeaders(old(ram.headers), old(tail), grant, ChunkSize(need) - HEADER);
      tail := block;
      blocks := blocks + [grant];
    }

    /** Splitting a free block and marking it used. */
    method TakeBlock(block: int, need: nat, ghost i: nat)
      requires Valid() && i < |blocks| && blocks[i] == block && need % 16 == 0
      requires Layout()[i].free && Layout()[i].size >= need
      modifies this
      ensures Valid() && Layout() == Take(old(Layout()), i, need)
      ensures Keeps(old(Layout()), old(ram.bytes), ram.bytes, 0)
    {
      ghost var s := Layout();
      ViewAt(ram.headers, blocks, i);
      if s[i].size >= need + HEADER + SLACK {
        HeaderInsideKeeps(s, ram.bytes, i, block + HEADER + need);
      }
      assert Keeps(s, ram.bytes, ram.bytes, 0);
      TakeIs(s, i, need);
      hide Split, WellFormed, Keeps, Rep, View, Take;
      SplitBlock(block, need, i);
      SetFree(block, false, i);
    }

    /** The first-fit walk along the list; 0 when no free block is big enough. */
    method Find(need: nat) returns (current: int, ghost i: nat)
      requires Valid()
      ensures i == FirstFit(Layout(), need) && (current == 0 <==> i == |blocks|)
      ensures i < |blocks| ==> current == blocks[i]
    {
      ghost var s := Layout();
      current, i := head, 0;
      if |blocks| > 0 { RepAt(ram.headers, blocks, 0); }
      while current != 0
        invariant i <= |blocks| == |s|
        invariant current == At(blocks, i) && (i < |blocks| ==> current != 0)
        invariant forall j | 0 <= j < i :: !(s[j].free && s[j].size >= need)
        decreases |s| - i
      {
        RepAt(ram.headers, blocks, i);
        if ram.headers[current].free && ram.headers[current].size >= need {
          FirstFitIs(s, need, i);
          return;
        }
        if i + 1 < |blocks| { RepAt(ram.headers, blocks, i + 1); }
        current := ram.headers[current].next;
        i := i + 1;
      }
      FirstFitIs(s, need, i);
    }

    /** The path of malloc for which no block fits. */
    method TakeChunk(need: nat, grant: int) returns (p: int)
      requires Valid() && Contiguous(Layout(), grant) && need % 16 == 0
      modifies this
      ensures Valid()
      ensures if grant == 0 then p == 0 && Layout() == old(Layout())
              else p == grant + HEADER && Layout() == Take(Extend(old(Layout()), need, grant), |old(Layout())|, need)
      ensures Keeps(old(Layout()), old(ram.bytes), ram.bytes, 0)
    {
      ghost var s := Layout();
      var current := RequestChunk(need, grant);
      if current == 0 {
        return 0;
      }
      ghost var grown := ram.bytes;
      Extended(s, need, grant);
      hide Keeps, Take, Extend, WellFormed, Contiguous;
      TakeBlock(current, need, |s|);
      KeepsExtended(s, need, grant, grown, ram.bytes);
      KeepsThrough(s, s, old(ram.bytes), grown, ram.bytes);
      p := current + HEADER;
    }

    method Malloc(size: nat, grant: int) returns (p: int)
      requires Valid() && size <= REQUEST_LIMIT && Contiguous(Booted(), grant)
      modifies this
      ensures Valid()
      ensures (Layout(), p) == HeapLayout.Malloc(if size == 0 then old(Layout()) else old(Booted()), size, grant)
      ensures Keeps(old(Layout()), old(ram.bytes), ram.bytes, 0)
    {
      if size == 0 {
        return 0;
      }
      Init();
      ghost var s, booted := Layout(), ram.bytes;
      hide Keeps, WellFormed, Contiguous, Rep, HeapLayout.Malloc, View;
      p := Allocate(size, grant);
      KeepsThrough(old(Layout()), s, old(ram.bytes), booted, ram.bytes);
    }

    /** The rest of malloc, once the arena is set up. */
    method Allocate(size: nat, grant: int) returns (p: int)
      requires Valid() && 0 < size && Contiguous(Layout(), grant)
      modifies this
      ensures Valid()
      ensures (Layout(), p) == HeapLayout.Malloc(old(Layout()), size, grant)
      ensures Keeps(old(Layout()), old(ram.bytes), ram.bytes, 0)
    {
      var need := AlignUp(size);
      AlignUpIs(size);
      hide Keeps, Take, Extend, WellFormed, Contiguous, AlignUp, FirstFit, Rep;
      var current, i := Find(need);
      if current != 0 {
        ViewAt(ram.headers, blocks, i);
        TakeBlock(current, need, i);
        p := current + HEADER;
      } else {
        p := TakeChunk(need, grant);
      }
    }
  
    /** memset to zero inside one payload. */
    method Zero(p: int, n: nat, ghost i: nat)
      requires Valid() && i < |blocks| && Layout()[i].Payload() == p && n <= Layout()[i].size
      modifies this
      ensures Valid() && Layout() == old(Layout()) && blocks == old(blocks)
      ensures forall a | p <= a < p + n :: a in ram.bytes && ram.bytes[a] == 0
      ensures SameOutside(old(ram.bytes), ram.bytes, p, n)
    {
      hide Rep, View;
      var k := 0;
      while k < n
        invariant k <= n && Valid() && Layout() == old(Layout()) && blocks == old(blocks)
        invariant forall a | p <= a < p + k :: a in ram.bytes && ram.bytes[a] == 0
        invariant SameOutside(old(ram.bytes), ram.bytes, p, n)
      {
        PutByteRep(ram, blocks, i, p + k, 0);
        PutOutside(old(ram.bytes), ram.bytes, p, n, p + k, 0);
        ram := ram.PutByte(p + k, 0);
        k := k + 1;
      }
    }

    /** memcpy into one payload from memory apart from it; bytes never written stay unknown. */
    method Copy(dst: int, src: int, n: nat, ghost i: nat)
      requires Valid() && i < |blocks| && Layout()[i].Payload() == dst && n <= Layout()[i].size
      requires dst + n <= src || src + n <= dst
      modifies this
      ensures Valid() && Layout() == old(Layout()) && blocks == old(blocks)
      ensures Copied(old(ram.bytes), ram.bytes, dst, src, n)
      ensures SameOutside(old(ram.bytes), ram.bytes, dst, n)
    {
      hide Rep, View;
      var k := 0;
      while k < n
        invariant k <= n && Valid() && Layout() == old(Layout()) && blocks == old(blocks)
        invariant Copied(old(ram.bytes), ram.bytes, dst, src, k)
        invariant SameOutside(old(ram.bytes), ram.bytes, dst, n)
      {
        assert SameByte(old(ram.bytes), ram.bytes, src + k);
        if src + k in ram.bytes {
          var b := ram.bytes[src + k];
          PutByteRep(ram, blocks, i, dst + k, b);
          PutOutside(old(ram.bytes), ram.bytes, dst, n, dst + k, b);
          PutCopied(old(ram.bytes), ram.bytes, dst, src, k, b);
          ram := ram.PutByte(dst + k, b);
        } else {
          assert CopiedByte(old(ram.bytes), ram.bytes, dst, src, k);
        }
        k := k + 1;
      }
    }

    /** calloc: the product is checked for overflow, and the bytes asked for are zero. */
    method Calloc(count: nat, size: nat, grant: int) returns (p: int)
      requires Valid() && (count * size <= REQUEST_LIMIT || count * size >= WORD)
      requires Contiguous(Booted(), grant) && WellFormed(Booted())
      modifies this
      ensures Valid()
      ensures (Layout(), p) == HeapRuns.Calloc(if count * size == 0 || count * size >= WORD then old(Layout()) else old(Booted()),
                                               count, size, grant)
      ensures Keeps(old(Layout()), old(ram.bytes), ram.bytes, 0)
      ensures p != 0 ==> forall a | p <= a < p + count * size :: a in ram.bytes && ram.bytes[a] == 0
    {
      var total := count * size;
      ProductGuard(count, size, total);
      CallocIs(Layout(), count, size, grant, total);
      CallocIs(Booted(), count, size, grant, total);
      hide HeapRuns.Calloc;
      if count != 0 && size > (WORD - 1) / count {
        NoBytesChange(Layout(), ram.bytes);
        return 0;
      }
      p := Malloc(total, grant);
      hide HeapLayout.Malloc, Rep, View, Keeps, WellFormed, Contiguous, Boot;
      if p != 0 {
        ghost var s, was := Layout(), ram.bytes;
        NothingForNothing(old(Layout()), total, grant);
        MallocServes(old(Booted()), total, grant);
        ghost var i := Index(s, p - HEADER);
        ServedBlock(old(Booted()), s, p, total);
        Zero(p, total, i);
        StoredElsewhere(old(Layout()), old(Booted()), s, p, total, total, old(ram.bytes), was, ram.bytes);
      }
    }

    method Free(p: int, ghost i: nat)
      requires Valid() && (p == 0 || (i < |blocks| && Layout()[i].Payload() == p && !Layout()[i].free))
      modifies this
      ensures Valid() && Layout() == HeapLayout.Free(old(Layout()), p) && ram.bytes == old(ram.bytes)
    {
      if p == 0 {
        return;
      }
      var block := p - HEADER;
      ViewAt(ram.headers, blocks, i);
      RepAt(ram.headers, blocks, i);
      IndexUnique(Layout(), i);
      hide WellFormed, View, MergeNext, Chain, Rep, Index;
      SetFree(block, true, i);
      MergeWithNext(block, i);
      PrevFacts(ram.headers, blocks, i);
      var prev := ram.headers[block].prev;
      if prev != 0 && ram.headers[prev].free {
        MergeWithNext(prev, i - 1);
      }
    }
  
    /** Shrinking, or growing into the free block behind: the pointer stays. */
    method ResizeInPlace(block: int, size: nat, ghost i: nat)
      requires Valid() && i < |blocks| && blocks[i] == block && !Layout()[i].free && Layout()[i].size >= size
      modifies this
      ensures Valid() && Layout() == Split(old(Layout()), i, AlignUp(size))
      ensures Keeps(old(Layout()), old(ram.bytes), ram.bytes, block)
      ensures Copied(old(ram.bytes), ram.bytes, block + HEADER, block + HEADER, size)
    {
      var need := AlignUp(size);
      AlignUpIs(size);
      ViewAt(ram.headers, blocks, i);
      if Layout()[i].size >= need + HEADER + SLACK { HeaderInsideKeeps(Layout(), ram.bytes, i, block + HEADER + need); }
      hide Rep, View, Split, AlignUp, WellFormed;
      SplitBlock(block, need, i);
    }

    /** The last resort: a new block, the old contents copied, the old block freed. */
    method MoveBlock(p: int, size: nat, grant: int, ghost i: nat) returns (q: int)
      requires Valid() && 0 < size <= REQUEST_LIMIT && Contiguous(Layout(), grant)
      requires i < |blocks| && Layout()[i].Payload() == p && !Layout()[i].free
      modifies this
      ensures Valid()
      ensures var (m, a) := HeapLayout.Malloc(old(Layout()), size, grant);
              q == a && Layout() == if a == 0 then old(Layout()) else HeapLayout.Free(m, p)
      ensures Keeps(old(Layout()), old(ram.bytes), ram.bytes, 0)
      ensures var cap := old(Layout())[i].size;
              q != 0 ==> Copied(old(ram.bytes), ram.bytes, q, p, if cap < size then cap else size)
    {
      ghost var s := Layout();
      RepAt(ram.headers, blocks, i);
      var cap := ram.headers[p - HEADER].size;
      hide Rep, View, HeapLayout.Malloc, Keeps, Copied, WellFormed, HeapLayout.Free, Contiguous, Serves, AlignUp, Index;
      q := Allocate(size, grant);
      if q == 0 {
        MallocServes(s, size, grant);
        return;
      }
      ghost var m, was := Layout(), ram.bytes;
      ghost var j, k := MovedBlocks(s, m, q, i, size, grant);
      var n := if cap < size then cap else size;
      Copy(q, p, n, k);
      StoredElsewhere(s, s, m, q, size, n, old(ram.bytes), was, ram.bytes);
      CopiedFrom(s, i, old(ram.bytes), was, ram.bytes, q, p, n);
      Free(p, j);
    }

    /** realloc of a live block to a size above zero. */
    method Resize(p: int, size: nat, grant: int, ghost i: nat) returns (q: int)
      requires Valid() && 0 < size <= REQUEST_LIMIT && Contiguous(Layout(), grant)
      requires i < |blocks| && Layout()[i].Payload() == p && !Layout()[i].free
      modifies this
      ensures Valid()
      ensures (Layout(), q) == HeapLayout.Realloc(old(Layout()), p, size, grant)
      ensures Keeps(old(Layout()), old(ram.bytes), ram.bytes, p - HEADER)
      ensures var cap := old(Layout())[i].size;
              q != 0 ==> Copied(old(ram.bytes), ram.bytes, q, p, if cap < size then cap else size)
    {
      ghost var s := Layout();
      var block := p - HEADER;
      RepAt(ram.headers, blocks, i);
      if i + 1 < |blocks| { RepAt(ram.headers, blocks, i + 1); }
      ResizeFacts(s, i, size, grant);
      hide Rep, View, HeapLayout.Malloc, Keeps, Copied, WellFormed, HeapLayout.Free, Contiguous, HeapLayout.Realloc,
        Split, MergeNext;
      var next := ram.headers[block].next;
      if ram.headers[block].size >= size {
        ResizeInPlace(block, size, i);
        return p;
      }
      if next != 0 && ram.headers[next].free && ram.headers[block].size + HEADER + ram.headers[next].size >= size {
        MergeWithNext(block, i);
        ghost var merged := ram.bytes;
        ResizeInPlace(block, size, i);
        KeepsMerged(s, i, merged, ram.bytes);
        CopiedLess(merged, ram.bytes, p, p, s[i].size, size);
        return p;
      }
      q := MoveBlock(p, size, grant, i);
      KeepsMore(s, old(ram.bytes), ram.bytes, block);
    }

    method Realloc(p: int, size: nat, grant: int, ghost i: nat) returns (q: int)
      requires Valid() && size <= REQUEST_LIMIT && Contiguous(Booted(), grant)
      requires p == 0 || (i < |blocks| && Layout()[i].Payload() == p && !Layout()[i].free)
      modifies this
      ensures Valid()
      ensures (Layout(), q) == HeapLayout.Realloc(if p == 0 && size > 0 then old(Booted()) else old(Layout()), p, size, grant)
      ensures Keeps(old(Layout()), old(ram.bytes), ram.bytes, if p == 0 then 0 else p - HEADER)
      ensures p != 0 && q != 0 ==>
                var cap := old(Layout())[i].size;
                Copied(old(ram.bytes), ram.bytes, q, p, if cap < size then cap else size)
    {
      if p == 0 {
        q := Malloc(size, grant);
        return;
      }
      if size == 0 {
        Free(p, i);
        return 0;
      }
      q := Resize(p, size, grant, i);
    }
  }

  /** How the layout functions see the three ways of resizing. */
  lemma ResizeFacts(s: Layout, i: nat, size: nat, grant: int)
    requires WellFormed(s) && i < |s| && !s[i].free && size > 0
    ensures s[i].Payload() != 0
    ensures s[i].size >= size ==>
              HeapLayout.Realloc(s, s[i].Payload(), size, grant) == (Split(s, i, AlignUp(size)), s[i].Payload())
    ensures s[i].size < size && i + 1 < |s| && s[i + 1].free && s[i].size + HEADER + s[i + 1].size >= size ==>
              && HeapLayout.Realloc(s, s[i].Payload(), size, grant) == (Split(MergeNext(s, i), i, AlignUp(size)), s[i].Payload())
              && |MergeNext(s, i)| > i && MergeNext(s, i)[i] == s[i].(size := s[i].size + HEADER + s[i + 1].size)
    ensures s[i].size < size && !(i + 1 < |s| && s[i + 1].free && s[i].size + HEADER + s[i + 1].size >= size) ==>
              var (m, q) := HeapLayout.Malloc(s, size, grant);
              HeapLayout.Realloc(s, s[i].Payload(), size, grant) == if q == 0 then (s, 0) else (HeapLayout.Free(m, s[i].Payload()), q)
  {
    IndexUnique(s, i);
    assert 0 < s[i].addr;
    hide Split, AlignUp, HeapLayout.Malloc, HeapLayout.Free, WellFormed, Index;
  }

  /** After allocating: where the old block and the new one are. */
  lemma MovedBlocks(s: Layout, m: Layout, q: int, i: nat, size: nat, grant: int) returns (j: nat, k: nat)
    requires WellFormed(s) && Contiguous(s, grant) && i < |s| && !s[i].free
    requires (m, q) == HeapLayout.Malloc(s, size, grant) && q != 0
    ensures Serves(s, m, q, size) && s[i].Payload() != 0
    ensures j < |m| && m[j] == s[i]
    ensures k < |m| && m[k].Payload() == q && m[k].size >= size
    ensures m[k].End() <= s[i].addr || s[i].End() <= m[k].addr
  {
    MallocServes(s, size, grant);
    MallocLive(s, size, grant);
    hide HeapLayout.Malloc, Contiguous, Live;
    k := Index(m, q - HEADER);
    LiveStays(s, m, i, (q - HEADER, m[k].size));
    j := Index(m, s[i].addr);
    assert 0 < s[i].addr;
  }

  lemma CopiedFrom(s: Layout, i: nat, a: map<int, u8>, b: map<int, u8>, c: map<int, u8>, dst: int, src: int, n: int)
    requires i < |s| && !s[i].free && s[i].addr != 0 && s[i].Payload() == src && n <= s[i].size
    requires Keeps(s, a, b, 0) && Copied(b, c, dst, src, n)
    ensures Copied(a, c, dst, src, n)
  {
    forall k | 0 <= k < n ensures CopiedByte(a, c, dst, src, k) {
      assert s[i].Owns(src + k);
      assert SameByte(a, b, src + k) && CopiedByte(b, c, dst, src, k);
    }
  }

  lemma CopiedLess(a: map<int, u8>, b: map<int, u8>, dst: int, src: int, m: int, n: int)
    requires Copied(a, b, dst, src, n)
    ensures Copied(a, b, dst, src, if m < n then m else n)
  {}

  lemma KeepsMore(s: Layout, a: map<int, u8>, b: map<int, u8>, e: int)
    requires Keeps(s, a, b, 0) && forall i | 0 <= i < |s| :: s[i].addr != 0
    ensures Keeps(s, a, b, e)
  {}

  lemma KeepsMerged(s: Layout, i: nat, a: map<int, u8>, b: map<int, u8>)
    requires i < |s| && !s[i].free && Keeps(MergeNext(s, i), a, b, s[i].addr)
    ensures Keeps(s, a, b, s[i].addr)
  {
    var t := MergeNext(s, i);
    forall j, x | 0 <= j < |s| && !s[j].free && s[j].addr != s[i].addr && s[j].Owns(x) ensures SameByte(a, b, x) {
      var k := if |t| == |s| || j <= i then j else j - 1;
      assert t[k] == s[j] && t[k].Owns(x);
    }
  }

  lemma PrevFacts(h: Headers, blocks: seq<int>, i: nat)
    requires Rep(h, blocks) && i < |blocks|
    ensures blocks[i] in h && (h[blocks[i]].prev == 0 <==> i == 0)
    ensures i > 0 ==> h[blocks[i]].prev == blocks[i - 1] && blocks[i - 1] in h && View(h, blocks)[i - 1].free == h[blocks[i - 1]].free
  {
    RepAt(h, blocks, i);
    if i > 0 { RepAt(h, blocks, i - 1); }
  }

  lemma MulGrows(a: nat, b: nat, c: nat)
    requires a <= b
    ensures a * c <= b * c
  {}

  lemma ProductGuard(count: nat, size: nat, total: nat)
    requires total == count * size
    ensures count != 0 ==> (size > (WORD - 1) / count <==> total >= WORD)
  {
    if count != 0 {
      var q := (WORD - 1) / count;
      assert WORD - 1 == q * count + (WORD - 1) % count;
      assert (q + 1) * count == q * count + count;
      if size > q { MulGrows(q + 1, size, count); } else { MulGrows(size, q, count); }
    }
  }

  lemma CallocIs(s: Layout, count: nat, size: nat, grant: int, total: nat)
    requires total == count * size
    ensures HeapRuns.Calloc(s, count, size, grant) == if total >= WORD then (s, 0) else HeapLayout.Malloc(s, total, grant)
  {
    ProductGuard(count, size, total);
    hide HeapLayout.Malloc;
  }

  lemma NoBytesChange(s: Layout, bytes: map<int, u8>)
    ensures Keeps(s, bytes, bytes, 0)
  {}

  lemma NothingForNothing(s: Layout, size: nat, grant: int)
    ensures size == 0 ==> HeapLayout.Malloc(s, size, grant) == (s, 0)
  {}

  lemma ServedBlock(s: Layout, t: Layout, p: int, size: nat)
    requires Serves(s, t, p, size)
    ensures var i := Index(t, p - HEADER); i < |t| && t[i].Payload() == p && t[i].size >= size
  {}

  /** Bytes stored in the new block are in no block that was live before. */
  lemma StoredElsewhere(s: Layout, booted: Layout, t: Layout, p: int, size: nat, n: nat,
                        a: map<int, u8>, b: map<int, u8>, c: map<int, u8>)
    requires s == [] || s == booted
    requires Serves(booted, t, p, size) && n <= size && Keeps(s, a, b, 0)
    requires SameOutside(b, c, p, n)
    ensures Keeps(s, a, c, 0)
  {
    forall i, x | 0 <= i < |s| && !s[i].free && s[i].addr != 0 && s[i].Owns(x) ensures SameByte(a, c, x) {
      assert SameByte(a, b, x);
      assert !(p <= x < p + n) ==> SameByte(b, c, x);
      assert booted[i].End() <= t[Index(t, p - HEADER)].addr || t[Index(t, p - HEADER)].End() <= booted[i].addr;
    }
  }

  /** Keeping composes when the first layout is empty or the same as the second. */
  lemma KeepsThrough(s: Layout, t: Layout, a: map<int, u8>, b: map<int, u8>, c: map<int, u8>)
    requires s == [] || s == t
    requires Keeps(s, a, b, 0) && Keeps(t, b, c, 0)
    ensures Keeps(s, a, c, 0)
  {
    forall i, x | 0 <= i < |s| && !s[i].free && s[i].addr != 0 && s[i].Owns(x) ensures SameByte(a, c, x) {
      assert SameByte(a, b, x) && SameByte(b, c, x);
    }
  }

  lemma KeepsExtended(s: Layout, need: nat, grant: int, a: map<int, u8>, b: map<int, u8>)
    requires Keeps(Extend(s, need, grant), a, b, 0)
    ensures Keeps(s, a, b, 0)
  {
    Extended(s, need, grant);
    forall i, x | 0 <= i < |s| && !s[i].free && s[i].addr != 0 && s[i].Owns(x) ensures SameByte(a, b, x) {
      assert Extend(s, need, grant)[i].Owns(x);
    }
  }
}
