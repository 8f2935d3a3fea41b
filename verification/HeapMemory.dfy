/**
  The allocator itself: headers inside the memory they describe, linked both ways by address, and
  the calls that walk and edit that list. Each call is proved against the layout functions.
*/
module HeapMemory {
  import opened HeapLayout

  type u8 = b: int | 0 <= b < 256

  datatype Header = Header(size: nat, free: bool, next: int, prev: int)

  type Headers = map<int, Header>

  /** Memory without the entries that start in the n addresses from a. */
  function Without<T>(m: map<int, T>, a: int, n: int): map<int, T> {
    map x | x in m && !(a <= x < a + n) :: m[x]
  }

  /** Memory: headers by start address, and bytes. A store of one kind destroys the other under it. */
  datatype Ram = Ram(headers: Headers, bytes: map<int, u8>) {
    function PutHeader(a: int, h: Header): Ram {
      Ram(Without(headers, a - HEADER + 1, 2 * HEADER - 1)[a := h], Without(bytes, a, HEADER))
    }

    function PutByte(a: int, b: u8): Ram {
      Ram(Without(headers, a - HEADER + 1, HEADER), bytes[a := b])
    }
  }

  // -------------------------------------------------- the list behind the headers

  function At(blocks: seq<int>, i: int): int {
    if 0 <= i < |blocks| then blocks[i] else 0
  }

  predicate Linked(h: Headers, blocks: seq<int>, i: int)
    requires 0 <= i < |blocks|
  {
    blocks[i] in h && h[blocks[i]].next == At(blocks, i + 1) && h[blocks[i]].prev == At(blocks, i - 1)
  }

  predicate Chain(h: Headers, blocks: seq<int>) {
    forall i | 0 <= i < |blocks| :: Linked(h, blocks, i)
  }

  function ViewOne(h: Headers, a: int): Block {
    if a in h then Block(a, h[a].size, h[a].free) else Block(a, 0, false)
  }

  /** The layout that the headers describe. */
  function View(h: Headers, blocks: seq<int>): (s: Layout)
    ensures |s| == |blocks|
  {
    seq(|blocks|, i requires 0 <= i < |blocks| => ViewOne(h, blocks[i]))
  }

  lemma ViewAt(h: Headers, blocks: seq<int>, i: nat)
    requires i < |blocks|
    ensures View(h, blocks)[i] == ViewOne(h, blocks[i])
  {}

  predicate Rep(h: Headers, blocks: seq<int>) {
    Chain(h, blocks) && WellFormed(View(h, blocks))
  }

  lemma RepAt(h: Headers, blocks: seq<int>, i: nat)
    requires Rep(h, blocks) && i < |blocks|
    ensures Linked(h, blocks, i) && blocks[i] > 0 && View(h, blocks)[i] == Block(blocks[i], h[blocks[i]].size, h[blocks[i]].free)
  {
    assert Linked(h, blocks, i);
    ViewAt(h, blocks, i);
    assert 0 < View(h, blocks)[i].addr;
  }

  lemma BlocksApart(h: Headers, blocks: seq<int>, i: nat, j: nat)
    requires Rep(h, blocks) && i < |blocks| && j < |blocks| && i != j
    ensures blocks[i] + HEADER <= blocks[j] || blocks[j] + HEADER <= blocks[i]
    ensures View(h, blocks)[i].End() <= blocks[j] || View(h, blocks)[j].End() <= blocks[i]
  {
    Disjoint(View(h, blocks), i, j);
    ViewAt(h, blocks, i);
    ViewAt(h, blocks, j);
  }

  /** No header lies in the payload of a block, nor reaches into it. */
  lemma PayloadClear(h: Headers, blocks: seq<int>, i: nat, j: nat, a: int, n: int)
    requires Rep(h, blocks) && i < |blocks| && j < |blocks| && 0 < n
    requires View(h, blocks)[i].Payload() <= a && a + n <= View(h, blocks)[i].End()
    ensures blocks[j] + HEADER <= a || a + n <= blocks[j]
  {
    ViewAt(h, blocks, i);
    if j != i { BlocksApart(h, blocks, i, j); }
  }

  // ----------------------------------------------------------------- splitting

  function SetPrev(h: Headers, a: int, p: int): Headers {
    if a != 0 && a in h then h[a := h[a].(prev := p)] else h
  }

  function SetNext(h: Headers, a: int, p: int): Headers {
    if a != 0 && a in h then h[a := h[a].(next := p)] else h
  }

  function SplitHeaders(h: Headers, block: int, size: nat): Headers
    requires block in h && h[block].size >= size + HEADER + SLACK
  {
    var b, t := h[block], block + HEADER + size;
    var h1 := Without(h, t - HEADER + 1, 2 * HEADER - 1)[t := Header(b.size - size - HEADER, true, b.next, block)];
    SetPrev(h1, b.next, t)[block := b.(size := size, next := t)]
  }

  lemma SplitEntry(h: Headers, blocks: seq<int>, i: nat, size: nat, j: nat)
    requires Rep(h, blocks) && i < |blocks| && j < |blocks| && Linked(h, blocks, i)
    requires h[blocks[i]].size >= size + HEADER + SLACK
    ensures var b, t := h[blocks[i]], blocks[i] + HEADER + size;
            var h' := SplitHeaders(h, blocks[i], size);
            && Linked(h, blocks, j) && blocks[j] in h' && blocks[j] != t
            && h'[blocks[j]] == (if j == i then b.(size := size, next := t)
                                 else if j == i + 1 then h[blocks[j]].(prev := t)
                                 else h[blocks[j]])
            && t in h' && h'[t] == Header(b.size - size - HEADER, true, At(blocks, i + 1), blocks[i])
  {
    var t := blocks[i] + HEADER + size;
    RepAt(h, blocks, i);
    RepAt(h, blocks, j);
    PayloadClear(h, blocks, i, j, t, HEADER);
    if j != i { BlocksApart(h, blocks, i, j); }
    if i + 1 < |blocks| {
      RepAt(h, blocks, i + 1);
      BlocksApart(h, blocks, i, i + 1);
      PayloadClear(h, blocks, i, i + 1, t, HEADER);
      if j != i + 1 { BlocksApart(h, blocks, i + 1, j); }
    }
  }

  function Inserted(blocks: seq<int>, i: nat, t: int): seq<int>
    requires i < |blocks|
  {
    blocks[..i + 1] + [t] + blocks[i + 1..]
  }

  lemma SplitRep(h: Headers, blocks: seq<int>, i: nat, size: nat)
    requires Rep(h, blocks) && i < |blocks| && Linked(h, blocks, i)
    requires h[blocks[i]].size >= size + HEADER + SLACK && size % 16 == 0
    ensures var h' := SplitHeaders(h, blocks[i], size);
            var bs := Inserted(blocks, i, blocks[i] + HEADER + size);
            Rep(h', bs) && View(h', bs) == Split(View(h, blocks), i, size)
  {
    var h' := SplitHeaders(h, blocks[i], size);
    var t := blocks[i] + HEADER + size;
    var bs := Inserted(blocks, i, t);
    var s := View(h, blocks);
    RepAt(h, blocks, i);
    SplitWellFormed(s, i, size);
    SplitEntry(h, blocks, i, size, i);
    forall k | 0 <= k < |bs| ensures Linked(h', bs, k) && View(h', bs)[k] == Split(s, i, size)[k] {
      SplitLinked(h, blocks, i, size, k);
    }
    assert View(h', bs) == Split(s, i, size);
  }

  lemma SplitLinked(h: Headers, blocks: seq<int>, i: nat, size: nat, k: nat)
    requires Rep(h, blocks) && i < |blocks| && Linked(h, blocks, i) && k <= |blocks|
    requires h[blocks[i]].size >= size + HEADER + SLACK
    ensures var h' := SplitHeaders(h, blocks[i], size);
            var bs := Inserted(blocks, i, blocks[i] + HEADER + size);
            && |bs| == |blocks| + 1 == |Split(View(h, blocks), i, size)|
            && Linked(h', bs, k) && View(h', bs)[k] == Split(View(h, blocks), i, size)[k]
  {
    var h' := SplitHeaders(h, blocks[i], size);
    var t := blocks[i] + HEADER + size;
    var bs := Inserted(blocks, i, t);
    var v := View(h, blocks);
    RepAt(h, blocks, i);
    ViewAt(h', bs, k);
    SplitAt(v, i, size, k);
    var j := if k <= i then k else k - 1;
    InsertedAt(blocks, i, t, k);
    SplitEntry(h, blocks, i, size, j);
    RepAt(h, blocks, j);
    ViewAt(h, blocks, j);
    InsertedNeighbours(blocks, i, t, k);
    hide SplitHeaders, WellFormed, Chain, View, Split, Inserted, Rep, At;
  }

  lemma SplitAt(s: Layout, i: nat, size: nat, k: nat)
    requires i < |s| && k <= |s| && s[i].size >= size + HEADER + SLACK
    ensures |Split(s, i, size)| == |s| + 1
    ensures Split(s, i, size)[k] ==
            if k < i then s[k] else if k == i then s[i].(size := size)
            else if k == i + 1 then Block(s[i].addr + HEADER + size, s[i].size - size - HEADER, true) else s[k - 1]
  {
  }

  lemma InsertedAt(blocks: seq<int>, i: nat, t: int, k: nat)
    requires i < |blocks| && k <= |blocks|
    ensures Inserted(blocks, i, t)[k] == if k <= i then blocks[k] else if k == i + 1 then t else blocks[k - 1]
  {
  }

  lemma InsertedNeighbours(blocks: seq<int>, i: nat, t: int, k: nat)
    requires i < |blocks| && k <= |blocks|
    ensures At(Inserted(blocks, i, t), k + 1) ==
            if k < i then At(blocks, k + 1) else if k == i then t else At(blocks, k)
    ensures At(Inserted(blocks, i, t), k - 1) ==
            if k <= i then At(blocks, k - 1) else if k == i + 1 then blocks[i] else if k == i + 2 then t else At(blocks, k - 2)
  {
  }

  // ------------------------------------------------------------------- merging

  function MergeHeaders(h: Headers, block: int): Headers
    requires block in h && h[block].next in h
  {
    var b := h[block];
    var n := h[b.next];
    SetPrev(h[block := b.(size := b.size + HEADER + n.size, next := n.next)], n.next, block)
  }

  function Removed(blocks: seq<int>, i: nat): seq<int>
    requires i + 1 < |blocks|
  {
    blocks[..i + 1] + blocks[i + 2..]
  }

  lemma MergeEntry(h: Headers, blocks: seq<int>, i: nat, j: nat)
    requires Rep(h, blocks) && i + 1 < |blocks| && j < |blocks| && j != i + 1
    requires Linked(h, blocks, i) && Linked(h, blocks, i + 1)
    ensures var b, n := h[blocks[i]], h[blocks[i + 1]];
            var h' := MergeHeaders(h, blocks[i]);
            && Linked(h, blocks, j) && blocks[j] in h'
            && h'[blocks[j]] == (if j == i then b.(size := b.size + HEADER + n.size, next := At(blocks, i + 2))
                                 else if j == i + 2 then h[blocks[j]].(prev := blocks[i])
                                 else h[blocks[j]])
  {
    RepAt(h, blocks, i);
    RepAt(h, blocks, j);
    if j != i { BlocksApart(h, blocks, i, j); }
    if i + 2 < |blocks| {
      RepAt(h, blocks, i + 2);
      BlocksApart(h, blocks, i, i + 2);
      if j != i + 2 { BlocksApart(h, blocks, i + 2, j); }
    }
  }

  lemma MergeLinked(h: Headers, blocks: seq<int>, i: nat, k: nat)
    requires Rep(h, blocks) && i + 1 < |blocks| && k < |blocks| - 1
    requires Linked(h, blocks, i) && Linked(h, blocks, i + 1) && h[blocks[i + 1]].free
    ensures var h' := MergeHeaders(h, blocks[i]);
            var bs := Removed(blocks, i);
            && |bs| == |blocks| - 1 == |MergeNext(View(h, blocks), i)|
            && Linked(h', bs, k) && View(h', bs)[k] == MergeNext(View(h, blocks), i)[k]
  {
    var h' := MergeHeaders(h, blocks[i]);
    var bs := Removed(blocks, i);
    var j := if k <= i then k else k + 1;
    RepAt(h, blocks, i);
    RepAt(h, blocks, i + 1);
    RepAt(h, blocks, j);
    ViewAt(h', bs, k);
    MergeEntry(h, blocks, i, j);
    hide MergeHeaders, WellFormed, Chain;
  }

  lemma MergeRep(h: Headers, blocks: seq<int>, i: nat)
    requires Rep(h, blocks) && i + 1 < |blocks|
    requires Linked(h, blocks, i) && Linked(h, blocks, i + 1) && h[blocks[i + 1]].free
    ensures var h' := MergeHeaders(h, blocks[i]);
            var bs := Removed(blocks, i);
            Rep(h', bs) && View(h', bs) == MergeNext(View(h, blocks), i)
  {
    var h' := MergeHeaders(h, blocks[i]);
    var bs := Removed(blocks, i);
    MergeWellFormed(View(h, blocks), i);
    MergeLinked(h, blocks, i, i);
    forall k | 0 <= k < |bs| ensures Linked(h', bs, k) && View(h', bs)[k] == MergeNext(View(h, blocks), i)[k] {
      MergeLinked(h, blocks, i, k);
    }
    assert View(h', bs) == MergeNext(View(h, blocks), i);
  }

  // ------------------------------------------------------- flags and new chunks

  lemma RetagRep(h: Headers, blocks: seq<int>, i: nat, free: bool)
    requires Rep(h, blocks) && i < |blocks| && Linked(h, blocks, i)
    ensures var h' := h[blocks[i] := h[blocks[i]].(free := free)];
            var s := View(h, blocks);
            Rep(h', blocks) && View(h', blocks) == s[i := s[i].(free := free)]
  {
    var h' := h[blocks[i] := h[blocks[i]].(free := free)];
    var s := View(h, blocks);
    RetagWellFormed(s, i, free);
    forall k | 0 <= k < |blocks| ensures Linked(h', blocks, k) && View(h', blocks)[k] == s[i := s[i].(free := free)][k] {
      RepAt(h, blocks, k);
      ViewAt(h', blocks, k);
      if k != i { BlocksApart(h, blocks, i, k); }
    }
    assert View(h', blocks) == s[i := s[i].(free := free)];
  }

  function ChunkHeaders(h: Headers, tail: int, grant: int, size: nat): Headers {
    SetNext(Without(h, grant - HEADER + 1, 2 * HEADER - 1)[grant := Header(size, true, 0, tail)], tail, grant)
  }

  lemma ChunkEntry(h: Headers, blocks: seq<int>, grant: int, size: nat, j: nat)
    requires Rep(h, blocks) && Contiguous(View(h, blocks), grant) && grant != 0 && j < |blocks|
    ensures var tail := blocks[|blocks| - 1];
            var h' := ChunkHeaders(h, tail, grant, size);
            && Linked(h, blocks, j) && blocks[j] in h' && blocks[j] != grant
            && h'[blocks[j]] == if j == |blocks| - 1 then h[blocks[j]].(next := grant) else h[blocks[j]]
  {
    var last := |blocks| - 1;
    RepAt(h, blocks, j);
    RepAt(h, blocks, last);
    if j != last {
      BlocksApart(h, blocks, j, last);
      InOrder(View(h, blocks), j, last);
    }
  }

  lemma ChunkRep(h: Headers, blocks: seq<int>, need: nat, grant: int)
    requires Rep(h, blocks) && Contiguous(View(h, blocks), grant) && grant != 0
    ensures var h' := ChunkHeaders(h, At(blocks, |blocks| - 1), grant, ChunkSize(need) - HEADER);
            Rep(h', blocks + [grant]) && View(h', blocks + [grant]) == Extend(View(h, blocks), need, grant)
  {
    var size := ChunkSize(need) - HEADER;
    var h' := ChunkHeaders(h, At(blocks, |blocks| - 1), grant, size);
    var s, bs := View(h, blocks), blocks + [grant];
    ExtendWellFormed(s, need, grant);
    forall k | 0 <= k < |bs| ensures Linked(h', bs, k) && View(h', bs)[k] == Extend(s, need, grant)[k] {
      ViewAt(h', bs, k);
      if k < |blocks| {
        ChunkEntry(h, blocks, grant, size, k);
        RepAt(h, blocks, k);
      } else if |blocks| > 0 {
        ChunkEntry(h, blocks, grant, size, |blocks| - 1);
      }
    }
    assert View(h', bs) == Extend(s, need, grant);
  }
}
