/** The partition table of a master boot record: what its bytes mean and what each command does to it. */
module Partitions {
  import opened Sha256

  const SECTOR: nat := 512
  const TABLE: nat := 446
  const ENTRY: nat := 16
  const COUNT: nat := 4
  const SIGNATURE: nat := 510
  const LIMIT32: nat := 0x1_0000_0000
  const ACTIVE: Byte := 0x80

  // --------------------------------------------------------------- little endian

  function FromBytes(b0: nat, b1: nat, b2: nat, b3: nat): nat { b0 + 0x100 * b1 + 0x1_0000 * b2 + 0x100_0000 * b3 }

  function ReadU32(b: seq<Byte>): (v: nat)
    requires |b| == 4
    ensures v < LIMIT32
  {
    FromBytes(b[0], b[1], b[2], b[3])
  }

  function WriteU32(v: nat): (b: seq<Byte>)
    ensures |b| == 4
  {
    [v % 0x100, v / 0x100 % 0x100, v / 0x1_0000 % 0x100, v / 0x100_0000 % 0x100]
  }

  /** Numbers of 32 bits and their four bytes are in one-to-one correspondence. */
  lemma U32RoundTrip(v: nat, b: seq<Byte>)
    requires v < LIMIT32 && |b| == 4
    ensures ReadU32(WriteU32(v)) == v
    ensures WriteU32(ReadU32(b)) == b
  {
    FourBytes(b[0], b[1], b[2], b[3]);
    assert v / 0x1_0000 == v / 0x100 / 0x100 && v / 0x100_0000 == v / 0x1_0000 / 0x100;
  }

  lemma FourBytes(b0: nat, b1: nat, b2: nat, b3: nat)
    requires b0 < 0x100 && b1 < 0x100 && b2 < 0x100 && b3 < 0x100
    ensures WriteU32(FromBytes(b0, b1, b2, b3)) == [b0, b1, b2, b3]
  {
    var w := FromBytes(b0, b1, b2, b3);
    assert w / 0x100 == b1 + 0x100 * b2 + 0x1_0000 * b3;
    assert w / 0x1_0000 == b2 + 0x100 * b3;
    assert w / 0x100_0000 == b3;
  }

  // -------------------------------------------------------------------- entries

  datatype Partition = Partition(boot: Byte, kind: Byte, start: nat, size: nat)

  function Offset(i: nat): nat { TABLE + i * ENTRY }

  function EntryAt(s: seq<Byte>, i: nat): (p: Partition)
    requires |s| == SECTOR && i < COUNT
    ensures p.start < LIMIT32 && p.size < LIMIT32
  {
    var o := Offset(i);
    Partition(s[o], s[o + 4], ReadU32(s[o + 8..o + 12]), ReadU32(s[o + 12..o + 16]))
  }

  /** The bytes of an entry; the cylinder, head and sector fields are filled with ones. */
  function EntryBytes(p: Partition): (b: seq<Byte>)
    ensures |b| == ENTRY
  {
    [p.boot, 0xFF, 0xFF, 0xFF, p.kind, 0xFF, 0xFF, 0xFF] + WriteU32(p.start) + WriteU32(p.size)
  }

  function Put(s: seq<Byte>, at: nat, b: seq<Byte>): (r: seq<Byte>)
    requires at + |b| <= |s|
    ensures |r| == |s|
  {
    s[..at] + b + s[at + |b|..]
  }

  function PutEntry(s: seq<Byte>, i: nat, b: seq<Byte>): (r: seq<Byte>)
    requires |s| == SECTOR && i < COUNT && |b| == ENTRY
    ensures |r| == SECTOR
  {
    Put(s, Offset(i), b)
  }

  predicate Signed(s: seq<Byte>)
    requires |s| == SECTOR
  {
    s[SIGNATURE] == 0x55 && s[SIGNATURE + 1] == 0xAA
  }

  function Sign(s: seq<Byte>): (r: seq<Byte>)
    requires |s| == SECTOR
    ensures |r| == SECTOR
  {
    s[SIGNATURE := 0x55][SIGNATURE + 1 := 0xAA]
  }

  /** The boot flags of the first n entries cleared, but for one of them. */
  function ClearBoots(s: seq<Byte>, n: nat, but: int): (r: seq<Byte>)
    requires |s| == SECTOR && n <= COUNT
    ensures |r| == SECTOR
  {
    if n == 0 then s
    else
      var t := ClearBoots(s, n - 1, but);
      if n - 1 == but then t else t[Offset(n - 1) := 0]
  }

  lemma PutEntryAt(s: seq<Byte>, i: nat, p: Partition, j: nat)
    requires |s| == SECTOR && i < COUNT && j < COUNT && p.start < LIMIT32 && p.size < LIMIT32
    ensures EntryAt(PutEntry(s, i, EntryBytes(p)), j) == if j == i then p else EntryAt(s, j)
  {
    var r := PutEntry(s, i, EntryBytes(p));
    PutOther(s, i, EntryBytes(p), j);
    if j == i {
      var o, b := Offset(i), EntryBytes(p);
      assert r[o..o + 16] == b;
      assert b[8..12] == WriteU32(p.start) && b[12..16] == WriteU32(p.size);
      assert r[o + 8..o + 12] == r[o..o + 16][8..12] && r[o + 12..o + 16] == r[o..o + 16][12..16];
      U32RoundTrip(p.start, WriteU32(p.start));
      U32RoundTrip(p.size, WriteU32(p.size));
    }
    hide ReadU32, WriteU32;
  }

  lemma PutOther(s: seq<Byte>, i: nat, b: seq<Byte>, j: nat)
    requires |s| == SECTOR && i < COUNT && j < COUNT && |b| == ENTRY
    ensures j != i ==> EntryAt(PutEntry(s, i, b), j) == EntryAt(s, j)
  {
    hide ReadU32;
    if j != i {
      var r, o := PutEntry(s, i, b), Offset(j);
      assert forall k | o <= k < o + 16 :: r[k] == s[k];
      assert r[o + 8..o + 12] == s[o + 8..o + 12] && r[o + 12..o + 16] == s[o + 12..o + 16];
    }
  }

  lemma SignEntry(s: seq<Byte>, j: nat)
    requires |s| == SECTOR && j < COUNT
    ensures EntryAt(Sign(s), j) == EntryAt(s, j) && Signed(Sign(s))
  {
    hide ReadU32;
    var r, o := Sign(s), Offset(j);
    assert r[o + 8..o + 12] == s[o + 8..o + 12] && r[o + 12..o + 16] == s[o + 12..o + 16];
  }

  lemma BootByte(s: seq<Byte>, i: nat, v: Byte, j: nat)
    requires |s| == SECTOR && i < COUNT && j < COUNT
    ensures EntryAt(s[Offset(i) := v], j) == if j == i then EntryAt(s, j).(boot := v) else EntryAt(s, j)
  {
    hide ReadU32;
    var r, o := s[Offset(i) := v], Offset(j);
    assert r[o + 8..o + 12] == s[o + 8..o + 12] && r[o + 12..o + 16] == s[o + 12..o + 16];
  }

  lemma {:induction false} ClearedAt(s: seq<Byte>, n: nat, but: int, j: nat)
    requires |s| == SECTOR && n <= COUNT && j < COUNT
    ensures EntryAt(ClearBoots(s, n, but), j) == if j < n && j != but then EntryAt(s, j).(boot := 0) else EntryAt(s, j)
  {
    if n > 0 {
      ClearedAt(s, n - 1, but, j);
      BootByte(ClearBoots(s, n - 1, but), n - 1, 0, j);
      hide EntryAt;
    }
  }

  // ------------------------------------------------------------------- commands

  datatype Command =
    | Create(index: nat, start: nat, sectors: nat, kind: nat, boot: bool)
    | Delete(index: nat)
    | SetBoot(index: nat, on: bool)

  /** A request that a command line can express for a disk of a size; entries count from 1. */
  predicate InRange(c: Command, disk: nat) {
    && 1 <= c.index <= COUNT
    && (c.Create? ==>
          && 0 < c.start < LIMIT32 && 0 < c.sectors < LIMIT32 && c.kind <= 0xFF
          && c.start + c.sectors <= disk)
  }

  /** The comparison that create makes with every entry but its own. */
  predicate NoOverlap(s: seq<Byte>, skip: nat, start: nat, sectors: nat)
    requires |s| == SECTOR
  {
    forall i | 0 <= i < COUNT && i != skip ::
      var p := EntryAt(s, i); p.size == 0 || start + sectors <= p.start || start >= p.start + p.size
  }

  predicate Accepts(s: seq<Byte>, c: Command, disk: nat)
    requires |s| == SECTOR
  {
    InRange(c, disk) && (c.Create? ==> NoOverlap(s, c.index - 1, c.start, c.sectors))
  }

  /** What an accepted command writes. */
  function Perform(s: seq<Byte>, c: Command): (r: seq<Byte>)
    requires |s| == SECTOR && 1 <= c.index <= COUNT && (c.Create? ==> c.kind <= 0xFF)
    ensures |r| == SECTOR
  {
    match c
    case Create(index, start, sectors, kind, boot) =>
      var t := if boot then ClearBoots(s, COUNT, -1) else s;
      Sign(PutEntry(t, index - 1, EntryBytes(Partition(if boot then ACTIVE else 0, kind, start, sectors))))
    case Delete(index) => Sign(PutEntry(s, index - 1, Zeros(ENTRY)))
    case SetBoot(index, on) =>
      var t := if on then ClearBoots(s, COUNT, index - 1) else s;
      Sign(t[Offset(index - 1) := if on then ACTIVE else 0])
  }

  function After(s: seq<Byte>, c: Command, disk: nat): (r: seq<Byte>)
    requires |s| == SECTOR
    ensures |r| == SECTOR
  {
    if Accepts(s, c, disk) then Perform(s, c) else s
  }

  function Blank(): seq<Byte> { Sign(Zeros(SECTOR)) }

  // -------------------------------------------------------------- what they mean

  /** A sector of the disk that belongs to a partition. */
  predicate Has(p: Partition, lba: nat) { p.start <= lba < p.start + p.size }

  ghost predicate Disjoint(p: Partition, q: Partition) { forall lba: nat :: !(Has(p, lba) && Has(q, lba)) }

  /** The comparison of ends is disjointness. */
  lemma DisjointIff(p: Partition, q: Partition)
    ensures Disjoint(p, q) <==> p.size == 0 || q.size == 0 || p.start + p.size <= q.start || p.start >= q.start + q.size
  {
    if p.size > 0 && q.size > 0 && p.start + p.size > q.start && p.start < q.start + q.size {
      var lba := if p.start < q.start then q.start else p.start;
      assert Has(p, lba) && Has(q, lba);
    }
  }

  /** A table as partitioning promises: signed, its partitions inside the disk, past sector 0 and apart, at most one active. */
  ghost predicate Good(s: seq<Byte>, disk: nat) {
    && |s| == SECTOR && Signed(s)
    && (forall i | 0 <= i < COUNT :: EntryAt(s, i).size > 0 ==> 0 < EntryAt(s, i).start && EntryAt(s, i).start + EntryAt(s, i).size <= disk)
    && (forall i, j | 0 <= i < j < COUNT :: Disjoint(EntryAt(s, i), EntryAt(s, j)))
    && (forall i, j | 0 <= i < j < COUNT :: !(EntryAt(s, i).boot == ACTIVE && EntryAt(s, j).boot == ACTIVE))
  }

  /** What a command makes of each entry. */
  function Changed(s: seq<Byte>, c: Command, j: nat): Partition
    requires |s| == SECTOR && j < COUNT && (c.Create? ==> c.kind <= 0xFF)
  {
    var p := EntryAt(s, j);
    match c
    case Create(index, start, sectors, kind, boot) =>
      if j == index - 1 then Partition(if boot then ACTIVE else 0, kind, start, sectors)
      else if boot then p.(boot := 0) else p
    case Delete(index) => if j == index - 1 then Partition(0, 0, 0, 0) else p
    case SetBoot(index, on) =>
      if j == index - 1 then p.(boot := if on then ACTIVE else 0)
      else if on then p.(boot := 0) else p
  }

  lemma ZeroEntryAt(s: seq<Byte>, i: nat)
    requires |s| == SECTOR && i < COUNT && forall k | Offset(i) <= k < Offset(i) + ENTRY :: s[k] == 0
    ensures EntryAt(s, i) == Partition(0, 0, 0, 0)
  {
    ZeroSlice(s, Offset(i) + 8);
    ZeroSlice(s, Offset(i) + 12);
    hide ReadU32;
  }

  lemma ZeroSlice(s: seq<Byte>, at: nat)
    requires at + 4 <= |s| && s[at] == s[at + 1] == s[at + 2] == s[at + 3] == 0
    ensures ReadU32(s[at..at + 4]) == 0
  {
    assert s[at..at + 4] == [0, 0, 0, 0];
  }

  lemma ZerosAt(s: seq<Byte>, i: nat)
    requires |s| == SECTOR && i < COUNT
    ensures EntryAt(PutEntry(s, i, Zeros(ENTRY)), i) == Partition(0, 0, 0, 0)
  {
    var r := PutEntry(s, i, Zeros(ENTRY));
    assert forall k | Offset(i) <= k < Offset(i) + ENTRY :: r[k] == 0;
    hide EntryAt, PutEntry;
    ZeroEntryAt(r, i);
  }

  /** The number that four bytes from a place on spell, the least first. */
  function Spelled(s: seq<Byte>, at: nat): nat
    requires at + 4 <= |s|
  {
    s[at] as nat + s[at + 1] as nat * 0x100 + s[at + 2] as nat * 0x1_0000 + s[at + 3] as nat * 0x100_0000
  }

  /** Where the parts of an entry lie in a sector, as boot records have them. */
  lemma EntryLies(s: seq<Byte>, i: nat)
    requires |s| == 512 && i < 4
    ensures var o := 446 + 16 * i;
            EntryAt(s, i) == Partition(s[o], s[o + 4], Spelled(s, o + 8), Spelled(s, o + 12))
    ensures Signed(s) <==> s[510] == 0x55 && s[511] == 0xAA
  {
  }

  /** Main result: a command's bytes decode, entry by entry, to what it is for. */
  lemma PerformMeans(s: seq<Byte>, c: Command, disk: nat, j: nat)
    requires |s| == SECTOR && InRange(c, disk) && j < COUNT
    ensures EntryAt(Perform(s, c), j) == Changed(s, c, j) && Signed(Perform(s, c))
  {
    hide EntryAt, PutEntry, Sign, Signed, EntryBytes, Offset;
    var i := c.index - 1;
    match c
    case Create(index, start, sectors, kind, boot) =>
      var t := if boot then ClearBoots(s, COUNT, -1) else s;
      var p := Partition(if boot then ACTIVE else 0, kind, start, sectors);
      ClearedAt(s, COUNT, -1, j);
      PutEntryAt(t, i, p, j);
      SignEntry(PutEntry(t, i, EntryBytes(p)), j);
    case Delete(index) =>
      PutOther(s, i, Zeros(ENTRY), j);
      ZerosAt(s, i);
      SignEntry(PutEntry(s, i, Zeros(ENTRY)), j);
    case SetBoot(index, on) =>
      var t := if on then ClearBoots(s, COUNT, i) else s;
      ClearedAt(s, COUNT, i, j);
      BootByte(t, i, if on then ACTIVE else 0, j);
      OffsetInside(i);
      SignEntry(t[Offset(i) := if on then ACTIVE else 0], j);
  }

  lemma OffsetInside(i: nat)
    requires i < COUNT
    ensures Offset(i) < SECTOR
  {
  }

  /** Main result: create accepts a request in range exactly when it is disjoint from every other partition. */
  lemma CreateAcceptsIff(s: seq<Byte>, c: Command, disk: nat)
    requires |s| == SECTOR && c.Create? && InRange(c, disk)
    ensures Accepts(s, c, disk) <==>
            forall i | 0 <= i < COUNT && i != c.index - 1 :: Disjoint(Partition(0, 0, c.start, c.sectors), EntryAt(s, i))
  {
    hide EntryAt;
    forall i | 0 <= i < COUNT
      ensures var p := EntryAt(s, i);
              Disjoint(Partition(0, 0, c.start, c.sectors), p) <==>
              p.size == 0 || c.start + c.sectors <= p.start || c.start >= p.start + p.size
    {
      DisjointIff(Partition(0, 0, c.start, c.sectors), EntryAt(s, i));
    }
    hide Disjoint;
  }

  lemma SameExtentDisjoint(p: Partition, q: Partition, r: Partition, t: Partition)
    requires Disjoint(p, q) && (r.size == 0 || (r.start, r.size) == (p.start, p.size)) && (t.size == 0 || (t.start, t.size) == (q.start, q.size))
    ensures Disjoint(r, t)
  {
    DisjointIff(p, q);
    DisjointIff(r, t);
    hide Disjoint;
  }

  lemma NewDisjoint(p: Partition, r: Partition, t: Partition, q: Partition)
    requires Disjoint(p, q) && (r.start, r.size) == (p.start, p.size) && (t.start, t.size) == (q.start, q.size)
    ensures Disjoint(r, t) && Disjoint(t, r)
  {
    DisjointIff(p, q);
    DisjointIff(r, t);
    DisjointIff(t, r);
    hide Disjoint;
  }

  lemma ChangedDisjoint(s: seq<Byte>, c: Command, disk: nat, i: nat, j: nat)
    requires Good(s, disk) && Accepts(s, c, disk) && i < j < COUNT
    ensures Disjoint(Changed(s, c, i), Changed(s, c, j))
  {
    hide EntryAt, Signed;
    var p, q := EntryAt(s, i), EntryAt(s, j);
    assert Disjoint(p, q);
    if c.Create? && (i == c.index - 1 || j == c.index - 1) {
      CreateAcceptsIff(s, c, disk);
      var n := Partition(0, 0, c.start, c.sectors);
      if i == c.index - 1 {
        NewDisjoint(n, Changed(s, c, i), Changed(s, c, j), q);
      } else {
        NewDisjoint(n, Changed(s, c, j), Changed(s, c, i), p);
      }
    } else {
      SameExtentDisjoint(p, q, Changed(s, c, i), Changed(s, c, j));
    }
  }

  /** Main result: every command keeps a good table good. */
  lemma CommandKeepsGood(s: seq<Byte>, c: Command, disk: nat)
    requires Good(s, disk)
    ensures Good(After(s, c, disk), disk)
  {
    hide EntryAt, Perform, Signed, Changed, Disjoint, NoOverlap;
    if Accepts(s, c, disk) {
      var r := Perform(s, c);
      PerformMeans(s, c, disk, 0);
      forall i | 0 <= i < COUNT
        ensures EntryAt(r, i).size > 0 ==> 0 < EntryAt(r, i).start && EntryAt(r, i).start + EntryAt(r, i).size <= disk
      {
        PerformMeans(s, c, disk, i);
        ChangedInside(s, c, disk, i);
      }
      forall i, j | 0 <= i < j < COUNT
        ensures Disjoint(EntryAt(r, i), EntryAt(r, j)) && !(EntryAt(r, i).boot == ACTIVE && EntryAt(r, j).boot == ACTIVE)
      {
        PerformMeans(s, c, disk, i);
        PerformMeans(s, c, disk, j);
        ChangedDisjoint(s, c, disk, i, j);
        ChangedActive(s, c, disk, i, j);
      }
    }
  }

  lemma ChangedInside(s: seq<Byte>, c: Command, disk: nat, i: nat)
    requires Good(s, disk) && InRange(c, disk) && i < COUNT
    ensures var p := Changed(s, c, i); p.size > 0 ==> 0 < p.start && p.start + p.size <= disk
  {
    hide EntryAt, Signed, Disjoint;
  }

  lemma ChangedActive(s: seq<Byte>, c: Command, disk: nat, i: nat, j: nat)
    requires Good(s, disk) && InRange(c, disk) && i < j < COUNT
    ensures !(Changed(s, c, i).boot == ACTIVE && Changed(s, c, j).boot == ACTIVE)
  {
    hide EntryAt, Signed, Disjoint;
    assert !(EntryAt(s, i).boot == ACTIVE && EntryAt(s, j).boot == ACTIVE);
  }

  function Run(s: seq<Byte>, cs: seq<Command>, disk: nat): (r: seq<Byte>)
    requires |s| == SECTOR
    ensures |r| == SECTOR
    decreases |cs|
  {
    if cs == [] then s else Run(After(s, cs[0], disk), cs[1..], disk)
  }

  lemma {:induction false} RunKeepsGood(s: seq<Byte>, cs: seq<Command>, disk: nat)
    requires Good(s, disk)
    ensures Good(Run(s, cs, disk), disk)
    decreases |cs|
  {
    if cs != [] {
      CommandKeepsGood(s, cs[0], disk);
      RunKeepsGood(After(s, cs[0], disk), cs[1..], disk);
      hide Good, After;
    }
  }

  lemma BlankGood(disk: nat)
    ensures Good(Blank(), disk)
  {
    var z := Zeros(SECTOR);
    hide EntryAt;
    forall i | 0 <= i < COUNT
      ensures EntryAt(Blank(), i) == Partition(0, 0, 0, 0)
    {
      ZeroEntryAt(z, i);
      SignEntry(z, i);
    }
    SignEntry(z, 0);
    hide Signed, Blank;
  }

  /** Main result: so does every run of commands after initialising. */
  lemma RunFromBlank(cs: seq<Command>, disk: nat)
    ensures Good(Run(Blank(), cs, disk), disk)
  {
    BlankGood(disk);
    hide Good, Run, Blank;
    RunKeepsGood(Blank(), cs, disk);
  }

  /** Deleting undoes creating in an empty slot: every entry decodes as before, boot flags apart. */
  lemma DeleteUndoesCreate(s: seq<Byte>, c: Command, disk: nat, j: nat)
    requires |s| == SECTOR && c.Create? && InRange(c, disk) && j < COUNT
    requires EntryAt(s, c.index - 1) == Partition(0, 0, 0, 0)
    ensures var p := EntryAt(Perform(Perform(s, c), Delete(c.index)), j);
            p == if c.boot then EntryAt(s, j).(boot := 0) else EntryAt(s, j)
  {
    hide EntryAt, Perform;
    PerformMeans(s, c, disk, j);
    PerformMeans(Perform(s, c), Delete(c.index), disk, j);
  }
}
