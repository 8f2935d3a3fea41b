/** The partition commands as the program runs them: sector 0 read into a buffer, edited in place, written back. */
module PartitionEditor {
  import opened Sha256
  import opened Partitions
  import RawWrite

  method ReadU32At(sector: array<Byte>, at: nat) returns (v: nat)
    requires at + 4 <= sector.Length
    ensures v == ReadU32(sector[at..at + 4])
  {
    v := FromBytes(sector[at], sector[at + 1], sector[at + 2], sector[at + 3]);
  }

  method WriteU32At(sector: array<Byte>, at: nat, v: nat)
    requires at + 4 <= sector.Length
    modifies sector
    ensures sector[..] == Put(old(sector[..]), at, WriteU32(v))
  {
    ghost var was := sector[..];
    sector[at] := v % 0x100;
    sector[at + 1] := v / 0x100 % 0x100;
    sector[at + 2] := v / 0x1_0000 % 0x100;
    sector[at + 3] := v / 0x100_0000 % 0x100;
    assert sector[..at] == was[..at] && sector[at + 4..] == was[at + 4..];
    assert sector[at..at + 4] == WriteU32(v);
    ThreeParts(sector[..], at, at + 4);
    assert sector[..][..at] == sector[..at] && sector[..][at..at + 4] == sector[at..at + 4] && sector[..][at + 4..] == sector[at + 4..];
    hide WriteU32;
  }

  lemma ThreeParts(s: seq<Byte>, a: nat, b: nat)
    requires a <= b <= |s|
    ensures s == s[..a] + s[a..b] + s[b..]
  {
  }

  method EnsureSignature(sector: array<Byte>)
    requires sector.Length == SECTOR
    modifies sector
    ensures sector[..] == Sign(old(sector[..]))
  {
    sector[SIGNATURE] := 0x55;
    sector[SIGNATURE + 1] := 0xAA;
  }

  method ZeroEntry(sector: array<Byte>, i: nat)
    requires sector.Length == SECTOR && i < COUNT
    modifies sector
    ensures sector[..] == PutEntry(old(sector[..]), i, Zeros(ENTRY))
  {
    ghost var was, o := sector[..], Offset(i);
    for k := 0 to ENTRY
      invariant forall j | o <= j < o + k :: sector[j] == 0
      invariant forall j | 0 <= j < SECTOR && !(o <= j < o + k) :: sector[j] == was[j]
    {
      sector[Offset(i) + k] := 0;
    }
    assert sector[..] == PutEntry(was, i, Zeros(ENTRY));
  }

  /** The boot flags cleared; when one entry is exempt its flag stays. */
  method ClearFlags(sector: array<Byte>, but: int)
    requires sector.Length == SECTOR
    modifies sector
    ensures sector[..] == ClearBoots(old(sector[..]), COUNT, but)
  {
    ghost var was := sector[..];
    for i := 0 to COUNT
      invariant sector[..] == ClearBoots(was, i, but)
    {
      if i != but {
        ghost var now := sector[..];
        sector[Offset(i)] := 0;
        assert sector[..] == now[Offset(i) := 0];
      }
    }
  }

  method CheckOverlap(sector: array<Byte>, skip: nat, start: nat, sectors: nat) returns (ok: bool)
    requires sector.Length == SECTOR
    ensures ok <==> NoOverlap(sector[..], skip, start, sectors)
  {
    ghost var s := sector[..];
    for i := 0 to COUNT
      invariant forall j | 0 <= j < i && j != skip ::
                  var p := EntryAt(s, j); p.size == 0 || start + sectors <= p.start || start >= p.start + p.size
    {
      if i != skip {
        var o := Offset(i);
        assert s[o + 8..o + 12] == sector[o + 8..o + 12] && s[o + 12..o + 16] == sector[o + 12..o + 16];
        var exStart := ReadU32At(sector, o + 8);
        var exSize := ReadU32At(sector, o + 12);
        assert exStart == EntryAt(s, i).start && exSize == EntryAt(s, i).size;
        if exSize != 0 && !(start + sectors <= exStart || start >= exStart + exSize) {
          return false;
        }
      }
    }
    return true;
  }

  /** The first eight bytes of an entry. */
  method PutHead(sector: array<Byte>, o: nat, boot: Byte, kind: Byte)
    requires o + 8 <= sector.Length
    modifies sector
    ensures sector[..] == Put(old(sector[..]), o, [boot, 0xFF, 0xFF, 0xFF, kind, 0xFF, 0xFF, 0xFF])
  {
    ghost var was := sector[..];
    sector[o], sector[o + 4] := boot, kind;
    sector[o + 1], sector[o + 2], sector[o + 3] := 0xFF, 0xFF, 0xFF;
    sector[o + 5], sector[o + 6], sector[o + 7] := 0xFF, 0xFF, 0xFF;
    assert sector[..o] == was[..o] && sector[o + 8..] == was[o + 8..];
    assert sector[o..o + 8] == [boot, 0xFF, 0xFF, 0xFF, kind, 0xFF, 0xFF, 0xFF];
    ThreeParts(sector[..], o, o + 8);
    assert sector[..][..o] == sector[..o] && sector[..][o..o + 8] == sector[o..o + 8] && sector[..][o + 8..] == sector[o + 8..];
  }

  lemma HeadKept(was: seq<Byte>, now: seq<Byte>, i: nat, p: Partition)
    requires |was| == SECTOR && i < COUNT
    requires now == Put(PutEntry(was, i, Zeros(ENTRY)), Offset(i), [p.boot, 0xFF, 0xFF, 0xFF, p.kind, 0xFF, 0xFF, 0xFF])
    ensures |now| == SECTOR && now[..Offset(i)] == was[..Offset(i)] && now[Offset(i) + ENTRY..] == was[Offset(i) + ENTRY..]
    ensures now[Offset(i)..Offset(i) + 8] == EntryBytes(p)[..8]
  {
    hide WriteU32;
  }

  /** The entry's sixteen bytes, one field after the other. */
  method PutFields(sector: array<Byte>, i: nat, p: Partition)
    requires sector.Length == SECTOR && i < COUNT
    modifies sector
    ensures sector[..] == PutEntry(old(sector[..]), i, EntryBytes(p))
  {
    hide Put, PutEntry, EntryBytes, WriteU32;
    ghost var was := sector[..];
    var o := Offset(i);
    ZeroEntry(sector, i);
    PutHead(sector, o, p.boot, p.kind);
    ghost var now := sector[..];
    HeadKept(was, now, i, p);
    WriteU32At(sector, o + 8, p.start);
    WriteU32At(sector, o + 12, p.size);
    FieldsAre(was, now, i, p);
  }

  lemma FieldsAre(was: seq<Byte>, now: seq<Byte>, i: nat, p: Partition)
    requires |was| == |now| == SECTOR && i < COUNT
    requires now[..Offset(i)] == was[..Offset(i)] && now[Offset(i) + ENTRY..] == was[Offset(i) + ENTRY..]
    requires now[Offset(i)..Offset(i) + 8] == EntryBytes(p)[..8]
    ensures Put(Put(now, Offset(i) + 8, WriteU32(p.start)), Offset(i) + 12, WriteU32(p.size)) == PutEntry(was, i, EntryBytes(p))
  {
    var o, b, c := Offset(i), WriteU32(p.start), WriteU32(p.size);
    assert EntryBytes(p) == EntryBytes(p)[..8] + b + c;
    hide WriteU32, EntryBytes, Offset;
    PutTwice(now, o, b, c);
  }

  lemma PutTwice(s: seq<Byte>, o: nat, b: seq<Byte>, c: seq<Byte>)
    requires |b| == |c| == 4 && o + 16 <= |s|
    ensures Put(Put(s, o + 8, b), o + 12, c) == s[..o] + (s[o..o + 8] + b + c) + s[o + 16..]
  {
    var t := Put(s, o + 8, b);
    assert t[..o + 12] == s[..o + 8] + b && t[o + 16..] == s[o + 16..];
    assert s[..o + 8] == s[..o] + s[o..o + 8];
  }

  /** Sector 0 becomes an empty signed table. */
  method InitTable(device: RawWrite.Device) returns (ok: bool)
    requires RawWrite.WellFormed(device.sectors)
    modifies device
    ensures RawWrite.WellFormed(device.sectors)
    ensures device.faults >= old(device.faults)
    ensures !ok && device.faults == old(device.faults) ==> device.sectors == []
    ensures ok ==> |old(device.sectors)| > 0 && device.sectors == old(device.sectors)[0 := Blank()]
    ensures !ok ==> device.sectors == old(device.sectors)
  {
    var sector := new Byte[SECTOR](_ => 0);
    assert sector[..] == Zeros(SECTOR);
    EnsureSignature(sector);
    ok := device.WriteSector(0, sector);
  }

  /**
    Main result: a command that succeeds was acceptable and puts what it performs into sector 0; one
    that fails changes nothing, and fails on an acceptable request only when the disk does.
  */
  method Execute(device: RawWrite.Device, c: Command) returns (ok: bool)
    requires RawWrite.WellFormed(device.sectors)
    modifies device
    ensures RawWrite.WellFormed(device.sectors)
    ensures ok ==> var was := old(device.sectors);
                   |was| > 0 && Accepts(was[0], c, |was|) && device.sectors == was[0 := Perform(was[0], c)]
    ensures device.faults >= old(device.faults)
    ensures !ok && device.faults == old(device.faults) ==>
              var was := old(device.sectors); was == [] || !Accepts(was[0], c, |was|)
    ensures !ok ==> device.sectors == old(device.sectors)
  {
    ghost var was := device.sectors;
    if !InRange(c, |device.sectors|) {
      return false;
    }
    var sector := new Byte[SECTOR];
    ok := device.ReadSector(0, sector);
    if !ok {
      return;
    }
    ok := Edit(sector, c, |device.sectors|);
    if ok {
      ok := device.WriteSector(0, sector);
    }
  }

  /** The buffer edited, or refused when a new partition would overlap. */
  method Edit(sector: array<Byte>, c: Command, disk: nat) returns (ok: bool)
    requires sector.Length == SECTOR && InRange(c, disk)
    modifies sector
    ensures ok <==> Accepts(old(sector[..]), c, disk)
    ensures ok ==> sector[..] == Perform(old(sector[..]), c)
  {
    hide NoOverlap, ClearBoots, PutEntry, EntryBytes, Sign;
    match c
    case Create(index, start, sectors, kind, boot) =>
      ok := CheckOverlap(sector, index - 1, start, sectors);
      if !ok {
        return;
      }
      if boot {
        ClearFlags(sector, -1);
      }
      PutFields(sector, index - 1, Partition(if boot then ACTIVE else 0, kind, start, sectors));
      EnsureSignature(sector);
    case Delete(index) =>
      ZeroEntry(sector, index - 1);
      EnsureSignature(sector);
      return true;
    case SetBoot(index, on) =>
      if on {
        ClearFlags(sector, index - 1);
      }
      ghost var now := sector[..];
      var flag: Byte := if on then ACTIVE else 0;
      sector[Offset(index - 1)] := flag;
      assert sector[..] == now[Offset(index - 1) := flag];
      EnsureSignature(sector);
      return true;
  }
}
