/** Writing part of a file over raw disk sectors, through a reader that can only go forwards. */
module RawWrite {
  import opened Sha256

  const SECTOR: nat := 512
  const BUFFER: nat := 4096
  const NOWHERE: nat := WORDS - 1  // the cache start before anything is cached

  type Sectors = seq<seq<Byte>>

  ghost predicate WellFormed(s: Sectors) { forall l | 0 <= l < |s| :: |s[l]| == SECTOR }

  /** A disk of sectors, any access to which may fail; failures are counted. */
  class Device {
    var sectors: Sectors
    ghost var faults: nat

    constructor (sectors: Sectors)
      ensures this.sectors == sectors && faults == 0
    {
      this.sectors, faults := sectors, 0;
    }

    method Granted() returns (yes: bool)
      modifies `faults
      ensures faults == old(faults) + if yes then 0 else 1
    {
      yes := *;
      faults := faults + if yes then 0 else 1;
    }

    method ReadSector(lba: nat, buffer: array<Byte>) returns (ok: bool)
      requires buffer.Length == SECTOR && WellFormed(sectors)
      modifies `faults, buffer
      ensures faults >= old(faults) && (!ok && faults == old(faults) ==> lba >= |sectors|)
      ensures ok ==> lba < |sectors| && buffer[..] == sectors[lba]
    {
      ok := Granted();
      if lba >= |sectors| || !ok {
        return false;
      }
      forall i | 0 <= i < SECTOR {
        buffer[i] := sectors[lba][i];
      }
      return true;
    }

    method WriteSector(lba: nat, buffer: array<Byte>) returns (ok: bool)
      requires buffer.Length == SECTOR && WellFormed(sectors)
      modifies this
      ensures WellFormed(sectors)
      ensures faults >= old(faults) && (!ok && faults == old(faults) ==> lba >= |sectors|)
      ensures ok ==> lba < |old(sectors)| && sectors == old(sectors)[lba := buffer[..]]
      ensures !ok ==> sectors == old(sectors)
    {
      ok := Granted();
      if lba >= |sectors| || !ok {
        return false;
      }
      sectors := sectors[lba := buffer[..]];
    }
  }

  /** An open file: reads give at least a byte, at most what is wanted, and nothing only at the end; or they fail. */
  class Reader {
    const content: seq<Byte>
    var position: nat
    ghost var faults: nat

    constructor (content: seq<Byte>)
      ensures this.content == content && position == 0 && faults == 0
    {
      this.content, position, faults := content, 0, 0;
    }

    method Read(buffer: array<Byte>, want: nat) returns (ok: bool, got: nat)
      requires 0 < want <= buffer.Length && position <= |content|
      modifies this, buffer
      ensures faults == old(faults) + if ok then 0 else 1
      ensures ok ==> got <= want && position == old(position) + got <= |content|
                     && buffer[..got] == content[old(position)..position] && (got == 0 <==> old(position) == |content|)
    {
      ok := *;
      if !ok {
        faults := faults + 1;
        return false, 0;
      }
      if position == |content| {
        return true, 0;
      }
      got :| 1 <= got <= want && position + got <= |content|;
      forall i | 0 <= i < got {
        buffer[i] := content[position + i];
      }
      position := position + got;
      assert buffer[..got] == content[position - got..position];
    }
  }

  datatype Fetched = Fetched(byte: Byte) | ReadFailed | NotSequential

  /** How a write ends: all of it done, a call refused, or a position asked for behind the file's. */
  datatype Outcome = Done | Failed | OutOfOrder

  /** The cached window of a file, refilled as positions pass it. */
  class Window {
    const reader: Reader
    const buffer: array<Byte>
    var filePos: nat
    var cachedStart: nat
    var cachedLen: nat

    ghost predicate Valid()
      reads this, reader, buffer
    {
      && buffer.Length == BUFFER && filePos == reader.position <= |reader.content|
      && if cachedLen == 0 then cachedStart == NOWHERE && filePos == 0
         else cachedLen <= BUFFER && cachedStart + cachedLen == filePos
              && buffer[..cachedLen] == reader.content[cachedStart..filePos]
    }

    /** Everything from p on can still be fetched. */
    predicate CanReach(p: nat)
      reads this
    {
      cachedLen == 0 || cachedStart <= p
    }

    constructor (reader: Reader)
      requires reader.position == 0
      ensures Valid() && this.reader == reader && fresh(buffer) && CanReach(0) && cachedLen == 0
    {
      this.reader, buffer := reader, new Byte[BUFFER];
      filePos, cachedStart, cachedLen := 0, NOWHERE, 0;
    }

    /** Reads up to a position and throws what was read away; the cache is then out of date. */
    method Skip(p: nat) returns (ok: bool)
      requires buffer.Length == BUFFER && filePos == reader.position <= |reader.content| && filePos <= p
      modifies this`filePos, reader, buffer
      ensures ok ==> filePos == p == reader.position <= |reader.content|
      ensures reader.faults >= old(reader.faults)
      ensures !ok && reader.faults == old(reader.faults) ==> p > |reader.content|
    {
      while filePos < p
        invariant filePos == reader.position <= |reader.content| && filePos <= p
        invariant reader.faults >= old(reader.faults)
      {
        var need := p - filePos;
        if need > BUFFER {
          need := BUFFER;
        }
        var read, got := reader.Read(buffer, need);
        if !read || got == 0 {
          return false;
        }
        filePos := filePos + got;
      }
      return true;
    }

    /** The byte at a position; a position behind the file position and outside the cache is refused. */
    method Fetch(p: nat) returns (r: Fetched)
      requires Valid() && CanReach(p) && p < NOWHERE
      modifies this, reader, buffer
      ensures r != NotSequential
      ensures r.Fetched? ==> Valid() && CanReach(p) && p < |reader.content| && r.byte == reader.content[p]
      ensures reader.faults >= old(reader.faults)
      ensures r == ReadFailed && reader.faults == old(reader.faults) ==> p >= |reader.content|
    {
      if p < cachedStart || p >= cachedStart + cachedLen {
        if p < filePos {
          return NotSequential;
        }
        var there := Skip(p);
        if !there {
          return ReadFailed;
        }
        cachedStart := filePos;
        var ok, got := reader.Read(buffer, BUFFER);
        cachedLen := got;
        if !ok || cachedLen == 0 {
          return ReadFailed;
        }
        filePos := filePos + cachedLen;
      }
      assert buffer[..cachedLen][p - cachedStart] == reader.content[cachedStart..filePos][p - cachedStart];
      return Fetched.Fetched(buffer[p - cachedStart]);
    }
  }

  /** What sectors hold once the first written bytes from a sector on are a slice of a file. */
  ghost predicate Patched(was: Sectors, now: Sectors, lba: nat, content: seq<Byte>, offset: nat, written: nat) {
    && |now| == |was| && WellFormed(was) && WellFormed(now)
    && (written > 0 ==> offset + written <= |content| && lba * SECTOR + written <= |was| * SECTOR)
    && forall l, i | 0 <= l < |was| && 0 <= i < SECTOR ::
         now[l][i] == if l >= lba && (l - lba) * SECTOR + i < written then content[offset + (l - lba) * SECTOR + i]
                      else was[l][i]
  }

  /** A sector buffer of which n bytes from a place on are replaced by a slice of a file. */
  ghost predicate Mixed(was: seq<Byte>, now: seq<Byte>, content: seq<Byte>, from: nat, at: nat, n: nat) {
    && |was| == |now| == SECTOR && at + n <= SECTOR && (n > 0 ==> from + n <= |content|)
    && forall i | 0 <= i < SECTOR :: now[i] == if at <= i < at + n then content[from + (i - at)] else was[i]
  }

  lemma PatchNext(was: Sectors, now: Sectors, lba: nat, content: seq<Byte>, offset: nat, written: nat,
                  buffer: seq<Byte>, chunk: nat)
    requires Patched(was, now, lba, content, offset, written) && chunk > 0 && lba + written / SECTOR < |now|
    requires Mixed(now[lba + written / SECTOR], buffer, content, offset + written, written % SECTOR, chunk)
    ensures Patched(was, now[lba + written / SECTOR := buffer], lba, content, offset, written + chunk)
  {
    var k := written / SECTOR;
    var next := now[lba + k := buffer];
    assert written == k * SECTOR + written % SECTOR;
    forall l, i | 0 <= l < |was| && 0 <= i < SECTOR
      ensures next[l][i] == if l >= lba && (l - lba) * SECTOR + i < written + chunk
                            then content[offset + (l - lba) * SECTOR + i] else was[l][i]
    {
    }
  }

  /** The bytes of one sector that come from the file, fetched one after the other. */
  method FillSector(window: Window, sector: array<Byte>, from: nat, at: nat, chunk: nat) returns (r: Outcome)
    requires window.Valid() && window.CanReach(from) && from + chunk <= NOWHERE
    requires sector.Length == SECTOR && chunk > 0 && at + chunk <= SECTOR && sector != window.buffer
    modifies window, window.reader, window.buffer, sector
    ensures r != OutOfOrder
    ensures r == Done ==> window.Valid() && window.CanReach(from + chunk)
                           && Mixed(old(sector[..]), sector[..], window.reader.content, from, at, chunk)
    ensures window.reader.faults >= old(window.reader.faults)
    ensures r != Done && window.reader.faults == old(window.reader.faults) ==> from + chunk > |window.reader.content|
  {
    ghost var was, content := sector[..], window.reader.content;
    for i := 0 to chunk
      invariant window.Valid() && window.CanReach(from + i)
      invariant Mixed(was, sector[..], content, from, at, i) && window.reader.faults >= old(window.reader.faults)
    {
      var fetched := window.Fetch(from + i);
      if !fetched.Fetched? {
        return if fetched == NotSequential then OutOfOrder else Failed;
      }
      sector[at + i] := fetched.byte;
    }
    return Done;
  }

  /**
    Main result: a write that succeeds puts a slice of the file over the sectors' bytes and changes no
    other byte, the tail of the last sector included; one that fails has written whole chunks of it.
    Reading is never found to be out of order, and without failing calls only a file or a disk too short
    makes a write fail.
  */
  method WriteBytes(device: Device, reader: Reader, lba: nat, offset: nat, count: nat) returns (r: Outcome)
    requires reader.position == 0 && offset + count <= NOWHERE && WellFormed(device.sectors)
    modifies device, reader
    ensures r != OutOfOrder
    ensures r == Done ==> Patched(old(device.sectors), device.sectors, lba, reader.content, offset, count)
    ensures device.faults >= old(device.faults) && reader.faults >= old(reader.faults)
    ensures r != Done && device.faults == old(device.faults) && reader.faults == old(reader.faults) ==>
              offset + count > |reader.content| || lba * SECTOR + count > |old(device.sectors)| * SECTOR
    ensures exists written: nat :: written <= count && Patched(old(device.sectors), device.sectors, lba, reader.content, offset, written)
  {
    ghost var was, content := device.sectors, reader.content;
    var window := new Window(reader);
    var sector := new Byte[SECTOR];
    var written: nat := 0;
    assert Patched(was, device.sectors, lba, content, offset, 0);
    hide Patched, Mixed;
    while written < count
      invariant written <= count && Patched(was, device.sectors, lba, content, offset, written)
      invariant WellFormed(device.sectors) && |device.sectors| == |was|
      invariant device.faults >= old(device.faults) && reader.faults >= old(reader.faults)
      invariant fresh(window) && fresh(window.buffer) && fresh(sector) && window.reader == reader && sector != window.buffer
      invariant window.Valid() && window.CanReach(offset + written)
    {
      var sectorLba, at := lba + written / SECTOR, written % SECTOR;
      var chunk := SECTOR - at;
      if chunk > count - written {
        chunk := count - written;
      }
      var read := device.ReadSector(sectorLba, sector);
      if !read {
        return Failed;
      }
      r := FillSector(window, sector, offset + written, at, chunk);
      if r != Done {
        return;
      }
      PatchNext(was, device.sectors, lba, content, offset, written, sector[..], chunk);
      var wrote := device.WriteSector(sectorLba, sector);
      if !wrote {
        return Failed;
      }
      written := written + chunk;
    }
    return Done;
  }
}
