/** Byte-granular I/O in block.c: `bdrv_pread` and `bdrv_pwritev` on a device that transfers sectors of 512 bytes. */
module ByteIo {
  import opened Bytes

  const SECTOR: nat := 512

  /** What becomes of one transfer; a write that fails may have got some of its bytes onto the disk. */
  datatype Outcome = Done | Failed(errno: int, written: nat)

  const EIO: int := 5

  /** buf is n bytes of d from offset on. */
  ghost predicate Reads(d: seq<Byte>, offset: nat, n: nat, buf: seq<Byte>) {
    offset + n <= |d| && buf == d[offset..offset + n]
  }

  /** d' is d with `bytes` at offset. */
  ghost predicate IsPatch(d: seq<Byte>, d': seq<Byte>, offset: nat, bytes: seq<Byte>) {
    && |d'| == |d| && offset + |bytes| <= |d|
    && forall i :: 0 <= i < |d| ==> d'[i] == if offset <= i < offset + |bytes| then bytes[i - offset] else d[i]
  }

  /** d' is d with some of `bytes` at offset. */
  ghost predicate IsPart(d: seq<Byte>, d': seq<Byte>, offset: nat, bytes: seq<Byte>) {
    && |d'| == |d|
    && forall i :: 0 <= i < |d| ==> d'[i] == d[i] || (offset <= i < offset + |bytes| && d'[i] == bytes[i - offset])
  }

  lemma PatchThenPatch(d: seq<Byte>, d1: seq<Byte>, d2: seq<Byte>, offset: nat, a: seq<Byte>, b: seq<Byte>)
    requires IsPatch(d, d1, offset, a) && IsPatch(d1, d2, offset + |a|, b)
    ensures IsPatch(d, d2, offset, a + b)
  {
  }

  lemma PatchThenPart(d: seq<Byte>, d1: seq<Byte>, d2: seq<Byte>, offset: nat, a: seq<Byte>, b: seq<Byte>,
                      rest: seq<Byte>)
    requires IsPatch(d, d1, offset, a) && IsPart(d1, d2, offset + |a|, b)
    ensures IsPart(d, d2, offset, a + b + rest)
  {
    var all := a + b + rest;
    forall i | 0 <= i < |d|
      ensures d2[i] == d[i] || (offset <= i < offset + |all| && d2[i] == all[i - offset])
    {
      assert d1[i] == if offset <= i < offset + |a| then a[i - offset] else d[i];
    }
  }

  /** The first `len` bytes, if any, and then the rest or some of it */
  lemma Compose(d: seq<Byte>, d1: seq<Byte>, d2: seq<Byte>, offset: nat, bytes: seq<Byte>, len: nat, done: bool)
    requires len <= |bytes| && (if len > 0 then IsPatch(d, d1, offset, bytes[..len]) else d1 == d)
    requires IsPart(d1, d2, offset + len, bytes[len..])
             && (done ==> IsPatch(d1, d2, offset + len, bytes[len..]) || (bytes[len..] == [] && d2 == d1))
    ensures IsPart(d, d2, offset, bytes) && (done && bytes != [] ==> IsPatch(d, d2, offset, bytes))
  {
    var a, b := bytes[..len], bytes[len..];
    assert bytes == a + b && a + b + [] == bytes;
    if len > 0 {
      PatchThenPart(d, d1, d2, offset, a, b, []);
      if done && b != [] { PatchThenPatch(d, d1, d2, offset, a, b); }
    }
  }

  /** Bytes up to the next sector boundary */
  function HeadLen(offset: nat): (len: nat)
    ensures len < SECTOR && (offset + len) % SECTOR == 0 && (len > 0 ==> offset % SECTOR + len == SECTOR)
    ensures len == 0 ==> offset % SECTOR == 0
  {
    (SECTOR - offset % SECTOR) % SECTOR
  }

  class Device {
    var data: seq<Byte>
    /** What becomes of the transfers to come; those beyond it are done. */
    var outcomes: seq<Outcome>

    ghost predicate Valid()
      reads this
    {
      |data| % SECTOR == 0 && forall i :: 0 <= i < |outcomes| && outcomes[i].Failed? ==> outcomes[i].errno > 0
    }

    /** No transfer will fail. */
    ghost predicate Sound()
      reads this
    {
      forall i :: 0 <= i < |outcomes| ==> outcomes[i] == Done
    }

    constructor (data: seq<Byte>, outcomes: seq<Outcome>)
      requires |data| % SECTOR == 0 && forall i :: 0 <= i < |outcomes| && outcomes[i].Failed? ==> outcomes[i].errno > 0
      ensures Valid() && this.data == data && this.outcomes == outcomes
    {
      this.data, this.outcomes := data, outcomes;
    }

    method NextOutcome() returns (o: Outcome)
      requires Valid()
      modifies this`outcomes
      ensures Valid() && (o.Failed? ==> o.errno > 0) && (old(Sound()) ==> Sound() && o == Done)
    {
      if outcomes == [] {
        return Done;
      }
      o, outcomes := outcomes[0], outcomes[1..];
    }

    /** bdrv_read */
    method ReadSectors(sector: nat, nb: nat) returns (ret: int, buf: seq<Byte>)
      requires Valid()
      modifies this`outcomes
      ensures Valid() && ret <= 0
              && (ret == 0 ==> (sector + nb) * SECTOR <= |data| && buf == data[sector * SECTOR..(sector + nb) * SECTOR])
      ensures old(Sound()) ==> Sound() && (ret == 0 <==> (sector + nb) * SECTOR <= |data|)
    {
      var o := NextOutcome();
      if (sector + nb) * SECTOR > |data| {
        return -EIO, [];
      }
      if o.Failed? {
        return -o.errno, [];
      }
      return 0, data[sector * SECTOR..(sector + nb) * SECTOR];
    }

    /** bdrv_write and bdrv_writev, for whole sectors */
    method WriteSectors(sector: nat, bytes: seq<Byte>) returns (ret: int)
      requires Valid() && |bytes| % SECTOR == 0
      modifies this
      ensures Valid() && ret <= 0 && (ret == 0 ==> IsPatch(old(data), data, sector * SECTOR, bytes))
      ensures IsPart(old(data), data, sector * SECTOR, bytes)
      ensures old(Sound()) ==> Sound() && (ret == 0 <==> sector * SECTOR + |bytes| <= |data|)
    {
      var o := NextOutcome();
      var at := sector * SECTOR;
      if at + |bytes| > |data| {
        return -EIO;
      }
      var n := if o.Failed? && o.written < |bytes| then o.written else |bytes|;
      data := data[..at] + bytes[..n] + data[at + n..];
      ret := if o.Failed? then -o.errno else 0;
    }

    /** One sector is read, changed in part, and written back. */
    method ChangeSector(sector: nat, within: nat, part: seq<Byte>) returns (ret: int)
      requires Valid() && within + |part| <= SECTOR
      modifies this
      ensures Valid() && ret <= 0 && (ret == 0 ==> IsPatch(old(data), data, sector * SECTOR + within, part))
      ensures IsPart(old(data), data, sector * SECTOR + within, part)
      ensures old(Sound()) ==> Sound() && (ret == 0 <==> (sector + 1) * SECTOR <= |data|)
    {
      var tmp;
      ret, tmp := ReadSectors(sector, 1);
      if ret < 0 {
        return;
      }
      tmp := tmp[..within] + part + tmp[within + |part|..];
      ret := WriteSectors(sector, tmp);
    }

    /** Part of a sector, through a buffer */
    method ReadPart(sector: nat, within: nat, len: nat) returns (ret: int, buf: seq<Byte>)
      requires Valid() && within + len <= SECTOR
      modifies this`outcomes
      ensures Valid() && ret <= 0 && (ret == 0 ==> Reads(data, sector * SECTOR + within, len, buf))
      ensures old(Sound()) ==> Sound() && (ret == 0 <==> (sector + 1) * SECTOR <= |data|)
    {
      ret, buf := ReadSectors(sector, 1);
      if ret == 0 {
        buf := buf[within..within + len];
      }
    }

    /** The rest of bdrv_pread, from a sector boundary on */
    method PreadAligned(sector: nat, count: nat) returns (ret: int, buf: seq<Byte>)
      requires Valid()
      modifies this`outcomes
      ensures Valid() && ret <= 0 && (ret == 0 && count > 0 ==> Reads(data, sector * SECTOR, count, buf))
              && (count == 0 ==> buf == [])
      ensures old(Sound()) ==> Sound() && (ret == 0 <==> count == 0 || sector * SECTOR + count <= |data|)
    {
      var nb := count / SECTOR;
      ret, buf := 0, [];
      if nb > 0 {
        ret, buf := ReadSectors(sector, nb);
        if ret < 0 {
          return;
        }
      }
      if count > nb * SECTOR {
        var last;
        ret, last := ReadPart(sector + nb, 0, count - nb * SECTOR);
        buf := buf + last;
      }
    }

    /** bdrv_pread: exactly the addressed bytes, or an error; without failing transfers, an error only beyond the end */
    method Pread(offset: nat, count1: nat) returns (ret: int, buf: seq<Byte>)
      requires Valid()
      modifies this`outcomes
      ensures Valid() && (ret < 0 || ret == count1)
      ensures ret == count1 > 0 ==> Reads(data, offset, count1, buf)
      ensures old(Sound()) ==> Sound() && (ret == count1 <==> count1 == 0 || offset + count1 <= |data|)
    {
      var len, sector := HeadLen(offset), offset / SECTOR;
      buf := [];
      if len > count1 {
        len := count1;
      }
      if len > 0 {
        ret, buf := ReadPart(sector, offset % SECTOR, len);
        if ret < 0 {
          return;
        }
        if len == count1 {
          return count1, buf;
        }
        sector := sector + 1;
      }
      var rest;
      ret, rest := PreadAligned(sector, count1 - len);
      if ret < 0 {
        return;
      }
      return count1, buf + rest;
    }

    /** bdrv_pwritev: on success exactly the addressed bytes change; on error none but those, and each to its new
        value or not at all. */
    method Pwritev(offset: nat, bytes: seq<Byte>) returns (ret: int)
      requires Valid()
      modifies this
      ensures Valid() && (ret < 0 || ret == |bytes|) && IsPart(old(data), data, offset, bytes)
      ensures ret == |bytes| > 0 ==> IsPatch(old(data), data, offset, bytes)
      ensures bytes == [] ==> data == old(data)
      ensures old(Sound()) ==> Sound() && (ret == |bytes| <==> bytes == [] || offset + |bytes| <= |data|)
    {
      var count, len, sector := |bytes|, HeadLen(offset), offset / SECTOR;
      if len > count {
        len := count;
      }
      if len > 0 {
        var r := ChangeSector(sector, offset % SECTOR, bytes[..len]);
        if r < 0 {
          return r;
        }
        count := count - len;
        if count == 0 {
          assert bytes[..len] == bytes;
          return |bytes|;
        }
        sector := sector + 1;
      }
      ghost var d := data;
      ret := PwriteAligned(sector, bytes[len..]);
      Compose(old(data), d, data, offset, bytes, len, ret == 0);
      if ret == 0 {
        ret := |bytes|;
      }
    }

    /** The rest of it, from a sector boundary on */
    method PwriteAligned(sector0: nat, bytes: seq<Byte>) returns (ret: int)
      requires Valid()
      modifies this
      ensures Valid() && (ret < 0 || ret == 0) && IsPart(old(data), data, sector0 * SECTOR, bytes)
      ensures ret == 0 && bytes != [] ==> IsPatch(old(data), data, sector0 * SECTOR, bytes)
      ensures bytes == [] ==> data == old(data)
      ensures old(Sound()) ==> Sound() && (ret == 0 <==> bytes == [] || sector0 * SECTOR + |bytes| <= |data|)
    {
      var sector, nb := sector0, |bytes| / SECTOR;
      ret := 0;
      if nb > 0 {
        ret := WriteSectors(sector, bytes[..nb * SECTOR]);
        if ret < 0 {
          return;
        }
        sector := sector + nb;
      }
      ghost var d := data;
      if |bytes| > nb * SECTOR {
        ret := ChangeSector(sector, 0, bytes[nb * SECTOR..]);
      }
      Compose(old(data), d, data, sector0 * SECTOR, bytes, nb * SECTOR, ret == 0);
    }
  }

  /** What has been written is what is read back, for every offset and length. */
  method WriteThenRead(d: Device, offset: nat, bytes: seq<Byte>) returns (ok: bool, buf: seq<Byte>)
    requires d.Valid()
    modifies d
    ensures d.Valid() && (ok && bytes != [] ==> buf == bytes)
    ensures old(d.Sound()) && offset + |bytes| <= |d.data| ==> ok
  {
    var w := d.Pwritev(offset, bytes);
    var r;
    r, buf := d.Pread(offset, |bytes|);
    ok := w == |bytes| == r;
  }
}
