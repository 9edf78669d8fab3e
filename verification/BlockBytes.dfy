/** Byte-granular access emulated on a device that transfers whole sectors. */
module BlockBytes {
  import opened Bytes

  const SECTOR_SIZE: nat := 512

  /** Byte i of the device. */
  function ByteAt(disk: seq<Sector>, i: nat): Byte
    requires i < SECTOR_SIZE * |disk|
  {
    disk[i / SECTOR_SIZE][i % SECTOR_SIZE]
  }

  /** Bytes up to the next sector boundary, at most count. */
  function HeadLen(offset: nat, count: nat): (len: nat)
    ensures len <= count && offset % SECTOR_SIZE + len <= SECTOR_SIZE
    ensures len == count || (offset + len) % SECTOR_SIZE == 0
  {
    var len := (SECTOR_SIZE - offset % SECTOR_SIZE) % SECTOR_SIZE;
    if len > count then count else len
  }

  lemma {:induction false} SectorOfByte(sector: nat, k: nat)
    requires k < SECTOR_SIZE
    ensures (SECTOR_SIZE * sector + k) / SECTOR_SIZE == sector && (SECTOR_SIZE * sector + k) % SECTOR_SIZE == k
  {
  }

  /** The device as the driver sees it. */
  class BlockDriverState {
    var disk: seq<Sector>

    constructor (disk: seq<Sector>)
      ensures this.disk == disk
    {
      this.disk := disk;
    }

    method Read(sector: nat, n: nat) returns (buf: seq<Byte>)
      requires sector + n <= |disk|
      ensures |buf| == SECTOR_SIZE * n
      ensures forall i :: 0 <= i < |buf| ==> buf[i] == ByteAt(disk, SECTOR_SIZE * sector + i)
    {
      buf := [];
      for k := 0 to n
        invariant |buf| == SECTOR_SIZE * k
        invariant forall i :: 0 <= i < |buf| ==> buf[i] == ByteAt(disk, SECTOR_SIZE * sector + i)
      {
        var c := sector + k;
        forall i | 0 <= i < SECTOR_SIZE ensures disk[c][i] == ByteAt(disk, SECTOR_SIZE * c + i) { SectorOfByte(c, i); }
        buf := buf + disk[c];
      }
    }

    method Write(sector: nat, buf: seq<Byte>)
      requires |buf| % SECTOR_SIZE == 0 && SECTOR_SIZE * sector + |buf| <= SECTOR_SIZE * |disk|
      modifies this
      ensures |disk| == |old(disk)| && Changed(old(disk), disk, SECTOR_SIZE * sector, buf)
    {
      ghost var was := disk;
      var n := |buf| / SECTOR_SIZE;
      for k := 0 to n
        invariant |disk| == |was| && SECTOR_SIZE * k <= |buf|
        invariant Changed(was, disk, SECTOR_SIZE * sector, buf[..SECTOR_SIZE * k])
      {
        ghost var d := disk;
        disk := disk[sector + k := buf[SECTOR_SIZE * k..SECTOR_SIZE * k + SECTOR_SIZE]];
        WroteSector(was, d, disk, sector, k, buf);
      }
      assert buf[..SECTOR_SIZE * n] == buf;
    }
  }

  /** disk' is disk with buf written at byte offset and nothing else changed. */
  ghost predicate Changed(disk: seq<Sector>, disk': seq<Sector>, offset: nat, buf: seq<Byte>)
  {
    && |disk'| == |disk| && offset + |buf| <= SECTOR_SIZE * |disk|
    && forall i: nat :: i < SECTOR_SIZE * |disk| ==> ByteAt(disk', i) == if offset <= i < offset + |buf| then buf[i - offset] else ByteAt(disk, i)
  }

  lemma {:induction false} WroteSector(was: seq<Sector>, d: seq<Sector>, d': seq<Sector>, sector: nat, k: nat, buf: seq<Byte>)
    requires SECTOR_SIZE * k + SECTOR_SIZE <= |buf| && SECTOR_SIZE * sector + |buf| <= SECTOR_SIZE * |was|
    requires Changed(was, d, SECTOR_SIZE * sector, buf[..SECTOR_SIZE * k]) && sector + k < |d|
    requires d' == d[sector + k := buf[SECTOR_SIZE * k..SECTOR_SIZE * k + SECTOR_SIZE]]
    ensures Changed(was, d', SECTOR_SIZE * sector, buf[..SECTOR_SIZE * (k + 1)])
  {
    forall i: nat | i < SECTOR_SIZE * |was|
      ensures ByteAt(d', i) == if SECTOR_SIZE * sector <= i < SECTOR_SIZE * sector + SECTOR_SIZE * (k + 1) then buf[i - SECTOR_SIZE * sector] else ByteAt(was, i)
    {
      SectorOfByte(i / SECTOR_SIZE, i % SECTOR_SIZE);
      assert ByteAt(d, i) == if SECTOR_SIZE * sector <= i < SECTOR_SIZE * sector + SECTOR_SIZE * k then buf[..SECTOR_SIZE * k][i - SECTOR_SIZE * sector] else ByteAt(was, i);
    }
  }

  lemma {:induction false} ChangedThen(a: seq<Sector>, b: seq<Sector>, c: seq<Sector>, offset: nat, p: seq<Byte>, q: seq<Byte>)
    requires Changed(a, b, offset, p) && Changed(b, c, offset + |p|, q)
    ensures Changed(a, c, offset, p + q)
  {
    forall i: nat | i < SECTOR_SIZE * |a| ensures ByteAt(c, i) == if offset <= i < offset + |p + q| then (p + q)[i - offset] else ByteAt(a, i) {
      assert ByteAt(b, i) == if offset <= i < offset + |p| then p[i - offset] else ByteAt(a, i);
    }
  }

  // ---------------------------------------------------------------- reads

  /** buf holds the bytes from offset on. */
  ghost predicate Fetched(disk: seq<Sector>, offset: nat, buf: seq<Byte>)
  {
    offset + |buf| <= SECTOR_SIZE * |disk| && forall i :: 0 <= i < |buf| ==> buf[i] == ByteAt(disk, offset + i)
  }

  lemma {:induction false} FetchedThen(disk: seq<Sector>, offset: nat, p: seq<Byte>, q: seq<Byte>)
    requires Fetched(disk, offset, p) && Fetched(disk, offset + |p|, q)
    ensures Fetched(disk, offset, p + q)
  {
    hide ByteAt;
    forall i | 0 <= i < |p + q| ensures (p + q)[i] == ByteAt(disk, offset + i) {
      if i >= |p| { assert q[i - |p|] == ByteAt(disk, offset + |p| + (i - |p|)); }
    }
  }

  lemma {:induction false} FetchedPart(disk: seq<Sector>, offset: nat, p: seq<Byte>, at: nat, len: nat)
    requires Fetched(disk, offset, p) && at + len <= |p|
    ensures Fetched(disk, offset + at, p[at..at + len])
  {
    hide ByteAt;
    var q, o := p[at..at + len], offset + at;
    forall i | 0 <= i < |q| ensures q[i] == ByteAt(disk, o + i) { assert p[at + i] == ByteAt(disk, offset + (at + i)); }
  }

  /** Any byte range, by reading the sectors it touches. */
  method PreadEm(bs: BlockDriverState, offset: nat, count: nat) returns (buf: seq<Byte>)
    requires offset + count <= SECTOR_SIZE * |bs.disk|
    ensures |buf| == count && forall i :: 0 <= i < count ==> buf[i] == bs.disk[(offset + i) / 512][(offset + i) % 512]
  {
    buf := PreadBytes(bs, offset, count);
    forall i | 0 <= i < count ensures buf[i] == bs.disk[(offset + i) / 512][(offset + i) % 512] { assert buf[i] == ByteAt(bs.disk, offset + i); }
  }

  method PreadBytes(bs: BlockDriverState, offset: nat, count: nat) returns (buf: seq<Byte>)
    requires offset + count <= SECTOR_SIZE * |bs.disk|
    ensures |buf| == count && Fetched(bs.disk, offset, buf)
  {
    hide ByteAt;
    buf := [];
    var len := HeadLen(offset, count);
    var sector := offset / SECTOR_SIZE;
    if len > 0 {
      var at := offset % SECTOR_SIZE;
      var tmp := bs.Read(sector, 1);
      FetchedPart(bs.disk, SECTOR_SIZE * sector, tmp, at, len);
      buf := tmp[at..at + len];
      if len == count { return; }
      sector := sector + 1;
    }
    buf := ReadRest(bs, offset, count, buf, sector);
  }

  /** The part of a read that starts on a sector boundary. */
  method ReadRest(bs: BlockDriverState, offset: nat, count1: nat, head: seq<Byte>, sector0: nat) returns (buf: seq<Byte>)
    requires offset + count1 <= SECTOR_SIZE * |bs.disk| && |head| <= count1 && Fetched(bs.disk, offset, head)
    requires |head| < count1 ==> SECTOR_SIZE * sector0 == offset + |head|
    ensures |buf| == count1 && Fetched(bs.disk, offset, buf)
  {
    hide ByteAt;
    var sector, count := sector0, count1 - |head|;
    buf := head;
    var nb := count / SECTOR_SIZE;
    if nb > 0 {
      var tmp := bs.Read(sector, nb);
      FetchedThen(bs.disk, offset, buf, tmp);
      buf := buf + tmp;
      sector := sector + nb;
      count := count - SECTOR_SIZE * nb;
    }
    if count > 0 {
      var tmp := bs.Read(sector, 1);
      FetchedPart(bs.disk, SECTOR_SIZE * sector, tmp, 0, count);
      FetchedThen(bs.disk, offset, buf, tmp[0..count]);
      buf := buf + tmp[..count];
    }
  }

  // ---------------------------------------------------------------- writes

  /** Replaces part of one sector: read, change, write back. */
  method Patch(bs: BlockDriverState, sector: nat, at: nat, piece: seq<Byte>)
    requires sector < |bs.disk| && at + |piece| <= SECTOR_SIZE
    modifies bs
    ensures Changed(old(bs.disk), bs.disk, SECTOR_SIZE * sector + at, piece)
  {
    ghost var was := bs.disk;
    var tmp := bs.Read(sector, 1);
    tmp := tmp[..at] + piece + tmp[at + |piece|..];
    bs.Write(sector, tmp);
    Patched(was, bs.disk, sector, at, piece, tmp);
  }

  lemma {:induction false} Patched(was: seq<Sector>, d: seq<Sector>, sector: nat, at: nat, piece: seq<Byte>, tmp: seq<Byte>)
    requires sector < |was| && at + |piece| <= SECTOR_SIZE && |tmp| == SECTOR_SIZE
    requires Changed(was, d, SECTOR_SIZE * sector, tmp)
    requires forall i :: 0 <= i < SECTOR_SIZE ==> tmp[i] == if at <= i < at + |piece| then piece[i - at] else ByteAt(was, SECTOR_SIZE * sector + i)
    ensures Changed(was, d, SECTOR_SIZE * sector + at, piece)
  {
    var o := SECTOR_SIZE * sector + at;
    forall i: nat | i < SECTOR_SIZE * |was| ensures ByteAt(d, i) == if o <= i < o + |piece| then piece[i - o] else ByteAt(was, i) {
      var k := i - SECTOR_SIZE * sector;
      if 0 <= k < SECTOR_SIZE { assert tmp[k] == if at <= k < at + |piece| then piece[k - at] else ByteAt(was, SECTOR_SIZE * sector + k); }
    }
  }

  /** Any byte range is changed to buf, and no other byte. */
  method PwriteEm(bs: BlockDriverState, offset: nat, buf: seq<Byte>)
    requires offset + |buf| <= SECTOR_SIZE * |bs.disk|
    modifies bs
    ensures |bs.disk| == |old(bs.disk)|
    ensures forall i: nat :: i < 512 * |bs.disk| ==> bs.disk[i / 512][i % 512] == if offset <= i < offset + |buf| then buf[i - offset] else old(bs.disk)[i / 512][i % 512]
  {
    PwriteBytes(bs, offset, buf);
    forall i: nat | i < 512 * |bs.disk| ensures bs.disk[i / 512][i % 512] == if offset <= i < offset + |buf| then buf[i - offset] else old(bs.disk)[i / 512][i % 512] {
      assert ByteAt(bs.disk, i) == if offset <= i < offset + |buf| then buf[i - offset] else ByteAt(old(bs.disk), i);
    }
  }

  method PwriteBytes(bs: BlockDriverState, offset: nat, buf: seq<Byte>)
    requires offset + |buf| <= SECTOR_SIZE * |bs.disk|
    modifies bs
    ensures Changed(old(bs.disk), bs.disk, offset, buf)
  {
    hide ByteAt, Changed;
    ghost var was := bs.disk;
    ChangedNothing(was, offset);
    var done := HeadLen(offset, |buf|);
    var sector := offset / SECTOR_SIZE;
    if done > 0 {
      Patch(bs, sector, offset % SECTOR_SIZE, buf[..done]);
      ChangedThen(was, was, bs.disk, offset, [], buf[..done]);
      assert [] + buf[..done] == buf[..done];
      if done == |buf| { assert buf[..done] == buf; return; }
      sector := sector + 1;
    }
    assert done < |buf| ==> SECTOR_SIZE * sector == offset + done;
    assert done == 0 ==> buf[..0] == [];
    WriteRest(bs, was, offset, buf, done, sector);
  }

  lemma {:induction false} ChangedNothing(d: seq<Sector>, offset: nat)
    requires offset <= SECTOR_SIZE * |d|
    ensures Changed(d, d, offset, [])
  {
  }

  /** The part of a write that starts on a sector boundary. */
  method WriteRest(bs: BlockDriverState, ghost was: seq<Sector>, offset: nat, buf: seq<Byte>, done: nat, sector0: nat)
    requires done <= |buf| && offset + |buf| <= SECTOR_SIZE * |bs.disk| && (done < |buf| ==> SECTOR_SIZE * sector0 == offset + done)
    requires Changed(was, bs.disk, offset, buf[..done])
    modifies bs
    ensures Changed(was, bs.disk, offset, buf)
  {
    hide ByteAt;
    var sector, count, at := sector0, |buf| - done, done;
    var nb := count / SECTOR_SIZE;
    if nb > 0 {
      var piece := buf[at..at + SECTOR_SIZE * nb];
      ghost var b := bs.disk;
      bs.Write(sector, piece);
      ChangedThen(was, b, bs.disk, offset, buf[..at], piece);
      at := at + SECTOR_SIZE * nb;
      assert buf[..done] + piece == buf[..at];
      sector := sector + nb;
      count := count - SECTOR_SIZE * nb;
    }
    if count > 0 {
      ghost var b := bs.disk;
      Patch(bs, sector, 0, buf[at..]);
      ChangedThen(was, b, bs.disk, offset, buf[..at], buf[at..]);
      assert buf[..at] + buf[at..] == buf;
    } else {
      assert buf[..at] == buf;
    }
  }
}
