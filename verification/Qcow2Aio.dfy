/** Asynchronous reads and writes: a request advances by callbacks, one host transfer at a time. */
module Qcow2Aio {
  import opened Division
  import opened Bytes
  import opened Qcow2Layout
  import opened Qcow2Counts
  import opened Qcow2Volume
  import opened Qcow2Steps
  import opened Qcow2State
  import opened Qcow2Refcount
  import opened Qcow2Image
  import opened Qcow2Io
  import opened Qcow2Grow
  import opened Qcow2Write

  /** A host transfer under way. */
  datatype Pending =
    | Nothing
    | HostRead(cluster: nat, idx: nat, n: nat)
    | BackingRead(sector: nat, n: nat)
    | HostWrite(cluster: nat, idx: nat, raw: seq<Sector>)

  /** One part of a request: n sectors from sector. */
  datatype Segment = Segment(sector: nat, n: nat)

  class QCowAIOCB {
    var sector: nat
    var buf: seq<Sector>
    var pos: nat // what is left of buf starts here
    var nb: nat
    var n: nat
    var cluster: nat
    var pending: Pending
    var called: seq<int> // arguments the completion callback was called with
    ghost var segments: seq<Segment>
    ghost var before: Vol // the image when the current segment of a write was mapped

    constructor (sector: nat, buf: seq<Sector>)
      ensures this.sector == sector && this.buf == buf && pos == 0 && nb == |buf| && n == 0 && cluster == 0
      ensures pending == Nothing && called == [] && segments == []
    {
      this.sector, this.buf, pos, nb, n, cluster := sector, buf, 0, |buf|, 0, 0;
      pending, called, segments := Nothing, [], [];
      before := Vol(map[], [], 0, [], 0, 0, [], 0);
    }
  }

  /** The segments follow each other from sector on, each inside one cluster, and end at `end`. */
  ghost predicate Tile(g: Geo, segs: seq<Segment>, sector: nat, end: nat)
    requires g.Valid()
  {
    if segs == [] then sector == end
    else
      var last := segs[|segs| - 1];
      && last.n > 0 && last.sector + last.n == end && Rem(last.sector, g.cs) + last.n <= g.cs
      && Tile(g, segs[..|segs| - 1], sector, last.sector)
  }

  lemma {:induction false} TileSnoc(g: Geo, segs: seq<Segment>, sector: nat, mid: nat, n: nat)
    requires g.Valid() && Tile(g, segs, sector, mid) && n > 0 && Rem(mid, g.cs) + n <= g.cs
    ensures Tile(g, segs + [Segment(mid, n)], sector, mid + n)
  {
    assert (segs + [Segment(mid, n)])[..|segs|] == segs;
  }

  /** The segments lie in the request, one behind the other, each in one cluster. */
  lemma {:induction false} TileOrder(g: Geo, segs: seq<Segment>, sector: nat, end: nat)
    requires g.Valid() && Tile(g, segs, sector, end)
    ensures sector <= end && forall i :: 0 <= i < |segs| ==> sector <= segs[i].sector && segs[i].n > 0 && segs[i].sector + segs[i].n <= end
    ensures forall i, j :: 0 <= i < j < |segs| ==> segs[i].sector + segs[i].n <= segs[j].sector
    ensures forall i :: 0 <= i < |segs| ==> Quot(segs[i].sector + segs[i].n - 1, g.cs) == Quot(segs[i].sector, g.cs)
  {
    hide Quot, Rem;
    if segs != [] {
      var n := |segs| - 1;
      TileOrder(g, segs[..n], sector, segs[n].sector);
      SectorInCluster(segs[n].sector, segs[n].n - 1, g.cs);
      forall i | 0 <= i < n ensures segs[..n][i] == segs[i] {}
    }
  }

  /** Each sector of the request is in a segment. */
  lemma {:induction false} TileCovers(g: Geo, segs: seq<Segment>, sector: nat, end: nat, s: nat) returns (i: nat)
    requires g.Valid() && Tile(g, segs, sector, end) && sector <= s < end
    ensures i < |segs| && segs[i].sector <= s < segs[i].sector + segs[i].n
  {
    var n := |segs| - 1;
    if s < segs[n].sector { i := TileCovers(g, segs[..n], sector, segs[n].sector, s); } else { i := n; }
  }

  // ---------------------------------------------------------------- reads

  /** Sectors put at pos in the buffer. */
  function Put(buf: seq<Sector>, pos: nat, d: seq<Sector>): (buf': seq<Sector>)
    requires pos + |d| <= |buf|
    ensures |buf'| == |buf|
    ensures forall k :: 0 <= k < |buf| ==> buf'[k] == if pos <= k < pos + |d| then d[k - pos] else buf[k]
  {
    buf[..pos] + d + buf[pos + |d|..]
  }

  /** The request for sectors from sec0 has read everything before its current segment. */
  ghost predicate Reading(s: BDRVQcowState, a: QCowAIOCB, sec0: nat, n0: nat)
    reads s, a
  {
    && Readable(s) && |a.buf| == n0 && a.pos + a.nb == n0 && a.sector == sec0 + a.pos && a.n <= a.nb
    && (forall k :: 0 <= k < a.pos ==> a.buf[k] == View(X(s), V(s), 0, sec0 + k))
    && a.called == [] && Tile(s.g, a.segments, sec0, a.sector + a.n) && (a.n > 0 ==> a.n == InCluster(s.g, a.sector, a.nb))
  }

  /** What the host has for sector + k of a segment that starts at sector in host cluster p. */
  ghost function Raw(x: Ctx, v: Vol, p: nat, sector: nat, k: nat): Sector
    requires x.g.Valid()
  {
    if p == 0 then Backing(x.base, sector + k) else SectorAt(v.file, p, Rem(sector, x.g.cs) + k)
  }

  lemma {:induction false} SegmentView(x: Ctx, v: Vol, sector: nat, k: nat)
    requires x.g.Valid() && Rem(sector, x.g.cs) + k < x.g.cs
    ensures
      var p := Lookup(x.g, v.file, Erase(v.l1), Quot(sector, x.g.cs));
      View(x, v, 0, sector + k) == if p == 0 then Raw(x, v, p, sector, k) else x.crypt.dec(sector + k, Raw(x, v, p, sector, k))
  {
    SectorInCluster(sector, k, x.g.cs);
  }

  /** The current segment lies in one cluster, which was looked up. */
  ghost predicate Located(s: BDRVQcowState, a: QCowAIOCB)
    reads s, a
  {
    s.g.Valid() && (a.n > 0 ==> Rem(a.sector, s.g.cs) + a.n <= s.g.cs && a.cluster == Lookup(s.g, s.file, Erase(s.l1), Quot(a.sector, s.g.cs)))
  }

  /** The raw contents of the current segment are in the buffer. */
  ghost predicate Arrived(s: BDRVQcowState, a: QCowAIOCB)
    reads s, a
  {
    && Located(s, a) && a.pos + a.n <= |a.buf|
    && forall i :: a.pos <= i < a.pos + a.n ==> a.buf[i] == Raw(X(s), V(s), a.cluster, a.sector, i - a.pos)
  }

  /** Decrypts the segment that arrived. */
  method PostProcess(s: BDRVQcowState, a: QCowAIOCB, ghost sec0: nat, ghost n0: nat)
    requires Reading(s, a, sec0, n0) && Arrived(s, a)
    modifies a`buf
    ensures Reading(s, a, sec0, n0)
    ensures forall k :: 0 <= k < a.pos + a.n ==> a.buf[k] == View(X(s), V(s), 0, sec0 + k)
  {
    hide Readable, View, Lookup, Raw, Tile, Quot, Rem;
    assert s.g.Valid();
    forall i | a.pos <= i < a.pos + a.n
      ensures View(X(s), V(s), 0, sec0 + i) == if a.cluster == 0 then a.buf[i] else s.crypt.dec(a.sector + (i - a.pos), a.buf[i])
    {
      SegmentView(X(s), V(s), a.sector, i - a.pos);
    }
    if a.cluster != 0 {
      var d := EncryptSectors(s.crypt.dec, a.sector, a.buf[a.pos..a.pos + a.n]);
      a.buf := Put(a.buf, a.pos, d);
    }
  }

  /** Moves on to the next segment; the request is complete when none is left. */
  method NextRead(s: BDRVQcowState, a: QCowAIOCB, ghost sec0: nat, ghost n0: nat) returns (more: bool)
    requires Reading(s, a, sec0, n0)
    requires forall k :: 0 <= k < a.pos + a.n ==> a.buf[k] == View(X(s), V(s), 0, sec0 + k)
    modifies a`nb, a`sector, a`pos, a`n, a`cluster, a`called, a`segments, s`l2Keys, s`l2Hits, s`l2Cache
    ensures more <==> old(a.nb) > old(a.n)
    ensures more ==> Reading(s, a, sec0, n0) && a.n > 0 && Located(s, a) && a.nb == old(a.nb) - old(a.n)
    ensures !more ==> Finished(s, a, sec0, n0)
    ensures a.pos == old(a.pos) + old(a.n)
  {
    hide View, Struct, CacheOk, HitsOk, Lookup, Quot, Rem;
    a.nb := a.nb - a.n;
    a.sector := a.sector + a.n;
    a.pos := a.pos + a.n;
    if a.nb == 0 {
      a.called := a.called + [0];
      return false;
    }
    a.cluster := FindCluster(s, Quot(a.sector, s.g.cs));
    a.n := InCluster(s.g, a.sector, a.nb);
    TileSnoc(s.g, a.segments, sec0, a.sector, a.n);
    a.segments := a.segments + [Segment(a.sector, a.n)];
    more := true;
  }

  /** The callback was called once, with 0, and the buffer holds what a synchronous read returns. */
  ghost predicate Finished(s: BDRVQcowState, a: QCowAIOCB, sec0: nat, n0: nat)
    reads s, a
  {
    && Readable(s) && |a.buf| == n0 && a.called == [0]
    && (forall k :: 0 <= k < n0 ==> a.buf[k] == View(X(s), V(s), 0, sec0 + k))
    && Tile(s.g, a.segments, sec0, sec0 + n0)
  }

  /** The end of the backing file falls inside an unallocated cluster, between two sectors of the request. */
  ghost predicate Straddles(x: Ctx, v: Vol, sec0: nat, n0: nat)
    requires x.g.Valid()
  {
    var b := |x.base|;
    sec0 < b < sec0 + n0 && Quot(b - 1, x.g.cs) == Quot(b, x.g.cs) && Lookup(x.g, v.file, Erase(v.l1), Quot(b, x.g.cs)) == 0
  }

  /** A segment that starts before b and whose request goes on past b does not end at b if b is
      inside a cluster; if it goes past b, it is in the cluster of b. */
  lemma {:induction false} SegmentEnd(g: Geo, q: nat, left: nat, b: nat)
    requires g.Valid() && q < b < q + left && Quot(b - 1, g.cs) == Quot(b, g.cs)
    ensures q + InCluster(g, q, left) != b
    ensures q + InCluster(g, q, left) > b ==> Quot(q, g.cs) == Quot(b, g.cs)
  {
    var m := InCluster(g, q, left);
    if q + m >= b {
      SectorInCluster(q, b - 1 - q, g.cs);
      if q + m == b {
        QuotRem(b - 1, g.cs);
        QuotRem(b, g.cs);
        QuotRem(q, g.cs);
      } else {
        SectorInCluster(q, b - q, g.cs);
      }
    }
  }

  /** A segment that straddles the end of the backing file makes the request straddle it. */
  lemma {:induction false} SegmentStraddles(x: Ctx, v: Vol, sec0: nat, n0: nat, q: nat, n: nat)
    requires x.g.Valid() && sec0 <= q && q + n <= sec0 + n0 && Rem(q, x.g.cs) + n <= x.g.cs
    requires q < |x.base| < q + n && Lookup(x.g, v.file, Erase(v.l1), Quot(q, x.g.cs)) == 0
    ensures Straddles(x, v, sec0, n0)
  {
    SectorInCluster(q, |x.base| - q, x.g.cs);
    SectorInCluster(q, |x.base| - 1 - q, x.g.cs);
  }

  /** If the request straddles the end of the backing file, it has not got past it by sector e. */
  ghost predicate Before(x: Ctx, v: Vol, sec0: nat, n0: nat, e: nat)
    requires x.g.Valid()
  {
    Straddles(x, v, sec0, n0) ==> e < |x.base|
  }

  /** A segment that was transferred in full keeps the request before the end of the backing file. */
  lemma {:induction false} StaysBefore(x: Ctx, v: Vol, sec0: nat, n0: nat, q: nat, n: nat)
    requires x.g.Valid() && sec0 <= q < sec0 + n0 && n == InCluster(x.g, q, sec0 + n0 - q) && Before(x, v, sec0, n0, q)
    requires Lookup(x.g, v.file, Erase(v.l1), Quot(q, x.g.cs)) != 0 || q + n <= |x.base| || q >= |x.base|
    ensures Before(x, v, sec0, n0, q + n)
  {
    if Straddles(x, v, sec0, n0) { SegmentEnd(x.g, q, sec0 + n0 - q, |x.base|); }
  }

  /** A host transfer for the current segment is under way. */
  ghost predicate Waiting(s: BDRVQcowState, a: QCowAIOCB, sec0: nat, n0: nat)
    reads s, a
  {
    && Reading(s, a, sec0, n0) && a.n > 0 && Located(s, a)
    && a.pending == (if a.cluster == 0 then BackingRead(a.sector, a.n) else HostRead(a.cluster, Rem(a.sector, s.g.cs), a.n))
    && (a.cluster == 0 ==> a.sector < |s.backing|)
  }

  /** Starts the transfer of the current segment; past the end of the backing file there is none. */
  method Issue(s: BDRVQcowState, a: QCowAIOCB, ghost sec0: nat, ghost n0: nat) returns (wait: bool)
    requires Reading(s, a, sec0, n0) && a.n > 0 && Located(s, a)
    modifies a`buf, a`pending
    ensures wait ==> Waiting(s, a, sec0, n0)
    ensures !wait ==> Reading(s, a, sec0, n0) && Arrived(s, a) && a.pending == old(a.pending)
    ensures !wait ==> a.cluster == 0 && a.sector >= |s.backing|
  {
    hide Readable, View, Lookup, Tile, Quot, Rem;
    assert s.g.Valid();
    if a.cluster == 0 {
      var n1 := if a.sector + a.n <= |s.backing| then a.n else if a.sector >= |s.backing| then 0 else |s.backing| - a.sector;
      a.buf := Put(a.buf, a.pos + n1, seq<Sector>(a.n - n1, _ => ZERO_SECTOR));
      if n1 == 0 { return false; }
      a.pending := BackingRead(a.sector, a.n);
    } else {
      a.pending := HostRead(a.cluster, Rem(a.sector, s.g.cs), a.n);
    }
    wait := true;
  }

  /** What a callback leaves behind: the request is done, or a transfer for its next segment is under way. */
  ghost predicate Outcome(s: BDRVQcowState, a: QCowAIOCB, sec0: nat, n0: nat)
    reads s, a
  {
    && s.g.Valid()
    && if a.pending == Nothing then Finished(s, a, sec0, n0) && !Straddles(X(s), V(s), sec0, n0)
       else Waiting(s, a, sec0, n0) && Before(X(s), V(s), sec0, n0, a.sector)
  }

  /** The callback of a read: finishes the current segment and starts the next transfer. */
  method ReadCb(s: BDRVQcowState, a: QCowAIOCB, ret: int, ghost sec0: nat, ghost n0: nat)
    requires s.g.Valid() && (ret >= 0 ==> Reading(s, a, sec0, n0) && Arrived(s, a) && Before(X(s), V(s), sec0, n0, a.sector + a.n))
    requires ret < 0 ==> a.called == []
    modifies a, s`l2Keys, s`l2Hits, s`l2Cache
    ensures ret < 0 ==> a.called == [ret] && a.pending == Nothing
    ensures ret >= 0 ==> Outcome(s, a, sec0, n0)
    ensures ret >= 0 && a.pending != Nothing ==> a.nb - a.n < old(a.nb - a.n)
  {
    hide View, Readable, Lookup, Tile, Quot, Rem, Raw, Straddles, InCluster;
    a.pending := Nothing;
    if ret < 0 {
      a.called := a.called + [ret];
      return;
    }
    while true
      invariant s.g.Valid() && Reading(s, a, sec0, n0) && Arrived(s, a) && Before(X(s), V(s), sec0, n0, a.sector + a.n)
      invariant a.pending == Nothing && a.nb - a.n <= old(a.nb - a.n)
      decreases a.nb - a.n
    {
      PostProcess(s, a, sec0, n0);
      var more := NextRead(s, a, sec0, n0);
      if !more {
        DoneBefore(X(s), V(s), sec0, n0);
        return;
      }
      var wait := Issue(s, a, sec0, n0);
      if wait { return; }
      StaysBefore(X(s), V(s), sec0, n0, a.sector, a.n);
    }
  }

  lemma {:induction false} DoneBefore(x: Ctx, v: Vol, sec0: nat, n0: nat)
    requires x.g.Valid() && Before(x, v, sec0, n0, sec0 + n0)
    ensures !Straddles(x, v, sec0, n0)
  {
  }

  /** The host completes a transfer. A backing file cannot be read past its end. */
  method CompleteRead(s: BDRVQcowState, a: QCowAIOCB, ghost sec0: nat, ghost n0: nat)
    requires a.pending != Nothing && Outcome(s, a, sec0, n0)
    modifies a, s`l2Keys, s`l2Hits, s`l2Cache
    ensures Outcome(s, a, sec0, n0) || (a.called == [-EINVAL] && a.pending == Nothing && s.g.Valid() && Straddles(X(s), V(s), sec0, n0))
    ensures a.pending != Nothing ==> a.nb - a.n < old(a.nb - a.n)
  {
    hide View, Readable, Lookup, Tile, Quot, Rem, Straddles, InCluster, Raw, Before, Finished;
    if a.cluster == 0 && a.sector + a.n > |s.backing| {
      StraddlesHere(s, a, sec0, n0);
      ReadCb(s, a, -EINVAL, sec0, n0);
      return;
    }
    Transfer(s, a, sec0, n0);
    ReadCb(s, a, 0, sec0, n0);
  }

  /** The data of a successful transfer reaches the buffer. */
  method Transfer(s: BDRVQcowState, a: QCowAIOCB, ghost sec0: nat, ghost n0: nat)
    requires s.g.Valid() && Waiting(s, a, sec0, n0) && Before(X(s), V(s), sec0, n0, a.sector)
    requires a.cluster == 0 ==> a.sector + a.n <= |s.backing|
    modifies a`buf
    ensures Reading(s, a, sec0, n0) && Arrived(s, a) && Before(X(s), V(s), sec0, n0, a.sector + a.n)
  {
    hide View, Readable, Lookup, Tile, Quot, Rem, Straddles, InCluster, Before;
    var d := if a.cluster == 0 then s.backing[a.sector..a.sector + a.n] else ReadSectors(s.file, a.cluster, Rem(a.sector, s.g.cs), a.n);
    a.buf := Put(a.buf, a.pos, d);
    StaysBefore(X(s), V(s), sec0, n0, a.sector, a.n);
  }

  lemma {:induction false} StraddlesHere(s: BDRVQcowState, a: QCowAIOCB, sec0: nat, n0: nat)
    requires Waiting(s, a, sec0, n0) && a.cluster == 0 && a.sector + a.n > |s.backing|
    ensures s.g.Valid() && Straddles(X(s), V(s), sec0, n0)
  {
    SegmentStraddles(X(s), V(s), sec0, n0, a.sector, a.n);
  }

  /** A whole asynchronous read, driven to completion. It succeeds, and then with the result of a
      synchronous read, exactly when the request does not straddle the end of the backing file in
      an unallocated cluster; otherwise the callback gets an error. It is called once. */
  method AioRead(s: BDRVQcowState, sec: nat, buf: seq<Sector>) returns (a: QCowAIOCB)
    requires Readable(s)
    modifies s`l2Keys, s`l2Hits, s`l2Cache
    ensures fresh(a) && s.g.Valid() && a.pending == Nothing
    ensures if Straddles(X(s), V(s), sec, |buf|) then a.called == [-EINVAL] else Finished(s, a, sec, |buf|)
    ensures a.called == [0] ==> |a.buf| == |buf| && forall k :: 0 <= k < |buf| && Lookup(s.g, s.file, Erase(s.l1), Quot(sec + k, s.g.cs)) == 0 ==>
              if sec + k < |s.backing| then a.buf[k] == s.backing[sec + k] else forall i :: 0 <= i < 512 ==> a.buf[k][i] == 0
  {
    hide View, Lookup, Quot, Rem, InCluster, Struct, CacheOk, HitsOk;
    a := new QCowAIOCB(sec, buf);
    ReadCb(s, a, 0, sec, |buf|);
    while a.pending != Nothing
      invariant s.g.Valid()
      invariant Outcome(s, a, sec, |buf|) || (a.called == [-EINVAL] && a.pending == Nothing && Straddles(X(s), V(s), sec, |buf|))
      decreases if a.pending == Nothing then -1 else a.nb - a.n
    {
      CompleteRead(s, a, sec, |buf|);
    }
    if a.called == [0] {
      forall k | 0 <= k < |buf| && Lookup(s.g, s.file, Erase(s.l1), Quot(sec + k, s.g.cs)) == 0
        ensures if sec + k < |s.backing| then a.buf[k] == s.backing[sec + k] else forall i :: 0 <= i < 512 ==> a.buf[k][i] == 0
      {
        UnmappedView(X(s), V(s), sec + k);
      }
    }
  }

  lemma {:induction false} StraddleExample(crypt: Cipher, base: seq<Sector>, v: Vol)
    requires |base| == 1 && |v.l1| >= 1 && v.l1[0].cluster == 0
    ensures var x := Ctx(Geo(8, 512, 2048), base, crypt);
            && Straddles(x, v, 0, 2)
            && View(x, v, 0, 0) == base[0] && View(x, v, 0, 1) == ZERO_SECTOR
  {
    DivExact(0, 8, 0);
    DivExact(0, 8, 1);
    DivExact(0, 512, 0);
  }

  /** Clusters of 4096 bytes over a backing file of one sector: of the first two sectors of a new image
      the asynchronous read gets an error and the synchronous read the sector and zeros. */
  method StraddleReads(s: BDRVQcowState, buf: seq<Sector>) returns (a: QCowAIOCB, sync: seq<Sector>)
    requires Readable(s) && s.g == Geo(8, 512, 2048) && |s.backing| == 1 && |s.l1| >= 1 && s.l1[0].cluster == 0 && |buf| == 2
    modifies s`l2Keys, s`l2Hits, s`l2Cache
    ensures a.called == [-EINVAL] && sync == [s.backing[0], ZERO_SECTOR]
  {
    hide View, Straddles, Struct, CacheOk, HitsOk, Quot, Rem;
    StraddleExample(s.crypt, s.backing, V(s));
    sync := QcowRead(s, 0, 2);
    StraddleExample(s.crypt, s.backing, V(s));
    a := AioRead(s, 0, buf);
  }

  // ---------------------------------------------------------------- writes

  /** The segment at sector is mapped to cluster d of an image that was `before`; the sectors to store are raw. */
  ghost predicate Mapped(s: BDRVQcowState, a: QCowAIOCB, k: nat)
    reads s, a
  {
    && s.g.Valid() && a.pos + a.n <= |a.buf| && 0 < a.n && a.n == InCluster(s.g, a.sector, a.nb)
    && a.pending.HostWrite? && a.pending.idx == Rem(a.sector, s.g.cs) && |a.pending.raw| == a.n
    && (forall i :: 0 <= i < a.n ==> a.pending.raw[i] == s.crypt.enc(a.sector + i, a.buf[a.pos..a.pos + a.n][i]))
    && PiecePaid(s, |a.before.l1|, a.sector, k)
    && OwnsData(s.g, V(s), Quot(a.sector, s.g.cs), a.pending.cluster)
    && SameViewsBut(X(s), a.before, V(s), Quot(a.sector, s.g.cs), Rem(a.sector, s.g.cs), Rem(a.sector, s.g.cs) + a.n)
  }

  /** Positions of a write request. */
  ghost predicate Aligned(a: QCowAIOCB, sec0: nat, data: seq<Sector>)
    reads a
  {
    a.buf == data && a.pos + a.nb == |data| && a.sector == sec0 + a.pos && a.n <= a.nb && a.called == []
  }

  /** The write has stored what precedes the current segment, which is mapped; room for the rest and spare more is left. */
  ghost predicate WriteWaiting(s: BDRVQcowState, a: QCowAIOCB, v: Vol, sec0: nat, data: seq<Sector>, spare: nat, size: nat)
    reads s, a
  {
    && Aligned(a, sec0, data) && s.g.Valid() && |a.before.l1| >= 1
    && Mapped(s, a, spare + WriteCost(s.g, |a.before.l1|, a.sector, a.nb))
    && TablesFit(s.g, |a.before.l1|, a.sector, a.nb) && L1After(s.g, |a.before.l1|, a.sector, a.nb) == size
    && Wrote(X(s), v, a.before, sec0, data[..a.pos]) && Tile(s.g, a.segments, sec0, a.sector + a.n)
  }

  /** The write is done: the callback was called once, and the image changed as by a synchronous write. */
  ghost predicate WriteFinished(s: BDRVQcowState, a: QCowAIOCB, v: Vol, sec0: nat, data: seq<Sector>, spare: nat, size: nat)
    reads s, a
  {
    && a.called == [0] && Valid(s) && RoomFor(s, spare) && |s.l1| == size && Wrote(X(s), v, V(s), sec0, data)
    && Tile(s.g, a.segments, sec0, sec0 + |data|)
  }

  /** The callback of a write: maps the next segment and starts its transfer. */
  method WriteCb(s: BDRVQcowState, a: QCowAIOCB, ghost v: Vol, ghost sec0: nat, ghost data: seq<Sector>, ghost spare: nat, ghost size: nat)
    requires Aligned(a, sec0, data) && Writing(s, v, sec0, data, a.pos + a.n, spare, size) && Tile(s.g, a.segments, sec0, a.sector + a.n)
    modifies a, s`file, s`l1, s`l1Off, s`l2Keys, s`l2Hits, s`l2Cache, s`rt, s`rbCache, s`rbCacheOff, s`fci
    ensures if a.pending == Nothing then WriteFinished(s, a, v, sec0, data, spare, size)
            else WriteWaiting(s, a, v, sec0, data, spare, size) && 0 <= a.nb - a.n < old(a.nb - a.n)
  {
    hide *;
    AlignedFacts(a, sec0, data);
    a.pending := Nothing;
    a.nb := a.nb - a.n;
    a.sector := a.sector + a.n;
    a.pos := a.pos + a.n;
    a.n := 0;
    if a.nb == 0 {
      a.called := a.called + [0];
      WriteDone(s, a, v, sec0, data, spare, size);
      return;
    }
    MapNext(s, a, v, sec0, data, spare, size);
  }

  lemma {:induction false} AlignedFacts(a: QCowAIOCB, sec0: nat, data: seq<Sector>)
    requires Aligned(a, sec0, data)
    ensures a.buf == data && a.pos + a.nb == |data| && a.sector == sec0 + a.pos && a.n <= a.nb && a.called == []
  {
  }

  lemma {:induction false} WriteDone(s: BDRVQcowState, a: QCowAIOCB, v: Vol, sec0: nat, data: seq<Sector>, spare: nat, size: nat)
    requires Writing(s, v, sec0, data, |data|, spare, size) && Tile(s.g, a.segments, sec0, sec0 + |data|) && a.called == [0]
    ensures WriteFinished(s, a, v, sec0, data, spare, size)
  {
    hide View, Wrote, Struct, Sound, Counted, CacheOk, HitsOk, Room;
    assert data[..|data|] == data;
  }

  method MapNext(s: BDRVQcowState, a: QCowAIOCB, ghost v: Vol, ghost sec0: nat, ghost data: seq<Sector>, ghost spare: nat, ghost size: nat)
    requires a.buf == data && a.pos + a.nb == |data| && a.sector == sec0 + a.pos && a.called == [] && a.nb > 0
    requires Writing(s, v, sec0, data, a.pos, spare, size) && Tile(s.g, a.segments, sec0, a.sector)
    modifies a, s`file, s`l1, s`l1Off, s`l2Keys, s`l2Hits, s`l2Cache, s`rt, s`rbCache, s`rbCacheOff, s`fci
    ensures a.pending != Nothing && WriteWaiting(s, a, v, sec0, data, spare, size) && a.nb == old(a.nb) && 0 < a.n <= a.nb
  {
    hide *;
    WritingFacts(s, v, sec0, data, a.pos, spare, size);
    a.n := InCluster(s.g, a.sector, a.nb);
    a.before := V(s);
    TileSnoc(s.g, a.segments, sec0, a.sector, a.n);
    a.segments := a.segments + [Segment(a.sector, a.n)];
    var d := GetClusterOffset(s, a.sector, a.n, spare + WriteCost(s.g, |s.l1|, a.sector, a.nb));
    var raw := EncryptSectors(s.crypt.enc, a.sector, a.buf[a.pos..a.pos + a.n]);
    a.pending := HostWrite(d, Rem(a.sector, s.g.cs), raw);
    NowWaiting(s, a, v, sec0, data, spare, size);
  }

  lemma {:induction false} NowWaiting(s: BDRVQcowState, a: QCowAIOCB, v: Vol, sec0: nat, data: seq<Sector>, spare: nat, size: nat)
    requires s.g.Valid() && |a.before.l1| >= 1
    requires a.buf == data && a.pos + a.nb == |data| && a.sector == sec0 + a.pos && a.called == [] && 0 < a.n == InCluster(s.g, a.sector, a.nb) <= a.nb
    requires a.pending.HostWrite? && a.pending.idx == Rem(a.sector, s.g.cs) && |a.pending.raw| == a.n
    requires forall i :: 0 <= i < a.n ==> a.pending.raw[i] == s.crypt.enc(a.sector + i, a.buf[a.pos..a.pos + a.n][i])
    requires PiecePaid(s, |a.before.l1|, a.sector, spare + WriteCost(s.g, |a.before.l1|, a.sector, a.nb))
    requires OwnsData(s.g, V(s), Quot(a.sector, s.g.cs), a.pending.cluster)
    requires SameViewsBut(X(s), a.before, V(s), Quot(a.sector, s.g.cs), Rem(a.sector, s.g.cs), Rem(a.sector, s.g.cs) + a.n)
    requires TablesFit(s.g, |a.before.l1|, a.sector, a.nb) && L1After(s.g, |a.before.l1|, a.sector, a.nb) == size
    requires Wrote(X(s), v, a.before, sec0, data[..a.pos]) && Tile(s.g, a.segments, sec0, a.sector + a.n)
    ensures WriteWaiting(s, a, v, sec0, data, spare, size)
  {
    hide View, Wrote, SameViewsBut, OwnsData, PiecePaid, Quot, Rem, WriteCost, TablesFit, L1After, Tile;
  }

  lemma {:induction false} WritingFacts(s: BDRVQcowState, v: Vol, sec: nat, buf: seq<Sector>, done: nat, spare: nat, size: nat)
    requires Writing(s, v, sec, buf, done, spare, size) && done < |buf|
    ensures s.g.Valid() && s.g.cs > 0 && s.g.es > 0 && |s.l1| >= 1 && X(s).g == s.g && V(s).l1 == s.l1
    ensures PieceFits(s, sec + done, InCluster(s.g, sec + done, |buf| - done), spare + WriteCost(s.g, |s.l1|, sec + done, |buf| - done))
    ensures TablesFit(s.g, |s.l1|, sec + done, |buf| - done) && L1After(s.g, |s.l1|, sec + done, |buf| - done) == size
    ensures Wrote(X(s), v, V(s), sec, buf[..done])
  {
    hide View, Struct, Sound, Counted, CacheOk, HitsOk, Wrote, Room, Quot, Rem, GrownSize, PieceCost, EntryClusters, L1Needed, WriteCost, TablesFit, L1After;
    CostStep(s.g, |s.l1|, sec + done, |buf| - done);
  }

  /** The host completes the transfer of a segment. */
  method CompleteWrite(s: BDRVQcowState, a: QCowAIOCB, ghost v: Vol, ghost sec0: nat, ghost data: seq<Sector>, ghost spare: nat, ghost size: nat)
    requires a.pending != Nothing && WriteWaiting(s, a, v, sec0, data, spare, size)
    modifies a, s`file, s`l1, s`l1Off, s`l2Keys, s`l2Hits, s`l2Cache, s`rt, s`rbCache, s`rbCacheOff, s`fci
    ensures if a.pending == Nothing then WriteFinished(s, a, v, sec0, data, spare, size)
            else WriteWaiting(s, a, v, sec0, data, spare, size) && 0 <= a.nb - a.n < old(a.nb - a.n)
  {
    hide *;
    MappedFacts(s, a, v, sec0, data, spare, size);
    ghost var k := spare + WriteCost(s.g, |a.before.l1|, a.sector, a.nb);
    StoreSectors(s, a.before, a.sector, a.pending.cluster, a.buf[a.pos..a.pos + a.n], a.pending.raw, k);
    StoredNext(s, a, v, sec0, data, spare, size);
    WriteCb(s, a, v, sec0, data, spare, size);
  }

  lemma {:induction false} MappedFacts(s: BDRVQcowState, a: QCowAIOCB, v: Vol, sec0: nat, data: seq<Sector>, spare: nat, size: nat)
    requires WriteWaiting(s, a, v, sec0, data, spare, size)
    ensures Aligned(a, sec0, data) && s.g.Valid() && s.g.cs > 0 && s.g.es > 0 && X(s).g == s.g && |a.before.l1| >= 1
    ensures a.buf == data && a.pos + a.nb == |data| && a.sector == sec0 + a.pos && a.n <= a.nb && a.pending.HostWrite?
    ensures 0 < a.n == |a.pending.raw| && a.n == InCluster(s.g, a.sector, a.nb)
    ensures forall i :: 0 <= i < a.n ==> a.pending.raw[i] == s.crypt.enc(a.sector + i, a.buf[a.pos..a.pos + a.n][i])
    ensures PiecePaid(s, |a.before.l1|, a.sector, spare + WriteCost(s.g, |a.before.l1|, a.sector, a.nb))
    ensures OwnsData(s.g, V(s), Quot(a.sector, s.g.cs), a.pending.cluster)
    ensures Rem(a.sector, s.g.cs) + a.n <= s.g.cs
    ensures SameViewsBut(X(s), a.before, V(s), Quot(a.sector, s.g.cs), Rem(a.sector, s.g.cs), Rem(a.sector, s.g.cs) + a.n)
    ensures TablesFit(s.g, |a.before.l1|, a.sector, a.nb) && L1After(s.g, |a.before.l1|, a.sector, a.nb) == size
    ensures Wrote(X(s), v, a.before, sec0, data[..a.pos]) && Tile(s.g, a.segments, sec0, a.sector + a.n)
  {
    hide View, Wrote, SameViewsBut, OwnsData, PiecePaid, Quot, Rem, WriteCost, TablesFit, L1After, Tile;
  }

  lemma {:induction false} StoredNext(s: BDRVQcowState, a: QCowAIOCB, v: Vol, sec0: nat, data: seq<Sector>, spare: nat, size: nat)
    requires s.g.Valid() && |a.before.l1| >= 1 && a.buf == data && a.pos + a.nb == |data| && a.sector == sec0 + a.pos
    requires 0 < a.n <= a.nb && a.n == InCluster(s.g, a.sector, a.nb)
    requires PiecePaid(s, |a.before.l1|, a.sector, spare + WriteCost(s.g, |a.before.l1|, a.sector, a.nb))
    requires Wrote(X(s), a.before, V(s), a.sector, a.buf[a.pos..a.pos + a.n]) && Wrote(X(s), v, a.before, sec0, data[..a.pos])
    requires TablesFit(s.g, |a.before.l1|, a.sector, a.nb) && L1After(s.g, |a.before.l1|, a.sector, a.nb) == size
    ensures Writing(s, v, sec0, data, a.pos + a.n, spare, size)
  {
    hide View, Struct, Sound, Counted, CacheOk, HitsOk, Wrote, Room, Quot, Rem, GrownSize, PieceCost, EntryClusters, L1Needed, WriteCost, TablesFit, L1After;
    CostStep(s.g, |a.before.l1|, a.sector, a.nb);
    WroteThen(X(s), v, a.before, V(s), sec0, data[..a.pos], data[a.pos..a.pos + a.n]);
    assert data[..a.pos] + data[a.pos..a.pos + a.n] == data[..a.pos + a.n];
  }

  /** A whole asynchronous write, driven to completion: the same image as after a synchronous one. */
  method AioWrite(s: BDRVQcowState, sec: nat, data: seq<Sector>, ghost k: nat) returns (a: QCowAIOCB)
    requires Valid(s) && |s.l1| >= 1 && RoomFor(s, k) && WriteCost(s.g, |s.l1|, sec, |data|) <= k
    requires TablesFit(s.g, |s.l1|, sec, |data|)
    modifies s`file, s`l1, s`l1Off, s`l2Keys, s`l2Hits, s`l2Cache, s`rt, s`rbCache, s`rbCacheOff, s`fci
    ensures fresh(a) && a.pending == Nothing
    ensures WriteFinished(s, a, old(V(s)), sec, data, k - WriteCost(s.g, |old(s.l1)|, sec, |data|), L1After(s.g, |old(s.l1)|, sec, |data|))
  {
    hide View, Struct, Sound, Counted, CacheOk, HitsOk, Wrote, Room, WriteWaiting, WriteFinished, WriteCost, L1After, TablesFit;
    ghost var v := V(s);
    ghost var spare, size := k - WriteCost(s.g, |s.l1|, sec, |data|), L1After(s.g, |s.l1|, sec, |data|);
    a := new QCowAIOCB(sec, data);
    WroteNothing(X(s), v, sec);
    WriteCb(s, a, v, sec, data, spare, size);
    while a.pending != Nothing
      invariant if a.pending == Nothing then WriteFinished(s, a, v, sec, data, spare, size) else WriteWaiting(s, a, v, sec, data, spare, size)
      invariant a.pending != Nothing ==> a.n <= a.nb
      decreases if a.pending == Nothing then -1 else a.nb - a.n
    {
      CompleteWrite(s, a, v, sec, data, spare, size);
    }
  }
}
