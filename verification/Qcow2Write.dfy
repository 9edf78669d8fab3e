/** Allocating lookups and writes. */
module Qcow2Write {
  import opened Division
  import opened Bytes
  import opened Qcow2Layout
  import opened Qcow2Counts
  import opened Qcow2Volume
  import opened Qcow2Steps
  import opened Qcow2State
  import opened Qcow2Image
  import opened Qcow2Io
  import opened Qcow2Grow

  /** The L1 size an allocating access to a sector needs. */
  function L1Needed(g: Geo, sec: nat): nat
    requires g.Valid()
  {
    Quot(Quot(sec, g.cs), g.es) + 1
  }

  /** Room taken by writing one piece: maybe a longer L1 table, an L2 table and a data cluster,
      each with a reference count block. */
  function PieceCost(g: Geo, l1Size: nat, sec: nat): nat
    requires g.Valid() && l1Size >= 1
  {
    GrowCost(g, l1Size, L1Needed(g, sec)) + 4
  }

  /** One piece of n sectors from sec lies in one cluster, and there is room k for writing it. */
  ghost predicate PieceFits(s: BDRVQcowState, sec: nat, n: nat, k: nat)
    reads s
  {
    && Valid(s) && RoomFor(s, k) && PieceCost(s.g, |s.l1|, sec) <= k
    && n > 0 && Rem(sec, s.g.cs) + n <= s.g.cs
    && EntryClusters(s.g, GrownSize(|s.l1|, L1Needed(s.g, sec))) < s.g.epb
  }

  /** The cost of a piece at sec was taken from room k; the L1 table, of l1Size entries before, is long enough. */
  ghost predicate PiecePaid(s: BDRVQcowState, l1Size: nat, sec: nat, k: nat)
    reads s
  {
    && Valid(s) && l1Size >= 1 && PieceCost(s.g, l1Size, sec) <= k
    && RoomFor(s, k - PieceCost(s.g, l1Size, sec))
    && |s.l1| == GrownSize(l1Size, L1Needed(s.g, sec))
  }

  /** The host cluster for the guest cluster of sector sec, allocated and unshared, ready for the
      caller to write n sectors from sec. */
  method GetClusterOffset(s: BDRVQcowState, sec: nat, n: nat, ghost k: nat) returns (d: nat)
    requires PieceFits(s, sec, n, k)
    modifies s`file, s`l1, s`l1Off, s`l2Keys, s`l2Hits, s`l2Cache, s`rt, s`rbCache, s`rbCacheOff, s`fci
    ensures PiecePaid(s, |old(s.l1)|, sec, k)
    ensures OwnsData(s.g, V(s), Quot(sec, s.g.cs), d)
    ensures SameViewsBut(X(s), old(V(s)), V(s), Quot(sec, s.g.cs), Rem(sec, s.g.cs), Rem(sec, s.g.cs) + n)
  {
    hide *;
    FitsFacts(s, sec, n, k);
    ghost var grow := GrowCost(s.g, |s.l1|, L1Needed(s.g, sec));
    ghost var v := V(s);
    GrowL1Table(s, L1Needed(s.g, sec), k);
    ghost var v1 := V(s);
    d := MapCluster(s, sec, Rem(sec, s.g.cs) + n, k - grow);
    ViewsButAfter(X(s), v, v1, V(s), Quot(sec, s.g.cs), Rem(sec, s.g.cs), Rem(sec, s.g.cs) + n);
    PayPiece(s, |old(s.l1)|, sec, k);
  }

  lemma {:induction false} FitsFacts(s: BDRVQcowState, sec: nat, n: nat, k: nat)
    requires PieceFits(s, sec, n, k)
    ensures Valid(s) && RoomFor(s, k) && s.g.Valid() && s.g.es > 0 && s.g.cs > 0 && |s.l1| >= 1 && V(s).l1 == s.l1 && X(s).g == s.g
    ensures GrowCost(s.g, |s.l1|, L1Needed(s.g, sec)) + 4 <= k
    ensures EntryClusters(s.g, GrownSize(|s.l1|, L1Needed(s.g, sec))) < s.g.epb
    ensures Rem(sec, s.g.cs) < Rem(sec, s.g.cs) + n <= s.g.cs
  {
  }

  lemma {:induction false} PayPiece(s: BDRVQcowState, l1Size: nat, sec: nat, k: nat)
    requires Valid(s) && l1Size >= 1 && GrowCost(s.g, l1Size, L1Needed(s.g, sec)) + 4 <= k
    requires RoomFor(s, k - GrowCost(s.g, l1Size, L1Needed(s.g, sec)) - 4)
    requires |s.l1| == GrownSize(l1Size, L1Needed(s.g, sec))
    ensures PiecePaid(s, l1Size, sec, k)
  {
  }

  /** The same once the L1 table is long enough. */
  method MapCluster(s: BDRVQcowState, sec: nat, m: nat, ghost k: nat) returns (d: nat)
    requires Valid(s) && RoomFor(s, k) && 4 <= k
    requires Rem(sec, s.g.cs) < m <= s.g.cs && L1Needed(s.g, sec) <= |s.l1|
    modifies s`file, s`l1, s`l2Keys, s`l2Hits, s`l2Cache, s`rt, s`rbCache, s`rbCacheOff, s`fci
    ensures Valid(s) && RoomFor(s, k - 4) && |s.l1| == |old(s.l1)|
    ensures OwnsData(s.g, V(s), Quot(sec, s.g.cs), d)
    ensures SameViewsBut(X(s), old(V(s)), V(s), Quot(sec, s.g.cs), Rem(sec, s.g.cs), m)
  {
    hide View, Struct, Sound, CacheOk, Counted, HitsOk;
    ghost var v := V(s);
    var u := Quot(sec, s.g.cs);
    var i, j := Quot(u, s.g.es), Rem(u, s.g.es);
    QuotRem(u, s.g.es);
    var n := Rem(sec, s.g.cs);
    StartOfCluster(sec, s.g.cs);
    var slot := EnsureL2(s, i, k);
    ghost var v1 := V(s);
    d := EnsureData(s, slot, i, j, sec - n, n, m, k - 2);
    ViewsButAfter(X(s), v, v1, V(s), u, n, m);
  }

  lemma {:induction false} StartOfCluster(sec: nat, d: nat)
    requires d > 0
    ensures sec >= Rem(sec, d)
    ensures Quot(sec - Rem(sec, d), d) == Quot(sec, d) && Rem(sec - Rem(sec, d), d) == 0
  {
    QuotRem(sec, d);
    DivExact(Quot(sec, d), d, 0);
  }

  /** The guest disks of v' are those of v with buf written at sector sec of the active image. */
  ghost predicate Wrote(x: Ctx, v: Vol, v': Vol, sec: nat, buf: seq<Sector>)
    requires x.g.Valid()
  {
    && |v'.snaps| == |v.snaps|
    && forall k: nat, s: nat :: k <= |v.snaps| ==>
         View(x, v', k, s) == if k == 0 && sec <= s < sec + |buf| then buf[s - sec] else View(x, v, k, s)
  }

  /** Sectors n .. of cluster d were overwritten by raw, the encryption of buf. */
  ghost predicate PieceStored(x: Ctx, v1: Vol, v2: Vol, sec: nat, d: nat, buf: seq<Sector>, raw: seq<Sector>)
  {
    && Struct(x.g, v1) && x.crypt.Invertible()
    && |buf| == |raw| && Rem(sec, x.g.cs) + |buf| <= x.g.cs
    && (forall k :: 0 <= k < |buf| ==> raw[k] == x.crypt.enc(sec + k, buf[k]))
    && OwnsData(x.g, v1, Quot(sec, x.g.cs), d)
    && v2 == v1.(file := WriteSectors(x.g, v1.file, d, Rem(sec, x.g.cs), raw))
  }

  lemma {:induction false} PieceInside(x: Ctx, v1: Vol, v2: Vol, sec: nat, d: nat, buf: seq<Sector>, raw: seq<Sector>, s: nat)
    requires PieceStored(x, v1, v2, sec, d, buf, raw) && sec <= s < sec + |buf|
    ensures View(x, v2, 0, s) == buf[s - sec]
  {
    assert DataWrite(x.g, v1, v2, d);
    hide Struct, OwnsData, DataWrite, Quot, Rem, WriteSectors, View;
    DataWriteViews(x, v1, v2, Quot(sec, x.g.cs), d, 0, s);
    SectorInCluster(sec, s - sec, x.g.cs);
  }

  lemma {:induction false} PieceOutside(x: Ctx, v1: Vol, v2: Vol, sec: nat, d: nat, buf: seq<Sector>, raw: seq<Sector>, k: nat, s: nat)
    requires PieceStored(x, v1, v2, sec, d, buf, raw) && k <= |v1.snaps| && !(k == 0 && sec <= s < sec + |buf|)
    ensures View(x, v2, k, s) == View(x, v1, k, s)
    ensures !(k == 0 && Quot(s, x.g.cs) == Quot(sec, x.g.cs) && Rem(sec, x.g.cs) <= Rem(s, x.g.cs) < Rem(sec, x.g.cs) + |buf|)
  {
    var u, n := Quot(sec, x.g.cs), Rem(sec, x.g.cs);
    assert DataWrite(x.g, v1, v2, d);
    hide Struct, OwnsData, DataWrite, Quot, Rem, WriteSectors, View;
    DataWriteViews(x, v1, v2, u, d, k, s);
    QuotRem(sec, x.g.cs);
    QuotRem(s, x.g.cs);
    if k == 0 && Quot(s, x.g.cs) == u {
      assert SectorAt(v2.file, d, Rem(s, x.g.cs)) == SectorAt(v1.file, d, Rem(s, x.g.cs));
    }
  }

  lemma {:induction false} PieceWrote(x: Ctx, v: Vol, v1: Vol, v2: Vol, sec: nat, d: nat, buf: seq<Sector>, raw: seq<Sector>)
    requires PieceStored(x, v1, v2, sec, d, buf, raw)
    requires SameViewsBut(x, v, v1, Quot(sec, x.g.cs), Rem(sec, x.g.cs), Rem(sec, x.g.cs) + |buf|)
    ensures Wrote(x, v, v2, sec, buf)
  {
    hide Struct, OwnsData, WriteSectors, View, Quot, Rem;
    StructValid(x.g, v1);
    assert |v1.snaps| == |v.snaps| == |v2.snaps|;
    forall k: nat, s: nat | k <= |v.snaps|
      ensures View(x, v2, k, s) == if k == 0 && sec <= s < sec + |buf| then buf[s - sec] else View(x, v, k, s)
    {
      if k == 0 && sec <= s < sec + |buf| {
        PieceInside(x, v1, v2, sec, d, buf, raw, s);
      } else {
        PieceOutside(x, v1, v2, sec, d, buf, raw, k, s);
        assert View(x, v1, k, s) == View(x, v, k, s);
      }
    }
  }

  /** Writes sectors that lie in one cluster. */
  method WritePiece(s: BDRVQcowState, sec: nat, buf: seq<Sector>, ghost k: nat)
    requires PieceFits(s, sec, |buf|, k)
    modifies s`file, s`l1, s`l1Off, s`l2Keys, s`l2Hits, s`l2Cache, s`rt, s`rbCache, s`rbCacheOff, s`fci
    ensures PiecePaid(s, |old(s.l1)|, sec, k)
    ensures Wrote(X(s), old(V(s)), V(s), sec, buf)
  {
    var raw := EncryptSectors(s.crypt.enc, sec, buf);
    WriteRaw(s, sec, buf, raw, k);
  }

  /** Stores the encrypted sectors of a piece. */
  method WriteRaw(s: BDRVQcowState, sec: nat, ghost buf: seq<Sector>, raw: seq<Sector>, ghost k: nat)
    requires PieceFits(s, sec, |raw|, k)
    requires |raw| == |buf| && forall i :: 0 <= i < |buf| ==> raw[i] == s.crypt.enc(sec + i, buf[i])
    modifies s`file, s`l1, s`l1Off, s`l2Keys, s`l2Hits, s`l2Cache, s`rt, s`rbCache, s`rbCacheOff, s`fci
    ensures PiecePaid(s, |old(s.l1)|, sec, k)
    ensures Wrote(X(s), old(V(s)), V(s), sec, buf)
  {
    hide *;
    FitsFacts(s, sec, |raw|, k);
    var d := GetClusterOffset(s, sec, |raw|, k);
    StoreSectors(s, old(V(s)), sec, d, buf, raw, k);
  }

  /** Stores a piece in the unshared cluster d, which so far was changed only where the piece goes. */
  method StoreSectors(s: BDRVQcowState, ghost v0: Vol, sec: nat, d: nat, ghost buf: seq<Sector>, raw: seq<Sector>, ghost k: nat)
    requires PiecePaid(s, |v0.l1|, sec, k) && OwnsData(s.g, V(s), Quot(sec, s.g.cs), d)
    requires Rem(sec, s.g.cs) + |raw| <= s.g.cs
    requires |raw| == |buf| && forall i :: 0 <= i < |buf| ==> raw[i] == s.crypt.enc(sec + i, buf[i])
    requires SameViewsBut(X(s), v0, V(s), Quot(sec, s.g.cs), Rem(sec, s.g.cs), Rem(sec, s.g.cs) + |raw|)
    modifies s`file
    ensures PiecePaid(s, |v0.l1|, sec, k) && Wrote(X(s), v0, V(s), sec, buf)
  {
    hide View, Struct, Sound, CacheOk, Counted, HitsOk, SameViewsBut, Wrote, OwnsData;
    ghost var v1 := V(s);
    WriteData(s, Quot(sec, s.g.cs), d, Rem(sec, s.g.cs), raw, k - PieceCost(s.g, |v0.l1|, sec));
    PieceWrote(X(s), v0, v1, V(s), sec, d, buf, raw);
  }

  /** Writes into the unshared data cluster d of guest cluster u. */
  method WriteData(s: BDRVQcowState, ghost u: nat, d: nat, idx: nat, raw: seq<Sector>, ghost k: nat)
    requires Valid(s) && RoomFor(s, k) && OwnsData(s.g, V(s), u, d) && idx + |raw| <= s.g.cs
    modifies s`file
    ensures Valid(s) && RoomFor(s, k)
    ensures V(s) == old(V(s)).(file := s.file) && s.file == WriteSectors(s.g, old(s.file), d, idx, raw)
  {
    hide View, FlagsBut, Balanced, Synced;
    ghost var v := V(s);
    s.file := WriteSectors(s.g, s.file, d, idx, raw);
    DataWriteSound(X(s), v, V(s), u, d);
    DataWriteTrees(s.g, v, V(s), u, d);
    CacheKept(s.g, v, V(s), s.l2Keys, s.l2Cache);
    DataCounts(s.g, v, V(s), d, s.rbCacheOff, s.rbCache);
  }

  lemma {:induction false} DataCounts(g: Geo, v: Vol, v': Vol, d: nat, off: nat, cache: seq<nat>)
    requires Struct(g, v) && MetaRefs(g, v, d) == 0 && DataWrite(g, v, v', d)
    requires OwnedCounted(g, v.file, v.rt, v.rtOff) && BlockCacheOk(g, v.file, v.rt, off, cache)
    ensures TableShape(g, v'.file, v'.rt, v'.rtOff)
    ensures OwnedCounted(g, v'.file, v'.rt, v'.rtOff) && BlockCacheOk(g, v'.file, v'.rt, off, cache)
    ensures forall y :: RC(g, v'.file, v'.rt, y) == RC(g, v.file, v.rt, y)
  {
    OccBlock(v.rt, d);
    OccBlock(v.rt, off);
    ShapeFrame(g, v.file, v'.file, v.rt, v.rtOff);
    assert off != d ==> SameAt(v.file, v'.file, off);
  }

  // ---------------------------------------------------------------- whole requests

  /** Room taken by a write of n sectors, piece by piece. */
  function WriteCost(g: Geo, l1Size: nat, sec: nat, n: nat): nat
    requires g.Valid() && l1Size >= 1
    decreases n
  {
    if n == 0 then 0
    else
      var m := InCluster(g, sec, n);
      PieceCost(g, l1Size, sec) + WriteCost(g, GrownSize(l1Size, L1Needed(g, sec)), sec + m, n - m)
  }

  /** The L1 size after a write of n sectors. */
  function L1After(g: Geo, l1Size: nat, sec: nat, n: nat): (size: nat)
    requires g.Valid() && l1Size >= 1
    ensures size >= l1Size
    decreases n
  {
    if n == 0 then l1Size
    else
      var m := InCluster(g, sec, n);
      L1After(g, GrownSize(l1Size, L1Needed(g, sec)), sec + m, n - m)
  }

  /** No L1 table on the way takes a whole range of reference counts. */
  predicate TablesFit(g: Geo, l1Size: nat, sec: nat, n: nat)
    requires g.Valid() && l1Size >= 1
    decreases n
  {
    n == 0 ||
    var m := InCluster(g, sec, n);
    var size := GrownSize(l1Size, L1Needed(g, sec));
    EntryClusters(g, size) < g.epb && TablesFit(g, size, sec + m, n - m)
  }

  lemma {:induction false} CostStep(g: Geo, l1Size: nat, sec: nat, n: nat)
    requires g.Valid() && l1Size >= 1 && n > 0
    ensures
      var m, size := InCluster(g, sec, n), GrownSize(l1Size, L1Needed(g, sec));
      && WriteCost(g, l1Size, sec, n) == PieceCost(g, l1Size, sec) + WriteCost(g, size, sec + m, n - m)
      && L1After(g, l1Size, sec, n) == L1After(g, size, sec + m, n - m)
      && (TablesFit(g, l1Size, sec, n) ==> EntryClusters(g, size) < g.epb && TablesFit(g, size, sec + m, n - m))
  {
  }

  lemma {:induction false} WroteThen(x: Ctx, v: Vol, v1: Vol, v2: Vol, sec: nat, a: seq<Sector>, b: seq<Sector>)
    requires x.g.Valid() && Wrote(x, v, v1, sec, a) && Wrote(x, v1, v2, sec + |a|, b)
    ensures Wrote(x, v, v2, sec, a + b)
  {
    forall k: nat, s: nat | k <= |v.snaps|
      ensures View(x, v2, k, s) == if k == 0 && sec <= s < sec + |a + b| then (a + b)[s - sec] else View(x, v, k, s)
    {
      hide View;
      assert View(x, v1, k, s) == if k == 0 && sec <= s < sec + |a| then a[s - sec] else View(x, v, k, s);
    }
  }

  lemma {:induction false} WroteNothing(x: Ctx, v: Vol, sec: nat)
    requires x.g.Valid()
    ensures Wrote(x, v, v, sec, [])
  {
  }

  /** A write of any length and alignment is a write to the flat guest disk, and to no snapshot. */
  method QcowWrite(s: BDRVQcowState, sec: nat, buf: seq<Sector>, ghost k: nat)
    requires Valid(s) && |s.l1| >= 1 && RoomFor(s, k) && WriteCost(s.g, |s.l1|, sec, |buf|) <= k
    requires TablesFit(s.g, |s.l1|, sec, |buf|)
    modifies s`file, s`l1, s`l1Off, s`l2Keys, s`l2Hits, s`l2Cache, s`rt, s`rbCache, s`rbCacheOff, s`fci
    ensures Valid(s) && RoomFor(s, k - WriteCost(s.g, |old(s.l1)|, sec, |buf|))
    ensures |s.l1| == L1After(s.g, |old(s.l1)|, sec, |buf|)
    ensures Wrote(X(s), old(V(s)), V(s), sec, buf)
  {
    hide View, Struct, Sound, CacheOk, Counted, HitsOk, GrownSize, PieceCost, Wrote, Room, Quot;
    ghost var v := V(s);
    ghost var spare, size := k - WriteCost(s.g, |s.l1|, sec, |buf|), L1After(s.g, |s.l1|, sec, |buf|);
    var done := 0;
    WroteNothing(X(s), v, sec);
    while done < |buf|
      invariant Writing(s, v, sec, buf, done, spare, size)
    {
      done := WriteNext(s, v, sec, buf, done, spare, size);
    }
    assert buf[..done] == buf;
  }

  /** The first done sectors of the request are written; there is room for the rest and spare more. */
  ghost predicate Writing(s: BDRVQcowState, v: Vol, sec: nat, buf: seq<Sector>, done: nat, spare: nat, size: nat)
    reads s
  {
    && Valid(s) && |s.l1| >= 1 && done <= |buf|
    && RoomFor(s, spare + WriteCost(s.g, |s.l1|, sec + done, |buf| - done))
    && TablesFit(s.g, |s.l1|, sec + done, |buf| - done)
    && L1After(s.g, |s.l1|, sec + done, |buf| - done) == size
    && Wrote(X(s), v, V(s), sec, buf[..done])
  }

  method WriteNext(s: BDRVQcowState, ghost v: Vol, sec: nat, buf: seq<Sector>, done: nat, ghost spare: nat, ghost size: nat)
    returns (done': nat)
    requires Writing(s, v, sec, buf, done, spare, size) && done < |buf|
    modifies s`file, s`l1, s`l1Off, s`l2Keys, s`l2Hits, s`l2Cache, s`rt, s`rbCache, s`rbCacheOff, s`fci
    ensures done < done' && Writing(s, v, sec, buf, done', spare, size)
  {
    hide View, Struct, Sound, CacheOk, Counted, HitsOk, GrownSize, PieceCost, Wrote, Room, Quot, WriteCost, L1After, TablesFit;
    hide EntryClusters, L1Needed;
    CostStep(s.g, |s.l1|, sec + done, |buf| - done);
    var m := InCluster(s.g, sec + done, |buf| - done);
    var piece := buf[done..done + m];
    ghost var v1 := V(s);
    WritePiece(s, sec + done, piece, spare + WriteCost(s.g, |s.l1|, sec + done, |buf| - done));
    WroteThen(X(s), v, v1, V(s), sec, buf[..done], piece);
    done' := done + m;
    assert buf[..done] + piece == buf[..done'];
  }
}
