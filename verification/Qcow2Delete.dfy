/** Deleting a snapshot. */
module Qcow2Delete {
  import opened Qcow2Layout
  import opened Qcow2Trees
  import opened Qcow2Counts
  import opened Qcow2Volume
  import opened Qcow2Steps
  import opened Qcow2State
  import opened Qcow2Refcount
  import opened Qcow2Image
  import opened Qcow2Io
  import opened Qcow2Grow
  import opened Qcow2Tables
  import opened Qcow2Recount
  import opened Qcow2SnapSteps
  import opened Qcow2SnapIds
  import opened Qcow2SnapTable
  import opened Qcow2Snapshot

  /** The guest disks of v' are those of v without snapshot k. */
  ghost predicate Deleted(x: Ctx, v: Vol, v': Vol, k: nat)
    requires x.g.Valid()
  {
    && k < |v.snaps| && |v'.snaps| == |v.snaps| - 1
    && forall m: nat, s: nat :: m < |v.snaps| ==> View(x, v', m, s) == View(x, v, if m <= k then m else m + 1, s)
  }

  /** Counts lack the tree of snapshot k and, if r holds, also its L1 table. */
  ghost predicate Lacking(g: Geo, v: Vol, k: nat, r: bool)
  {
    && Struct(g, v) && Synced(v) && FlagsExact(g, v) && k < |v.snaps|
    && forall y :: VRC(g, v, y) + TreeRefs(g, v.file, Roots(g, v)[k + 1], y) + One(r && InRoot(g, v, k + 1, y)) == Refs(g, v, y)
  }

  ghost predicate LackingTree(g: Geo, v: Vol, k: nat)
  {
    && Struct(g, v) && Synced(v) && k < |v.snaps|
    && forall y :: VRC(g, v, y) + TreeRefs(g, v.file, Roots(g, v)[k + 1], y) == Refs(g, v, y)
  }

  lemma {:induction false} PassLacks(x: Ctx, v: Vol, v1: Vol, k: nat)
    requires Sound(x.g, v) && k < |v.snaps| && PassDone(x, v, v1, k + 1, -1)
    ensures LackingTree(x.g, v1, k)
  {
    forall y ensures VRC(x.g, v1, y) + TreeRefs(x.g, v1.file, Roots(x.g, v1)[k + 1], y) == Refs(x.g, v1, y) {
      hide VRC, Struct, TreesRefs, View, FlagsExact, Synced;
      assert VRC(x.g, v, y) + One(false) == Refs(x.g, v, y) + One(InRun(y, 0, 0));
      assert MetaRefs(x.g, v1, y) == MetaRefs(x.g, v, y);
    }
  }

  lemma {:induction false} FlagPassLacks(x: Ctx, v: Vol, v1: Vol, k: nat)
    requires LackingTree(x.g, v, k) && PassDone(x, v, v1, 0, 0)
    ensures Lacking(x.g, v1, k, false)
  {
    forall y ensures VRC(x.g, v1, y) + TreeRefs(x.g, v1.file, Roots(x.g, v1)[k + 1], y) == Refs(x.g, v1, y) {
      hide VRC, Struct, TreesRefs, View, FlagsExact, Synced;
      assert VRC(x.g, v, y) + TreeRefs(x.g, v.file, Roots(x.g, v)[k + 1], y) == Refs(x.g, v, y);
      assert MetaRefs(x.g, v1, y) == MetaRefs(x.g, v, y);
    }
  }

  lemma {:induction false} RunCountedOnce(g: Geo, v: Vol, k: nat, y: nat)
    requires Lacking(g, v, k, false) && InRoot(g, v, k + 1, y)
    ensures y != 0 && !Owned(g, v.rt, v.rtOff, y) && VRC(g, v, y) == 1
  {
    RootApart(g, v, k + 1, y);
    RootsAt(g, v.file, Roots(g, v), k + 1, y);
  }

  /** Freeing the clusters of the snapshot's L1 table. */
  lemma {:induction false} TableFreed(x: Ctx, v: Vol, v': Vol, k: nat)
    requires Lacking(x.g, v, k, false) && v' == v.(file := v'.file) && TableShape(x.g, v'.file, v.rt, v.rtOff)
    requires forall y :: !Owned(x.g, v.rt, v.rtOff, y) ==> SameAt(v.file, v'.file, y)
    requires forall y :: VRC(x.g, v', y) + One(InRoot(x.g, v, k + 1, y)) == VRC(x.g, v, y)
    ensures Lacking(x.g, v', k, true) && SameViews(x, v, v')
  {
    var g := x.g;
    hide View, VRC;
    CountsChanged(x, v, v', 0);
    assert forall y :: TreesRefs(g, v, y) >= 1 ==> PlainRefs(g, v, y) >= 1;
    forall y ensures VRC(g, v', y) + TreeRefs(g, v'.file, Roots(g, v')[k + 1], y) + One(InRoot(g, v', k + 1, y)) == Refs(g, v', y) {
      hide Struct, TreesRefs, Synced, Refs, FlagsExact, PlainRefs;
      TreeKept(g, v, v', k + 1, y);
      assert VRC(g, v, y) + TreeRefs(g, v.file, Roots(g, v)[k + 1], y) + One(false) == Refs(g, v, y);
      assert InRoot(g, v', k + 1, y) == InRoot(g, v, k + 1, y);
    }
    FreedFlags(g, v, v', k);
  }

  lemma {:induction false} TreeKept(g: Geo, v: Vol, v': Vol, k: nat, y: nat)
    requires g.Valid() && Roots(g, v') == Roots(g, v) && k <= |v.snaps|
    requires forall z :: TreesRefs(g, v, z) >= 1 ==> SameAt(v.file, v'.file, z)
    ensures TreeRefs(g, v'.file, Roots(g, v)[k], y) == TreeRefs(g, v.file, Roots(g, v)[k], y)
  {
    var r := Roots(g, v);
    forall z | TreeRefs(g, v.file, r[k], z) >= 1 ensures Alike(g, v.file, v'.file, z) { RootsAt(g, v.file, r, k, z); }
    TreeRefsFrame(g, v.file, v'.file, r[k], y);
  }

  lemma {:induction false} FreedFlags(g: Geo, v: Vol, v': Vol, k: nat)
    requires Struct(g, v) && FlagsExact(g, v) && k < |v.snaps| && v'.l1 == v.l1
    requires forall y :: TreesRefs(g, v, y) >= 1 ==> SameAt(v.file, v'.file, y)
    requires forall y :: VRC(g, v', y) + One(InRoot(g, v, k + 1, y)) == VRC(g, v, y)
    ensures FlagsExact(g, v')
  {
    forall y | TreesRefs(g, v, y) >= 1 ensures VRC(g, v', y) == VRC(g, v, y) {
      hide VRC;
      if InRoot(g, v, k + 1, y) { RootApart(g, v, k + 1, y); }
      assert VRC(g, v', y) + One(InRoot(g, v, k + 1, y)) == VRC(g, v, y);
    }
    StructValid(g, v);
    hide VRC, Struct;
    forall m, j | 0 <= m < |v.l1| && v.l1[m].cluster != 0 && 0 <= j < g.es
      ensures SameAt(v.file, v'.file, v.l1[m].cluster) && VRC(g, v', v.l1[m].cluster) == VRC(g, v, v.l1[m].cluster)
      ensures var d := EntryAt(v.file, v.l1[m].cluster, j).cluster; d != 0 ==> VRC(g, v', d) == VRC(g, v, d)
    {
      ActiveRef(g, v, m, j);
    }
    forall m | 0 <= m < |v.l1| && v.l1[m].cluster != 0
      ensures SameAt(v.file, v'.file, v.l1[m].cluster) && VRC(g, v', v.l1[m].cluster) == VRC(g, v, v.l1[m].cluster)
    {
      ActiveRef(g, v, m, 0);
    }
    FlagsCarry(g, v, v', -1, -1, -1);
  }

  lemma {:induction false} ListShrunk(x: Ctx, v: Vol, v': Vol, k: nat)
    requires Lacking(x.g, v, k, true) && v' == v.(snaps := Without(v.snaps, k))
    ensures Struct(x.g, v') && Balanced(x.g, v', 0, 0, 0) && FlagsExact(x.g, v') && HeaderAgrees(v')
    ensures Deleted(x, v, v', k)
  {
    hide View, FlagsExact;
    SnapDropped(x, v, v', k);
  }

  lemma {:induction false} DeletedAround(x: Ctx, v: Vol, v1: Vol, v2: Vol, v3: Vol, k: nat)
    requires x.g.Valid() && SameViews(x, v, v1) && Deleted(x, v1, v2, k) && SameViews(x, v2, v3)
    ensures Deleted(x, v, v3, k)
  {
    forall m: nat, s: nat | m < |v.snaps| ensures View(x, v3, m, s) == View(x, v, if m <= k then m else m + 1, s) {
      hide View;
      var n: nat := if m <= k then m else m + 1;
      assert View(x, v3, m, s) == View(x, v2, m, s);
      assert View(x, v2, m, s) == View(x, v1, n, s);
      assert View(x, v1, n, s) == View(x, v, n, s);
    }
  }

  // ---------------------------------------------------------------- methods

  /** Takes the snapshot's tree out of the counts, and brings the flags of the active image up to date. */
  method Uncount(s: BDRVQcowState, k: nat, ghost room: nat)
    requires Valid(s) && RoomFor(s, room) && k < |s.snaps|
    modifies s`file, s`l1, s`l2Keys, s`l2Hits, s`l2Cache, s`rt, s`rbCache, s`rbCacheOff, s`fci
    ensures s.g.Valid() && Counted(s) && CacheEmpty(s) && RoomFor(s, room) && |s.l1| == |old(s.l1)|
    ensures Lacking(s.g, V(s), k, false) && SameViews(X(s), old(V(s)), V(s))
  {
    hide View, Struct, FlagsExact, Balanced, CanPass, PassDone, Room, Synced, CacheOk, Lacking, LackingTree, SameViews, CacheEmpty, Counted;
    ghost var v := V(s);
    SoundCanPass(s.g, v, k + 1, -1);
    UpdateSnapshotRefcount(s, s.snaps[k].l1Off, s.snaps[k].l1Size, -1, k + 1, room);
    ghost var v1 := V(s);
    PassKeeps(X(s), v, v1, k + 1, -1);
    PassLacks(X(s), v, v1, k);
    UpdateSnapshotRefcount(s, s.l1Off, |s.l1|, 0, 0, room);
    PassKeeps(X(s), v1, V(s), 0, 0);
    FlagPassLacks(X(s), v1, V(s), k);
    SameViewsTrans(X(s), v, v1, V(s));
  }

  lemma {:induction false} PassKeeps(x: Ctx, v: Vol, v': Vol, k: nat, addend: int)
    requires PassDone(x, v, v', k, addend)
    ensures Struct(x.g, v') && |v'.l1| == |v.l1| && CanPass(x.g, v', 0, 0) && SameViews(x, v, v')
  {
  }

  /** Frees the snapshot's L1 table and takes the snapshot off the list in memory. */
  method DropTable(s: BDRVQcowState, k: nat, ghost room: nat)
    requires s.g.Valid() && Counted(s) && CacheEmpty(s) && RoomFor(s, room) && s.crypt.Invertible()
    requires Lacking(s.g, V(s), k, false)
    modifies s`file, s`rt, s`rbCache, s`rbCacheOff, s`fci, s`snaps
    ensures Behind(s, 0, 0) && RoomFor(s, room) && Deleted(X(s), old(V(s)), V(s), k)
    ensures k < |old(s.snaps)| && s.snaps == Without(old(s.snaps), k)
    ensures FreeBelow(s.g, s.file, s.rt, s.fci, old(s.snaps)[k].l1Off)
  {
    hide View, Struct, FlagsExact, Lacking, Balanced, SameViews, Deleted, TableShape, OwnedCounted, BlockCacheOk, ScanOk, Room, FreeBelow, HeaderAgrees, CacheOk, HitsOk, EntryClusters, ByteClusters;
    ghost var v := V(s);
    LackingIndex(s.g, v, k);
    FreeTable(s, k, room);
    ghost var v1 := V(s);
    s.snaps := s.snaps[..k] + s.snaps[k + 1..];
    ListShrunk(X(s), v1, V(s), k);
    NothingMore(X(s), V(s));
    DeletedAround(X(s), v, v1, V(s), V(s), k);
    EmptyReadable(s);
  }

  lemma {:induction false} LackingIndex(g: Geo, v: Vol, k: nat)
    requires Lacking(g, v, k, false)
    ensures k < |v.snaps|
  {
  }

  lemma {:induction false} NothingMore(x: Ctx, v: Vol)
    requires x.g.Valid()
    ensures SameViews(x, v, v)
  {
  }

  method FreeTable(s: BDRVQcowState, k: nat, ghost room: nat)
    requires s.g.Valid() && Counted(s) && RoomFor(s, room)
    requires Lacking(s.g, V(s), k, false)
    modifies s`file, s`rt, s`rbCache, s`rbCacheOff, s`fci
    ensures Counted(s) && RoomFor(s, room) && Lacking(s.g, V(s), k, true) && SameViews(X(s), old(V(s)), V(s))
    ensures FreeBelow(s.g, s.file, s.rt, s.fci, s.snaps[k].l1Off)
  {
    ghost var v := V(s);
    assert k < |s.snaps| && s.snaps[k].l1Size >= 1;
    hide View, Lacking, SameViews, RC, TableShape, OwnedCounted, BlockCacheOk, Owned, FreeBelow;
    var off, n := s.snaps[k].l1Off, EntryClusters(s.g, s.snaps[k].l1Size);
    EntryClustersPositive(s.g, s.snaps[k].l1Size);
    forall y | InRun(y, off, n) ensures y != 0 && !Owned(s.g, s.rt, s.rtOff, y) && RC(s.g, s.file, s.rt, y) == 1 {
      assert InRoot(s.g, v, k + 1, y);
      RunCountedOnce(s.g, v, k, y);
    }
    ghost var f := s.file;
    FreeClusters(s, off, n);
    forall y ensures VRC(s.g, V(s), y) + One(InRoot(s.g, v, k + 1, y)) == VRC(s.g, v, y) {
      assert RC(s.g, s.file, s.rt, y) == RC(s.g, f, s.rt, y) - One(InRun(y, off, n));
    }
    TableFreed(X(s), v, V(s), k);
    FreedScan(s.g, f, s.file, s.rt, s.rtOff, old(s.fci), s.fci, off, n, room);
  }

  lemma {:induction false} FreedScan(g: Geo, f: File, f': File, rt: seq<nat>, rtOff: nat, fci: nat, fci': nat, off: nat, n: nat, room: nat)
    requires TableShape(g, f', rt, rtOff) && ScanOk(g, rt, fci) && fci' <= fci && n >= 1
    requires forall y :: InRun(y, off, n) ==> RC(g, f, rt, y) == 1
    requires forall y :: RC(g, f', rt, y) == RC(g, f, rt, y) - One(InRun(y, off, n))
    requires forall y :: InRun(y, off, n) && RC(g, f', rt, y) == 0 ==> fci' <= y
    requires Room(g, f, rt, fci, room)
    ensures ScanOk(g, rt, fci') && Room(g, f', rt, fci', room) && FreeBelow(g, f', rt, fci', off)
  {
    ScanDown(g, rt, fci, fci');
    assert InRun(off, off, n);
    assert RC(g, f, rt, off) == 1;
    forall y | y + room >= Capacity(g, rt) ensures RC(g, f', rt, y) == 0 { assert RC(g, f, rt, y) == 0; }
  }

  /** Room for the new snapshot table. */
  function DeleteCost(g: Geo, snaps: seq<Snap>, k: nat): nat
    requires g.Valid() && k < |snaps|
  {
    TableClusters(g, Without(snaps, k)) + 1
  }

  method DeleteIndex(s: BDRVQcowState, k: nat, ghost room: nat)
    requires Valid(s) && RoomFor(s, room) && k < |s.snaps| && DeleteCost(s.g, s.snaps, k) <= room
    requires TableClusters(s.g, Without(s.snaps, k)) < s.g.epb
    modifies s`file, s`l1, s`l2Keys, s`l2Hits, s`l2Cache, s`rt, s`rbCache, s`rbCacheOff, s`fci, s`snaps, s`snapOff, s`snapSize
    ensures Valid(s) && RoomFor(s, room - DeleteCost(s.g, old(s.snaps), k)) && |s.l1| == |old(s.l1)|
    ensures Deleted(X(s), old(V(s)), V(s), k) && s.snaps == Without(old(s.snaps), k) && s.snapSize == TableBytes(s.snaps)
  {
    hide View, Struct, Sound, CacheOk, HitsOk, Counted, Room, Lacking, SameViews, Deleted, CacheEmpty, Behind, FreeBelow, TableClusters, Without;
    ghost var v := V(s);
    Uncount(s, k, room);
    ghost var v1 := V(s);
    DropTable(s, k, room);
    ghost var v2 := V(s);
    WriteSnapshots(s, v.snaps[k].l1Off, room);
    DeletedAround(X(s), v, v1, v2, V(s), k);
  }

  ghost predicate IsDeleted(s: BDRVQcowState, v: Vol, k: nat, room: nat)
    reads s
  {
    && s.g.Valid() && k < |v.snaps| && DeleteCost(s.g, v.snaps, k) <= room && RoomFor(s, room - DeleteCost(s.g, v.snaps, k))
    && s.snaps == Without(v.snaps, k) && s.snapSize == TableBytes(s.snaps) && Deleted(X(s), v, V(s), k)
  }

  /** Deletes the selected snapshot; the active image and the other snapshots read as before. */
  method QcowSnapshotDelete(s: BDRVQcowState, id: string, ghost room: nat) returns (ret: int)
    requires Valid(s) && RoomFor(s, room)
    requires forall k: nat :: Selected(s.snaps, id, k) ==> DeleteCost(s.g, s.snaps, k) <= room && TableClusters(s.g, Without(s.snaps, k)) < s.g.epb
    modifies s`file, s`l1, s`l2Keys, s`l2Hits, s`l2Cache, s`rt, s`rbCache, s`rbCacheOff, s`fci, s`snaps, s`snapOff, s`snapSize
    ensures Valid(s) && |s.l1| == |old(s.l1)| && (ret == 0 || ret == -ENOENT)
    ensures ret != 0 <==> !HasId(old(s.snaps), id) && !HasName(old(s.snaps), id)
    ensures ret != 0 ==> V(s) == old(V(s)) && s.snapSize == old(s.snapSize) && RoomFor(s, room)
    ensures ret == 0 ==> exists k: nat :: Selected(old(s.snaps), id, k) && IsDeleted(s, old(V(s)), k, room)
  {
    var k := FindSnapshotByIdOrName(s.snaps, id);
    if k < 0 { return -ENOENT; }
    hide View, Struct, Sound, CacheOk, HitsOk, Counted, Room, Deleted, TableClusters, Without;
    assert Selected(s.snaps, id, k);
    DeleteIndex(s, k, room);
    return 0;
  }
}
