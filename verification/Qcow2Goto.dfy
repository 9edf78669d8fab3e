/** Going back to a snapshot. */
module Qcow2Goto {
  import opened Division
  import opened Qcow2Layout
  import opened Qcow2Trees
  import opened Qcow2Counts
  import opened Qcow2Volume
  import opened Qcow2State
  import opened Qcow2Image
  import opened Qcow2Tables
  import opened Qcow2Recount
  import opened Qcow2SnapSteps
  import opened Qcow2SnapIds
  import opened Qcow2Snapshot

  /** The active image of v' reads as snapshot k of v; all snapshots read as before. */
  ghost predicate WentTo(x: Ctx, v: Vol, v': Vol, k: nat)
    requires x.g.Valid()
  {
    && |v'.snaps| == |v.snaps| && k < |v.snaps|
    && forall m: nat, s: nat :: m <= |v.snaps| ==> View(x, v', m, s) == View(x, v, if m == 0 then k + 1 else m, s)
  }

  /** The active table is replaced by that of snapshot k. */
  ghost predicate Replaced(g: Geo, v: Vol, v': Vol, k: nat)
  {
    && Struct(g, v) && k < |v.snaps| && v.snaps[k].l1Size == |v.l1|
    && var t := RootTable(g, v, k + 1);
       v' == v.(file := WriteL1(g, v.file, v.l1Off, t), l1 := t)
  }

  lemma {:induction false} GotoReplaceable(g: Geo, v: Vol, k: nat)
    requires Struct(g, v) && k < |v.snaps| && v.snaps[k].l1Size == |v.l1|
    ensures Replaceable(g, v, RootTable(g, v, k + 1))
  {
    RootTableNormal(g, v, k + 1);
    forall y ensures TreeRefs(g, v.file, Roots(g, v)[k + 1], y) <= TreesRefs(g, v, y) { RootsAt(g, v.file, Roots(g, v), k + 1, y); }
  }

  lemma {:induction false} ReplacedViews(x: Ctx, v: Vol, v': Vol, k: nat)
    requires Replaced(x.g, v, v', k)
    ensures WentTo(x, v, v', k)
  {
    var t := RootTable(x.g, v, k + 1);
    GotoReplaceable(x.g, v, k);
    ActiveWrite(x, v, v', t);
    assert forall s: nat :: ViewAt(x.g, v.file, Erase(t), x.base, x.crypt, s) == View(x, v, k + 1, s);
  }

  /** Counts, short of the new active tree. */
  ghost predicate Short(g: Geo, v: Vol)
  {
    && Struct(g, v) && Synced(v)
    && forall y :: VRC(g, v, y) + TreeRefs(g, v.file, Roots(g, v)[0], y) == Refs(g, v, y)
  }

  lemma {:induction false} PassShort(x: Ctx, v: Vol, v': Vol)
    requires Sound(x.g, v) && PassDone(x, v, v', 0, -1)
    ensures Short(x.g, v')
  {
    forall y ensures VRC(x.g, v', y) + TreeRefs(x.g, v'.file, Roots(x.g, v')[0], y) == Refs(x.g, v', y) {
      hide VRC, Struct, TreesRefs, View, FlagsExact, Synced;
      assert VRC(x.g, v, y) + One(false) == Refs(x.g, v, y) + One(InRun(y, 0, 0));
      assert MetaRefs(x.g, v', y) == MetaRefs(x.g, v, y);
    }
  }

  lemma {:induction false} ReplacedShort(x: Ctx, v: Vol, v': Vol, k: nat)
    requires Short(x.g, v) && Replaced(x.g, v, v', k) && |v.snaps| + 1 < MAX_COUNT
    ensures Short(x.g, v') && CanPass(x.g, v', 0, 1)
    ensures forall y :: VRC(x.g, v', y) == VRC(x.g, v, y)
    ensures forall y :: Owned(x.g, v.rt, v.rtOff, y) ==> SameAt(v.file, v'.file, y)
  {
    hide VRC, Struct, TreesRefs, View, Synced, Replaceable, WriteL1, Owned;
    var g := x.g;
    ShortValid(g, v);
    GotoReplaceable(g, v, k);
    ActiveWrite(x, v, v', RootTable(g, v, k + 1));
    forall y ensures VRC(g, v', y) + TreeRefs(g, v'.file, Roots(g, v')[0], y) == Refs(g, v', y) {
      assert VRC(g, v, y) + TreeRefs(g, v.file, Roots(g, v)[0], y) == Refs(g, v, y);
      assert TreeRefs(g, v'.file, Roots(g, v')[0], y) == TreeRefs(g, v.file, Roots(g, v')[0], y);
    }
    ReplacedCanPass(g, v, v', k);
  }

  lemma {:induction false} ReplacedCanPass(g: Geo, v: Vol, v': Vol, k: nat)
    requires Short(g, v) && k < |v.snaps| && |v.snaps| + 1 < MAX_COUNT && |v'.snaps| == |v.snaps|
    requires forall y :: VRC(g, v', y) == VRC(g, v, y)
    requires Roots(g, v')[0] == Roots(g, v)[k + 1]
    requires forall m, y :: 0 <= m <= |v.snaps| ==> TreeRefs(g, v'.file, Roots(g, v')[m], y) == TreeRefs(g, v.file, Roots(g, v')[m], y)
    ensures CanPass(g, v', 0, 1)
  {
    hide VRC, Struct, Refs, Synced, Short;
    assert g.Valid() by { ShortValid(g, v); }
    forall y | TreeRefs(g, v'.file, Roots(g, v')[0], y) >= 1 ensures VRC(g, v', y) >= 1 && VRC(g, v', y) < MAX_COUNT {
      assert TreeRefs(g, v'.file, Roots(g, v')[0], y) == TreeRefs(g, v.file, Roots(g, v')[0], y);
      ShortCount(g, v, k + 1, y);
      assert VRC(g, v', y) == VRC(g, v, y);
    }
  }

  lemma {:induction false} ShortValid(g: Geo, v: Vol)
    requires Short(g, v)
    ensures g.Valid() && Struct(g, v) && Synced(v)
  {
  }

  lemma {:induction false} ShortCount(g: Geo, v: Vol, k: nat, y: nat)
    requires Short(g, v) && 1 <= k <= |v.snaps| && TreeRefs(g, v.file, Roots(g, v)[k], y) >= 1
    ensures 1 <= VRC(g, v, y) <= |v.snaps| + 1
  {
    hide VRC;
    TreeCounts(g, v, k, y);
    RootsAtTwo(g, v.file, Roots(g, v), 0, k, y);
    assert VRC(g, v, y) + TreeRefs(g, v.file, Roots(g, v)[0], y) == Refs(g, v, y);
  }

  lemma {:induction false} PassSound(x: Ctx, v: Vol, v': Vol)
    requires Short(x.g, v) && PassDone(x, v, v', 0, 1)
    ensures Sound(x.g, v')
  {
    forall y ensures VRC(x.g, v', y) + One(false) == Refs(x.g, v', y) + One(InRun(y, 0, 0)) {
      hide VRC, Struct, TreesRefs, View, FlagsExact, Synced;
      assert VRC(x.g, v, y) + TreeRefs(x.g, v.file, Roots(x.g, v)[0], y) == Refs(x.g, v, y);
      assert MetaRefs(x.g, v', y) == MetaRefs(x.g, v, y);
    }
  }

  lemma {:induction false} WentThrough(x: Ctx, v: Vol, v1: Vol, v2: Vol, v3: Vol, k: nat)
    requires x.g.Valid() && SameViews(x, v, v1) && WentTo(x, v1, v2, k) && SameViews(x, v2, v3)
    ensures WentTo(x, v, v3, k)
  {
    forall m: nat, s: nat | m <= |v.snaps| ensures View(x, v3, m, s) == View(x, v, if m == 0 then k + 1 else m, s) {
      hide View;
      var n: nat := if m == 0 then k + 1 else m;
      assert View(x, v3, m, s) == View(x, v2, m, s);
      assert View(x, v2, m, s) == View(x, v1, n, s);
      assert View(x, v1, n, s) == View(x, v, n, s);
    }
  }

  /** Makes the active image read as the selected snapshot. The snapshot's L1 table must have the
      size of the active one. */
  method QcowSnapshotGoto(s: BDRVQcowState, id: string, ghost room: nat) returns (ret: int)
    requires Valid(s) && RoomFor(s, room) && |s.snaps| + 1 < MAX_COUNT
    requires forall k: nat :: Selected(s.snaps, id, k) ==> s.snaps[k].l1Size == |s.l1|
    modifies s`file, s`l1, s`l2Keys, s`l2Hits, s`l2Cache, s`rt, s`rbCache, s`rbCacheOff, s`fci
    ensures Valid(s) && RoomFor(s, room) && |s.l1| == |old(s.l1)| && (ret == 0 || ret == -ENOENT)
    ensures ret != 0 <==> !HasId(s.snaps, id) && !HasName(s.snaps, id)
    ensures ret != 0 ==> V(s) == old(V(s))
    ensures ret == 0 ==> exists k: nat :: Selected(s.snaps, id, k) && WentTo(X(s), old(V(s)), V(s), k)
  {
    var k := FindSnapshotByIdOrName(s.snaps, id);
    if k < 0 { return -ENOENT; }
    hide View, Valid, Selected, WentTo, RoomFor;
    assert Selected(s.snaps, id, k);
    GoToIndex(s, k, room);
    return 0;
  }

  method GoToIndex(s: BDRVQcowState, k: nat, ghost room: nat)
    requires Valid(s) && RoomFor(s, room) && |s.snaps| + 1 < MAX_COUNT && k < |s.snaps| && s.snaps[k].l1Size == |s.l1|
    modifies s`file, s`l1, s`l2Keys, s`l2Hits, s`l2Cache, s`rt, s`rbCache, s`rbCacheOff, s`fci
    ensures Valid(s) && RoomFor(s, room) && |s.l1| == |old(s.l1)|
    ensures WentTo(X(s), old(V(s)), V(s), k)
  {
    hide View, Struct, Sound, Room, CacheOk, HitsOk, Counted, Short, CanPass, WentTo, SameViews, CacheEmpty;
    ghost var v := V(s);
    DropActive(s, room);
    ghost var v1 := V(s);
    LoadSnapshotTable(s, k, room);
    ghost var v2 := V(s);
    CountActive(s, room);
    WentThrough(X(s), v, v1, v2, V(s), k);
  }

  method DropActive(s: BDRVQcowState, ghost room: nat)
    requires Valid(s) && RoomFor(s, room)
    modifies s`file, s`l1, s`l2Keys, s`l2Hits, s`l2Cache, s`rt, s`rbCache, s`rbCacheOff, s`fci
    ensures s.g.Valid() && Counted(s) && CacheEmpty(s) && RoomFor(s, room) && Short(s.g, V(s)) && SameViews(X(s), old(V(s)), V(s))
    ensures |s.l1| == |old(s.l1)|
  {
    hide View, Struct, FlagsExact, Balanced, CanPass, PassDone, Room, Synced, CacheOk, Short;
    ghost var v := V(s);
    SoundCanPass(s.g, v, 0, -1);
    UpdateSnapshotRefcount(s, s.l1Off, |s.l1|, -1, 0, room);
    PassShort(X(s), v, V(s));
    PassViews(X(s), v, V(s), 0, -1);
  }

  /** Copies the snapshot's L1 table over the active one, in the file and in memory. */
  method LoadSnapshotTable(s: BDRVQcowState, k: nat, ghost room: nat)
    requires s.g.Valid() && Counted(s) && CacheEmpty(s) && RoomFor(s, room) && Short(s.g, V(s))
    requires k < |s.snaps| && s.snaps[k].l1Size == |s.l1| && |s.snaps| + 1 < MAX_COUNT
    modifies s`file, s`l1
    ensures Counted(s) && CacheEmpty(s) && RoomFor(s, room) && Short(s.g, V(s)) && CanPass(s.g, V(s), 0, 1)
    ensures WentTo(X(s), old(V(s)), V(s), k) && |s.l1| == |old(s.l1)|
  {
    hide RC, View, Struct, Short, WriteL1, WentTo, CanPass, TableShape, OwnedCounted, BlockCacheOk, Owned, ScanOk, Quot, Rem;
    ghost var v := V(s);
    ShortValid(s.g, v);
    s.l1 := ReadL1(s.g, s.file, s.snaps[k].l1Off, s.snaps[k].l1Size);
    s.file := WriteL1(s.g, s.file, s.l1Off, s.l1);
    assert Replaced(s.g, v, V(s), k);
    ReplacedViews(X(s), v, V(s), k);
    ReplacedShort(X(s), v, V(s), k);
    StoredCounts(s.g, v.file, s.file, s.rt, s.rtOff, s.rbCacheOff, s.rbCache);
    forall y ensures RC(s.g, s.file, s.rt, y) == RC(s.g, v.file, s.rt, y) { assert VRC(s.g, V(s), y) == VRC(s.g, v, y); }
  }

  method CountActive(s: BDRVQcowState, ghost room: nat)
    requires s.g.Valid() && Counted(s) && CacheEmpty(s) && RoomFor(s, room) && Short(s.g, V(s)) && CanPass(s.g, V(s), 0, 1)
    requires s.crypt.Invertible()
    modifies s`file, s`l1, s`l2Keys, s`l2Hits, s`l2Cache, s`rt, s`rbCache, s`rbCacheOff, s`fci
    ensures Valid(s) && RoomFor(s, room) && SameViews(X(s), old(V(s)), V(s)) && |s.l1| == |old(s.l1)|
  {
    ghost var v := V(s);
    assert Struct(s.g, v);
    hide View, Struct, FlagsExact, Balanced, CanPass, PassDone, Room, Synced, CacheOk, Short;
    UpdateSnapshotRefcount(s, s.l1Off, |s.l1|, 1, 0, room);
    PassSound(X(s), v, V(s));
    PassViews(X(s), v, V(s), 0, 1);
    EmptyReadable(s);
  }
}
