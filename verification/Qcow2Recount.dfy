/** The walk over one tree as an operation on the image. */
module Qcow2Recount {
  import opened Division
  import opened Qcow2Layout
  import opened Qcow2Trees
  import opened Qcow2Counts
  import opened Qcow2Volume
  import opened Qcow2Steps
  import opened Qcow2State
  import opened Qcow2Image
  import opened Qcow2Io
  import opened Qcow2Grow
  import opened Qcow2Pass
  import opened Qcow2Tables

  /** Every count under root k can take a change by addend. */
  ghost predicate CanPass(g: Geo, v: Vol, k: nat, addend: int)
    requires g.Valid() && k <= |v.snaps|
  {
    forall y :: TreeRefs(g, v.file, Roots(g, v)[k], y) >= 1 ==>
      (addend != 0 ==> VRC(g, v, y) >= 1) && (addend == 1 ==> VRC(g, v, y) < MAX_COUNT)
  }

  ghost function RootTable(g: Geo, v: Vol, k: nat): (t: seq<Entry>)
    requires g.Valid() && k <= |v.snaps|
    ensures Erase(t) == Roots(g, v)[k]
  {
    if k == 0 then v.l1 else ReadL1(g, v.file, v.snaps[k - 1].l1Off, v.snaps[k - 1].l1Size)
  }

  lemma {:induction false} RootTableNormal(g: Geo, v: Vol, k: nat)
    requires Struct(g, v) && k <= |v.snaps|
    ensures forall i :: 0 <= i < |RootTable(g, v, k)| ==> Normal(RootTable(g, v, k)[i])
  {
    var t := RootTable(g, v, k);
    if k == 0 {
      NormalL1(g, v);
    } else {
      var sn := v.snaps[k - 1];
      forall i | 0 <= i < |t| ensures Normal(t[i]) {
        SlotInRun(g, i, |t|);
        assert L1Typed(g, v.file, sn.l1Off, sn.l1Size);
        assert InRun(sn.l1Off + Quot(i, g.es), sn.l1Off, EntryClusters(g, sn.l1Size));
        assert t[i] == L1EntryAt(g, v.file, sn.l1Off, i);
      }
    }
  }

  lemma {:induction false} PassReady(g: Geo, v: Vol, k: nat, addend: int)
    requires Struct(g, v) && k <= |v.snaps| && CanPass(g, v, k, addend)
    ensures RootProcessable(g, v.file, v.rt, v.rtOff, RootTable(g, v, k), addend)
  {
    RootTableNormal(g, v, k);
    var r := Roots(g, v)[k];
    forall y | TreeRefs(g, v.file, r, y) >= 1 ensures Countable(g, v.file, v.rt, v.rtOff, addend, y) {
      RootsAt(g, v.file, Roots(g, v), k, y);
      OccBlock(v.rt, y);
      assert VRC(g, v, y) == RC(g, v.file, v.rt, y);
      assert MetaRefs(g, v, y) == 0;
    }
  }

  /** What the walk over root k does to the image: counts under the root change by addend, contents
      only by copied flags. */
  ghost predicate Recounted(x: Ctx, v: Vol, v': Vol, k: nat, addend: int)
  {
    && Struct(x.g, v) && Struct(x.g, v') && k <= |v.snaps|
    && v' == v.(file := v'.file, l1 := v'.l1) && |v'.l1| == |v.l1|
    && Roots(x.g, v') == Roots(x.g, v) && SameViews(x, v, v')
    && (forall m, y :: 0 <= m <= |v.snaps| ==> TreeRefs(x.g, v'.file, Roots(x.g, v)[m], y) == TreeRefs(x.g, v.file, Roots(x.g, v)[m], y))
    && (forall y :: TreesRefs(x.g, v', y) == TreesRefs(x.g, v, y))
    && (forall y :: VRC(x.g, v', y) == VRC(x.g, v, y) + Times(addend, TreeRefs(x.g, v.file, Roots(x.g, v)[k], y)))
    && (Synced(v) ==> Synced(v'))
  }

  /** The walk makes the copied flags exact when the root is the active one. */
  ghost predicate PassDone(x: Ctx, v: Vol, v': Vol, k: nat, addend: int)
  {
    Recounted(x, v, v', k, addend) && (k == 0 ==> FlagsExact(x.g, v'))
  }

  lemma {:induction false} RecountedThen(x: Ctx, v: Vol, v1: Vol, v': Vol, k: nat, addend: int)
    requires Recounted(x, v, v1, k, addend) && Recounted(x, v1, v', k, 0)
    ensures Recounted(x, v, v', k, addend)
  {
    StructValid(x.g, v);
    hide View, Struct, Synced, VRC, TreesRefs;
    SameViewsTrans(x, v, v1, v');
  }

  /** The state after the loops, before the L1 table is stored. */
  lemma {:induction false} PassFrame(x: Ctx, v: Vol, v1: Vol, k: nat, t': seq<Entry>, addend: int)
    requires Struct(x.g, v) && k <= |v.snaps| && v1 == v.(file := v1.file)
    requires RootProcessed(x.g, v.file, v1.file, v.rt, v.rtOff, RootTable(x.g, v, k), t', |RootTable(x.g, v, k)|, addend)
    requires TableShape(x.g, v1.file, v.rt, v.rtOff)
    ensures Recounted(x, v, v1, k, addend)
  {
    var g := x.g;
    var r := Roots(g, v)[k];
    assert r[..|r|] == r;
    forall y ensures VRC(g, v1, y) == VRC(g, v, y) + Times(addend, TreeRefs(g, v.file, r, y)) {
      assert RC(g, v1.file, v.rt, y) == RC(g, v.file, v.rt, y) + Times(addend, TreeRefs(g, v.file, r[..|r|], y));
    }
    forall y | PlainRefs(g, v, y) >= 1 ensures Alike(g, v.file, v1.file, y) {
      if Owned(g, v.rt, v.rtOff, y) { OwnedIsPlain(g, v, y); }
    }
    PassMeta(g, v, v1, k, t', addend);
    hide RootProcessed, View, RC;
    FlagFrame(x, v, v1);
    SnapWriteStruct(g, v, v1);
  }

  lemma {:induction false} PassMeta(g: Geo, v: Vol, v1: Vol, k: nat, t': seq<Entry>, addend: int)
    requires Struct(g, v) && k <= |v.snaps| && v1 == v.(file := v1.file)
    requires RootProcessed(g, v.file, v1.file, v.rt, v.rtOff, RootTable(g, v, k), t', |RootTable(g, v, k)|, addend)
    ensures SameAt(v.file, v1.file, 0) && (v.snapClusters > 0 ==> SameAt(v.file, v1.file, v.snapOff))
    ensures L1Stored(g, v1.file, v.l1Off, v.l1)
  {
    var r := Roots(g, v)[k];
    assert r[..|r|] == r;
    forall y | y == 0 || InRun(y, v.snapOff, v.snapClusters) || InRun(y, v.l1Off, EntryClusters(g, |v.l1|)) ensures SameAt(v.file, v1.file, y) {
      assert MetaRefs(g, v, y) >= 1;
      OccBlock(v.rt, y);
      RootsAt(g, v.file, Roots(g, v), k, y);
    }
    if v.snapClusters > 0 { assert InRun(v.snapOff, v.snapOff, v.snapClusters); }
    L1StoredFrame(g, v.file, v1.file, v.l1Off, v.l1);
  }

  lemma {:induction false} PassFlags(g: Geo, v: Vol, f1: File, v': Vol, t': seq<Entry>)
    requires Struct(g, v) && v'.l1 == t' && Erase(t') == Erase(v.l1)
    requires forall m :: 0 <= m < |t'| ==> SlotExact(g, f1, v.rt, t'[m])
    requires forall y :: VRC(g, v', y) == RC(g, f1, v.rt, y)
    requires forall m :: 0 <= m < |t'| && t'[m].cluster != 0 ==> SameAt(f1, v'.file, t'[m].cluster)
    ensures FlagsExact(g, v')
  {
    forall k | 0 <= k < |t'| ensures FlagOk(g, v', t'[k]) {
      hide RC;
      assert SlotExact(g, f1, v.rt, t'[k]);
    }
    forall k, j | 0 <= k < |t'| && t'[k].cluster != 0 && 0 <= j < g.es ensures FlagOk(g, v', EntryAt(v'.file, t'[k].cluster, j)) {
      hide RC;
      assert SlotExact(g, f1, v.rt, t'[k]);
      assert EntryAt(v'.file, t'[k].cluster, j) == EntryAt(f1, t'[k].cluster, j);
    }
  }

  /** The walk has ended in v1 with table t'; storing the table leads to v'. */
  ghost predicate Walked(x: Ctx, v: Vol, v1: Vol, v': Vol, k: nat, t': seq<Entry>, addend: int)
  {
    && Struct(x.g, v) && k <= |v.snaps| && v1 == v.(file := v1.file)
    && RootProcessed(x.g, v.file, v1.file, v.rt, v.rtOff, RootTable(x.g, v, k), t', |RootTable(x.g, v, k)|, addend)
    && TableShape(x.g, v1.file, v.rt, v.rtOff)
    && v' == v1.(file := v'.file, l1 := if k == 0 then t' else v.l1)
    && v'.file == (if t' != RootTable(x.g, v, k) then WriteL1(x.g, v1.file, RootOff(v, k), t') else v1.file)
  }

  lemma {:induction false} PassStored(x: Ctx, v: Vol, v1: Vol, v': Vol, k: nat, t': seq<Entry>, addend: int)
    requires Walked(x, v, v1, v', k, t', addend)
    ensures PassDone(x, v, v', k, addend)
    ensures forall y :: Owned(x.g, v.rt, v.rtOff, y) ==> SameAt(v1.file, v'.file, y)
  {
    PassFrame(x, v, v1, k, t', addend);
    if k == 0 {
      PassActive(x, v, v1, v', t', addend);
    } else {
      PassSnap(x, v, v1, v', k, t', addend);
    }
  }

  lemma {:induction false} PassSnap(x: Ctx, v: Vol, v1: Vol, v': Vol, k: nat, t': seq<Entry>, addend: int)
    requires Walked(x, v, v1, v', k, t', addend) && k >= 1
    ensures PassDone(x, v, v', k, addend)
    ensures forall y :: Owned(x.g, v.rt, v.rtOff, y) ==> SameAt(v1.file, v'.file, y)
  {
    PassFrame(x, v, v1, k, t', addend);
    if t' != RootTable(x.g, v, k) {
      assert Erase(t') == Roots(x.g, v1)[k] && forall i :: 0 <= i < |t'| ==> Normal(t'[i]);
      SnapSame(x, v1, v', k, t');
      hide *;
      RecountedThen(x, v, v1, v', k, addend);
      assert PassDone(x, v, v', k, addend) by { Finished(x, v, v', k, addend); }
    } else {
      assert v' == v1;
    }
  }

  lemma {:induction false} Finished(x: Ctx, v: Vol, v': Vol, k: nat, addend: int)
    requires Recounted(x, v, v', k, addend) && (k != 0 || FlagsExact(x.g, v'))
    ensures PassDone(x, v, v', k, addend)
  {
  }

  lemma {:induction false} SnapSame(x: Ctx, v: Vol, v': Vol, k: nat, t: seq<Entry>)
    requires Struct(x.g, v) && 1 <= k <= |v.snaps|
    requires Erase(t) == Roots(x.g, v)[k] && forall i :: 0 <= i < |t| ==> Normal(t[i])
    requires v' == v.(file := WriteL1(x.g, v.file, RootOff(v, k), t))
    ensures Recounted(x, v, v', k, 0)
    ensures forall y :: Owned(x.g, v.rt, v.rtOff, y) || TreesRefs(x.g, v, y) >= 1 ==> SameAt(v.file, v'.file, y)
  {
    hide View, Struct, Synced, VRC, TreesRefs, WriteL1, Owned;
    SnapWrite(x, v, v', k, t);
  }

  lemma {:induction false} PassActive(x: Ctx, v: Vol, v1: Vol, v': Vol, t': seq<Entry>, addend: int)
    requires Walked(x, v, v1, v', 0, t', addend)
    ensures PassDone(x, v, v', 0, addend)
    ensures forall y :: Owned(x.g, v.rt, v.rtOff, y) ==> SameAt(v1.file, v'.file, y)
  {
    PassFrame(x, v, v1, 0, t', addend);
    PassReplaceable(x, v, v1, t', addend);
    assert RootTable(x.g, v, 0) == v.l1;
    assert t' == v.l1 ==> v' == v1;
    assert v1.rt == v.rt && v1.rtOff == v.rtOff && v1.l1 == v.l1;
    if t' != v.l1 {
      ActiveSame(x, v1, v', t');
      ActiveFlags(x.g, v, v1, v', t');
      hide *;
      RecountedThen(x, v, v1, v', 0, addend);
      Finished(x, v, v', 0, addend);
    } else {
      ActiveFlags(x.g, v, v1, v', t');
    }
  }

  lemma {:induction false} ActiveFlags(g: Geo, v: Vol, v1: Vol, v': Vol, t': seq<Entry>)
    requires Struct(g, v) && v1 == v.(file := v1.file) && v'.l1 == t' && Erase(t') == Erase(v.l1)
    requires forall m :: 0 <= m < |t'| ==> SlotExact(g, v1.file, v.rt, t'[m])
    requires forall y :: VRC(g, v', y) == VRC(g, v1, y)
    requires forall y :: TreesRefs(g, v1, y) >= 1 ==> SameAt(v1.file, v'.file, y)
    ensures FlagsExact(g, v')
  {
    forall m | 0 <= m < |t'| && t'[m].cluster != 0 ensures SameAt(v1.file, v'.file, t'[m].cluster) {
      assert v1.l1[m].cluster == Erase(v1.l1)[m] == Erase(t')[m];
      ActiveRef(g, v1, m, 0);
    }
    forall y ensures VRC(g, v', y) == RC(g, v1.file, v.rt, y) { assert VRC(g, v', y) == VRC(g, v1, y); }
    PassFlags(g, v, v1.file, v', t');
  }

  lemma {:induction false} PassReplaceable(x: Ctx, v: Vol, v1: Vol, t': seq<Entry>, addend: int)
    requires Struct(x.g, v1) && v1 == v.(file := v1.file) && x.g.Valid()
    requires RootProcessed(x.g, v.file, v1.file, v.rt, v.rtOff, v.l1, t', |v.l1|, addend)
    ensures Replaceable(x.g, v1, t') && Erase(t') == Erase(v1.l1)
    ensures forall m :: 0 <= m < |t'| ==> SlotExact(x.g, v1.file, v.rt, t'[m])
  {
    var r := Roots(x.g, v1);
    assert r[0] == Erase(t');
    forall y ensures TreeRefs(x.g, v1.file, r[0], y) <= 1 && TreeRefs(x.g, v1.file, r[0], y) <= TreesRefs(x.g, v1, y) {
      RootsAt(x.g, v1.file, r, 0, y);
    }
  }

  /** The active table is rewritten with the same pointers. */
  lemma {:induction false} ActiveSame(x: Ctx, v: Vol, v': Vol, t: seq<Entry>)
    requires Struct(x.g, v) && Replaceable(x.g, v, t) && Erase(t) == Erase(v.l1)
    requires v' == v.(file := WriteL1(x.g, v.file, v.l1Off, t), l1 := t)
    ensures Recounted(x, v, v', 0, 0)
    ensures forall y :: VRC(x.g, v', y) == VRC(x.g, v, y)
    ensures forall y :: Owned(x.g, v.rt, v.rtOff, y) || TreesRefs(x.g, v, y) >= 1 ==> SameAt(v.file, v'.file, y)
  {
    ActiveWrite(x, v, v', t);
    assert Roots(x.g, v') == Roots(x.g, v);
    assert |v'.snaps| == |v.snaps|;
    forall k, s | 0 <= k <= |v.snaps| ensures View(x, v', k, s) == View(x, v, k, s) {
      assert k == 0 ==> View(x, v, k, s) == ViewAt(x.g, v.file, Erase(t), x.base, x.crypt, s);
      hide View;
      assert k == 0 ==> View(x, v', k, s) == ViewAt(x.g, v.file, Erase(t), x.base, x.crypt, s);
    }
  }

  ghost predicate CacheEmpty(s: BDRVQcowState)
    reads s
  {
    |s.l2Keys| == |s.l2Cache| == L2_CACHE_SIZE && HitsOk(s.l2Hits) && forall m :: 0 <= m < |s.l2Keys| ==> s.l2Keys[m] == 0
  }

  ghost predicate PassReadyIn(s: BDRVQcowState, k: nat, addend: int)
    reads s
  {
    s.g.Valid() && Struct(s.g, V(s)) && Counted(s) && k <= |s.snaps| && CanPass(s.g, V(s), k, addend)
  }

  /** Room is kept: no count leaves 0 and the scan position only moves down. */
  lemma {:induction false} RoomKept(g: Geo, v: Vol, v': Vol, k: nat, addend: int, fci: nat, fci': nat, room: nat)
    requires g.Valid() && k <= |v.snaps| && CanPass(g, v, k, addend) && v'.rt == v.rt && fci' <= fci
    requires forall y :: VRC(g, v', y) == VRC(g, v, y) + Times(addend, TreeRefs(g, v.file, Roots(g, v)[k], y))
    requires Room(g, v.file, v.rt, fci, room)
    ensures Room(g, v'.file, v'.rt, fci', room)
  {
    forall y | y + room >= Capacity(g, v.rt) ensures RC(g, v'.file, v'.rt, y) == 0 {
      assert VRC(g, v, y) == RC(g, v.file, v.rt, y) == 0;
      assert VRC(g, v', y) == RC(g, v'.file, v'.rt, y);
    }
  }

  /** The L1 table of the walk: the one in memory for the active image, else read from the file. */
  method LoadRoot(s: BDRVQcowState, off: nat, n: nat, ghost k: nat) returns (t: seq<Entry>)
    requires s.g.Valid() && Struct(s.g, V(s)) && k <= |s.snaps| && off == RootOff(V(s), k) && n == RootSize(V(s), k)
    ensures t == RootTable(s.g, V(s), k)
    ensures off == s.l1Off <==> k == 0
  {
    if off != s.l1Off {
      t := ReadL1(s.g, s.file, off, n);
    } else {
      t := s.l1;
    }
    RootOffApart(s.g, V(s), k);
  }

  lemma {:induction false} RootOffApart(g: Geo, v: Vol, k: nat)
    requires Struct(g, v) && k <= |v.snaps|
    ensures RootOff(v, k) == v.l1Off <==> k == 0
  {
    if k > 0 && RootOff(v, k) == v.l1Off {
      EntryClustersPositive(g, |v.l1|);
      EntryClustersPositive(g, RootSize(v, k));
      assert InRoot(g, v, 0, v.l1Off) && InRoot(g, v, k, v.l1Off);
      RootApart(g, v, 0, v.l1Off);
    }
  }

  /** Stores the table of the walk if an entry changed. */
  method StoreRoot(s: BDRVQcowState, off: nat, t: seq<Entry>, t': seq<Entry>, ghost v: Vol, ghost k: nat, ghost addend: int)
    requires s.g.Valid() && Counted(s) && Struct(s.g, v) && V(s) == v.(file := s.file) && k <= |v.snaps| && off == RootOff(v, k)
    requires t == RootTable(s.g, v, k) && RootProcessed(s.g, v.file, s.file, v.rt, v.rtOff, t, t', |t|, addend)
    requires off == s.l1Off <==> k == 0
    modifies s`file, s`l1
    ensures Counted(s) && PassDone(X(s), v, V(s), k, addend)
  {
    hide RootProcessed, WriteL1, Struct, RC, Owned, TableShape, OwnedCounted, BlockCacheOk, ScanOk, PassDone;
    ghost var v1 := V(s);
    if t' != t {
      s.file := WriteL1(s.g, s.file, off, t');
    }
    if off == s.l1Off {
      s.l1 := t';
    }
    assert Walked(X(s), v, v1, V(s), k, t', addend);
    hide Walked;
    PassStored(X(s), v, v1, V(s), k, t', addend);
    StoredCounts(s.g, v1.file, s.file, s.rt, s.rtOff, s.rbCacheOff, s.rbCache);
  }

  lemma {:induction false} StoredCounts(g: Geo, f: File, f': File, rt: seq<nat>, rtOff: nat, off: nat, cache: seq<nat>)
    requires TableShape(g, f, rt, rtOff) && OwnedCounted(g, f, rt, rtOff) && BlockCacheOk(g, f, rt, off, cache)
    requires forall y :: Owned(g, rt, rtOff, y) ==> SameAt(f, f', y)
    ensures TableShape(g, f', rt, rtOff) && OwnedCounted(g, f', rt, rtOff) && BlockCacheOk(g, f', rt, off, cache)
  {
    ShapeFrame(g, f, f', rt, rtOff);
    if off != 0 { assert Owned(g, rt, rtOff, off); }
  }

  /** Adds addend to the counts of all that root k's L1 table, stored at off, refers to, and
      recomputes the copied flags under it. */
  method UpdateSnapshotRefcount(s: BDRVQcowState, off: nat, n: nat, addend: int, ghost k: nat, ghost room: nat)
    requires addend in {-1, 0, 1} && PassReadyIn(s, k, addend) && RoomFor(s, room)
    requires off == RootOff(V(s), k) && n == RootSize(V(s), k)
    modifies s`file, s`l1, s`l2Keys, s`l2Hits, s`l2Cache, s`rt, s`rbCache, s`rbCacheOff, s`fci
    ensures s.g.Valid() && Counted(s) && CacheEmpty(s) && RoomFor(s, room)
    ensures PassDone(X(s), old(V(s)), V(s), k, addend)
  {
    L2CacheReset(s);
    hide Struct, CanPass, Counted, PassDone, RootOff, RootSize, Room, CacheOk, HitsOk;
    WalkRoot(s, off, n, addend, k, room);
  }

  method WalkRoot(s: BDRVQcowState, off: nat, n: nat, addend: int, ghost k: nat, ghost room: nat)
    requires addend in {-1, 0, 1} && PassReadyIn(s, k, addend) && RoomFor(s, room)
    requires off == RootOff(V(s), k) && n == RootSize(V(s), k)
    modifies s`file, s`l1, s`rt, s`rbCache, s`rbCacheOff, s`fci
    ensures Counted(s) && RoomFor(s, room)
    ensures PassDone(X(s), old(V(s)), V(s), k, addend)
  {
    ghost var v := V(s);
    hide Struct, RootProcessed, RootProcessable, PassDone, CanPass, RC, Room, Owned, OwnedCounted, TableShape, BlockCacheOk, ScanOk, RootTable, RootOff, RootSize;
    var t := LoadRoot(s, off, n, k);
    PassReady(s.g, v, k, addend);
    var t' := UpdateRoot(s, t, addend);
    StoreRoot(s, off, t, t', v, k, addend);
    WalkRoom(X(s), v, V(s), k, addend, old(s.fci), s.fci, room);
  }

  lemma {:induction false} WalkRoom(x: Ctx, v: Vol, v': Vol, k: nat, addend: int, fci: nat, fci': nat, room: nat)
    requires x.g.Valid() && k <= |v.snaps| && CanPass(x.g, v, k, addend) && fci' <= fci
    requires PassDone(x, v, v', k, addend) && Room(x.g, v.file, v.rt, fci, room)
    ensures Room(x.g, v'.file, v'.rt, fci', room)
  {
    RoomKept(x.g, v, v', k, addend, fci, fci', room);
  }
}
