/** Rewriting L1 tables in place, and adding and dropping the L1 table of a snapshot. */
module Qcow2Tables {
  import opened Qcow2Layout
  import opened Qcow2Trees
  import opened Qcow2Counts
  import opened Qcow2Volume
  import opened Qcow2Steps
  import opened Qcow2Grow

  // ---------------------------------------------------------------- runs of metadata

  lemma {:induction false} SnapTableRefsTwo(g: Geo, snaps: seq<Snap>, k: nat, m: nat, x: nat)
    requires g.es > 0 && k < m < |snaps|
    requires InRun(x, snaps[k].l1Off, EntryClusters(g, snaps[k].l1Size)) && InRun(x, snaps[m].l1Off, EntryClusters(g, snaps[m].l1Size))
    ensures SnapTableRefs(g, snaps, x) >= 2
  {
    if m < |snaps| - 1 {
      SnapTableRefsTwo(g, snaps[..|snaps| - 1], k, m, x);
    } else {
      SnapTableRefsAt(g, snaps[..|snaps| - 1], k, x);
    }
  }

  /** Where the L1 table of root k is stored, and its size. */
  ghost function RootOff(v: Vol, k: nat): nat
    requires k <= |v.snaps|
  {
    if k == 0 then v.l1Off else v.snaps[k - 1].l1Off
  }

  ghost function RootSize(v: Vol, k: nat): nat
    requires k <= |v.snaps|
  {
    if k == 0 then |v.l1| else v.snaps[k - 1].l1Size
  }

  ghost predicate InRoot(g: Geo, v: Vol, k: nat, y: nat)
    requires g.es > 0 && k <= |v.snaps|
  {
    InRun(y, RootOff(v, k), EntryClusters(g, RootSize(v, k)))
  }

  lemma {:induction false} RootsMeet(g: Geo, v: Vol, k: nat, m: nat, y: nat)
    requires g.Valid() && k < m <= |v.snaps| && InRoot(g, v, k, y) && InRoot(g, v, m, y)
    ensures MetaRefs(g, v, y) >= 2
  {
    SnapTableRefsAt(g, v.snaps, m - 1, y);
    if k > 0 { SnapTableRefsTwo(g, v.snaps, k - 1, m - 1, y); }
  }

  /** A cluster of one L1 table has no other use. */
  lemma {:induction false} RootApart(g: Geo, v: Vol, k: nat, y: nat)
    requires g.Valid() && Exclusive(g, v) && k <= |v.snaps| && InRoot(g, v, k, y)
    ensures y != 0 && !Owned(g, v.rt, v.rtOff, y) && !InRun(y, v.snapOff, v.snapClusters)
    ensures TreesRefs(g, v, y) == 0 && MetaRefs(g, v, y) == 1
    ensures forall m :: 0 <= m <= |v.snaps| && m != k ==> !InRoot(g, v, m, y)
  {
    if k > 0 { SnapTableRefsAt(g, v.snaps, k - 1, y); }
    OccBlock(v.rt, y);
    assert MetaRefs(g, v, y) >= 1;
    assert MetaRefs(g, v, y) == 1;
    forall m | 0 <= m <= |v.snaps| && m != k ensures !InRoot(g, v, m, y) {
      if InRoot(g, v, m, y) {
        if k < m { RootsMeet(g, v, k, m, y); } else { RootsMeet(g, v, m, k, y); }
      }
    }
  }

  /** Only the clusters of root k's L1 table change. */
  ghost predicate RootWrite(g: Geo, v: Vol, f': File, k: nat)
  {
    && Struct(g, v) && k <= |v.snaps|
    && (forall y :: !InRoot(g, v, k, y) ==> SameAt(v.file, f', y))
  }

  /** Trees, counts, header and snapshot table do not depend on the clusters of an L1 table. */
  lemma {:induction false} RootWriteFrame(g: Geo, v: Vol, f': File, k: nat)
    requires RootWrite(g, v, f', k)
    ensures TableShape(g, f', v.rt, v.rtOff) && forall y :: RC(g, f', v.rt, y) == RC(g, v.file, v.rt, y)
    ensures forall y :: Owned(g, v.rt, v.rtOff, y) || TreesRefs(g, v, y) >= 1 || y == 0 ==> SameAt(v.file, f', y)
    ensures v.snapClusters > 0 ==> SameAt(v.file, f', v.snapOff)
  {
    forall y | Owned(g, v.rt, v.rtOff, y) || TreesRefs(g, v, y) >= 1 || y == 0 || InRun(y, v.snapOff, v.snapClusters) ensures SameAt(v.file, f', y) {
      if InRoot(g, v, k, y) { RootApart(g, v, k, y); }
    }
    if v.snapClusters > 0 { assert InRun(v.snapOff, v.snapOff, v.snapClusters); }
    ShapeFrame(g, v.file, f', v.rt, v.rtOff);
  }

  /** The other L1 tables read as before. */
  lemma {:induction false} RootWriteOthers(g: Geo, v: Vol, f': File, k: nat, m: nat)
    requires RootWrite(g, v, f', k) && m <= |v.snaps| && m != k
    ensures DiskRoot(g, f', RootOff(v, m), RootSize(v, m)) == DiskRoot(g, v.file, RootOff(v, m), RootSize(v, m))
    ensures L1Typed(g, v.file, RootOff(v, m), RootSize(v, m)) ==> L1Typed(g, f', RootOff(v, m), RootSize(v, m))
    ensures m == 0 ==> L1Stored(g, f', v.l1Off, v.l1)
  {
    forall y | InRoot(g, v, m, y) ensures SameAt(v.file, f', y) { if InRoot(g, v, k, y) { RootApart(g, v, k, y); } }
    assert forall y :: InRun(y, RootOff(v, m), EntryClusters(g, RootSize(v, m))) ==> InRoot(g, v, m, y);
    DiskRootFrame(g, v.file, f', RootOff(v, m), RootSize(v, m));
    if m == 0 { L1StoredFrame(g, v.file, f', v.l1Off, v.l1); }
  }

  lemma {:induction false} StoredRoot(g: Geo, f: File, off: nat, t: seq<Entry>)
    requires g.es > 0 && L1Stored(g, f, off, t)
    ensures ReadL1(g, f, off, |t|) == t && DiskRoot(g, f, off, |t|) == Erase(t)
  {
    assert ReadL1(g, f, off, |t|) == t;
  }

  /** Snapshot k-1's L1 table is rewritten with the same pointers. */
  lemma {:induction false} SnapWrite(x: Ctx, v: Vol, v': Vol, k: nat, t: seq<Entry>)
    requires Struct(x.g, v) && 1 <= k <= |v.snaps|
    requires Erase(t) == Roots(x.g, v)[k] && forall i :: 0 <= i < |t| ==> Normal(t[i])
    requires v' == v.(file := WriteL1(x.g, v.file, RootOff(v, k), t))
    ensures Struct(x.g, v') && Roots(x.g, v') == Roots(x.g, v) && SameViews(x, v, v') && (Synced(v) ==> Synced(v'))
    ensures forall m, y :: 0 <= m <= |v.snaps| ==> TreeRefs(x.g, v'.file, Roots(x.g, v)[m], y) == TreeRefs(x.g, v.file, Roots(x.g, v)[m], y)
    ensures forall y :: TreesRefs(x.g, v', y) == TreesRefs(x.g, v, y) && VRC(x.g, v', y) == VRC(x.g, v, y)
    ensures forall y :: Owned(x.g, v.rt, v.rtOff, y) || TreesRefs(x.g, v, y) >= 1 ==> SameAt(v.file, v'.file, y)
  {
    var g := x.g;
    WriteL1Stored(g, v.file, RootOff(v, k), t);
    assert |t| == RootSize(v, k);
    assert RootWrite(g, v, v'.file, k);
    hide View, WriteL1;
    RootWriteFrame(g, v, v'.file, k);
    SnapWriteRoots(g, v, v'.file, k, t);
    assert Roots(g, v') == Roots(g, v);
    RootsFrame(g, v.file, v'.file, Roots(g, v));
    LookupViews(x, v, v');
    RootWriteOthers(g, v, v'.file, k, 0);
    SnapWriteStruct(g, v, v');
  }

  lemma {:induction false} SnapWriteStruct(g: Geo, v: Vol, v': Vol)
    requires Struct(g, v) && v' == v.(file := v'.file) && Roots(g, v') == Roots(g, v)
    requires RootsOk(g, v'.file, Roots(g, v)) && TableShape(g, v'.file, v.rt, v.rtOff)
    requires L1Stored(g, v'.file, v.l1Off, v.l1) && SnapsTyped(g, v'.file, v.snaps)
    requires forall m, y :: 0 <= m <= |v.snaps| ==> TreeRefs(g, v'.file, Roots(g, v)[m], y) == TreeRefs(g, v.file, Roots(g, v)[m], y)
    requires forall y :: TreesRefs(g, v', y) == TreesRefs(g, v, y)
    ensures Struct(g, v')
  {
    assert forall y :: MetaRefs(g, v', y) == MetaRefs(g, v, y);
  }

  lemma {:induction false} LookupViews(x: Ctx, v: Vol, v': Vol)
    requires x.g.Valid() && |v'.snaps| == |v.snaps| && Roots(x.g, v') == Roots(x.g, v)
    requires forall k, u :: 0 <= k <= |v.snaps| ==> Lookup(x.g, v'.file, Roots(x.g, v)[k], u) == Lookup(x.g, v.file, Roots(x.g, v)[k], u)
    requires forall k, u, j :: 0 <= k <= |v.snaps| && Lookup(x.g, v.file, Roots(x.g, v)[k], u) != 0 ==>
              SectorAt(v'.file, Lookup(x.g, v.file, Roots(x.g, v)[k], u), j) == SectorAt(v.file, Lookup(x.g, v.file, Roots(x.g, v)[k], u), j)
    ensures SameViews(x, v, v')
  {
  }

  lemma {:induction false} SnapWriteRoots(g: Geo, v: Vol, f': File, k: nat, t: seq<Entry>)
    requires RootWrite(g, v, f', k) && k >= 1
    requires Erase(t) == Roots(g, v)[k] && |t| == RootSize(v, k) && L1Stored(g, f', RootOff(v, k), t)
    ensures SnapRoots(g, f', v.snaps) == SnapRoots(g, v.file, v.snaps)
    ensures SnapsTyped(g, f', v.snaps)
  {
    StoredRoot(g, f', RootOff(v, k), t);
    forall m | 0 <= m < |v.snaps|
      ensures SnapRoots(g, f', v.snaps)[m] == SnapRoots(g, v.file, v.snaps)[m]
      ensures L1Typed(g, f', v.snaps[m].l1Off, v.snaps[m].l1Size)
    {
      if m + 1 != k {
        RootWriteOthers(g, v, f', k, m + 1);
        assert L1Typed(g, v.file, v.snaps[m].l1Off, v.snaps[m].l1Size);
      }
    }
  }

  /** Table t can replace the active one: the image already refers to everything under it. */
  ghost predicate Replaceable(g: Geo, v: Vol, t: seq<Entry>)
    requires g.Valid()
  {
    && |t| == |v.l1| && (forall i :: 0 <= i < |t| ==> Normal(t[i]))
    && TreeOk(g, v.file, Erase(t))
    && (forall y :: TreeRefs(g, v.file, Erase(t), y) <= 1)
    && (forall y :: TreeRefs(g, v.file, Erase(t), y) >= 1 ==> TreesRefs(g, v, y) >= 1)
  }

  /** The active L1 table is replaced, in memory and in the file. */
  lemma {:induction false} ActiveWrite(x: Ctx, v: Vol, v': Vol, t: seq<Entry>)
    requires Struct(x.g, v) && Replaceable(x.g, v, t)
    requires v' == v.(file := WriteL1(x.g, v.file, v.l1Off, t), l1 := t)
    ensures Struct(x.g, v') && Roots(x.g, v') == Roots(x.g, v)[0 := Erase(t)] && (Synced(v) ==> Synced(v'))
    ensures forall m, y :: 0 <= m <= |v.snaps| ==> TreeRefs(x.g, v'.file, Roots(x.g, v')[m], y) == TreeRefs(x.g, v.file, Roots(x.g, v')[m], y)
    ensures forall y :: TreesRefs(x.g, v', y) + TreeRefs(x.g, v.file, Roots(x.g, v)[0], y) == TreesRefs(x.g, v, y) + TreeRefs(x.g, v.file, Erase(t), y)
    ensures forall y :: MetaRefs(x.g, v', y) == MetaRefs(x.g, v, y) && VRC(x.g, v', y) == VRC(x.g, v, y)
    ensures forall m: nat, s: nat :: m <= |v.snaps| ==>
              View(x, v', m, s) == if m == 0 then ViewAt(x.g, v.file, Erase(t), x.base, x.crypt, s) else View(x, v, m, s)
    ensures forall y :: Owned(x.g, v.rt, v.rtOff, y) || TreesRefs(x.g, v, y) >= 1 ==> SameAt(v.file, v'.file, y)
  {
    var g := x.g;
    WriteL1Stored(g, v.file, v.l1Off, t);
    RootWriteFrame(g, v, v'.file, 0);
    ActiveWriteRoots(g, v, v'.file, t);
    assert Roots(g, v') == Roots(g, v)[0 := Erase(t)];
    ActiveWriteTrees(g, v, v', t);
    ActiveWriteStruct(g, v, v', t);
  }

  lemma {:induction false} ActiveWriteRoots(g: Geo, v: Vol, f': File, t: seq<Entry>)
    requires RootWrite(g, v, f', 0) && Replaceable(g, v, t)
    ensures SnapRoots(g, f', v.snaps) == SnapRoots(g, v.file, v.snaps)
    ensures SnapsTyped(g, f', v.snaps)
    ensures forall y :: TreeRefs(g, v.file, Erase(t), y) >= 1 ==> SameAt(v.file, f', y)
  {
    RootWriteFrame(g, v, f', 0);
    forall m | 0 <= m < |v.snaps|
      ensures SnapRoots(g, f', v.snaps)[m] == SnapRoots(g, v.file, v.snaps)[m]
      ensures L1Typed(g, f', v.snaps[m].l1Off, v.snaps[m].l1Size)
    {
      RootWriteOthers(g, v, f', 0, m + 1);
      assert L1Typed(g, v.file, v.snaps[m].l1Off, v.snaps[m].l1Size);
    }
  }

  lemma {:induction false} ActiveWriteTrees(g: Geo, v: Vol, v': Vol, t: seq<Entry>)
    requires Struct(g, v) && Replaceable(g, v, t) && |v'.snaps| == |v.snaps|
    requires Roots(g, v') == Roots(g, v)[0 := Erase(t)]
    requires forall y :: TreesRefs(g, v, y) >= 1 ==> SameAt(v.file, v'.file, y)
    ensures RootsOk(g, v'.file, Roots(g, v'))
    ensures forall m, y :: 0 <= m <= |v.snaps| ==> TreeRefs(g, v'.file, Roots(g, v')[m], y) == TreeRefs(g, v.file, Roots(g, v')[m], y)
    ensures forall y :: TreesRefs(g, v', y) + TreeRefs(g, v.file, Roots(g, v)[0], y) == TreesRefs(g, v, y) + TreeRefs(g, v.file, Erase(t), y)
    ensures forall m, u :: 0 <= m <= |v.snaps| ==> Lookup(g, v'.file, Roots(g, v')[m], u) == Lookup(g, v.file, Roots(g, v')[m], u)
    ensures forall m, u, j :: 0 <= m <= |v.snaps| && Lookup(g, v.file, Roots(g, v')[m], u) != 0 ==>
              SectorAt(v'.file, Lookup(g, v.file, Roots(g, v')[m], u), j) == SectorAt(v.file, Lookup(g, v.file, Roots(g, v')[m], u), j)
  {
    var r, r' := Roots(g, v), Roots(g, v');
    forall y ensures RootsRefs(g, v.file, r', y) + TreeRefs(g, v.file, r[0], y) == TreesRefs(g, v, y) + TreeRefs(g, v.file, Erase(t), y) {
      RootsUpdate(g, v.file, r, 0, Erase(t), y);
    }
    forall y | RootsRefs(g, v.file, r', y) >= 1 ensures Alike(g, v.file, v'.file, y) {
      if TreesRefs(g, v, y) == 0 { RootsAt(g, v.file, r, 0, y); }
    }
    assert RootsOk(g, v.file, r');
    RootsFrame(g, v.file, v'.file, r');
  }

  lemma {:induction false} ActiveWriteStruct(g: Geo, v: Vol, v': Vol, t: seq<Entry>)
    requires Struct(g, v) && Replaceable(g, v, t)
    requires v' == v.(file := v'.file, l1 := t)
    requires Roots(g, v') == Roots(g, v)[0 := Erase(t)]
    requires RootsOk(g, v'.file, Roots(g, v')) && TableShape(g, v'.file, v.rt, v.rtOff)
    requires forall m, y :: 0 <= m <= |v.snaps| ==> TreeRefs(g, v'.file, Roots(g, v')[m], y) == TreeRefs(g, v.file, Roots(g, v')[m], y)
    requires forall y :: TreesRefs(g, v', y) + TreeRefs(g, v.file, Roots(g, v)[0], y) == TreesRefs(g, v, y) + TreeRefs(g, v.file, Erase(t), y)
    requires L1Stored(g, v'.file, v.l1Off, t) && SnapsTyped(g, v'.file, v.snaps)
    ensures Struct(g, v')
    ensures forall y :: MetaRefs(g, v', y) == MetaRefs(g, v, y)
  {
    forall m, y | 0 <= m <= |v.snaps| ensures TreeRefs(g, v'.file, Roots(g, v')[m], y) <= 1 {
      assert m > 0 ==> Roots(g, v')[m] == Roots(g, v)[m];
    }
    forall y | MetaRefs(g, v', y) >= 1 ensures MetaRefs(g, v', y) == 1 && TreesRefs(g, v', y) == 0 {
      assert MetaRefs(g, v, y) == MetaRefs(g, v', y);
      assert TreesRefs(g, v, y) == 0;
    }
  }
}
