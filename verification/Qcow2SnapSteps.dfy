/** Single changes of an image that snapshot operations are made of. */
module Qcow2SnapSteps {
  import opened Qcow2Layout
  import opened Qcow2Trees
  import opened Qcow2Counts
  import opened Qcow2Volume
  import opened Qcow2Steps
  import opened Qcow2Grow
  import opened Qcow2Tables
  import opened Qcow2Recount

  // ---------------------------------------------------------------- bounds on counts

  lemma {:induction false} RootsBound(g: Geo, f: File, roots: seq<seq<nat>>, x: nat)
    requires forall k :: 0 <= k < |roots| ==> TreeRefs(g, f, roots[k], x) <= 1
    ensures RootsRefs(g, f, roots, x) <= |roots|
  {
    if roots != [] { RootsBound(g, f, roots[..|roots| - 1], x); }
  }

  /** A cluster of a tree has at most one reference per root. */
  lemma {:induction false} TreeCounts(g: Geo, v: Vol, k: nat, y: nat)
    requires Struct(g, v) && k <= |v.snaps| && TreeRefs(g, v.file, Roots(g, v)[k], y) >= 1
    ensures MetaRefs(g, v, y) == 0 && TreeRefs(g, v.file, Roots(g, v)[k], y) <= Refs(g, v, y) <= |v.snaps| + 1
  {
    RootsAt(g, v.file, Roots(g, v), k, y);
    RootsBound(g, v.file, Roots(g, v), y);
  }

  /** Counts may go up once more below 65535 references, and down from any sound image. */
  lemma {:induction false} SoundCanPass(g: Geo, v: Vol, k: nat, addend: int)
    requires Struct(g, v) && Balanced(g, v, 0, 0, 0) && k <= |v.snaps| && (addend == 1 ==> |v.snaps| + 1 < MAX_COUNT)
    ensures CanPass(g, v, k, addend)
  {
    forall y | TreeRefs(g, v.file, Roots(g, v)[k], y) >= 1
      ensures VRC(g, v, y) >= 1 && (addend == 1 ==> VRC(g, v, y) < MAX_COUNT)
    {
      hide Struct, VRC;
      TreeCounts(g, v, k, y);
      assert VRC(g, v, y) + One(false) == Refs(g, v, y) + One(InRun(y, 0, 0));
    }
  }

  // ---------------------------------------------------------------- the snapshot table

  ghost predicate HeaderAgrees(v: Vol)
  {
    0 in v.file && v.file[0].Header? && v.file[0].l1Off == v.l1Off && v.file[0].l1Size == |v.l1| &&
    v.file[0].rtOff == v.rtOff && v.file[0].rtSize == |v.rt|
  }

  /** The header fields of the snapshot table. */
  function PutSnapHeader(f: File, off: nat, n: nat): File
  {
    if 0 in f && f[0].Header? then f[0 := f[0].(snapOff := off, nbSnaps := n)] else f
  }

  /** The header switches to the snapshot table stored in the fresh run c .. c+n. */
  ghost predicate SnapSwitch(g: Geo, v: Vol, v': Vol, c: nat, n: nat)
  {
    && Struct(g, v) && HeaderAgrees(v)
    && v' == v.(file := PutSnapHeader(v.file, c, |v.snaps|), snapOff := c, snapClusters := n)
    && (n > 0 ==> c > 0)
    && (forall y :: InRun(y, c, n) ==> Refs(g, v, y) == 0)
    && (|v.snaps| > 0 ==> n > 0 && c in v.file && v.file[c] == SnapTable(v.snaps))
  }

  lemma {:induction false} SnapSwitchFrame(g: Geo, v: Vol, v': Vol, c: nat, n: nat)
    requires SnapSwitch(g, v, v', c, n)
    ensures forall y :: y != 0 ==> SameAt(v.file, v'.file, y)
    ensures Synced(v')
    ensures TableShape(g, v'.file, v.rt, v.rtOff) && forall y :: VRC(g, v', y) == VRC(g, v, y)
    ensures L1Stored(g, v'.file, v.l1Off, v.l1)
    ensures forall y :: SnapTableRefs(g, v.snaps, y) >= 1 || TreesRefs(g, v, y) >= 1 || Owned(g, v.rt, v.rtOff, y) ==> y != 0
  {
    assert MetaRefs(g, v, 0) >= 1;
    OccZero(v.rt);
    OccBlock(v.rt, 0);
    ShapeFrame(g, v.file, v'.file, v.rt, v.rtOff);
    L1StoredFrame(g, v.file, v'.file, v.l1Off, v.l1);
  }

  lemma {:induction false} SnapSwitchTrees(x: Ctx, v: Vol, v': Vol, c: nat, n: nat)
    requires SnapSwitch(x.g, v, v', c, n)
    ensures Roots(x.g, v') == Roots(x.g, v) && SameViews(x, v, v')
    ensures RootsOk(x.g, v'.file, Roots(x.g, v)) && SnapsTyped(x.g, v'.file, v.snaps)
    ensures forall m, y :: 0 <= m <= |v.snaps| ==> TreeRefs(x.g, v'.file, Roots(x.g, v)[m], y) == TreeRefs(x.g, v.file, Roots(x.g, v)[m], y)
    ensures forall y :: TreesRefs(x.g, v', y) == TreesRefs(x.g, v, y)
  {
    SnapSwitchFrame(x.g, v, v', c, n);
    RootsKept(x.g, v, v'.file);
    assert Roots(x.g, v') == Roots(x.g, v.(file := v'.file));
    RootsFrame(x.g, v.file, v'.file, Roots(x.g, v));
    hide View;
    LookupViews(x, v, v');
  }

  lemma {:induction false} SnapSwitched(x: Ctx, v: Vol, v': Vol, c: nat, n: nat)
    requires SnapSwitch(x.g, v, v', c, n) && Balanced(x.g, v, c, n, 0) && FlagsExact(x.g, v)
    ensures Struct(x.g, v') && Synced(v') && FlagsExact(x.g, v') && SameViews(x, v, v')
    ensures Balanced(x.g, v', v.snapOff, v.snapClusters, 0)
    ensures forall y :: TreesRefs(x.g, v', y) == TreesRefs(x.g, v, y)
    ensures forall y :: InRun(y, v.snapOff, v.snapClusters) ==> Refs(x.g, v', y) == 0 && y != 0 && !Owned(x.g, v.rt, v.rtOff, y)
    ensures forall y :: y != 0 ==> SameAt(v.file, v'.file, y)
    ensures forall y :: Owned(x.g, v.rt, v.rtOff, y) ==> y != 0
  {
    SnapSwitchFrame(x.g, v, v', c, n);
    SnapSwitchTrees(x, v, v', c, n);
    SnapSwitchRefs(x.g, v, v', c, n);
    SnapSwitchFlags(x.g, v, v');
  }

  lemma {:induction false} SnapSwitchFlags(g: Geo, v: Vol, v': Vol)
    requires Struct(g, v) && FlagsExact(g, v) && v'.l1 == v.l1 && forall y :: VRC(g, v', y) == VRC(g, v, y)
    requires forall y :: TreesRefs(g, v, y) >= 1 ==> SameAt(v.file, v'.file, y)
    ensures FlagsExact(g, v')
  {
    hide VRC, Struct;
    StructValid(g, v);
    forall k | 0 <= k < |v.l1| && v.l1[k].cluster != 0 ensures SameAt(v.file, v'.file, v.l1[k].cluster) { ActiveRef(g, v, k, 0); }
    FlagsCarry(g, v, v', -1, -1, -1);
  }

  lemma {:induction false} SnapSwitchRefs(g: Geo, v: Vol, v': Vol, c: nat, n: nat)
    requires SnapSwitch(g, v, v', c, n) && Balanced(g, v, c, n, 0)
    requires Roots(g, v') == Roots(g, v) && RootsOk(g, v'.file, Roots(g, v)) && SnapsTyped(g, v'.file, v.snaps)
    requires L1Stored(g, v'.file, v.l1Off, v.l1) && TableShape(g, v'.file, v.rt, v.rtOff)
    requires forall m, y :: 0 <= m <= |v.snaps| ==> TreeRefs(g, v'.file, Roots(g, v)[m], y) == TreeRefs(g, v.file, Roots(g, v)[m], y)
    requires forall y :: TreesRefs(g, v', y) == TreesRefs(g, v, y) && VRC(g, v', y) == VRC(g, v, y)
    ensures Struct(g, v') && Balanced(g, v', v.snapOff, v.snapClusters, 0)
    ensures forall y :: InRun(y, v.snapOff, v.snapClusters) ==> Refs(g, v', y) == 0 && y != 0 && !Owned(g, v.rt, v.rtOff, y)
  {
    forall y ensures MetaRefs(g, v', y) + One(InRun(y, v.snapOff, v.snapClusters)) == MetaRefs(g, v, y) + One(InRun(y, c, n)) {}
    forall y ensures VRC(g, v', y) + One(false) == Refs(g, v', y) + One(InRun(y, v.snapOff, v.snapClusters)) {
      assert VRC(g, v, y) + One(false) == Refs(g, v, y) + One(InRun(y, c, n));
      assert VRC(g, v', y) == VRC(g, v, y);
    }
    forall y | MetaRefs(g, v', y) >= 1 ensures MetaRefs(g, v', y) == 1 && TreesRefs(g, v', y) == 0 {
      assert InRun(y, c, n) ==> Refs(g, v, y) == 0;
    }
    forall y | InRun(y, v.snapOff, v.snapClusters) ensures Refs(g, v', y) == 0 && y != 0 && !Owned(g, v.rt, v.rtOff, y) {
      assert MetaRefs(g, v, y) == 1;
      OccBlock(v.rt, y);
    }
  }

  // ---------------------------------------------------------------- a snapshot more

  /** Snapshot sn, a copy of the active L1 table in the run at sn.l1Off, joins the list. */
  ghost predicate SnapAdd(g: Geo, v: Vol, v': Vol, sn: Snap)
  {
    && Struct(g, v) && v' == v.(snaps := v.snaps + [sn])
    && sn.l1Size == |v.l1| && sn.l1Off > 0 && L1Stored(g, v.file, sn.l1Off, v.l1)
    && (forall y :: InRun(y, sn.l1Off, EntryClusters(g, sn.l1Size)) ==> Refs(g, v, y) == 0)
  }

  lemma {:induction false} SnapAddRoots(g: Geo, v: Vol, v': Vol, sn: Snap)
    requires SnapAdd(g, v, v', sn)
    ensures Roots(g, v') == Roots(g, v) + [Erase(v.l1)]
    ensures forall y :: TreesRefs(g, v', y) == TreesRefs(g, v, y) + TreeRefs(g, v.file, Roots(g, v)[0], y)
    ensures forall y :: MetaRefs(g, v', y) == MetaRefs(g, v, y) + One(InRun(y, sn.l1Off, EntryClusters(g, sn.l1Size)))
  {
    StoredRoot(g, v.file, sn.l1Off, v.l1);
    var r, r' := Roots(g, v), Roots(g, v');
    assert r' == r + [Erase(v.l1)];
    assert r'[..|r' | - 1] == r;
    assert v'.snaps[..|v'.snaps| - 1] == v.snaps;
  }

  lemma {:induction false} SnapAdded(x: Ctx, v: Vol, v': Vol, sn: Snap)
    requires SnapAdd(x.g, v, v', sn) && FlagsExact(x.g, v)
    requires forall y :: VRC(x.g, v, y) == Refs(x.g, v, y) + TreeRefs(x.g, v.file, Roots(x.g, v)[0], y) + One(InRun(y, sn.l1Off, EntryClusters(x.g, sn.l1Size)))
    ensures Struct(x.g, v') && Balanced(x.g, v', 0, 0, 0) && FlagsExact(x.g, v')
    ensures forall k: nat, s: nat :: k <= |v.snaps| + 1 ==> View(x, v', k, s) == View(x, v, if k <= |v.snaps| then k else 0, s)
  {
    var g := x.g;
    var r, r' := Roots(g, v), Roots(g, v');
    SnapAddRoots(g, v, v', sn);
    assert forall k :: 0 <= k <= |v.snaps| ==> r'[k] == r[k];
    assert r'[|v.snaps| + 1] == r[0];
    forall y ensures VRC(g, v', y) + One(false) == Refs(g, v', y) + One(InRun(y, 0, 0)) {
      assert VRC(g, v', y) == VRC(g, v, y);
    }
    SnapAddStruct(g, v, v', sn);
    SnapSwitchFlags(g, v, v');
  }

  lemma {:induction false} SnapAddStruct(g: Geo, v: Vol, v': Vol, sn: Snap)
    requires SnapAdd(g, v, v', sn)
    ensures Struct(g, v')
  {
    SnapAddRoots(g, v, v', sn);
    var r, r' := Roots(g, v), Roots(g, v');
    forall k | 0 <= k < |r'| ensures TreeOk(g, v'.file, r'[k]) && forall y :: TreeRefs(g, v'.file, r'[k], y) <= 1 {
      assert r'[k] == r[if k <= |v.snaps| then k else 0];
    }
    forall y | MetaRefs(g, v', y) >= 1 ensures MetaRefs(g, v', y) == 1 && TreesRefs(g, v', y) == 0 {
      RootsAt(g, v.file, r, 0, y);
      assert InRun(y, sn.l1Off, EntryClusters(g, sn.l1Size)) ==> Refs(g, v, y) == 0;
    }
    forall k | 0 <= k < |v'.snaps| ensures v'.snaps[k].l1Size >= 1 && L1Typed(g, v'.file, v'.snaps[k].l1Off, v'.snaps[k].l1Size) {
      if k < |v.snaps| { assert v'.snaps[k] == v.snaps[k]; }
    }
  }

  // ---------------------------------------------------------------- a snapshot less

  function Without<T>(s: seq<T>, k: nat): (r: seq<T>)
    requires k < |s|
    ensures |r| == |s| - 1
    ensures forall m :: 0 <= m < |r| ==> r[m] == s[if m < k then m else m + 1]
  {
    s[..k] + s[k + 1..]
  }

  lemma {:induction false} SnapTableRefsWithout(g: Geo, snaps: seq<Snap>, k: nat, y: nat)
    requires g.es > 0 && k < |snaps|
    ensures SnapTableRefs(g, Without(snaps, k), y) + One(InRun(y, snaps[k].l1Off, EntryClusters(g, snaps[k].l1Size))) == SnapTableRefs(g, snaps, y)
  {
    var n := |snaps| - 1;
    if k == n {
      assert Without(snaps, k) == snaps[..n];
    } else {
      SnapTableRefsWithout(g, snaps[..n], k, y);
      assert Without(snaps, k)[..n - 1] == Without(snaps[..n], k);
      assert Without(snaps, k)[n - 1] == snaps[n];
    }
  }

  /** Snapshot k leaves the list. */
  ghost predicate SnapDrop(g: Geo, v: Vol, v': Vol, k: nat)
  {
    Struct(g, v) && k < |v.snaps| && v' == v.(snaps := Without(v.snaps, k))
  }

  lemma {:induction false} SnapDropRoots(g: Geo, v: Vol, v': Vol, k: nat)
    requires SnapDrop(g, v, v', k)
    ensures Roots(g, v') == Without(Roots(g, v), k + 1)
    ensures forall y :: TreesRefs(g, v', y) + TreeRefs(g, v.file, Roots(g, v)[k + 1], y) == TreesRefs(g, v, y)
    ensures forall y :: MetaRefs(g, v', y) + One(InRoot(g, v, k + 1, y)) == MetaRefs(g, v, y)
  {
    var r, r' := Roots(g, v), Roots(g, v');
    assert r' == Without(r, k + 1);
    forall y ensures TreesRefs(g, v', y) + TreeRefs(g, v.file, r[k + 1], y) == TreesRefs(g, v, y) {
      RootsRemove(g, v.file, r, k + 1, y);
    }
    forall y ensures MetaRefs(g, v', y) + One(InRoot(g, v, k + 1, y)) == MetaRefs(g, v, y) {
      SnapTableRefsWithout(g, v.snaps, k, y);
    }
  }

  lemma {:induction false} SnapDropped(x: Ctx, v: Vol, v': Vol, k: nat)
    requires SnapDrop(x.g, v, v', k) && FlagsExact(x.g, v)
    requires forall y :: VRC(x.g, v, y) + TreeRefs(x.g, v.file, Roots(x.g, v)[k + 1], y) + One(InRoot(x.g, v, k + 1, y)) == Refs(x.g, v, y)
    ensures Struct(x.g, v') && Balanced(x.g, v', 0, 0, 0) && FlagsExact(x.g, v')
    ensures forall m: nat, s: nat :: m < |v.snaps| ==> View(x, v', m, s) == View(x, v, if m <= k then m else m + 1, s)
  {
    var g := x.g;
    var r, r' := Roots(g, v), Roots(g, v');
    SnapDropRoots(g, v, v', k);
    forall y ensures VRC(g, v', y) + One(false) == Refs(g, v', y) + One(InRun(y, 0, 0)) {
      assert VRC(g, v', y) == VRC(g, v, y);
    }
    SnapDropStruct(g, v, v', k);
    SnapSwitchFlags(g, v, v');
  }

  lemma {:induction false} SnapDropStruct(g: Geo, v: Vol, v': Vol, k: nat)
    requires SnapDrop(g, v, v', k)
    ensures Struct(g, v')
  {
    SnapDropRoots(g, v, v', k);
    var r, r' := Roots(g, v), Roots(g, v');
    forall m | 0 <= m < |r'| ensures TreeOk(g, v'.file, r'[m]) && forall y :: TreeRefs(g, v'.file, r'[m], y) <= 1 {
      assert r'[m] == r[if m < k + 1 then m else m + 1];
    }
    forall m | 0 <= m < |v'.snaps| ensures v'.snaps[m].l1Size >= 1 && L1Typed(g, v'.file, v'.snaps[m].l1Off, v'.snaps[m].l1Size) {
      assert v'.snaps[m] == v.snaps[if m < k then m else m + 1];
    }
  }
}
