/** An image as a value: the host file together with the tables kept in memory, the references
    they hold, and the invariant the consistency check of the format describes. */
module Qcow2Volume {
  import opened Division
  import opened Bytes
  import opened Qcow2Layout
  import opened Qcow2Trees
  import opened Qcow2Counts

  /** What stays fixed while an image is open. */
  datatype Ctx = Ctx(g: Geo, base: seq<Sector>, crypt: Cipher)

  datatype Vol = Vol(file: File, l1: seq<Entry>, l1Off: nat, snaps: seq<Snap>, snapOff: nat, snapClusters: nat,
                     rt: seq<nat>, rtOff: nat)

  // ---------------------------------------------------------------- roots and references

  ghost function DiskRoot(g: Geo, f: File, off: nat, n: nat): seq<nat>
    requires g.es > 0
  {
    Erase(ReadL1(g, f, off, n))
  }

  ghost function SnapRoots(g: Geo, f: File, snaps: seq<Snap>): (r: seq<seq<nat>>)
    requires g.es > 0
    ensures |r| == |snaps|
    ensures forall k :: 0 <= k < |snaps| ==> r[k] == DiskRoot(g, f, snaps[k].l1Off, snaps[k].l1Size)
  {
    seq(|snaps|, k requires 0 <= k < |snaps| => DiskRoot(g, f, snaps[k].l1Off, snaps[k].l1Size))
  }

  /** The active L1 table first, then the snapshots' tables as the file has them. */
  ghost function Roots(g: Geo, v: Vol): (r: seq<seq<nat>>)
    requires g.es > 0
    ensures |r| == 1 + |v.snaps| && r[0] == Erase(v.l1)
  {
    [Erase(v.l1)] + SnapRoots(g, v.file, v.snaps)
  }

  ghost function SnapTableRefs(g: Geo, snaps: seq<Snap>, x: nat): nat
    requires g.es > 0
  {
    if snaps == [] then 0
    else
      var last := snaps[|snaps| - 1];
      SnapTableRefs(g, snaps[..|snaps| - 1], x) + One(InRun(x, last.l1Off, EntryClusters(g, last.l1Size)))
  }

  /** References from outside the trees: header, L1 tables, snapshot table, reference count table and blocks. */
  ghost function MetaRefs(g: Geo, v: Vol, x: nat): nat
    requires g.es > 0
  {
    One(x == 0) + One(InRun(x, v.l1Off, EntryClusters(g, |v.l1|))) + SnapTableRefs(g, v.snaps, x) +
    One(InRun(x, v.snapOff, v.snapClusters)) + One(InRun(x, v.rtOff, EntryClusters(g, |v.rt|))) + Occ(v.rt, x)
  }

  ghost function TreesRefs(g: Geo, v: Vol, x: nat): nat
    requires g.es > 0
  {
    RootsRefs(g, v.file, Roots(g, v), x)
  }

  /** All references to cluster x. */
  ghost function Refs(g: Geo, v: Vol, x: nat): nat
    requires g.es > 0
  {
    MetaRefs(g, v, x) + TreesRefs(g, v, x)
  }

  ghost function VRC(g: Geo, v: Vol, x: nat): nat
    requires g.epb > 0
  {
    RC(g, v.file, v.rt, x)
  }

  // ---------------------------------------------------------------- the invariant

  /** Inside one tree no cluster is reached twice. */
  ghost predicate Injective(g: Geo, v: Vol)
    requires g.es > 0
  {
    forall k, x :: 0 <= k <= |v.snaps| ==> TreeRefs(g, v.file, Roots(g, v)[k], x) <= 1
  }

  /** A cluster of metadata has no second use. */
  ghost predicate Exclusive(g: Geo, v: Vol)
    requires g.es > 0
  {
    forall x :: MetaRefs(g, v, x) >= 1 ==> MetaRefs(g, v, x) == 1 && TreesRefs(g, v, x) == 0
  }

  /** L1 table l1 is stored from cluster off. */
  ghost predicate L1Stored(g: Geo, f: File, off: nat, l1: seq<Entry>)
    requires g.es > 0
  {
    && L1Typed(g, f, off, |l1|)
    && (forall i {:trigger L1EntryAt(g, f, off, i)} :: 0 <= i < |l1| ==> L1EntryAt(g, f, off, i) == l1[i])
  }

  ghost predicate L1Typed(g: Geo, f: File, off: nat, n: nat)
    requires g.es > 0
  {
    forall x :: InRun(x, off, EntryClusters(g, n)) ==> IsTable(g, f, x)
  }

  ghost predicate SnapsTyped(g: Geo, f: File, snaps: seq<Snap>)
    requires g.es > 0
  {
    forall k :: 0 <= k < |snaps| ==> snaps[k].l1Size >= 1 && L1Typed(g, f, snaps[k].l1Off, snaps[k].l1Size)
  }

  /** Header and snapshot table in the file describe the image in memory. */
  ghost predicate Synced(v: Vol)
  {
    && 0 in v.file
    && v.file[0] == Header(v.l1Off, |v.l1|, v.rtOff, |v.rt|, v.snapOff, |v.snaps|)
    && (|v.snaps| > 0 ==> v.snapClusters > 0 && v.snapOff in v.file && v.file[v.snapOff] == SnapTable(v.snaps))
  }

  ghost predicate Struct(g: Geo, v: Vol)
  {
    && g.Valid()
    && |v.l1| >= 1
    && TableShape(g, v.file, v.rt, v.rtOff)
    && RootsOk(g, v.file, Roots(g, v))
    && Injective(g, v)
    && Exclusive(g, v)
    && L1Stored(g, v.file, v.l1Off, v.l1)
    && SnapsTyped(g, v.file, v.snaps)
  }

  /** Stored counts equal references, apart from a run a .. a+n that is allocated but not yet
      referenced and a cluster r (none if 0) that is referenced but already released. */
  ghost predicate Balanced(g: Geo, v: Vol, a: nat, n: nat, r: nat)
    requires g.Valid()
  {
    forall x :: VRC(g, v, x) + One(r != 0 && x == r) == Refs(g, v, x) + One(InRun(x, a, n))
  }

  ghost predicate FlagOk(g: Geo, v: Vol, e: Entry)
    requires g.Valid()
  {
    e.cluster != 0 ==> (e.copied <==> VRC(g, v, e.cluster) == 1)
  }

  /** The copied flags of the active image are exact, except maybe in L1 slot i and L2 slot (p, q). */
  ghost predicate FlagsBut(g: Geo, v: Vol, i: int, p: int, q: int)
    requires g.Valid()
  {
    && (forall k :: 0 <= k < |v.l1| && k != i ==> FlagOk(g, v, v.l1[k]))
    && (forall k, j :: 0 <= k < |v.l1| && v.l1[k].cluster != 0 && 0 <= j < g.es && !(k == p && j == q) ==>
          FlagOk(g, v, EntryAt(v.file, v.l1[k].cluster, j)))
  }

  ghost predicate FlagsExact(g: Geo, v: Vol)
    requires g.Valid()
  {
    FlagsBut(g, v, -1, -1, -1)
  }

  ghost predicate Sound(g: Geo, v: Vol)
  {
    Struct(g, v) && Balanced(g, v, 0, 0, 0) && FlagsExact(g, v) && Synced(v)
  }

  // ---------------------------------------------------------------- guest disks

  /** Sector s of the guest disk of root k: the active image for 0, snapshot k-1 otherwise. */
  ghost function View(x: Ctx, v: Vol, k: nat, s: nat): Sector
    requires x.g.Valid() && k <= |v.snaps|
  {
    ViewAt(x.g, v.file, Roots(x.g, v)[k], x.base, x.crypt, s)
  }

  /** A sector of a cluster without data shows the backing file, and zeros past its end. */
  lemma {:induction false} UnmappedView(x: Ctx, v: Vol, s: nat)
    requires x.g.Valid() && Lookup(x.g, v.file, Erase(v.l1), Quot(s, x.g.cs)) == 0
    ensures s < |x.base| ==> View(x, v, 0, s) == x.base[s]
    ensures s >= |x.base| ==> forall i :: 0 <= i < 512 ==> View(x, v, 0, s)[i] == 0
  {
    hide Lookup, Backing, Quot, SnapRoots;
    BackingIs(x.base, s);
  }

  ghost predicate SameViews(x: Ctx, v: Vol, v': Vol)
    requires x.g.Valid()
  {
    |v'.snaps| == |v.snaps| && forall k, s :: 0 <= k <= |v.snaps| ==> View(x, v', k, s) == View(x, v, k, s)
  }

  // ---------------------------------------------------------------- frames

  lemma {:induction false} DiskRootFrame(g: Geo, f: File, f': File, off: nat, n: nat)
    requires g.es > 0
    requires forall x :: InRun(x, off, EntryClusters(g, n)) ==> Alike(g, f, f', x)
    ensures DiskRoot(g, f', off, n) == DiskRoot(g, f, off, n)
    ensures L1Typed(g, f, off, n) ==> L1Typed(g, f', off, n)
  {
    forall x | InRun(x, off, EntryClusters(g, n)) ensures L2Ptrs(g, f', x) == L2Ptrs(g, f, x) && IsTable(g, f', x) == IsTable(g, f, x) {
      AlikePtrs(g, f, f', x);
    }
    forall i | 0 <= i < n ensures L1EntryAt(g, f', off, i).cluster == L1EntryAt(g, f, off, i).cluster {
      SlotInRun(g, i, n);
      var c := off + Quot(i, g.es);
      assert InRun(c, off, EntryClusters(g, n));
      assert L2Ptrs(g, f', c)[Rem(i, g.es)] == L2Ptrs(g, f, c)[Rem(i, g.es)];
    }
    assert DiskRoot(g, f', off, n) == DiskRoot(g, f, off, n);
  }

  lemma {:induction false} SnapTableRefsAt(g: Geo, snaps: seq<Snap>, k: nat, x: nat)
    requires g.es > 0 && k < |snaps| && InRun(x, snaps[k].l1Off, EntryClusters(g, snaps[k].l1Size))
    ensures SnapTableRefs(g, snaps, x) >= 1
  {
    if k < |snaps| - 1 { SnapTableRefsAt(g, snaps[..|snaps| - 1], k, x); }
  }

  /** Clusters that an image's structure can tell apart from free ones are the referenced ones:
      a change that leaves them alone, up to copied flags, leaves the roots alone. */
  lemma {:induction false} RootsKept(g: Geo, v: Vol, f': File)
    requires g.es > 0
    requires forall x :: SnapTableRefs(g, v.snaps, x) >= 1 ==> Alike(g, v.file, f', x)
    ensures Roots(g, v.(file := f')) == Roots(g, v)
    ensures SnapsTyped(g, v.file, v.snaps) ==> SnapsTyped(g, f', v.snaps)
  {
    forall k | 0 <= k < |v.snaps|
      ensures DiskRoot(g, f', v.snaps[k].l1Off, v.snaps[k].l1Size) == DiskRoot(g, v.file, v.snaps[k].l1Off, v.snaps[k].l1Size)
      ensures L1Typed(g, v.file, v.snaps[k].l1Off, v.snaps[k].l1Size) ==> L1Typed(g, f', v.snaps[k].l1Off, v.snaps[k].l1Size)
    {
      forall x | InRun(x, v.snaps[k].l1Off, EntryClusters(g, v.snaps[k].l1Size)) ensures Alike(g, v.file, f', x) {
        SnapTableRefsAt(g, v.snaps, k, x);
      }
      DiskRootFrame(g, v.file, f', v.snaps[k].l1Off, v.snaps[k].l1Size);
    }
    assert SnapRoots(g, f', v.snaps) == SnapRoots(g, v.file, v.snaps);
  }

  lemma {:induction false} L1StoredFrame(g: Geo, f: File, f': File, off: nat, l1: seq<Entry>)
    requires g.es > 0 && L1Stored(g, f, off, l1)
    requires forall x :: InRun(x, off, EntryClusters(g, |l1|)) ==> SameAt(f, f', x)
    ensures L1Stored(g, f', off, l1)
  {
    forall i | 0 <= i < |l1| ensures L1EntryAt(g, f', off, i) == l1[i] {
      SlotInRun(g, i, |l1|);
      assert L1EntryAt(g, f, off, i) == l1[i];
      assert InRun(off + Quot(i, g.es), off, EntryClusters(g, |l1|));
    }
  }

  /** References other than those of the counting tables. */
  ghost function PlainRefs(g: Geo, v: Vol, x: nat): nat
    requires g.es > 0
  {
    One(x == 0) + One(InRun(x, v.l1Off, EntryClusters(g, |v.l1|))) + SnapTableRefs(g, v.snaps, x) +
    One(InRun(x, v.snapOff, v.snapClusters)) + TreesRefs(g, v, x)
  }

  lemma {:induction false} OccBlock(rt: seq<nat>, x: nat)
    ensures Occ(rt, x) >= 1 <==> IsBlock(rt, x)
  {
    if IsBlock(rt, x) {
      var k :| 0 <= k < |rt| && rt[k] == x;
      OccAt(rt, k);
    }
    if Occ(rt, x) >= 1 { var k := OccWitness(rt, x); }
  }

  lemma {:induction false} OwnedIsPlain(g: Geo, v: Vol, x: nat)
    requires g.es > 0 && Exclusive(g, v) && Owned(g, v.rt, v.rtOff, x)
    ensures PlainRefs(g, v, x) == 0
  {
    OccBlock(v.rt, x);
  }

  /** Contents change by copied flags only in clusters that anything but the counting tables refers
      to: roots, guest disks and stored metadata are as before. */
  lemma {:induction false} FlagFrame(x: Ctx, v: Vol, v': Vol)
    requires Struct(x.g, v)
    requires v' == v.(file := v'.file, rt := v'.rt, l1 := v'.l1) && |v'.rt| == |v.rt| && Erase(v'.l1) == Erase(v.l1)
    requires forall y :: PlainRefs(x.g, v, y) >= 1 ==> Alike(x.g, v.file, v'.file, y)
    requires SameAt(v.file, v'.file, 0) && (v.snapClusters > 0 ==> SameAt(v.file, v'.file, v.snapOff))
    ensures Roots(x.g, v') == Roots(x.g, v)
    ensures forall y :: TreesRefs(x.g, v', y) == TreesRefs(x.g, v, y)
    ensures forall k, y :: 0 <= k <= |v.snaps| ==> TreeRefs(x.g, v'.file, Roots(x.g, v)[k], y) == TreeRefs(x.g, v.file, Roots(x.g, v)[k], y)
    ensures RootsOk(x.g, v'.file, Roots(x.g, v')) && Injective(x.g, v')
    ensures SnapsTyped(x.g, v'.file, v'.snaps) && (Synced(v) ==> Synced(v'))
    ensures SameViews(x, v, v')
  {
    var g := x.g;
    assert forall y :: SnapTableRefs(g, v.snaps, y) >= 1 ==> PlainRefs(g, v, y) >= 1;
    RootsKept(g, v, v'.file);
    assert Roots(g, v') == Roots(g, v.(file := v'.file));
    var roots := Roots(g, v);
    assert forall y :: RootsRefs(g, v.file, roots, y) >= 1 ==> PlainRefs(g, v, y) >= 1;
    RootsFrame(g, v.file, v'.file, roots);
    assert |v'.l1| == |Erase(v'.l1)|;
    assert |v.l1| == |Erase(v.l1)|;
  }

  /** The file and the counting table change, but no cluster anything else refers to. */
  lemma {:induction false} PlainFrame(x: Ctx, v: Vol, v': Vol)
    requires Struct(x.g, v)
    requires v' == v.(file := v'.file, rt := v'.rt) && |v'.rt| == |v.rt|
    requires forall y :: PlainRefs(x.g, v, y) >= 1 ==> SameAt(v.file, v'.file, y)
    ensures Roots(x.g, v') == Roots(x.g, v)
    ensures forall y :: TreesRefs(x.g, v', y) == TreesRefs(x.g, v, y)
    ensures RootsOk(x.g, v'.file, Roots(x.g, v')) && Injective(x.g, v')
    ensures L1Stored(x.g, v'.file, v'.l1Off, v'.l1) && SnapsTyped(x.g, v'.file, v'.snaps) && (Synced(v) ==> Synced(v'))
    ensures SameViews(x, v, v')
  {
    var g := x.g;
    assert PlainRefs(g, v, 0) >= 1;
    if v.snapClusters > 0 { assert PlainRefs(g, v, v.snapOff) >= 1; }
    FlagFrame(x, v, v');
    assert forall y :: InRun(y, v.l1Off, EntryClusters(g, |v.l1|)) ==> PlainRefs(g, v, y) >= 1;
    L1StoredFrame(g, v.file, v'.file, v.l1Off, v.l1);
  }
}
