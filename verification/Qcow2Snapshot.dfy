/** Internal snapshots: create, goto, delete and the table that lists them. */
module Qcow2Snapshot {
  import opened Division
  import opened Qcow2Layout
  import opened Qcow2Trees
  import opened Qcow2Counts
  import opened Qcow2Volume
  import opened Qcow2Steps
  import opened Qcow2State
  import opened Qcow2Refcount
  import opened Qcow2Image
  import opened Qcow2Io
  import opened Qcow2Grow
  import opened Qcow2Recount
  import opened Qcow2SnapSteps
  import opened Qcow2SnapTable
  import opened Qcow2SnapIds

  // ---------------------------------------------------------------- writing the snapshot table

  /** A run c .. c+n is allocated, and the snapshot list in the file may be out of date. Apart
      from that the image is in order. */
  ghost predicate Behind(s: BDRVQcowState, c: nat, n: nat)
    reads s
  {
    && Readable(s) && Counted(s) && Balanced(s.g, V(s), c, n, 0) && FlagsExact(s.g, V(s)) && HeaderAgrees(V(s))
    && s.crypt.Invertible()
    && forall y :: InRun(y, c, n) ==> Refs(s.g, V(s), y) == 0
  }

  /** An empty allocation stops at or before the free cluster w, whose counts have a block. */
  ghost predicate FreeBelow(g: Geo, f: File, rt: seq<nat>, fci: nat, w: nat)
    requires g.Valid()
  {
    fci <= w && RC(g, f, rt, w) == 0 && Quot(w, g.epb) < |rt| && rt[Quot(w, g.epb)] != 0
  }

  function TableClusters(g: Geo, snaps: seq<Snap>): nat
    requires g.es > 0
  {
    ByteClusters(g, TableBytes(snaps))
  }

  lemma {:induction false} TableClustersZero(g: Geo, snaps: seq<Snap>)
    requires g.es > 0
    ensures TableClusters(g, snaps) == 0 <==> snaps == []
  {
    var n, d := TableBytes(snaps), 8 * g.es;
    QuotRem(n + d - 1, d);
    if snaps == [] {
      DivBound(d - 1, d, 1);
    } else {
      assert n >= HEADER_SIZE;
    }
  }

  lemma {:induction false} EmptyScan(g: Geo, f: File, rt: seq<nat>, rtOff: nat, fci: nat, w: nat, k: nat)
    requires TableShape(g, f, rt, rtOff) && FreeBelow(g, f, rt, fci, w) && Room(g, f, rt, fci, k) && k >= 1
    ensures ScanOk(g, rt, NextFree(g, f, rt, fci) + 1) && Room(g, f, rt, NextFree(g, f, rt, fci) + 1, k - 1)
  {
    var c := NextFree(g, f, rt, fci);
    assert c <= w;
    DivMono(c, w, g.epb);
    assert c + k <= Capacity(g, rt) by { assert RC(g, f, rt, Capacity(g, rt) - k) == 0; }
  }

  /** Allocates the clusters of a table that may be empty; an empty one only moves the scan position. */
  method AllocTable(s: BDRVQcowState, n: nat, ghost w: nat, ghost k: nat) returns (c: nat)
    requires Behind(s, 0, 0) && RoomFor(s, k) && n < s.g.epb && n + 1 <= k
    requires n == 0 ==> FreeBelow(s.g, s.file, s.rt, s.fci, w)
    modifies s`file, s`rt, s`rbCache, s`rbCacheOff, s`fci
    ensures Behind(s, c, n) && RoomFor(s, k - (n + 1)) && c > 0
    ensures SameViews(X(s), old(V(s)), V(s))
  {
    if n == 0 {
      hide View, Struct, Balanced, FlagsExact, OwnedCounted, TableShape, BlockCacheOk, CacheOk;
      EmptyScan(s.g, s.file, s.rt, s.rtOff, s.fci, w, k);
      c := AllocClustersNoref(s, 0);
      EmptyRun(s.g, V(s), c);
    } else {
      c := GrabTable(s, n, k);
    }
  }

  lemma {:induction false} EmptyRun(g: Geo, v: Vol, c: nat)
    requires g.Valid() && Balanced(g, v, 0, 0, 0)
    ensures Balanced(g, v, c, 0, 0)
  {
    forall y ensures VRC(g, v, y) + One(false) == Refs(g, v, y) + One(InRun(y, c, 0)) {
      hide VRC, Refs;
      assert VRC(g, v, y) + One(0 != 0 && y == 0) == Refs(g, v, y) + One(InRun(y, 0, 0));
    }
  }

  method GrabTable(s: BDRVQcowState, n: nat, ghost k: nat) returns (c: nat)
    requires Behind(s, 0, 0) && RoomFor(s, k) && 1 <= n < s.g.epb && n + 1 <= k
    modifies s`file, s`rt, s`rbCache, s`rbCacheOff, s`fci
    ensures Behind(s, c, n) && RoomFor(s, k - (n + 1)) && c > 0
    ensures SameViews(X(s), old(V(s)), V(s))
  {
    hide View, Struct, Balanced, FlagsBut, CacheOk, Counted, Refs, VRC, TreesRefs, Room, Covered;
    ghost var v := V(s);
    BalancedCovers(s.g, v, 0, 0, 0);
    c := Grab(s, n, -1, -1, -1, k);
    GrabBalanced(s.g, v, V(s), c, n, 0);
    HeaderKept(s.g, v, V(s));
  }

  lemma {:induction false} HeaderKept(g: Geo, v: Vol, v': Vol)
    requires g.Valid() && HeaderAgrees(v) && v' == v.(file := v'.file, rt := v'.rt) && |v'.rt| == |v.rt|
    requires forall y :: PlainRefs(g, v, y) >= 1 ==> SameAt(v.file, v'.file, y)
    ensures HeaderAgrees(v')
  {
    assert PlainRefs(g, v, 0) >= 1;
  }

  /** Stores the list in the run c .. c+n and makes the header name it. */
  method StoreTable(s: BDRVQcowState, c: nat, n: nat, size: nat)
    requires Behind(s, c, n) && c > 0 && n == ByteClusters(s.g, size) && (n == 0 <==> s.snaps == [])
    modifies s`file, s`snapOff, s`snapSize
    ensures Readable(s) && Counted(s) && Synced(V(s)) && FlagsExact(s.g, V(s)) && SameViews(X(s), old(V(s)), V(s))
    ensures Balanced(s.g, V(s), old(s.snapOff), ByteClusters(s.g, old(s.snapSize)), 0)
    ensures forall y :: InRun(y, old(s.snapOff), ByteClusters(s.g, old(s.snapSize))) ==> Refs(s.g, V(s), y) == 0 && y != 0 && !Owned(s.g, s.rt, s.rtOff, y)
    ensures forall y :: RC(s.g, s.file, s.rt, y) == RC(s.g, old(s.file), s.rt, y)
    ensures s.snapSize == size
  {
    hide View, Struct, Balanced, FlagsExact, CacheOk, Refs, VRC, TreesRefs, Owned, OwnedCounted, TableShape, BlockCacheOk, ScanOk, Room, ByteClusters;
    ghost var v := V(s);
    if n > 0 {
      s.file := s.file[c := SnapTable(s.snaps)];
    }
    ghost var v1 := V(s);
    ListWritten(X(s), v, v1, c, n);
    s.file := PutSnapHeader(s.file, c, |s.snaps|);
    s.snapOff := c;
    s.snapSize := size;
    SnapSwitched(X(s), v1, V(s), c, n);
    SameViewsTrans(X(s), v, v1, V(s));
    StoredCounts(s.g, v.file, s.file, s.rt, s.rtOff, s.rbCacheOff, s.rbCache);
    StoreKeeps(s.g, v, v1, V(s), c, n, s.l2Keys, s.l2Cache);
  }

  lemma {:induction false} ListWritten(x: Ctx, v: Vol, v1: Vol, c: nat, n: nat)
    requires Struct(x.g, v) && Balanced(x.g, v, c, n, 0) && FlagsExact(x.g, v) && HeaderAgrees(v)
    requires c > 0 && forall y :: InRun(y, c, n) ==> Refs(x.g, v, y) == 0
    requires n == 0 <==> v.snaps == []
    requires v1 == v.(file := if n > 0 then v.file[c := SnapTable(v.snaps)] else v.file)
    ensures Balanced(x.g, v1, c, n, 0) && FlagsExact(x.g, v1) && SameViews(x, v, v1)
    ensures SnapSwitch(x.g, v1, v1.(file := PutSnapHeader(v1.file, c, |v.snaps|), snapOff := c, snapClusters := n), c, n)
    ensures forall y :: TreesRefs(x.g, v1, y) == TreesRefs(x.g, v, y)
    ensures forall y :: Refs(x.g, v, y) >= 1 ==> SameAt(v.file, v1.file, y)
    ensures forall y :: Owned(x.g, v.rt, v.rtOff, y) ==> Refs(x.g, v, y) >= 1
  {
    hide View, Refs, Struct, Balanced, FlagsExact, TreesRefs, VRC, Owned;
    assert n > 0 ==> InRun(c, c, n);
    OwnedReferred(x.g, v);
    StructValid(x.g, v);
    FreshWrite(x, v, v1);
    FreshFlags(x, v, v1);
    BalancedFilled(x.g, v, v1, c, n, 0);
  }

  lemma {:induction false} OwnedReferred(g: Geo, v: Vol)
    requires Struct(g, v)
    ensures forall y :: Owned(g, v.rt, v.rtOff, y) ==> Refs(g, v, y) >= 1
  {
    forall y | Owned(g, v.rt, v.rtOff, y) ensures Refs(g, v, y) >= 1 { OccBlock(v.rt, y); }
  }

  lemma {:induction false} StoreKeeps(g: Geo, v: Vol, v1: Vol, v': Vol, c: nat, n: nat, keys: seq<nat>, cache: seq<seq<Entry>>)
    requires Struct(g, v) && CacheOk(g, v, keys, cache) && v1 == v.(file := v1.file) && v'.rt == v.rt && v'.rtOff == v.rtOff
    requires forall y :: TreesRefs(g, v1, y) == TreesRefs(g, v, y) && TreesRefs(g, v', y) == TreesRefs(g, v, y)
    requires forall y :: Refs(g, v, y) >= 1 ==> SameAt(v.file, v1.file, y)
    requires forall y :: y != 0 ==> SameAt(v1.file, v'.file, y)
    requires forall y :: Owned(g, v.rt, v.rtOff, y) ==> y != 0 && Refs(g, v, y) >= 1
    ensures CacheOk(g, v', keys, cache)
    ensures forall y :: RC(g, v'.file, v.rt, y) == RC(g, v.file, v.rt, y)
  {
    assert TreesRefs(g, v, 0) == 0 by { assert MetaRefs(g, v, 0) >= 1; }
    forall y | TreesRefs(g, v, y) >= 1 || Owned(g, v.rt, v.rtOff, y) ensures SameAt(v.file, v'.file, y) {
      assert SameAt(v.file, v1.file, y);
      assert SameAt(v1.file, v'.file, y);
    }
    CacheKept(g, v, v', keys, cache);
    ShapeFrame(g, v.file, v'.file, v.rt, v.rtOff);
  }

  /** Writes the list of snapshots to a new table, switches to it and frees the old one. */
  method WriteSnapshots(s: BDRVQcowState, ghost w: nat, ghost k: nat)
    requires Behind(s, 0, 0) && RoomFor(s, k) && TableClusters(s.g, s.snaps) < s.g.epb && TableClusters(s.g, s.snaps) + 1 <= k
    requires s.snaps == [] ==> FreeBelow(s.g, s.file, s.rt, s.fci, w)
    modifies s`file, s`rt, s`rbCache, s`rbCacheOff, s`fci, s`snapOff, s`snapSize
    ensures Valid(s) && SameViews(X(s), old(V(s)), V(s))
    ensures RoomFor(s, k - (TableClusters(s.g, s.snaps) + 1)) && s.snapSize == TableBytes(s.snaps)
  {
    hide View, Behind, Struct, Balanced, FlagsExact, Refs, Owned, Counted, Sound, CacheOk, Room, Synced, ByteClusters, FreeBelow, RC, TableBytes, SameViews, Valid;
    BehindFacts(s, 0, 0);
    ghost var v := V(s);
    TableClustersZero(s.g, s.snaps);
    var size := ComputeSize(s.snaps);
    var n := ByteClusters(s.g, size);
    var c := AllocTable(s, n, w, k);
    ghost var v1 := V(s);
    SwitchAndFree(s, c, n, size, k - (n + 1));
    SameViewsTrans(X(s), v, v1, V(s));
  }

  lemma {:induction false} BehindFacts(s: BDRVQcowState, c: nat, n: nat)
    requires Behind(s, c, n)
    ensures s.g.Valid() && s.g.es > 0 && s.crypt.Invertible() && X(s).g == s.g
  {
  }

  method SwitchAndFree(s: BDRVQcowState, c: nat, n: nat, size: nat, ghost k: nat)
    requires Behind(s, c, n) && c > 0 && n == ByteClusters(s.g, size) && (n == 0 <==> s.snaps == []) && RoomFor(s, k)
    modifies s`file, s`rt, s`rbCache, s`rbCacheOff, s`fci, s`snapOff, s`snapSize
    ensures Valid(s) && SameViews(X(s), old(V(s)), V(s)) && RoomFor(s, k) && s.snapSize == size
  {
    hide View, Behind, Struct, Balanced, FlagsExact, Refs, Owned, Counted, Sound, CacheOk, Synced, ByteClusters, RC, SameViews, Valid;
    BehindFacts(s, c, n);
    ghost var v := V(s);
    var oldOff, oldSize := s.snapOff, s.snapSize;
    StoreTable(s, c, n, size);
    ghost var v1 := V(s);
    FreeOldTable(s, oldOff, ByteClusters(s.g, oldSize), k);
    SameViewsTrans(X(s), v, v1, V(s));
  }

  // ---------------------------------------------------------------- create

  /** All counts under the active root are one too high: they already include a second root. */
  ghost predicate Doubled(g: Geo, v: Vol, a: nat, n: nat)
  {
    && Struct(g, v) && Synced(v) && FlagsExact(g, v)
    && forall y :: VRC(g, v, y) == Refs(g, v, y) + TreeRefs(g, v.file, Roots(g, v)[0], y) + One(InRun(y, a, n))
  }

  lemma {:induction false} PassDoubles(x: Ctx, v: Vol, v': Vol)
    requires Sound(x.g, v) && PassDone(x, v, v', 0, 1)
    ensures Doubled(x.g, v', 0, 0) && Covered(x.g, v')
  {
    forall y ensures VRC(x.g, v', y) == Refs(x.g, v', y) + TreeRefs(x.g, v'.file, Roots(x.g, v')[0], y) + One(InRun(y, 0, 0)) {
      hide VRC, Struct, TreesRefs, View, FlagsExact, Synced;
      assert VRC(x.g, v, y) + One(false) == Refs(x.g, v, y) + One(InRun(y, 0, 0));
      assert MetaRefs(x.g, v', y) == MetaRefs(x.g, v, y);
    }
  }

  /** Contents of clusters in the active tree are kept, so are its references. */
  lemma {:induction false} ActiveTreeKept(g: Geo, v: Vol, v': Vol, y: nat)
    requires g.Valid() && Roots(g, v') == Roots(g, v)
    requires forall z :: TreesRefs(g, v, z) >= 1 ==> SameAt(v.file, v'.file, z)
    ensures TreeRefs(g, v'.file, Roots(g, v')[0], y) == TreeRefs(g, v.file, Roots(g, v)[0], y)
  {
    var r := Roots(g, v);
    forall z | TreeRefs(g, v.file, r[0], z) >= 1 ensures Alike(g, v.file, v'.file, z) { RootsAt(g, v.file, r, 0, z); }
    TreeRefsFrame(g, v.file, v'.file, r[0], y);
  }

  lemma {:induction false} GrabDoubled(g: Geo, v: Vol, v': Vol, a: nat, n: nat)
    requires Doubled(g, v, 0, 0) && Struct(g, v') && Synced(v') && FlagsExact(g, v') && Roots(g, v') == Roots(g, v)
    requires forall y :: VRC(g, v', y) + Refs(g, v, y) == Refs(g, v', y) + VRC(g, v, y) + One(InRun(y, a, n))
    requires forall y :: PlainRefs(g, v, y) >= 1 ==> SameAt(v.file, v'.file, y)
    ensures Doubled(g, v', a, n)
  {
    assert forall y :: TreesRefs(g, v, y) >= 1 ==> PlainRefs(g, v, y) >= 1;
    forall y ensures VRC(g, v', y) == Refs(g, v', y) + TreeRefs(g, v'.file, Roots(g, v')[0], y) + One(InRun(y, a, n)) {
      hide VRC, Struct, TreesRefs, Refs, FlagsExact, Synced, PlainRefs;
      ActiveTreeKept(g, v, v', y);
      assert VRC(g, v, y) == Refs(g, v, y) + TreeRefs(g, v.file, Roots(g, v)[0], y) + One(InRun(y, 0, 0));
    }
  }

  lemma {:induction false} CopyStored(x: Ctx, v: Vol, v': Vol, sn: Snap)
    requires x.g.Valid() && Doubled(x.g, v, sn.l1Off, EntryClusters(x.g, sn.l1Size)) && sn.l1Size == |v.l1| && sn.l1Off > 0
    requires forall y :: InRun(y, sn.l1Off, EntryClusters(x.g, sn.l1Size)) ==> Refs(x.g, v, y) == 0
    requires v' == v.(file := WriteL1(x.g, v.file, sn.l1Off, v.l1), snaps := v.snaps + [sn])
    ensures Struct(x.g, v') && Balanced(x.g, v', 0, 0, 0) && FlagsExact(x.g, v') && HeaderAgrees(v')
    ensures Taken(x, v, v')
    ensures forall y :: Owned(x.g, v.rt, v.rtOff, y) ==> SameAt(v.file, v'.file, y)
    ensures forall y :: RC(x.g, v'.file, v.rt, y) == RC(x.g, v.file, v.rt, y)
  {
    var g, v1 := x.g, v.(file := v'.file);
    NormalL1(g, v);
    FreshTable(x, v, v1, sn.l1Off, v.l1);
    forall y | Owned(g, v.rt, v.rtOff, y) || TreesRefs(g, v, y) >= 1 ensures SameAt(v.file, v'.file, y) { OccBlock(v.rt, y); }
    hide View, Struct, Synced, FlagsExact, VRC, Refs, WriteL1, L1Stored, TreesRefs;
    assert forall y :: VRC(g, v1, y) == Refs(g, v1, y) + TreeRefs(g, v1.file, Roots(g, v1)[0], y) + One(InRun(y, sn.l1Off, EntryClusters(g, sn.l1Size))) by {
      forall y ensures VRC(g, v1, y) == Refs(g, v1, y) + TreeRefs(g, v1.file, Roots(g, v1)[0], y) + One(InRun(y, sn.l1Off, EntryClusters(g, sn.l1Size))) {
        StructValid(g, v);
        ActiveTreeKept(g, v, v1, y);
      }
    }
    SnapAdded(x, v1, v', sn);
    CopyViews(x, v, v1, v');
    CopyHeader(x.g, v, v1, v');
  }

  lemma {:induction false} CopyHeader(g: Geo, v: Vol, v1: Vol, v': Vol)
    requires g.Valid() && Synced(v1) && v1 == v.(file := v'.file) && v' == v1.(snaps := v'.snaps)
    requires forall y :: VRC(g, v1, y) == VRC(g, v, y)
    ensures HeaderAgrees(v') && forall y :: RC(g, v'.file, v.rt, y) == RC(g, v.file, v.rt, y)
  {
    forall y ensures RC(g, v'.file, v.rt, y) == RC(g, v.file, v.rt, y) { assert VRC(g, v1, y) == VRC(g, v, y); }
  }

  /** The guest disks of v' are those of v and one more, which reads as the active image of v. */
  ghost predicate Taken(x: Ctx, v: Vol, v': Vol)
    requires x.g.Valid()
  {
    && |v'.snaps| == |v.snaps| + 1
    && forall k: nat, s: nat :: k <= |v'.snaps| ==> View(x, v', k, s) == View(x, v, if k <= |v.snaps| then k else 0, s)
  }

  lemma {:induction false} CopyViews(x: Ctx, v: Vol, v1: Vol, v2: Vol)
    requires x.g.Valid() && SameViews(x, v, v1) && |v2.snaps| == |v1.snaps| + 1
    requires forall k: nat, s: nat :: k <= |v1.snaps| + 1 ==> View(x, v2, k, s) == View(x, v1, if k <= |v1.snaps| then k else 0, s)
    ensures Taken(x, v, v2)
  {
    forall k: nat, s: nat | k <= |v2.snaps| ensures View(x, v2, k, s) == View(x, v, if k <= |v.snaps| then k else 0, s) {
      hide View;
      var m: nat := if k <= |v1.snaps| then k else 0;
      assert View(x, v2, k, s) == View(x, v1, m, s);
      assert View(x, v1, m, s) == View(x, v, m, s);
    }
  }

  /** Copies the active L1 table to a new run and adds the snapshot to the list in memory. */
  method CopyL1(s: BDRVQcowState, info: SnapInfo, ghost k: nat)
    requires s.g.Valid() && Counted(s) && CacheEmpty(s) && s.crypt.Invertible() && RoomFor(s, k)
    requires Doubled(s.g, V(s), 0, 0) && Covered(s.g, V(s))
    requires EntryClusters(s.g, |s.l1|) < s.g.epb && EntryClusters(s.g, |s.l1|) + 1 <= k
    modifies s`file, s`rt, s`rbCache, s`rbCacheOff, s`fci, s`snaps
    ensures Behind(s, 0, 0) && RoomFor(s, k - (EntryClusters(s.g, |s.l1|) + 1))
    ensures Taken(X(s), old(V(s)), V(s)) && |s.snaps| == |old(s.snaps)| + 1
    ensures s.snaps[..|old(s.snaps)|] == old(s.snaps) && s.snaps[|old(s.snaps)|].info == info && s.snaps[|old(s.snaps)|].l1Size == |s.l1|
  {
    hide View, Struct, Doubled, Covered, FlagsBut, CacheOk, Counted, Refs, VRC, TreesRefs, Room, Taken, SameViews, PlainRefs, Synced;
    ghost var v := V(s);
    DoubledFacts(s.g, v, 0, 0);
    EmptyReadable(s);
    EntryClustersPositive(s.g, |s.l1|);
    var a := Grab(s, EntryClusters(s.g, |s.l1|), -1, -1, -1, k);
    ghost var v1 := V(s);
    GrabDoubled(s.g, v, v1, a, EntryClusters(s.g, |s.l1|));
    StoreCopy(s, Snap(info, a, |s.l1|), k - (EntryClusters(s.g, |s.l1|) + 1));
    TakenAfter(X(s), v, v1, V(s));
  }

  lemma {:induction false} DoubledFacts(g: Geo, v: Vol, a: nat, n: nat)
    requires Doubled(g, v, a, n)
    ensures Struct(g, v) && Synced(v) && FlagsExact(g, v) && |v.l1| >= 1
  {
  }

  lemma {:induction false} EmptyReadable(s: BDRVQcowState)
    requires s.g.Valid() && Struct(s.g, V(s)) && CacheEmpty(s)
    ensures Readable(s)
  {
  }

  lemma {:induction false} TakenAfter(x: Ctx, v: Vol, v1: Vol, v2: Vol)
    requires x.g.Valid() && SameViews(x, v, v1) && Taken(x, v1, v2)
    ensures Taken(x, v, v2)
  {
    CopyViews(x, v, v1, v2);
  }

  method StoreCopy(s: BDRVQcowState, sn: Snap, ghost k: nat)
    requires s.g.Valid() && Counted(s) && CacheEmpty(s) && s.crypt.Invertible() && RoomFor(s, k)
    requires Doubled(s.g, V(s), sn.l1Off, EntryClusters(s.g, sn.l1Size)) && sn.l1Size == |s.l1| && sn.l1Off > 0
    requires forall y :: InRun(y, sn.l1Off, EntryClusters(s.g, sn.l1Size)) ==> Refs(s.g, V(s), y) == 0
    modifies s`file, s`snaps
    ensures Behind(s, 0, 0) && RoomFor(s, k) && Taken(X(s), old(V(s)), V(s)) && s.snaps == old(s.snaps) + [sn]
  {
    hide View, Struct, Doubled, FlagsExact, CacheOk, Refs, RC, WriteL1, Owned, OwnedCounted, TableShape, BlockCacheOk, ScanOk, Taken, HitsOk, Balanced;
    ghost var v := V(s);
    s.file := WriteL1(s.g, s.file, sn.l1Off, s.l1);
    s.snaps := s.snaps + [sn];
    CopyStored(X(s), v, V(s), sn);
    StoredCounts(s.g, v.file, s.file, s.rt, s.rtOff, s.rbCacheOff, s.rbCache);
    EmptyReadable(s);
  }

  const ENOENT: int := 2

  /** The information under which a snapshot is listed: an empty id is replaced by a new one. */
  function Named(snaps: seq<Snap>, info: SnapInfo): SnapInfo
  {
    if info.id == "" then info.(id := NewId(snaps)) else info
  }

  /** Room for the copy of the L1 table and for the new snapshot table. */
  function CreateCost(g: Geo, l1Size: nat, snaps: seq<Snap>, info: SnapInfo): nat
    requires g.Valid()
  {
    EntryClusters(g, l1Size) + 1 + TableClusters(g, snaps + [Snap(info, 0, l1Size)]) + 1
  }

  ghost predicate CreateFits(s: BDRVQcowState, info: SnapInfo, k: nat)
    reads s
  {
    && Valid(s) && RoomFor(s, k) && CreateCost(s.g, |s.l1|, s.snaps, info) <= k
    && EntryClusters(s.g, |s.l1|) < s.g.epb && TableClusters(s.g, s.snaps + [Snap(info, 0, |s.l1|)]) < s.g.epb
    && |s.snaps| + 1 < MAX_COUNT
  }

  method QcowSnapshotCreate(s: BDRVQcowState, info0: SnapInfo, ghost k: nat) returns (ret: int)
    requires CreateFits(s, Named(s.snaps, info0), k)
    modifies s`file, s`l1, s`l2Keys, s`l2Hits, s`l2Cache, s`rt, s`rbCache, s`rbCacheOff, s`fci, s`snaps, s`snapOff, s`snapSize
    ensures Valid(s) && (ret == 0 || ret == -ENOENT)
    ensures ret != 0 <==> HasId(old(s.snaps), Named(old(s.snaps), info0).id)
    ensures ret != 0 ==> V(s) == old(V(s)) && s.snapSize == old(s.snapSize) && RoomFor(s, k)
    ensures ret == 0 ==> RoomFor(s, k - CreateCost(s.g, |old(s.l1)|, old(s.snaps), Named(old(s.snaps), info0)))
    ensures ret == 0 ==> Taken(X(s), old(V(s)), V(s)) && Listed(old(s.snaps), s.snaps, Named(old(s.snaps), info0), |s.l1|)
    ensures ret == 0 ==> |s.l1| == |old(s.l1)| && s.snapSize == TableBytes(s.snaps)
    ensures ret == 0 ==>
              && |s.snaps| == |old(s.snaps)| + 1
              && var info := s.snaps[|old(s.snaps)|].info;
                 && info.name == info0.name && info.vmStateSize == info0.vmStateSize && info.dateSec == info0.dateSec
                 && info.dateNsec == info0.dateNsec && info.vmClockNsec == info0.vmClockNsec
                 && info.id == if info0.id == "" then NewId(old(s.snaps)) else info0.id
  {
    var info := info0;
    if info.id == "" {
      var id := FindNewSnapshotId(s.snaps);
      info := info.(id := id);
    }
    var i := FindSnapshotById(s.snaps, info.id);
    if i >= 0 { return -ENOENT; }
    TakeSnapshot(s, info, k);
    return 0;
  }

  /** The list gained one entry at the end. */
  predicate Listed(snaps: seq<Snap>, snaps': seq<Snap>, info: SnapInfo, l1Size: nat)
  {
    |snaps'| == |snaps| + 1 && snaps'[..|snaps|] == snaps && snaps'[|snaps|].info == info && snaps'[|snaps|].l1Size == l1Size
  }

  method TakeSnapshot(s: BDRVQcowState, info: SnapInfo, ghost k: nat)
    requires CreateFits(s, info, k)
    modifies s`file, s`l1, s`l2Keys, s`l2Hits, s`l2Cache, s`rt, s`rbCache, s`rbCacheOff, s`fci, s`snaps, s`snapOff, s`snapSize
    ensures Valid(s) && RoomFor(s, k - CreateCost(s.g, |old(s.l1)|, old(s.snaps), info))
    ensures Taken(X(s), old(V(s)), V(s)) && Listed(old(s.snaps), s.snaps, info, |s.l1|) && |s.l1| == |old(s.l1)|
    ensures s.snapSize == TableBytes(s.snaps)
  {
    hide View, Struct, Sound, Room, EntryClusters, TableClusters, CacheOk, Doubled, Covered, Taken, Counted, HitsOk;
    ghost var v := V(s);
    RaiseActive(s, k);
    ghost var v1 := V(s);
    CopyAndList(s, info, k);
    TakenAfter(X(s), v, v1, V(s));
  }

  /** Counts the active tree a second time. */
  method RaiseActive(s: BDRVQcowState, ghost k: nat)
    requires Valid(s) && RoomFor(s, k) && |s.snaps| + 1 < MAX_COUNT
    modifies s`file, s`l1, s`l2Keys, s`l2Hits, s`l2Cache, s`rt, s`rbCache, s`rbCacheOff, s`fci
    ensures s.g.Valid() && Counted(s) && CacheEmpty(s) && RoomFor(s, k)
    ensures Doubled(s.g, V(s), 0, 0) && Covered(s.g, V(s)) && SameViews(X(s), old(V(s)), V(s)) && |s.l1| == |old(s.l1)|
  {
    hide View, Struct, FlagsExact, Balanced, CanPass, PassDone, Room, Synced, CacheOk, Doubled, Covered;
    ghost var v := V(s);
    SoundCanPass(s.g, v, 0, 1);
    UpdateSnapshotRefcount(s, s.l1Off, |s.l1|, 1, 0, k);
    PassDoubles(X(s), v, V(s));
    PassViews(X(s), v, V(s), 0, 1);
  }

  method CopyAndList(s: BDRVQcowState, info: SnapInfo, ghost k: nat)
    requires s.g.Valid() && Counted(s) && CacheEmpty(s) && s.crypt.Invertible() && RoomFor(s, k)
    requires Doubled(s.g, V(s), 0, 0) && Covered(s.g, V(s)) && CreateCost(s.g, |s.l1|, s.snaps, info) <= k
    requires EntryClusters(s.g, |s.l1|) < s.g.epb && TableClusters(s.g, s.snaps + [Snap(info, 0, |s.l1|)]) < s.g.epb
    modifies s`file, s`rt, s`rbCache, s`rbCacheOff, s`fci, s`snaps, s`snapOff, s`snapSize
    ensures Valid(s) && RoomFor(s, k - CreateCost(s.g, |old(s.l1)|, old(s.snaps), info))
    ensures Taken(X(s), old(V(s)), V(s)) && Listed(old(s.snaps), s.snaps, info, |s.l1|) && s.snapSize == TableBytes(s.snaps)
  {
    hide View, Behind, Struct, Room, EntryClusters, ByteClusters, TableBytes, CacheOk, Doubled, Covered, Taken, Counted, Valid, HitsOk, CacheEmpty, SameViews;
    ghost var snaps1 := s.snaps + [Snap(info, 0, |s.l1|)];
    ghost var v := V(s);
    CopyL1(s, info, k);
    ghost var v1 := V(s);
    assert SameInfos(s.snaps, snaps1);
    InfosDecide(s.snaps, snaps1, "");
    WriteSnapshots(s, 0, k - (EntryClusters(s.g, |s.l1|) + 1));
    TakenThen(X(s), v, v1, V(s));
  }

  lemma {:induction false} PassViews(x: Ctx, v: Vol, v': Vol, k: nat, addend: int)
    requires PassDone(x, v, v', k, addend)
    ensures SameViews(x, v, v') && v'.snaps == v.snaps && |v'.l1| == |v.l1|
  {
  }

  lemma {:induction false} TakenThen(x: Ctx, v: Vol, v1: Vol, v2: Vol)
    requires x.g.Valid() && Taken(x, v, v1) && SameViews(x, v1, v2)
    ensures Taken(x, v, v2)
  {
    forall k: nat, s: nat | k <= |v2.snaps| ensures View(x, v2, k, s) == View(x, v, if k <= |v.snaps| then k else 0, s) {
      hide View;
      assert View(x, v2, k, s) == View(x, v1, k, s);
    }
  }
}
