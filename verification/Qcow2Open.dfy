/** Creating an image file and opening one. */
module Qcow2Open {
  import opened Division
  import opened Bytes
  import opened Qcow2Layout
  import opened Qcow2Trees
  import opened Qcow2Counts
  import opened Qcow2Volume
  import opened Qcow2State
  import opened Qcow2Image
  import opened Qcow2Grow
  import opened Qcow2Tables
  import opened Qcow2SnapTable
  import opened Qcow2Snapshot
  import opened Qcow2Write

  // ---------------------------------------------------------------- opening

  /** The image that opening a file finds, from the file alone. */
  ghost function Found(g: Geo, f: File): Vol
    requires g.Valid() && 0 in f && f[0].Header?
  {
    var h := f[0];
    var snaps := ReadSnaps(f, h.snapOff, h.nbSnaps);
    Vol(f, ReadL1(g, f, h.l1Off, h.l1Size), h.l1Off, snaps, h.snapOff, TableClusters(g, snaps),
        ReadPtrs(g, f, h.rtOff, h.rtSize), h.rtOff)
  }

  /** Nothing that matters is only in memory: after every completed operation the file alone
      determines the whole image. */
  lemma {:induction false} FoundSame(g: Geo, v: Vol)
    requires Sound(g, v) && v.snapClusters == TableClusters(g, v.snaps)
    ensures Found(g, v.file) == v
  {
    var h := v.file[0];
    StoredRoot(g, v.file, v.l1Off, v.l1);
    var rt := ReadPtrs(g, v.file, v.rtOff, |v.rt|);
    forall k | 0 <= k < |rt| ensures rt[k] == v.rt[k] { assert TableSlot(g, v.file, v.rtOff, k) == v.rt[k]; }
    assert rt == v.rt;
    assert ReadSnaps(v.file, v.snapOff, |v.snaps|) == v.snaps;
  }

  /** A sound image together with the size of its snapshot table. */
  ghost predicate Complete(s: BDRVQcowState)
    reads s
  {
    Valid(s) && s.snapSize == TableBytes(s.snaps)
  }

  lemma {:induction false} OpenedValid(s: BDRVQcowState)
    requires s.g.Valid() && Sound(s.g, V(s)) && s.crypt.Invertible() && s.snapSize == TableBytes(s.snaps)
    requires |s.l2Keys| == |s.l2Hits| == |s.l2Cache| == L2_CACHE_SIZE
    requires forall k :: 0 <= k < L2_CACHE_SIZE ==> s.l2Keys[k] == 0 && s.l2Hits[k] == 0
    requires s.rbCacheOff == 0 && |s.rbCache| == s.g.epb && s.fci == 0
    ensures Complete(s)
  {
    forall x | x == 0 || Owned(s.g, s.rt, s.rtOff, x) ensures RC(s.g, s.file, s.rt, x) >= 1 {
      OccBlock(s.rt, x);
      assert VRC(s.g, V(s), x) + One(false) == Refs(s.g, V(s), x) + One(InRun(x, 0, 0));
    }
  }

  /** Opening a file whose image is sound. */
  method QcowOpen(g: Geo, crypt: Cipher, backing: seq<Sector>, file: File) returns (s: BDRVQcowState)
    requires g.Valid() && 0 in file && file[0].Header? && Sound(g, Found(g, file)) && crypt.Invertible()
    ensures fresh(s) && Complete(s) && V(s) == Found(g, file) && X(s) == Ctx(g, backing, crypt) && s.fci == 0
  {
    s := new BDRVQcowState.Open(g, crypt, backing, file);
    assert V(s) == Found(g, file);
    hide Found, Sound;
    OpenedValid(s);
  }

  /** Closing an image and opening its file again gives the same image. */
  method Reopen(s: BDRVQcowState) returns (s': BDRVQcowState)
    requires Complete(s)
    ensures fresh(s') && Complete(s') && V(s') == V(s) && X(s') == X(s)
    ensures forall k :: RoomFor(s, k) ==> RoomFor(s', k)
  {
    FoundSame(s.g, V(s));
    s' := QcowOpen(s.g, s.crypt, s.backing, s.file);
  }

  // ---------------------------------------------------------------- creating

  /** The L1 size for a disk of so many sectors. */
  function L1For(g: Geo, total: nat): nat
    requires g.Valid()
  {
    Quot(total + g.cs * g.es - 1, g.cs * g.es)
  }

  /** The L1 table of a new disk is not empty and reaches every sector of the disk. */
  lemma {:induction false} L1ForCovers(g: Geo, total: nat, sec: nat)
    requires g.Valid() && sec < total
    ensures L1Needed(g, sec) <= L1For(g, total)
  {
    var d := g.cs * g.es;
    var n := L1For(g, total);
    QuotRem(total + d - 1, d);
    assert sec < n * d;
    assert n * d == n * g.es * g.cs;
    DivBound(sec, g.cs, n * g.es);
    DivBound(Quot(sec, g.cs), g.es, n);
  }

  /** And it is no larger than that takes. */
  lemma {:induction false} L1ForLeast(g: Geo, total: nat)
    requires g.Valid()
    ensures total <= L1For(g, total) * (g.cs * g.es) < total + g.cs * g.es
  {
    hide Quot;
    MulMono(1, g.cs, g.es);
    QuotBetween(total + g.cs * g.es - 1, g.cs * g.es);
  }

  /** The reference count table of a new image: one block. */
  function FirstTable(g: Geo, block: nat): (rt: seq<nat>)
    requires g.es > 0
    ensures |rt| == g.es && rt[0] == block && forall k :: 1 <= k < g.es ==> rt[k] == 0
  {
    [block] + seq(g.es - 1, _ => 0)
  }

  /** The clusters of a new image: header, n of L1, count table, count block. */
  ghost predicate FreshFile(g: Geo, f: File, l1Size: nat)
    requires g.Valid()
  {
    var n := EntryClusters(g, l1Size);
    && 0 in f && f[0] == Header(1, l1Size, n + 1, g.es, 0, 0)
    && L1Stored(g, f, 1, seq(l1Size, _ => ZERO))
    && n + 1 in f && f[n + 1] == Ptrs(FirstTable(g, n + 2))
    && FirstBlock(g, f, n + 2)
  }

  /** Block b counts one reference to every cluster up to itself. */
  ghost predicate FirstBlock(g: Geo, f: File, b: nat)
  {
    IsCounts(g, f, b) && forall x :: 0 <= x < g.epb ==> CountAt(f, b, x) == One(x <= b)
  }

  /** Cluster by cluster: the header, an L1 table without entries, a count table with one block, and the
      block, which counts the clusters up to itself once. */
  lemma {:induction false} FreshMeans(g: Geo, f: File, l1Size: nat, a: nat, b: nat, j: nat)
    requires g.Valid() && FreshFile(g, f, l1Size) && b < g.es && j < g.epb
    ensures var n := EntryClusters(g, l1Size);
            && 0 in f && f[0] == Header(1, l1Size, n + 1, g.es, 0, 0)
            && (a * g.es + b < l1Size ==> 1 + a in f && f[1 + a].Table? && |f[1 + a].entries| == g.es && f[1 + a].entries[b] == Entry(false, 0))
            && n + 1 in f && f[n + 1].Ptrs? && |f[n + 1].ptrs| == g.es && f[n + 1].ptrs[b] == (if b == 0 then n + 2 else 0)
            && n + 2 in f && f[n + 2].Counts? && |f[n + 2].counts| == g.epb && f[n + 2].counts[j] == (if j <= n + 2 then 1 else 0)
  {
    hide Quot, Rem, EntryClusters;
    var n := EntryClusters(g, l1Size);
    assert CountAt(f, n + 2, j) == One(j <= n + 2);
    if a * g.es + b < l1Size {
      DivExact(a, g.es, b);
      SlotInRun(g, a * g.es + b, l1Size);
      assert InRun(1 + a, 1, n);
      assert L1EntryAt(g, f, 1, a * g.es + b) == ZERO;
    }
  }

  /** Counts one more reference to the clusters start .. start+n. */
  method CreateRefcountUpdate(counts: seq<nat>, start: nat, n: nat) returns (counts': seq<nat>)
    requires start + n <= |counts|
    ensures |counts'| == |counts|
    ensures forall x :: 0 <= x < |counts| ==> counts'[x] == counts[x] + One(InRun(x, start, n))
  {
    counts' := counts;
    for c := start to start + n
      invariant |counts'| == |counts|
      invariant forall x :: 0 <= x < |counts| ==> counts'[x] == counts[x] + if start <= x < c then 1 else 0
    {
      counts' := counts'[c := counts'[c] + 1];
    }
  }

  /** Writes the file of an empty image. The L1 table must leave room in the only count block. */
  method QcowCreate(g: Geo, total: nat) returns (file: File)
    requires g.Valid() && EntryClusters(g, L1For(g, total)) + 3 <= g.epb
    ensures FreshFile(g, file, L1For(g, total))
  {
    var l1Size := L1For(g, total);
    var n := EntryClusters(g, l1Size);
    var counts := seq(g.epb, _ => 0);
    counts := CreateRefcountUpdate(counts, 0, 1);
    counts := CreateRefcountUpdate(counts, 1, n);
    counts := CreateRefcountUpdate(counts, n + 1, 1);
    counts := CreateRefcountUpdate(counts, n + 2, 1);
    var table := seq(l1Size, _ => ZERO);
    file := map[0 := Header(1, l1Size, n + 1, g.es, 0, 0)];
    WriteL1Stored(g, file, 1, table);
    file := WriteL1(g, file, 1, table);
    ghost var f := file;
    file := file[n + 1 := Ptrs(FirstTable(g, n + 2))];
    file := file[n + 2 := Counts(counts)];
    L1StoredFrame(g, f, file, 1, table);
  }

  lemma {:induction false} OccFirst(g: Geo, b: nat, x: nat)
    requires g.es > 0 && b != 0
    ensures Occ(FirstTable(g, b), x) == One(x == b)
  {
    var rt := FirstTable(g, b);
    var zeros := seq(g.es, _ => 0);
    assert rt == zeros[0 := b];
    OccUpdate(zeros, 0, b, x);
    OccAllZero(zeros, x);
  }

  lemma {:induction false} OneCluster(g: Geo)
    requires g.Valid()
    ensures EntryClusters(g, g.es) == 1
    ensures forall k :: 0 <= k < g.es ==> Quot(k, g.es) == 0 && Rem(k, g.es) == k
  {
    DivExact(1, g.es, g.es - 1);
    forall k | 0 <= k < g.es ensures Quot(k, g.es) == 0 && Rem(k, g.es) == k { DivExact(0, g.es, k); }
  }

  lemma {:induction false} FreshFound(g: Geo, f: File, l1Size: nat)
    requires g.Valid() && FreshFile(g, f, l1Size)
    ensures
      var v, n := Found(g, f), EntryClusters(g, l1Size);
      && v.l1 == seq(l1Size, _ => ZERO) && v.l1Off == 1 && v.snaps == [] && v.snapClusters == 0
      && v.rt == FirstTable(g, n + 2) && v.rtOff == n + 1 && v.file == f
  {
    hide EntryClusters, FirstBlock, TableSlot, RC;
    var v, n := Found(g, f), EntryClusters(g, l1Size);
    StoredRoot(g, f, 1, seq(l1Size, _ => ZERO));
    OneCluster(g);
    assert v.rt == FirstTable(g, n + 2);
    TableClustersZero(g, []);
  }

  /** The counts of a new image. */
  lemma {:induction false} FreshCounts(g: Geo, f: File, n: nat, x: nat)
    requires g.Valid() && n + 3 <= g.epb && FirstBlock(g, f, n + 2)
    ensures RC(g, f, FirstTable(g, n + 2), x) == One(x < n + 3)
  {
    QuotRem(x, g.epb);
    if x < g.epb {
      DivExact(0, g.epb, x);
    } else if Quot(x, g.epb) == 0 {
      assert false;
    }
  }

  lemma {:induction false} FreshRefs(g: Geo, f: File, l1Size: nat, x: nat)
    requires g.Valid() && FreshFile(g, f, l1Size)
    ensures
      var v, n := Found(g, f), EntryClusters(g, l1Size);
      TreesRefs(g, v, x) == 0 && MetaRefs(g, v, x) == One(x < n + 3) && TreeRefs(g, f, Roots(g, v)[0], x) == 0
  {
    var v, n := Found(g, f), EntryClusters(g, l1Size);
    FreshFound(g, f, l1Size);
    OccFirst(g, n + 2, x);
    OneCluster(g);
    TreeAllZero(g, f, Erase(v.l1), x);
    assert Roots(g, v) == [Erase(v.l1)];
    assert RootsRefs(g, f, [], x) == 0;
  }

  /** A new image is sound and reads as its backing file. */
  lemma {:induction false} FreshSound(x: Ctx, f: File, l1Size: nat)
    requires x.g.Valid() && FreshFile(x.g, f, l1Size) && EntryClusters(x.g, l1Size) + 3 <= x.g.epb && l1Size >= 1
    ensures Sound(x.g, Found(x.g, f))
    ensures forall s: nat :: View(x, Found(x.g, f), 0, s) == Backing(x.base, s)
  {
    FreshStruct(x.g, f, l1Size);
    FreshBalanced(x.g, f, l1Size);
    FreshRest(x, f, l1Size);
  }

  lemma {:induction false} FreshBalanced(g: Geo, f: File, l1Size: nat)
    requires g.Valid() && FreshFile(g, f, l1Size) && EntryClusters(g, l1Size) + 3 <= g.epb
    ensures Balanced(g, Found(g, f), 0, 0, 0)
  {
    var v, n := Found(g, f), EntryClusters(g, l1Size);
    FreshFound(g, f, l1Size);
    assert FirstBlock(g, f, n + 2);
    hide Found, FreshFile, FirstBlock, EntryClusters, FirstTable, TreesRefs, MetaRefs, RC;
    forall y ensures VRC(g, v, y) + One(false) == Refs(g, v, y) + One(InRun(y, 0, 0)) {
      FreshRefs(g, f, l1Size, y);
      FreshCounts(g, f, n, y);
    }
  }

  lemma {:induction false} FreshRest(x: Ctx, f: File, l1Size: nat)
    requires x.g.Valid() && FreshFile(x.g, f, l1Size)
    ensures FlagsExact(x.g, Found(x.g, f)) && Synced(Found(x.g, f))
    ensures forall s: nat :: View(x, Found(x.g, f), 0, s) == Backing(x.base, s)
  {
    FreshFound(x.g, f, l1Size);
    hide Found, EntryClusters, VRC, L1Stored, FirstBlock;
  }

  lemma {:induction false} FreshShape(g: Geo, f: File, l1Size: nat)
    requires g.Valid() && FreshFile(g, f, l1Size)
    ensures TableShape(g, f, FirstTable(g, EntryClusters(g, l1Size) + 2), EntryClusters(g, l1Size) + 1)
  {
    var n := EntryClusters(g, l1Size);
    var rt := FirstTable(g, n + 2);
    OneCluster(g);
    hide EntryClusters, FirstTable, Quot, Rem;
    assert forall y :: IsBlock(rt, y) ==> y == n + 2;
    assert BlocksStored(g, f, rt) by {
      var b := n + 2;
      forall j | 0 <= j < g.epb ensures f[b].counts[j] <= MAX_COUNT { assert CountAt(f, b, j) == One(j <= b); }
    }
    assert TableStored(g, f, rt, n + 1);
    assert BlocksOk(g, rt, n + 1);
  }

  lemma {:induction false} FreshStruct(g: Geo, f: File, l1Size: nat)
    requires g.Valid() && FreshFile(g, f, l1Size) && EntryClusters(g, l1Size) + 3 <= g.epb && l1Size >= 1
    ensures Struct(g, Found(g, f))
  {
    var v := Found(g, f);
    FreshFound(g, f, l1Size);
    FreshShape(g, f, l1Size);
    assert Roots(g, v) == [Erase(v.l1)];
    forall y ensures TreesRefs(g, v, y) == 0 && MetaRefs(g, v, y) <= 1 && TreeRefs(g, f, Roots(g, v)[0], y) == 0 { FreshRefs(g, f, l1Size, y); }
  }
}
