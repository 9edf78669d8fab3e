/** When the reference count cache survives the creation of a block. The increment is followed here
    without assuming where the new block lands. */
module Qcow2Placement {
  import opened Bytes
  import opened Division
  import opened Qcow2Layout
  import opened Qcow2Trees
  import opened Qcow2Counts
  import Qcow2Refcount

  /** File, table, scan position and the one cached block. */
  datatype Counting = Counting(f: File, rt: seq<nat>, fci: nat, cacheOff: nat, cache: seq<nat>)

  /** Blocks are stored and distinct, and those ahead of the scan are counted. */
  ghost predicate Shape(g: Geo, t: Counting)
  {
    && g.Valid() && |t.cache| == g.epb
    && (forall x :: IsBlock(t.rt, x) ==> IsCounts(g, t.f, x))
    && (forall k, m :: 0 <= k < m < |t.rt| && t.rt[m] != 0 ==> t.rt[k] != t.rt[m])
    && (forall x: nat :: IsBlock(t.rt, x) && x >= t.fci ==> RC(g, t.f, t.rt, x) >= 1)
  }

  ghost predicate Coherent(g: Geo, t: Counting)
  {
    BlockCacheOk(g, t.f, t.rt, t.cacheOff, t.cache)
  }

  /** The cache names a block and holds no count below the one in the file. */
  ghost predicate NotBehind(g: Geo, t: Counting)
  {
    && IsBlock(t.rt, t.cacheOff) && IsCounts(g, t.f, t.cacheOff) && |t.cache| == g.epb
    && forall j :: 0 <= j < g.epb ==> t.f[t.cacheOff].counts[j] <= t.cache[j]
  }

  ghost function Free(g: Geo, t: Counting): nat
    requires g.Valid()
  {
    NextFree(g, t.f, t.rt, t.fci)
  }

  /** A block of zeros in the next free cluster, entered in slot k and cached. */
  ghost function Created(g: Geo, rtOff: nat, t: Counting, k: nat): Counting
    requires g.Valid() && k < |t.rt|
  {
    var off := Free(g, t);
    var zeros := seq(g.epb, _ => 0);
    Counting(PutPtr(t.f[off := Counts(zeros)], rtOff + Quot(k, g.es), Rem(k, g.es), off), t.rt[k := off], off + 1, off, zeros)
  }

  ghost function Loaded(g: Geo, t: Counting, off: nat): Counting
    requires IsCounts(g, t.f, off)
  {
    if off == t.cacheOff then t else t.(cacheOff := off, cache := t.f[off].counts)
  }

  /** One count up, read from the cache and written to the cache and to block off. */
  ghost function Bumped(g: Geo, t: Counting, off: nat, c: nat): (Counting, int)
    requires g.Valid() && |t.cache| == g.epb
  {
    var j := Rem(c, g.epb);
    var r := t.cache[j] + 1;
    if r > MAX_COUNT then (t, -Qcow2Refcount.EINVAL)
    else (t.(cache := t.cache[j := r], f := PutCount(t.f, off, j, r)), r)
  }

  /** Table slots without a block. */
  ghost function Missing(rt: seq<nat>): nat
  {
    if rt == [] then 0 else Missing(rt[..|rt| - 1]) + One(rt[|rt| - 1] == 0)
  }

  lemma {:induction false} MissingSet(rt: seq<nat>, k: nat, v: nat)
    requires k < |rt| && rt[k] == 0 && v != 0
    ensures Missing(rt[k := v]) < Missing(rt)
  {
    var n := |rt| - 1;
    if k < n {
      MissingSet(rt[..n], k, v);
      assert rt[k := v][..n] == rt[..n][k := v];
    } else {
      assert rt[k := v][..n] == rt[..n];
    }
  }

  lemma {:induction false} CreatedShape(g: Geo, rtOff: nat, t: Counting, k: nat)
    requires Shape(g, t) && k < |t.rt| && t.rt[k] == 0 && Free(g, t) != 0
    ensures Shape(g, Created(g, rtOff, t, k)) && Coherent(g, Created(g, rtOff, t, k))
    ensures NotBehind(g, Created(g, rtOff, t, k))
  {
    hide NextFree;
    var off, t' := Free(g, t), Created(g, rtOff, t, k);
    assert t'.rt[k] == off;
    forall x ensures IsBlock(t'.rt, x) <==> IsBlock(t.rt, x) || x == off {
      if IsBlock(t.rt, x) { var i :| 0 <= i < |t.rt| && t.rt[i] == x; assert t'.rt[i] == x; }
    }
    NewBlockRC(g, t.f, t'.f, t.rt, k, off);
  }

  lemma {:induction false} BumpedShape(g: Geo, t: Counting, off: nat, c: nat)
    requires Shape(g, t) && IsBlock(t.rt, off) && NotBehind(g, t)
    ensures Shape(g, Bumped(g, t, off, c).0) && NotBehind(g, Bumped(g, t, off, c).0)
    ensures Coherent(g, t) && t.cacheOff == off ==> Coherent(g, Bumped(g, t, off, c).0)
    ensures t.cacheOff != off && Bumped(g, t, off, c).1 >= 0 ==> !Coherent(g, Bumped(g, t, off, c).0)
  {
    var t', j := Bumped(g, t, off, c).0, Rem(c, g.epb);
    var r := t.cache[j] + 1;
    if r <= MAX_COUNT {
      forall x ensures RC(g, t'.f, t.rt, x) >= 1 || RC(g, t.f, t.rt, x) == 0 {}
      if t.cacheOff != off { assert t'.f[t.cacheOff] == t.f[t.cacheOff] && t'.cache[j] == r; }
    }
  }

  /** update_cluster_refcount(c, 1). The nested update for the new block's own cluster comes before
      the count of c is stored. */
  ghost function Increment(g: Geo, rtOff: nat, t: Counting, c: nat): (res: (Counting, int))
    requires Shape(g, t) && Coherent(g, t) && t.fci != 0
    ensures |res.0.cache| == g.epb
    decreases Missing(t.rt)
  {
    var k := Quot(c, g.epb);
    if k >= |t.rt| then (t, -Qcow2Refcount.EINVAL)
    else if t.rt[k] == 0 then
      CreatedShape(g, rtOff, t, k);
      MissingSet(t.rt, k, Free(g, t));
      Bumped(g, Increment(g, rtOff, Created(g, rtOff, t, k), Free(g, t)).0, Free(g, t), c)
    else
      LoadedShape(g, t, k);
      Bumped(g, Loaded(g, t, t.rt[k]), t.rt[k], c)
  }

  lemma {:induction false} LoadedShape(g: Geo, t: Counting, k: nat)
    requires Shape(g, t) && Coherent(g, t) && k < |t.rt| && t.rt[k] != 0
    ensures IsBlock(t.rt, t.rt[k]) && IsCounts(g, t.f, t.rt[k])
    ensures Shape(g, Loaded(g, t, t.rt[k])) && Coherent(g, Loaded(g, t, t.rt[k])) && NotBehind(g, Loaded(g, t, t.rt[k]))
  {
    hide RC, Quot, Rem;
    assert IsBlock(t.rt, t.rt[k]);
  }

  /** Slots once filled stay as they are. */
  ghost predicate Extends(rt: seq<nat>, rt': seq<nat>)
  {
    |rt'| == |rt| && forall i :: 0 <= i < |rt| && rt[i] != 0 ==> rt'[i] == rt[i]
  }

  /** The cached block is that of range k or of a later one. */
  ghost predicate CachedFrom(t: Counting, k: nat)
  {
    exists q :: k <= q < |t.rt| && t.rt[q] == t.cacheOff
  }

  lemma {:induction false} IncrementKeeps(g: Geo, rtOff: nat, t: Counting, c: nat)
    requires Shape(g, t) && Coherent(g, t) && t.fci != 0 && Quot(c, g.epb) < |t.rt|
    ensures var t' := Increment(g, rtOff, t, c).0;
            && Shape(g, t') && NotBehind(g, t') && Extends(t.rt, t'.rt)
            && (t.rt[Quot(c, g.epb)] != 0 ==> t'.cacheOff == t.rt[Quot(c, g.epb)] && Coherent(g, t'))
            && (c < t.fci ==> CachedFrom(t', Quot(c, g.epb)))
    decreases Missing(t.rt), 0
  {
    hide Shape, NotBehind, Coherent, RC, Rem, IsCounts, IsBlock, NextFree;
    ShapeValid(g, t);
    var k, off := Quot(c, g.epb), Free(g, t);
    if t.rt[k] == 0 {
      MissingSet(t.rt, k, off);
      CreatedShape(g, rtOff, t, k);
      var t1 := Created(g, rtOff, t, k);
      DivMono(if c < off then c else off, off, g.epb);
      NestedBlock(g, rtOff, t1, k, off);
      BumpedShape(g, Increment(g, rtOff, t1, off).0, off, c);
    } else {
      LoadedShape(g, t, k);
      BumpedShape(g, Loaded(g, t, t.rt[k]), t.rt[k], c);
    }
  }

  lemma {:induction false} ShapeValid(g: Geo, t: Counting)
    requires Shape(g, t)
    ensures g.Valid()
  {
  }

  /** The nested update for the block entered in slot k of t1. */
  lemma {:induction false} NestedBlock(g: Geo, rtOff: nat, t1: Counting, k: nat, off: nat)
    requires Shape(g, t1) && Coherent(g, t1) && NotBehind(g, t1) && off != 0
    requires k < |t1.rt| && t1.rt[k] == off && t1.cacheOff == off && t1.fci == off + 1
    ensures var t2 := Increment(g, rtOff, t1, off).0;
            && Shape(g, t2) && NotBehind(g, t2) && Extends(t1.rt, t2.rt) && IsBlock(t2.rt, off)
            && (Quot(off, g.epb) == k || Quot(off, g.epb) >= |t1.rt| ==> t2.cacheOff == off && Coherent(g, t2))
            && (k <= Quot(off, g.epb) ==> CachedFrom(t2, k))
            && (k < Quot(off, g.epb) < |t1.rt| ==> t2.cacheOff != off)
            && (Quot(off, g.epb) < k && t1.rt[Quot(off, g.epb)] != 0 ==> t2.cacheOff != off)
    decreases Missing(t1.rt), 1
  {
    hide NotBehind, Coherent, RC, Rem, IsCounts;
    var m := Quot(off, g.epb);
    var t2 := Increment(g, rtOff, t1, off).0;
    if m < |t1.rt| { IncrementKeeps(g, rtOff, t1, off); }
    assert t2.rt[k] == off;
    if k < m < |t1.rt| {
      var q :| m <= q < |t2.rt| && t2.rt[q] == t2.cacheOff;
      assert t2.rt[k] != t2.rt[q] by { if t2.rt[q] == off { assert false; } }
    }
  }

  /** The table reaches every cluster the update counts, so that it need not grow. */
  ghost predicate Contained(g: Geo, rtOff: nat, t: Counting, c: nat)
    requires Shape(g, t) && Coherent(g, t) && t.fci != 0
    decreases Missing(t.rt)
  {
    var k := Quot(c, g.epb);
    if k >= |t.rt| then false
    else if t.rt[k] != 0 then true
    else
      CreatedShape(g, rtOff, t, k);
      MissingSet(t.rt, k, Free(g, t));
      Contained(g, rtOff, Created(g, rtOff, t, k), Free(g, t))
  }

  /** No block is needed, or the next free cluster lies in the range of the block made from it. */
  ghost predicate OwnRange(g: Geo, t: Counting, c: nat)
    requires g.Valid() && Quot(c, g.epb) < |t.rt|
  {
    t.rt[Quot(c, g.epb)] != 0 || Quot(Free(g, t), g.epb) == Quot(c, g.epb)
  }

  /** With all earlier blocks in place, and a table that need not grow, the next free cluster decides
      whether the cache is the file's block again. */
  lemma {:induction false} CacheCoherentIff(g: Geo, rtOff: nat, t: Counting, c: nat)
    requires Shape(g, t) && Coherent(g, t) && t.fci != 0 && Contained(g, rtOff, t, c)
    requires forall m :: 0 <= m < Quot(c, g.epb) ==> t.rt[m] != 0
    requires Increment(g, rtOff, t, c).1 >= 0
    ensures Quot(c, g.epb) < |t.rt| && (Coherent(g, Increment(g, rtOff, t, c).0) <==> OwnRange(g, t, c))
  {
    hide Shape, NotBehind, Coherent, RC, Rem, IsCounts, IsBlock, NextFree, CachedFrom, Extends;
    ShapeValid(g, t);
    var k, off := Quot(c, g.epb), Free(g, t);
    if t.rt[k] == 0 {
      CreatedShape(g, rtOff, t, k);
      var t1 := Created(g, rtOff, t, k);
      assert Quot(off, g.epb) < |t1.rt|;
      NestedBlock(g, rtOff, t1, k, off);
      BumpedShape(g, Increment(g, rtOff, t1, off).0, off, c);
    } else {
      IncrementKeeps(g, rtOff, t, c);
    }
  }

  // ---------------------------------------------------------------- where it fails

  /** Blocks k and k + 1 are missing and the scan stands at the end of range k, as after a run that
      fills that range was found. */
  ghost predicate AtRangeEnd(g: Geo, t: Counting, k: nat)
    requires g.Valid()
  {
    k + 1 < |t.rt| && t.rt[k] == 0 && t.rt[k + 1] == 0 && t.fci == (k + 1) * g.epb
  }

  lemma {:induction false} RangeStart(g: Geo, k: nat)
    requires g.Valid()
    ensures var o := (k + 1) * g.epb;
            && o > 0 && Quot(o, g.epb) == k + 1 && Rem(o, g.epb) == 0 && Quot(o + 1, g.epb) == k + 1 && Rem(o + 1, g.epb) == 1
  {
    hide Quot, Rem;
    MulMono(1, k + 1, g.epb);
    DivExact(k + 1, g.epb, 0);
    DivExact(k + 1, g.epb, 1);
  }

  /** The first block goes to the first cluster of the next range. */
  lemma {:induction false} FirstMade(g: Geo, rtOff: nat, t: Counting, k: nat)
    requires Shape(g, t) && AtRangeEnd(g, t, k)
    ensures var o := (k + 1) * g.epb;
            var t1 := Created(g, rtOff, t, k);
            && Free(g, t) == o != 0 && t1.rt == t.rt[k := o] && t1.fci == o + 1 && Free(g, t1) == o + 1
            && IsCounts(g, t1.f, o) && t1.cacheOff == o
  {
    hide Quot, Rem;
    RangeStart(g, k);
  }

  /** Its own count needs the next block, which goes behind it. After both are counted, the cached
      block is the second one. */
  lemma {:induction false} SecondMade(g: Geo, rtOff: nat, t: Counting, k: nat)
    requires Shape(g, t) && Coherent(g, t) && AtRangeEnd(g, t, k)
    ensures var o := (k + 1) * g.epb;
            var t1 := Created(g, rtOff, t, k);
            && o != 0 && Shape(g, t1) && Coherent(g, t1)
            && var t2 := Increment(g, rtOff, t1, o).0;
               && t2.cacheOff == o + 1 && t2.cache == seq(g.epb, i => if i <= 1 then 1 else 0)
               && t2.rt == t.rt[k := o][k + 1 := o + 1] && IsCounts(g, t2.f, o)
               && Contained(g, rtOff, t1, o)
  {
    hide Shape, Coherent, NotBehind, Quot, Rem, RC, NextFree;
    ShapeValid(g, t);
    FirstMade(g, rtOff, t, k);
    RangeStart(g, k);
    CreatedShape(g, rtOff, t, k);
    var o := (k + 1) * g.epb;
    var t1 := Created(g, rtOff, t, k);
    CreatedShape(g, rtOff, t1, k + 1);
    var t2 := Created(g, rtOff, t1, k + 1);
    assert t2.rt[k + 1] == o + 1;
    var t3 := Increment(g, rtOff, t2, o + 1).0;
    assert t3.cache == seq(g.epb, _ => 0)[1 := 1];
    assert t3.cache[0 := 1] == seq(g.epb, i => if i <= 1 then 1 else 0);
  }

  /** In every such state the cache ends up incoherent, and the count stored for a cluster of range k
      is too high by one exactly for the two clusters whose places in their block are those of the two
      new blocks in theirs. */
  lemma {:induction false} BlockElsewhere(g: Geo, rtOff: nat, t: Counting, k: nat, c: nat)
    requires Shape(g, t) && Coherent(g, t) && AtRangeEnd(g, t, k) && Quot(c, g.epb) == k
    ensures t.fci != 0 && Contained(g, rtOff, t, c) && !OwnRange(g, t, c) && RC(g, t.f, t.rt, c) == 0
    ensures var r := Increment(g, rtOff, t, c);
            && r.1 == RC(g, r.0.f, r.0.rt, c) == 1 + One(Rem(c, g.epb) <= 1)
            && !Coherent(g, r.0)
  {
    hide Shape, Coherent, NotBehind, Quot, Rem, NextFree, Missing;
    ShapeValid(g, t);
    FirstMade(g, rtOff, t, k);
    RangeStart(g, k);
    SecondMade(g, rtOff, t, k);
    var o := (k + 1) * g.epb;
    var t1 := Created(g, rtOff, t, k);
    CreatedShape(g, rtOff, t, k);
    NestedBlock(g, rtOff, t1, k, o);
    BumpedShape(g, Increment(g, rtOff, t1, o).0, o, c);
  }

  /** Clusters of 512 bytes: header, L1 table, count table, count block, and data in the rest of the
      first range. 256 more clusters were just found free. */
  const SMALL: Geo := Geo(1, 64, 256)
  const START: Counting :=
    Counting(map[0 := Header(1, 1, 2, 64, 0, 0), 1 := Table(seq(64, _ => ZERO)), 2 := Ptrs(seq(64, i => if i == 0 then 3 else 0)), 3 := Counts(seq(256, _ => 1))]
             + (map x | 4 <= x < 256 :: Data([ZERO_SECTOR])),
             seq(64, i => if i == 0 then 3 else 0), 512, 0, seq(256, _ => 0))

  /** The smallest geometry has such a state: cluster 256 is counted twice for one reference. */
  lemma {:induction false} ElsewhereExample()
    ensures TableShape(SMALL, START.f, START.rt, 2) && OwnedCounted(SMALL, START.f, START.rt, 2)
    ensures Shape(SMALL, START) && Coherent(SMALL, START) && START.fci == 512 && Quot(256, 256) == 1
    ensures forall x: nat :: RC(SMALL, START.f, START.rt, x) == One(x < 256)
    ensures var r := Increment(SMALL, 2, START, 256);
            r.1 == RC(SMALL, r.0.f, r.0.rt, 256) == 2 && !Coherent(SMALL, r.0)
  {
    hide Increment;
    StartCounts();
    StartShape();
    DivExact(1, 256, 0);
    BlockElsewhere(SMALL, 2, START, 1, 256);
  }

  lemma {:induction false} StartCounts()
    ensures forall x: nat :: RC(SMALL, START.f, START.rt, x) == One(x < 256)
  {
    hide Quot, Rem;
    forall x: nat ensures RC(SMALL, START.f, START.rt, x) == One(x < 256) {
      DivBound(x, 256, 1);
    }
  }

  lemma {:induction false} StartShape()
    ensures TableShape(SMALL, START.f, START.rt, 2) && OwnedCounted(SMALL, START.f, START.rt, 2)
    ensures Shape(SMALL, START) && Coherent(SMALL, START)
  {
    hide Quot, Rem, RC;
    StartCounts();
    assert EntryClusters(SMALL, 64) == 1 by { DivExact(1, 64, 63); }
    assert START.rt[0] == 3;
    assert forall x :: IsBlock(START.rt, x) <==> x == 3;
    forall k | 0 <= k < 64 ensures TableSlot(SMALL, START.f, 2, k) == START.rt[k] { DivExact(0, 64, k); }
  }
}
