/** Growing the L1 table. */
module Qcow2Grow {
  import opened Division
  import opened Qcow2Layout
  import opened Qcow2Trees
  import opened Qcow2Counts
  import opened Qcow2Volume
  import opened Qcow2Steps
  import opened Qcow2State
  import opened Qcow2Refcount
  import opened Qcow2Image
  import opened Qcow2Io

  /** The size reached by growing by half until min entries fit. */
  function GrownSize(cur: nat, min: nat): (n: nat)
    requires cur >= 1
    ensures n >= cur && n >= min
    ensures min <= cur ==> n == cur
    decreases min - cur
  {
    if min <= cur then cur else GrownSize((cur * 3 + 1) / 2, min)
  }

  /** A table that grows has the size that follows by half, rounded up, from one that was too small; so
      it is less than half too large. */
  lemma {:induction false} GrownByHalf(cur: nat, min: nat) returns (m: nat)
    requires 1 <= cur < min
    ensures cur <= m < min && GrownSize(cur, min) == (3 * m + 1) / 2
    ensures m == cur || exists k: nat :: cur <= k < m && m == (3 * k + 1) / 2
    decreases min - cur
  {
    var next := (cur * 3 + 1) / 2;
    if min <= next {
      m := cur;
    } else {
      m := GrownByHalf(next, min);
      if m == next { assert cur <= cur < m && m == (3 * cur + 1) / 2; }
    }
  }

  lemma {:induction false} EntryClustersPositive(g: Geo, n: nat)
    requires g.es > 0 && n >= 1
    ensures EntryClusters(g, n) >= 1
  {
    SlotInRun(g, 0, n);
  }

  lemma {:induction false} PartEntry(g: Geo, t: seq<Entry>, i: nat)
    requires g.es > 0 && i < |t|
    ensures TablePart(g, t, Quot(i, g.es)).entries[Rem(i, g.es)] == t[i]
  {
    QuotRem(i, g.es);
  }

  lemma {:induction false} PartNormal(g: Geo, t: seq<Entry>, k: nat)
    requires forall i :: 0 <= i < |t| ==> Normal(t[i])
    ensures forall j :: 0 <= j < g.es ==> Normal(TablePart(g, t, k).entries[j])
  {
  }

  /** What WriteL1 stored can be read back, and nothing else changed. */
  lemma {:induction false} WriteL1Stored(g: Geo, f: File, off: nat, t: seq<Entry>)
    requires g.es > 0 && forall i :: 0 <= i < |t| ==> Normal(t[i])
    ensures L1Stored(g, WriteL1(g, f, off, t), off, t)
    ensures forall y :: !InRun(y, off, EntryClusters(g, |t|)) ==> SameAt(f, WriteL1(g, f, off, t), y)
  {
    var f' := WriteL1(g, f, off, t);
    var n := EntryClusters(g, |t|);
    forall y: nat | InRun(y, off, n) ensures y in f' && f'[y] == TablePart(g, t, y - off) {
      assert f'[y] == TableParts(g, t)[y - off];
    }
    forall y: nat | InRun(y, off, n) ensures IsTable(g, f', y) {
      PartNormal(g, t, y - off);
    }
    forall i | 0 <= i < |t| ensures L1EntryAt(g, f', off, i) == t[i] {
      SlotInRun(g, i, |t|);
      PartEntry(g, t, i);
      assert InRun(off + Quot(i, g.es), off, n);
    }
  }

  ghost function Grown(v: Vol, a: nat, t: seq<Entry>, f: File): Vol
  {
    v.(file := f[0 := Header(a, |t|, v.rtOff, |v.rt|, v.snapOff, |v.snaps|)], l1 := t, l1Off := a)
  }

  lemma {:induction false} NormalL1(g: Geo, v: Vol)
    requires Struct(g, v)
    ensures forall i :: 0 <= i < |v.l1| ==> Normal(v.l1[i])
  {
    forall i | 0 <= i < |v.l1| ensures Normal(v.l1[i]) {
      SlotInRun(g, i, |v.l1|);
      assert L1EntryAt(g, v.file, v.l1Off, i) == v.l1[i];
      assert InRun(v.l1Off + Quot(i, g.es), v.l1Off, EntryClusters(g, |v.l1|));
    }
  }

  /** Writing to clusters without references leaves the flags exact. */
  lemma {:induction false} FreshFlags(x: Ctx, v: Vol, v': Vol)
    requires Struct(x.g, v) && FlagsExact(x.g, v)
    requires v' == v.(file := v'.file)
    requires forall y :: Refs(x.g, v, y) >= 1 ==> SameAt(v.file, v'.file, y)
    ensures FlagsExact(x.g, v')
  {
    var g := x.g;
    assert forall y :: VRC(g, v', y) == VRC(g, v, y) by { FreshWrite(x, v, v'); }
    hide VRC, Struct;
    forall k | 0 <= k < |v.l1| && v.l1[k].cluster != 0 ensures SameAt(v.file, v'.file, v.l1[k].cluster) {
      ActiveRef(g, v, k, 0);
      assert Refs(g, v, v.l1[k].cluster) >= 1;
    }
    FlagsCarry(g, v, v', -1, -1, -1);
  }

  /** A table stored in a fresh run. */
  lemma {:induction false} FreshTable(x: Ctx, v: Vol, v1: Vol, a: nat, t: seq<Entry>)
    requires Struct(x.g, v) && FlagsExact(x.g, v)
    requires forall y :: InRun(y, a, EntryClusters(x.g, |t|)) ==> Refs(x.g, v, y) == 0
    requires forall i :: 0 <= i < |t| ==> Normal(t[i])
    requires v1 == v.(file := WriteL1(x.g, v.file, a, t))
    ensures Struct(x.g, v1) && SameViews(x, v, v1) && Roots(x.g, v1) == Roots(x.g, v) && (Synced(v) ==> Synced(v1))
    ensures FlagsExact(x.g, v1)
    ensures forall y :: Refs(x.g, v1, y) == Refs(x.g, v, y) && VRC(x.g, v1, y) == VRC(x.g, v, y)
    ensures forall y :: TreesRefs(x.g, v1, y) == TreesRefs(x.g, v, y)
    ensures L1Stored(x.g, v1.file, a, t)
    ensures forall y :: !InRun(y, a, EntryClusters(x.g, |t|)) ==> SameAt(v.file, v1.file, y)
  {
    WriteL1Stored(x.g, v.file, a, t);
    hide Refs, Struct, FlagsExact, Balanced, WriteL1, View, Synced, VRC, TreesRefs, L1Stored, Roots;
    assert forall y :: Refs(x.g, v, y) >= 1 ==> SameAt(v.file, v1.file, y);
    FreshWrite(x, v, v1);
    FreshFlags(x, v, v1);
  }

  lemma {:induction false} StructValid(g: Geo, v: Vol)
    requires Struct(g, v)
    ensures g.Valid() && |v.l1| >= 1
  {
  }

  /** From the image with a fresh run a to the image whose header names the table stored there. */
  lemma {:induction false} GrownSwitch(x: Ctx, v0: Vol, v: Vol, v': Vol, a: nat, t: seq<Entry>)
    requires Struct(x.g, v) && Synced(v) && FlagsExact(x.g, v)
    requires Sound(x.g, v0) && v.l1 == v0.l1 && v.l1Off == v0.l1Off
    requires forall y :: VRC(x.g, v, y) + Refs(x.g, v0, y) == Refs(x.g, v, y) + VRC(x.g, v0, y) + One(InRun(y, a, EntryClusters(x.g, |t|)))
    requires a > 0 && forall y :: InRun(y, a, EntryClusters(x.g, |t|)) ==> Refs(x.g, v, y) == 0
    requires |v.l1| <= |t| && t[..|v.l1|] == v.l1 && forall i :: |v.l1| <= i < |t| ==> t[i] == ZERO
    requires v' == Grown(v, a, t, WriteL1(x.g, v.file, a, t))
    ensures Struct(x.g, v') && Synced(v') && SameViews(x, v, v') && FlagsExact(x.g, v')
    ensures Balanced(x.g, v', v.l1Off, EntryClusters(x.g, |v.l1|), 0)
    ensures forall y :: TreesRefs(x.g, v', y) == TreesRefs(x.g, v, y)
    ensures forall y :: VRC(x.g, v', y) == VRC(x.g, v, y)
    ensures forall y :: InRun(y, v.l1Off, EntryClusters(x.g, |v.l1|)) ==> Refs(x.g, v', y) == 0 && y != 0 && !Owned(x.g, v.rt, v.rtOff, y)
    ensures forall y :: TreesRefs(x.g, v, y) >= 1 || Owned(x.g, v.rt, v.rtOff, y) ==> SameAt(v.file, v'.file, y)
  {
    var g := x.g;
    hide Refs, Struct, FlagsExact, Balanced, WriteL1, View, Synced, VRC, TreesRefs, L1Stored, Owned;
    StructValid(g, v);
    NormalL1(g, v);
    assert forall i :: 0 <= i < |t| ==> Normal(t[i]) by {
      forall i | 0 <= i < |t| ensures Normal(t[i]) { if i < |v.l1| { assert t[i] == v.l1[i]; } }
    }
    var v1 := v.(file := WriteL1(g, v.file, a, t));
    GrabBalanced(g, v0, v, a, EntryClusters(g, |t|), 0);
    FreshTable(x, v, v1, a, t);
    BalancedFilled(g, v, v1, a, EntryClusters(g, |t|), 0);
    SwitchL1(x, v1, v');
    SameViewsTrans(x, v, v1, v');
    GrownFrame(g, v, v1, v', a, t);
  }

  lemma {:induction false} GrownFrame(g: Geo, v: Vol, v1: Vol, v': Vol, a: nat, t: seq<Entry>)
    requires Struct(g, v) && v1 == v.(file := WriteL1(g, v.file, a, t)) && v' == Grown(v, a, t, v1.file)
    requires forall y :: InRun(y, a, EntryClusters(g, |t|)) ==> Refs(g, v, y) == 0
    requires forall y :: !InRun(y, a, EntryClusters(g, |t|)) ==> SameAt(v.file, v1.file, y)
    ensures forall y :: TreesRefs(g, v, y) >= 1 || Owned(g, v.rt, v.rtOff, y) ==> SameAt(v.file, v'.file, y)
    ensures forall y :: VRC(g, v', y) == VRC(g, v, y)
  {
    forall y | TreesRefs(g, v, y) >= 1 || Owned(g, v.rt, v.rtOff, y) ensures SameAt(v.file, v'.file, y) {
      OccBlock(v.rt, y);
      assert y != 0 by { assert MetaRefs(g, v, 0) >= 1; OccBlock(v.rt, 0); }
      assert SameAt(v.file, v1.file, y);
    }
    ShapeFrame(g, v.file, v'.file, v.rt, v.rtOff);
  }

  /** Room taken by growing the table to n entries. */
  function GrowCost(g: Geo, cur: nat, min: nat): nat
    requires g.es > 0 && cur >= 1
  {
    if min <= cur then 0 else EntryClusters(g, GrownSize(cur, min)) + 1
  }

  /** Grows the L1 table so that min entries fit; every guest disk reads as before. */
  method GrowL1Table(s: BDRVQcowState, min: nat, ghost k: nat)
    requires Valid(s) && RoomFor(s, k) && GrowCost(s.g, |s.l1|, min) <= k
    requires EntryClusters(s.g, GrownSize(|s.l1|, min)) < s.g.epb
    modifies s`file, s`l1, s`l1Off, s`rt, s`rbCache, s`rbCacheOff, s`fci
    ensures Valid(s) && SameViews(X(s), old(V(s)), V(s)) && RoomFor(s, k - GrowCost(s.g, |old(s.l1)|, min))
    ensures |s.l1| == GrownSize(|old(s.l1)|, min)
  {
    if min <= |s.l1| { return; }
    var size := |s.l1|;
    while min > size
      invariant size >= 1 && size >= |s.l1| && GrownSize(size, min) == GrownSize(|s.l1|, min)
      decreases min - size
    {
      size := (size * 3 + 1) / 2;
    }
    var t := s.l1 + seq(size - |s.l1|, _ => ZERO);
    MoveL1(s, t, k);
  }

  /** Stores table t, which extends the active one, in a new run and makes it the active one. */
  method MoveL1(s: BDRVQcowState, t: seq<Entry>, ghost k: nat)
    requires Valid(s) && RoomFor(s, k)
    requires |s.l1| < |t| && t[..|s.l1|] == s.l1 && forall i :: |s.l1| <= i < |t| ==> t[i] == ZERO
    requires EntryClusters(s.g, |t|) < s.g.epb && EntryClusters(s.g, |t|) + 1 <= k
    modifies s`file, s`l1, s`l1Off, s`rt, s`rbCache, s`rbCacheOff, s`fci
    ensures Valid(s) && SameViews(X(s), old(V(s)), V(s)) && RoomFor(s, k - (EntryClusters(s.g, |t|) + 1))
    ensures s.l1 == t
  {
    hide View, Struct, FlagsBut, Balanced, Synced;
    ghost var v0 := V(s);
    EntryClustersPositive(s.g, |t|);
    assert Covered(s.g, v0) by { BalancedCovers(s.g, v0, 0, 0, 0); }
    var a := Grab(s, EntryClusters(s.g, |t|), -1, -1, -1, k);
    ghost var v := V(s);
    var oldOff, oldSize := s.l1Off, |s.l1|;
    SwitchTable(s, a, t, v0);
    ghost var v1 := V(s);
    SameViewsTrans(X(s), v0, v, v1);
    FreeOldTable(s, oldOff, EntryClusters(s.g, oldSize), k - (EntryClusters(s.g, |t|) + 1));
    SameViewsTrans(X(s), v0, v1, V(s));
  }

  /** Writes the table and the header fields that locate it. */
  method SwitchTable(s: BDRVQcowState, a: nat, t: seq<Entry>, ghost v0: Vol)
    requires Readable(s) && Counted(s) && Synced(V(s)) && FlagsExact(s.g, V(s))
    requires Sound(s.g, v0) && s.l1 == v0.l1 && s.l1Off == v0.l1Off
    requires forall y :: VRC(s.g, V(s), y) + Refs(s.g, v0, y) == Refs(s.g, V(s), y) + VRC(s.g, v0, y) + One(InRun(y, a, EntryClusters(s.g, |t|)))
    requires a > 0 && forall y :: InRun(y, a, EntryClusters(s.g, |t|)) ==> Refs(s.g, V(s), y) == 0
    requires |s.l1| < |t| && t[..|s.l1|] == s.l1 && forall i :: |s.l1| <= i < |t| ==> t[i] == ZERO
    modifies s`file, s`l1, s`l1Off
    ensures Readable(s) && Counted(s) && Synced(V(s)) && FlagsExact(s.g, V(s))
    ensures SameViews(X(s), old(V(s)), V(s))
    ensures s.l1 == t && s.l1Off == a
    ensures Balanced(s.g, V(s), old(s.l1Off), EntryClusters(s.g, |old(s.l1)|), 0)
    ensures forall y :: InRun(y, old(s.l1Off), EntryClusters(s.g, |old(s.l1)|)) ==> Refs(s.g, V(s), y) == 0 && y != 0 && !Owned(s.g, s.rt, s.rtOff, y)
    ensures forall y :: RC(s.g, s.file, s.rt, y) == RC(s.g, old(s.file), s.rt, y)
  {
    hide View, Struct, FlagsBut, Balanced, Synced, WriteL1, Refs, VRC, TreesRefs, Sound, CacheOk, TableShape, OwnedCounted, BlockCacheOk, Owned;
    ghost var v := V(s);
    s.file := WriteL1(s.g, s.file, a, t);
    s.file := s.file[0 := Header(a, |t|, s.rtOff, |s.rt|, s.snapOff, |s.snaps|)];
    s.l1Off := a;
    s.l1 := t;
    GrownSwitch(X(s), v0, v, V(s), a, t);
    CacheKept(s.g, v, V(s), s.l2Keys, s.l2Cache);
    GrownCounts(s.g, v, V(s), s.rbCacheOff, s.rbCache);
  }

  lemma {:induction false} GrownCounts(g: Geo, v: Vol, v': Vol, off: nat, cache: seq<nat>)
    requires Struct(g, v) && v'.rt == v.rt && v'.rtOff == v.rtOff
    requires OwnedCounted(g, v.file, v.rt, v.rtOff) && BlockCacheOk(g, v.file, v.rt, off, cache)
    requires forall y :: Owned(g, v.rt, v.rtOff, y) ==> SameAt(v.file, v'.file, y)
    ensures TableShape(g, v'.file, v'.rt, v'.rtOff)
    ensures OwnedCounted(g, v'.file, v'.rt, v'.rtOff) && BlockCacheOk(g, v'.file, v'.rt, off, cache)
    ensures forall y :: RC(g, v'.file, v'.rt, y) == RC(g, v.file, v.rt, y)
  {
    ShapeFrame(g, v.file, v'.file, v.rt, v.rtOff);
    if off != 0 { assert Owned(g, v.rt, v.rtOff, off); }
  }

  /** Releases the clusters of a table that the header no longer names. */
  method FreeOldTable(s: BDRVQcowState, a: nat, n: nat, ghost k: nat)
    requires Readable(s) && Counted(s) && Synced(V(s)) && FlagsExact(s.g, V(s)) && s.crypt.Invertible() && RoomFor(s, k)
    requires Balanced(s.g, V(s), a, n, 0)
    requires forall y :: InRun(y, a, n) ==> Refs(s.g, V(s), y) == 0 && y != 0 && !Owned(s.g, s.rt, s.rtOff, y)
    modifies s`file, s`rt, s`rbCache, s`rbCacheOff, s`fci
    ensures Valid(s) && SameViews(X(s), old(V(s)), V(s)) && RoomFor(s, k)
  {
    hide View, Struct, FlagsExact, Balanced, Synced, Refs, TreesRefs, PlainRefs, CacheOk, Owned, RC, OwnedCounted, TableShape, BlockCacheOk, ScanOk, Room;
    ghost var v := V(s);
    RunHasCounts(s.g, v, a, n);
    FreeClusters(s, a, n);
    ghost var v' := V(s);
    RunFreed(X(s), v, v', a, n);
    TreesArePlain(s.g, v);
    CacheKept(s.g, v, v', s.l2Keys, s.l2Cache);
    ScanLowered(s.g, s.file, s.rt, s.rtOff, old(s.fci), s.fci);
    RoomLowered(s.g, v.file, s.file, s.rt, old(s.fci), s.fci, a, n, k);
  }

  lemma {:induction false} RunHasCounts(g: Geo, v: Vol, a: nat, n: nat)
    requires g.Valid() && Balanced(g, v, a, n, 0)
    ensures forall y :: InRun(y, a, n) ==> RC(g, v.file, v.rt, y) >= 1
  {
    forall y | InRun(y, a, n) ensures RC(g, v.file, v.rt, y) >= 1 {
      assert VRC(g, v, y) == Refs(g, v, y) + One(InRun(y, a, n));
    }
  }
}
