/** Committing an image of the first QCOW format into its backing file. */
module Qcow1Commit {
  import opened Division
  import opened Bytes
  import opened Qcow1Disk
  import opened Qcow1Image
  import opened Qcow1Ops
  import Commit

  /** Sectors asked about at a time. */
  const STRIDE: nat := 65536

  /** The clusters of the first total sectors. */
  ghost predicate Touched(g: Grid, total: nat, n: nat)
    requires g.Valid()
  {
    total > 0 && Quot(n, g.cs) <= Quot(total - 1, g.cs)
  }

  /** The backing file as a device: zeros past its end. */
  ghost function BaseOf(base: seq<Sector>): nat -> Sector
  {
    (n: nat) => if n < |base| then base[n] else ZERO_SECTOR
  }

  /** The array is the backing file of the image, and has every sector the image can hold. */
  ghost predicate IsBase(g: Grid, x: Ctx, total: nat, base: seq<Sector>)
    requires g.Valid()
  {
    && x.backing.Some? && (forall n: nat :: Touched(g, total, n) ==> n < |base|)
    && (forall n: nat :: n < |base| ==> base[n] == x.backing.value(n))
  }

  /** Up to sector i the backing file has what the guest sees. */
  ghost predicate Committed(g: Grid, x: Ctx, d: Disk, total: nat, was: seq<Sector>, now: seq<Sector>, i: nat)
    requires g.Valid()
  {
    |now| == |was| && forall n: nat :: n < |was| ==> now[n] == if n < i && Touched(g, total, n) then View(g, x, d, n) else was[n]
  }

  /** The merged disk goes into the base, sector by sector where the image has data. The guest sees the
      same before and after, though the image is empty then. */
  method BdrvCommit(s: Qcow1State, total: nat, readOnly: bool, base: array<Sector>) returns (ret: int)
    requires Valid(s) && Fits(s, 0, total) && (s.x.backing.Some? ==> IsBase(s.g, s.x, total, base[..]))
    modifies base, s`d, s`l1, s`keys, s`hits, s`cache, s`packedOff, s`packed
    ensures Valid(s)
    ensures ret == if readOnly then -Commit.EACCES else if s.x.backing.None? then -Commit.ENOTSUP else 0
    ensures ret != 0 ==> s.d == old(s.d) && base[..] == old(base[..])
    ensures ret == 0 ==> total <= base.Length && forall n: nat :: n < total ==> base[n] == old(View(s.g, s.x, s.d, n))
    ensures ret == 0 ==> forall n: nat :: n < base.Length && !Touched(s.g, total, n) ==> base[n] == old(base[n])
    ensures ret == 0 ==> forall n: nat :: n < total ==> View(s.g, s.x.(backing := Some(BaseOf(base[..]))), s.d, n) == old(View(s.g, s.x, s.d, n))
    ensures ret == 0 ==> forall c: nat :: EntryOf(s.g, s.d, c).Unused?
  {
    hide EntryOf, Quot, Rem, View, Live, PackedOk, Committed, IsBase, Touched;
    if readOnly { return -Commit.EACCES; }
    if s.x.backing.None? { return -Commit.ENOTSUP; }
    ValidGives(s);
    ghost var d0 := s.d;
    NothingCommitted(s.g, s.x, s.d, total, base[..]);
    var i := 0;
    while i < total
      invariant Valid(s) && s.d == d0 && |s.l1| == |old(s.l1)| && base.Length == |old(base[..])|
      invariant Committed(s.g, s.x, d0, total, old(base[..]), base[..], i)
      decreases total - i
    {
      i := CommitRun(s, total, base, old(base[..]), i);
    }
    MakeEmpty(s);
    CommitDone(s.g, s.x, d0, s.d, total, old(base[..]), base[..], i);
    forall n: nat | n < total ensures base[n] == View(s.g, s.x, d0, n) { assert base[..][n] == View(s.g, s.x, d0, n); }
    ret := 0;
  }

  lemma {:induction false} ValidGives(s: Qcow1State)
    requires Valid(s)
    ensures s.g.Valid() && s.l1 == s.d.l1 && 0 < s.d.base
  {
  }

  lemma {:induction false} NothingCommitted(g: Grid, x: Ctx, d: Disk, total: nat, base: seq<Sector>)
    requires g.Valid()
    ensures Committed(g, x, d, total, base, base, 0)
  {
  }

  /** One answer of is_allocated, and the copying of that run. */
  method CommitRun(s: Qcow1State, total: nat, base: array<Sector>, ghost was: seq<Sector>, i: nat) returns (i': nat)
    requires Valid(s) && Fits(s, 0, total) && i < total && |was| == base.Length
    requires IsBase(s.g, s.x, total, was) && Committed(s.g, s.x, s.d, total, was, base[..], i)
    modifies base, s`keys, s`hits, s`cache, s`packedOff, s`packed
    ensures Valid(s) && i' > i && Committed(s.g, s.x, s.d, total, was, base[..], i')
  {
    hide EntryOf, Quot, Rem, View, Stored, CacheOk, Qcow2Image.HitsOk, PackedOk, Committed, IsBase, Touched, Allocation, Commit.UniformRun;
    ValidGives(s);
    FitsAt(s, 0, total, i);
    var used, n := IsAllocated(s, i, STRIDE, i + STRIDE);
    RunInside(s, i, used, n, total);
    if used {
      i' := CopyRun(s, total, base, was, i, n);
    } else {
      i' := i + n;
      SkipRun(s.g, s.x, s.d, total, was, base[..], i, n);
    }
  }

  /** A run lies in one cluster of the disk. */
  lemma {:induction false} RunInside(s: Qcow1State, i: nat, used: bool, n: nat, total: nat)
    requires s.g.Valid() && i < total && Rem(i, s.g.cs) + n <= s.g.cs && Commit.UniformRun(Allocation(s, i + STRIDE), i, used, n)
    ensures n >= 1 && forall k: nat :: i <= k < i + n ==> Touched(s.g, total, k) && Quot(k, s.g.cs) == Quot(i, s.g.cs)
    ensures !used ==> forall k: nat :: i <= k < i + n ==> EntryOf(s.g, s.d, Quot(k, s.g.cs)).Unused?
  {
    hide EntryOf, Quot, Rem;
    PieceIndex(s.g, i, n);
    DivMono(i, total - 1, s.g.cs);
    assert Allocation(s, i + STRIDE)[i] == used;
  }

  lemma {:induction false} SkipRun(g: Grid, x: Ctx, d: Disk, total: nat, was: seq<Sector>, now: seq<Sector>, i: nat, n: nat)
    requires g.Valid() && IsBase(g, x, total, was) && Committed(g, x, d, total, was, now, i)
    requires forall k: nat :: i <= k < i + n ==> Touched(g, total, k) && EntryOf(g, d, Quot(k, g.cs)).Unused?
    ensures Committed(g, x, d, total, was, now, i + n)
  {
    hide EntryOf, Quot, Rem, Touched;
    forall k: nat | i <= k < i + n && k < |was| ensures View(g, x, d, k) == was[k] {}
  }

  method CopyRun(s: Qcow1State, total: nat, base: array<Sector>, ghost was: seq<Sector>, i0: nat, n: nat) returns (i: nat)
    requires Valid(s) && InDisk(s, Quot(i0, s.g.cs)) && |was| == base.Length && IsBase(s.g, s.x, total, was)
    requires forall k: nat :: i0 <= k < i0 + n ==> Touched(s.g, total, k) && Quot(k, s.g.cs) == Quot(i0, s.g.cs)
    requires Committed(s.g, s.x, s.d, total, was, base[..], i0)
    modifies base, s`keys, s`hits, s`cache, s`packedOff, s`packed
    ensures Valid(s) && i == i0 + n && Committed(s.g, s.x, s.d, total, was, base[..], i)
  {
    hide EntryOf, Quot, Rem, View, Stored, CacheOk, Qcow2Image.HitsOk, PackedOk, Committed, IsBase, Touched, Got;
    ValidGives(s);
    i := i0;
    for j := 0 to n
      invariant i == i0 + j && Valid(s) && Committed(s.g, s.x, s.d, total, was, base[..], i)
    {
      var ret, sector := AioRead(s, i, 1);
      BaseHas(s.g, s.x, total, was, i);
      ghost var before := base[..];
      assert sector[0] == View(s.g, s.x, s.d, i + 0);
      base[i] := sector[0];
      assert base[..] == before[i := sector[0]];
      CopyOne(s.g, s.x, s.d, total, was, before, i);
      i := i + 1;
    }
  }

  lemma {:induction false} BaseHas(g: Grid, x: Ctx, total: nat, was: seq<Sector>, i: nat)
    requires g.Valid() && IsBase(g, x, total, was) && Touched(g, total, i)
    ensures i < |was|
  {
  }

  lemma {:induction false} CopyOne(g: Grid, x: Ctx, d: Disk, total: nat, was: seq<Sector>, now: seq<Sector>, i: nat)
    requires g.Valid() && Touched(g, total, i) && i < |was| && Committed(g, x, d, total, was, now, i)
    ensures Committed(g, x, d, total, was, now[i := View(g, x, d, i)], i + 1)
  {
    hide View, Quot;
  }

  lemma {:induction false} CommitDone(g: Grid, x: Ctx, d: Disk, d': Disk, total: nat, was: seq<Sector>, now: seq<Sector>, i: nat)
    requires g.Valid() && i >= total && IsBase(g, x, total, was) && Committed(g, x, d, total, was, now, i)
    requires d'.ext == map[] && 0 < d'.base == d'.len && forall i :: 0 <= i < |d'.l1| ==> d'.l1[i] == 0
    ensures |now| == |was| && forall n: nat :: n < |was| && !Touched(g, total, n) ==> now[n] == was[n]
    ensures total <= |now| && forall n: nat :: n < total ==> now[n] == View(g, x, d, n)
    ensures forall n: nat :: n < total ==> View(g, x.(backing := Some(BaseOf(now))), d', n) == View(g, x, d, n)
  {
    hide View, EntryOf, Quot, Rem, Struct, Touched;
    var x' := x.(backing := Some(BaseOf(now)));
    NewDisk(g, x', d');
    if total > 0 { TouchedBelow(g, total, total - 1); }
    forall n: nat | n < total ensures now[n] == View(g, x, d, n) { TouchedBelow(g, total, n); }
    forall n: nat | n < total ensures View(g, x', d', n) == View(g, x, d, n) {
      TouchedBelow(g, total, n);
      assert x'.Base(n) == now[n];
    }
  }

  lemma {:induction false} TouchedBelow(g: Grid, total: nat, n: nat)
    requires g.Valid() && n < total
    ensures Touched(g, total, n)
  {
    hide Quot;
    DivMono(n, total - 1, g.cs);
  }
}
