/** Committing an overlay into its backing file. */
module Commit {
  import opened Bytes
  import opened Cow

  const EACCES: int := 13
  const ENOTSUP: int := 95

  /** A device with a backing file: sectors that are allocated in the overlay hide those of the base. */
  class Overlay {
    const total: nat // sectors of the guest disk
    const readOnly: bool
    const hasBacking: bool
    const canEmpty: bool // the driver has a make_empty function
    var alloc: seq<bool>
    var data: seq<Sector>
    var base: seq<Sector>

    constructor (total: nat, readOnly: bool, hasBacking: bool, canEmpty: bool, alloc: seq<bool>, data: seq<Sector>, base: seq<Sector>)
      ensures this.total == total && this.readOnly == readOnly && this.hasBacking == hasBacking && this.canEmpty == canEmpty
      ensures this.alloc == alloc && this.data == data && this.base == base
    {
      this.total, this.readOnly, this.hasBacking, this.canEmpty := total, readOnly, hasBacking, canEmpty;
      this.alloc, this.data, this.base := alloc, data, base;
    }

    /** The overlay covers the disk, perhaps rounded up to a cluster, and the base has all those sectors. */
    ghost predicate Valid()
      reads this
    {
      total <= |alloc| == |data| <= |base|
    }

    ghost function View(k: nat): Sector
      requires Valid() && k < |alloc|
      reads this
    {
      if alloc[k] then data[k] else base[k]
    }
  }

  /** A driver's answer for sector i: n sectors from i, at least one, all allocated or all not. */
  ghost predicate UniformRun(alloc: seq<bool>, i: nat, used: bool, n: nat)
  {
    1 <= n && i + n <= |alloc| && forall k :: i <= k < i + n ==> alloc[k] == used
  }

  ghost predicate Reports(alloc: seq<bool>, total: nat, report: nat -> (bool, nat))
  {
    total <= |alloc| && forall i: nat :: i < total ==> UniformRun(alloc, i, report(i).0, report(i).1)
  }

  /** Afterwards the base has what the guest saw, and the guest sees the same as before, also when
      the overlay was emptied. */
  method BdrvCommit(bs: Overlay, report: nat -> (bool, nat)) returns (ret: int)
    requires bs.Valid() && Reports(bs.alloc, bs.total, report)
    modifies bs
    ensures bs.Valid() && |bs.alloc| == |old(bs.alloc)|
    ensures bs.readOnly ==> ret == -EACCES
    ensures !bs.readOnly && !bs.hasBacking ==> ret == -ENOTSUP
    ensures ret != 0 ==> bs.alloc == old(bs.alloc) && bs.data == old(bs.data) && bs.base == old(bs.base)
    ensures !bs.readOnly && bs.hasBacking ==> ret == 0
    ensures ret == 0 ==> forall k: nat :: k < bs.total ==> bs.base[k] == old(bs.View(k)) && bs.View(k) == old(bs.View(k))
    ensures ret == 0 ==> forall k: nat :: k < bs.total ==> bs.base[k] == if old(bs.alloc[k]) then old(bs.data[k]) else old(bs.base[k])
    ensures ret == 0 ==> forall k: nat :: |bs.alloc| <= k < |bs.base| ==> k < |old(bs.base)| && bs.base[k] == old(bs.base)[k]
    ensures ret == 0 && bs.canEmpty ==> forall k :: 0 <= k < |bs.alloc| ==> !bs.alloc[k]
    ensures ret == 0 && !bs.canEmpty ==> bs.alloc == old(bs.alloc)
  {
    if bs.readOnly { return -EACCES; }
    if !bs.hasBacking { return -ENOTSUP; }
    var i := 0;
    while i < bs.total
      invariant bs.alloc == old(bs.alloc) && bs.data == old(bs.data)
      invariant i <= |bs.alloc| && |bs.base| == |old(bs.base)|
      invariant forall k: nat :: k < |bs.base| ==> bs.base[k] == if k < i && bs.alloc[k] then bs.data[k] else old(bs.base)[k]
      decreases bs.total - i
    {
      var (used, n) := report(i);
      assert UniformRun(bs.alloc, i, used, n);
      if used {
        i := CopyRun(bs, i, n);
      } else {
        i := i + n;
      }
    }
    if bs.canEmpty { bs.alloc := seq(|bs.alloc|, _ => false); }
    ret := 0;
  }

  method BdrvRead(bs: Overlay, i: nat) returns (sector: Sector)
    requires bs.Valid() && i < |bs.alloc|
    ensures sector == bs.View(i) == if bs.alloc[i] then bs.data[i] else bs.base[i]
  {
    sector := if bs.alloc[i] then bs.data[i] else bs.base[i];
  }

  /** Copies the run, sector by sector. */
  method CopyRun(bs: Overlay, i0: nat, n: nat) returns (i: nat)
    requires bs.Valid() && UniformRun(bs.alloc, i0, true, n)
    modifies bs`base
    ensures i == i0 + n && |bs.base| == |old(bs.base)|
    ensures forall k: nat :: k < |bs.base| ==> bs.base[k] == if i0 <= k < i0 + n then bs.data[k] else old(bs.base)[k]
  {
    i := i0;
    for j := 0 to n
      invariant i == i0 + j && |bs.base| == |old(bs.base)|
      invariant forall k: nat :: k < |bs.base| ==> bs.base[k] == if i0 <= k < i0 + j then bs.data[k] else old(bs.base)[k]
    {
      var sector := BdrvRead(bs, i);
      bs.base := bs.base[i := sector];
      i := i + 1;
    }
  }

  // ---------------------------------------------------------------- drivers that report uniform runs

  /** The bitmap of a COW file as allocation of its sectors. */
  ghost function Bits(bitmap: seq<Byte>, total: nat): (alloc: seq<bool>)
    requires (total + 7) / 8 <= |bitmap|
    ensures |alloc| == total && forall k :: 0 <= k < total ==> alloc[k] == IsBitSet(bitmap, k)
  {
    seq(total, k requires 0 <= k < total => IsBitSet(bitmap, k))
  }

  lemma {:induction false} CowRunUniform(bitmap: seq<Byte>, total: nat, i: nat, nb: nat, changed: bool, n: nat)
    requires (total + 7) / 8 <= |bitmap| && i + nb <= total && MaximalRun(bitmap, i, nb, changed, n)
    ensures UniformRun(Bits(bitmap, total), i, changed, n)
    ensures forall m: nat :: UniformRun(Bits(bitmap, total), i, changed, m) && m <= nb ==> m <= n
  {
    hide Test;
    assert n < nb ==> Bits(bitmap, total)[i + n] != changed;
  }

  // ---------------------------------------------------------------- the requests of a COW commit

  const REQUEST: nat := 65536

  /** The first sector of the run of equal bits that ends with sector k. */
  ghost function RunStart(bitmap: seq<Byte>, k: nat): (r: nat)
    requires k < 8 * |bitmap|
    ensures r <= k && (forall m :: r <= m <= k ==> IsBitSet(bitmap, m) == IsBitSet(bitmap, k))
    ensures r > 0 ==> IsBitSet(bitmap, r - 1) != IsBitSet(bitmap, k)
  {
    if k == 0 || IsBitSet(bitmap, k - 1) != IsBitSet(bitmap, k) then k else RunStart(bitmap, k - 1)
  }

  /** How much of the last run of the bitmap is left over when it is asked for in full requests. */
  ghost function Rest(bitmap: seq<Byte>): nat
    requires |bitmap| > 0
  {
    (8 * |bitmap| - RunStart(bitmap, 8 * |bitmap| - 1)) % REQUEST
  }

  lemma {:induction false} RestAt(bitmap: seq<Byte>, i: nat, q: nat)
    requires |bitmap| > 0 && i == RunStart(bitmap, 8 * |bitmap| - 1) + REQUEST * q && i <= 8 * |bitmap| < i + REQUEST
    ensures Rest(bitmap) == 8 * |bitmap| - i
  {
    hide RunStart;
  }

  lemma {:induction false} LeavesFrom(bitmap: seq<Byte>, i: nat)
    requires i < 8 * |bitmap|
    ensures Leaves(bitmap, i, REQUEST) <==> RunStart(bitmap, 8 * |bitmap| - 1) <= i && i + REQUEST > 8 * |bitmap|
  {
    hide Test;
    var r := RunStart(bitmap, 8 * |bitmap| - 1);
    if r > i { assert IsBitSet(bitmap, r - 1) != IsBitSet(bitmap, r); }
  }

  /** A commit asks for full requests from sector to sector. It asks for bits behind the bitmap exactly
      if more is left over of the last run than the bits that fill up the last byte; that request then
      starts that far before the end, and the first sector it asks for in vain is the one behind the
      bitmap. */
  method CowRequests(bitmap: array<Byte>, total: nat) returns (left: bool, i: nat)
    requires total >= 1 && bitmap.Length == (total + 7) / 8
    ensures left <==> RunStart(bitmap[..], 8 * bitmap.Length - 1) < total && Rest(bitmap[..]) > 8 * bitmap.Length - total
    ensures left ==> i == 8 * bitmap.Length - Rest(bitmap[..]) && Leaves(bitmap[..], i, 65536)
    ensures !left ==> total <= i
  {
    hide RunStart, Rest, IsBitSet, Leaves;
    ghost var end, r := 8 * bitmap.Length, RunStart(bitmap[..], 8 * bitmap.Length - 1);
    ghost var q := 0;
    left, i := false, 0;
    while i < total
      invariant i <= end && (i <= r || i == r + REQUEST * q)
      decreases total - i
    {
      LeavesFrom(bitmap[..], i);
      var changed, n;
      left, changed, n := IsChanged(bitmap, i, REQUEST);
      if left {
        RestAt(bitmap[..], i, if i <= r then 0 else q);
        return;
      }
      RunStops(bitmap[..], i, changed, n);
      if i >= r { q := if i == r then 1 else q + 1; }
      i := i + n;
    }
    if i > r { RestAt(bitmap[..], i, q); }
  }

  /** An answer does not go over the start of the last run; inside that run it is a full one. */
  lemma {:induction false} RunStops(bitmap: seq<Byte>, i: nat, changed: bool, n: nat)
    requires i < 8 * |bitmap| && MaximalRun(bitmap, i, REQUEST, changed, n)
    ensures var r := RunStart(bitmap, 8 * |bitmap| - 1); if i < r then i + n <= r else n == REQUEST
  {
    hide Test;
    var r := RunStart(bitmap, 8 * |bitmap| - 1);
    assert i < r ==> IsBitSet(bitmap, r - 1) != IsBitSet(bitmap, r);
    assert IsBitSet(bitmap, i) == changed;
    assert r <= i && i + n < 8 * |bitmap| ==> IsBitSet(bitmap, i + n) == IsBitSet(bitmap, i);
  }
}
