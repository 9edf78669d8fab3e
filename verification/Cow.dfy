/** The COW format: a bitmap says which sectors are in the overlay. */
module Cow {
  import opened Bytes

  // ---------------------------------------------------------------- the bitmap

  /** 1 << k. */
  function Mask(k: nat): Byte
    requires k < 8
  {
    match k
    case 0 => 0x01
    case 1 => 0x02
    case 2 => 0x04
    case 3 => 0x08
    case 4 => 0x10
    case 5 => 0x20
    case 6 => 0x40
    case _ => 0x80
  }

  function Test(b: Byte, k: nat): bool
    requires k < 8
  {
    b & Mask(k) != 0
  }

  function Set(b: Byte, k: nat): Byte
    requires k < 8
  {
    b | Mask(k)
  }

  function IsBitSet(bitmap: seq<Byte>, n: nat): bool
    requires n / 8 < |bitmap|
  {
    Test(bitmap[n / 8], n % 8)
  }

  /** Sector n is bit n mod 8, from the least significant, of byte n / 8. */
  lemma {:induction false} BitOf(bitmap: seq<Byte>, n: nat)
    requires n / 8 < |bitmap|
    ensures IsBitSet(bitmap, n) <==> (bitmap[n / 8] >> (n % 8)) & 1 == 1
  {
    MaskedBit(bitmap[n / 8], n % 8);
  }

  lemma {:induction false} MaskedBit(b: Byte, k: nat)
    requires k < 8
    ensures Test(b, k) <==> (b >> k) & 1 == 1
  {
    assert k == 0 || k == 1 || k == 2 || k == 3 || k == 4 || k == 5 || k == 6 || k == 7;
  }

  lemma {:induction false} TestSet(b: Byte, i: nat, j: nat)
    requires i < 8 && j < 8
    ensures Test(Set(b, i), j) <==> i == j || Test(b, j)
  {
  }

  /** Sets bit n and no other. */
  method SetBit(bitmap: array<Byte>, n: nat)
    requires n / 8 < bitmap.Length
    modifies bitmap
    ensures forall m: nat :: m / 8 < bitmap.Length ==> (IsBitSet(bitmap[..], m) <==> m == n || IsBitSet(old(bitmap[..]), m))
  {
    hide Test, Set;
    ghost var was := bitmap[..];
    bitmap[n / 8] := Set(bitmap[n / 8], n % 8);
    forall m: nat | m / 8 < bitmap.Length ensures IsBitSet(bitmap[..], m) <==> m == n || IsBitSet(was, m) {
      TestSet(was[n / 8], n % 8, m % 8);
    }
  }

  /** The sectors sector .. sector+n have the same state as sector, and the run is as long as it
      can be within nb sectors. */
  ghost predicate MaximalRun(bitmap: seq<Byte>, sector: nat, nb: nat, changed: bool, n: nat)
  {
    && 1 <= n <= nb && sector + n <= 8 * |bitmap|
    && (forall k :: sector <= k < sector + n ==> IsBitSet(bitmap, k) == changed)
    && (n < nb ==> sector + n < 8 * |bitmap| && IsBitSet(bitmap, sector + n) != changed)
  }

  /** A request for nb sectors asks for bits behind the bitmap: it goes on past its end, and no sector
      up to there has another state than the first. */
  ghost predicate Leaves(bitmap: seq<Byte>, sector: nat, nb: nat)
    requires sector < 8 * |bitmap|
  {
    sector + nb > 8 * |bitmap| && forall k :: sector <= k < 8 * |bitmap| ==> IsBitSet(bitmap, k) == IsBitSet(bitmap, sector)
  }

  /** State of the first sector and length of the run that shares it; nothing if there is no bitmap.
      left says that the next bit to be tested lies behind the bitmap. */
  method IsChanged(bitmap: array?<Byte>, sector: nat, nb: nat) returns (left: bool, changed: bool, n: nat)
    requires bitmap != null && nb > 0 ==> sector < 8 * bitmap.Length
    ensures bitmap == null || nb == 0 ==> !left && !changed && n == nb
    ensures bitmap != null && nb > 0 ==> (left <==> Leaves(bitmap[..], sector, nb))
    ensures bitmap != null && nb > 0 ==> if left then sector + n == 8 * bitmap.Length else MaximalRun(bitmap[..], sector, nb, changed, n)
    ensures bitmap != null && nb > 0 && !left ==>
              && 1 <= n <= nb && sector + n <= 8 * bitmap.Length && (forall k :: sector <= k < sector + n ==> IsBitSet(bitmap[..], k) == changed)
              && (n < nb ==> sector + n < 8 * bitmap.Length && IsBitSet(bitmap[..], sector + n) != changed)
  {
    hide Test;
    if bitmap == null || nb == 0 { return false, false, nb; }
    left, changed := false, IsBitSet(bitmap[..], sector);
    n := 1;
    while n < nb
      invariant 1 <= n <= nb && sector + n <= 8 * bitmap.Length
      invariant forall k :: sector <= k < sector + n ==> IsBitSet(bitmap[..], k) == changed
    {
      if sector + n == 8 * bitmap.Length { return true, changed, n; }
      if IsBitSet(bitmap[..], sector + n) != changed { break; }
      n := n + 1;
    }
  }

  // ---------------------------------------------------------------- the overlay

  class BDRVCowState {
    const bitmap: array<Byte>
    const total: nat // sectors of the image
    const backing: seq<Sector>
    const hasBacking: bool
    var data: seq<Sector> // the sector area of the overlay file

    ghost predicate Valid()
      reads this, bitmap
    {
      |data| == total && (total + 7) / 8 <= bitmap.Length
    }

    constructor (total: nat, backing: seq<Sector>, hasBacking: bool)
      ensures Valid() && fresh(bitmap) && this.total == total && this.backing == backing && this.hasBacking == hasBacking
      ensures forall n: nat :: n < total ==> !IsBitSet(bitmap[..], n)
    {
      this.total, this.backing, this.hasBacking := total, backing, hasBacking;
      bitmap := new Byte[(total + 7) / 8](_ => 0);
      data := seq<Sector>(total, _ => STALE_SECTOR);
    }

    /** Sector n as the guest sees it; past the end of the backing file there is nothing to read. */
    ghost function View(n: nat): Sector
      requires Valid() && n < total
      reads this, bitmap
    {
      if IsBitSet(bitmap[..], n) then data[n]
      else if !hasBacking then ZERO_SECTOR
      else if n < |backing| then backing[n]
      else STALE_SECTOR
    }

    /** The read needs a sector that neither the overlay nor the backing file has. */
    ghost predicate Missing(sector: nat, nb: nat)
      requires Valid() && sector + nb <= total
      reads this, bitmap
    {
      hasBacking && exists k :: sector <= k < sector + nb && !IsBitSet(bitmap[..], k) && k >= |backing|
    }

    /** Reads the guest disk; fails exactly when the backing file is too short for the request. */
    method Read(sector: nat, nb: nat) returns (ret: int, buf: seq<Sector>)
      requires Valid() && sector + nb <= total
      ensures ret == 0 || ret == -1
      ensures ret < 0 <==> Missing(sector, nb)
      ensures ret == 0 ==> |buf| == nb && forall k :: 0 <= k < nb ==> buf[k] == View(sector + k)
      ensures ret == 0 ==> forall k :: 0 <= k < nb && IsBitSet(bitmap[..], sector + k) ==> buf[k] == data[sector + k]
      ensures ret == 0 && hasBacking ==> forall k :: 0 <= k < nb && !IsBitSet(bitmap[..], sector + k) ==> sector + k < |backing| && buf[k] == backing[sector + k]
      ensures ret == 0 && !hasBacking ==> forall k, i :: 0 <= k < nb && !IsBitSet(bitmap[..], sector + k) && 0 <= i < 512 ==> buf[k][i] == 0
    {
      hide Test;
      buf := [];
      var at, left := sector, nb;
      while left > 0
        invariant at + left == sector + nb && |buf| == at - sector && 0 <= left
        invariant forall k :: 0 <= k < |buf| ==> buf[k] == View(sector + k)
        invariant !Missing(sector, at - sector)
      {
        var _, changed, n := IsChanged(bitmap, at, left);
        ghost var before := buf;
        if changed {
          buf := buf + data[at..at + n];
        } else if hasBacking {
          if at + n > |backing| {
            assert !IsBitSet(bitmap[..], at + n - 1);
            return -1, [];
          }
          buf := buf + backing[at..at + n];
        } else {
          buf := buf + seq<Sector>(n, _ => ZERO_SECTOR);
        }
        forall k | |before| <= k < |before| + n ensures buf[k] == View(sector + k) { assert IsBitSet(bitmap[..], sector + k) == changed; }
        at, left := at + n, left - n;
      }
      ret := 0;
      forall i | 0 <= i < 512 ensures ZERO_SECTOR[i] == 0 { ZeroBytes(i); }
    }

    /** Writes to the overlay: the sectors written change and no others. */
    method Write(sector: nat, buf: seq<Sector>)
      requires Valid() && sector + |buf| <= total
      modifies this`data, bitmap
      ensures Valid()
      ensures forall n: nat :: n < total ==> View(n) == if sector <= n < sector + |buf| then buf[n - sector] else old(View(n))
    {
      hide Test;
      data := data[..sector] + buf + data[sector + |buf|..];
      ghost var d := data;
      for i := 0 to |buf|
        invariant data == d
        invariant forall m: nat :: m / 8 < bitmap.Length ==> (IsBitSet(bitmap[..], m) <==> sector <= m < sector + i || IsBitSet(old(bitmap[..]), m))
      {
        SetBit(bitmap, sector + i);
      }
    }
  }
}
