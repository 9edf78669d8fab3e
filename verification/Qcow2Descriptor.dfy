/** The descriptor of a compressed cluster in an L2 entry: byte offset, sector count and flag. */
module Qcow2Descriptor {
  import opened Division
  import opened Bits
  import opened Qcow2Compressed

  const SECTOR: nat := 512
  const FLAG_BIT: nat := 62

  function CsizeShift(cb: nat): nat
    requires 9 <= cb <= 16
  {
    FLAG_BIT - (cb - 8)
  }

  /** Sectors touched by len bytes at off, less one. */
  function CsectorsLess(off: nat, len: nat): nat
    requires len >= 1
  {
    DivMono(off, off + len - 1, SECTOR);
    Quot(off + len - 1, SECTOR) - Quot(off, SECTOR)
  }

  /** The flag of a compressed entry, bit 62. */
  function Flag(cb: nat): nat
    requires 9 <= cb <= 16
  {
    Pow2((cb - 8) + CsizeShift(cb))
  }

  /** The entry get_cluster_offset stores for a chunk of len bytes at byte off. */
  function Pack(cb: nat, off: nat, len: nat): nat
    requires 9 <= cb <= 16 && len >= 1
  {
    Or(off, Or(Flag(cb), Shl(CsectorsLess(off, len), CsizeShift(cb))))
  }

  function OffsetOf(cb: nat, v: nat): nat
    requires 9 <= cb <= 16
  {
    And(v, Pow2(CsizeShift(cb)) - 1)
  }

  function CsectorsOf(cb: nat, v: nat): nat
    requires 9 <= cb <= 16
  {
    And(Quot(v, Pow2(CsizeShift(cb))), Pow2(cb - 8) - 1) + 1
  }

  /** The number of sectors always fits its field. */
  lemma {:induction false} CsectorsFit(cb: nat, off: nat, len: nat)
    requires 9 <= cb <= 16 && 1 <= len <= Pow2(cb)
    ensures CsectorsLess(off, len) < Pow2(cb - 8)
  {
    var w := Pow2(cb - 9);
    assert Pow2(cb) == SECTOR * w && Pow2(cb - 8) == 2 * w by { Pow2Add(9, cb - 9); assert Pow2(9) == 512; }
    QuotBetween(off, SECTOR);
    QuotBetween(off + len - 1, SECTOR);
    var a, b := Quot(off, SECTOR), Quot(off + len - 1, SECTOR);
    assert b * SECTOR < (a + 1) * SECTOR + w * SECTOR;
    assert b < a + 1 + w;
  }

  /** The sector field and the offset field end where the flag begins. */
  lemma {:induction false} FlagSplits(cb: nat)
    requires 9 <= cb <= 16
    ensures Flag(cb) == Pow2(cb - 8) * Pow2(CsizeShift(cb))
  {
    hide Pow2;
    Pow2Add(cb - 8, CsizeShift(cb));
  }

  lemma {:induction false} FieldBelow(n: nat, m: nat, p: nat)
    requires n < m
    ensures n * p + p <= m * p
  {
    MulMono(n + 1, m, p);
    Distrib(n, 1, p);
  }

  lemma {:induction false} PackSum(cb: nat, off: nat, len: nat)
    requires 9 <= cb <= 16 && 1 <= len <= Pow2(cb) && off < Pow2(CsizeShift(cb))
    ensures Pack(cb, off, len) == off + (Pow2(cb - 8) + CsectorsLess(off, len)) * Pow2(CsizeShift(cb))
  {
    hide Pow2, Or, Quot, CsectorsLess;
    var p, m, n := Pow2(CsizeShift(cb)), Pow2(cb - 8), CsectorsLess(off, len);
    CsectorsFit(cb, off, len);
    FlagSplits(cb);
    FieldBelow(n, m, p);
    OrComm(Flag(cb), n * p);
    OrSum(n * p, 1, (cb - 8) + CsizeShift(cb));
    Distrib(m, n, p);
    OrSum(off, m + n, CsizeShift(cb));
  }

  /** The entry as a number: the byte offset, the sectors less one from bit 70 - cluster_bits on, and
      bit 62. */
  lemma {:induction false} EntryIs(cb: nat, off: nat, len: nat)
    requires 9 <= cb <= 16 && 1 <= len <= Pow2(cb) && off < Pow2(70 - cb)
    ensures Pack(cb, off, len) == off + (Quot(off + len - 1, 512) - Quot(off, 512)) * Pow2(70 - cb) + 0x4000_0000_0000_0000
  {
    hide Pow2, Or, Quot, Pack;
    PackSum(cb, off, len);
    FlagSplits(cb);
    Pow2Is();
    DivMono(off, off + len - 1, 512);
    Distrib(Pow2(cb - 8), CsectorsLess(off, len), Pow2(CsizeShift(cb)));
  }

  /** Nothing is lost in the packed form. */
  lemma {:induction false} DescriptorRoundTrip(cb: nat, off: nat, len: nat)
    requires 9 <= cb <= 16 && 1 <= len <= Pow2(cb) && off < Pow2(CsizeShift(cb))
    ensures OffsetOf(cb, Pack(cb, off, len)) == off
    ensures CsectorsOf(cb, Pack(cb, off, len)) == Quot(off + len - 1, SECTOR) - Quot(off, SECTOR) + 1
    ensures Flag(cb) <= Pack(cb, off, len) < 2 * Flag(cb)
  {
    hide Pow2, And, Or, Quot, Rem, Pack;
    var p, m, n := Pow2(CsizeShift(cb)), Pow2(cb - 8), CsectorsLess(off, len);
    CsectorsFit(cb, off, len);
    PackSum(cb, off, len);
    AndMask(Pack(cb, off, len), CsizeShift(cb));
    DivExact(m + n, p, off);
    AndMask(m + n, cb - 8);
    QuotIs(m + n, m, 1, m);
    FlagSplits(cb);
    Distrib(m, n, p);
    FieldBelow(n, m, p);
  }

  /** The first and the last cluster of the sectors a descriptor names: what free_clusters visits. */
  function FirstCluster(cb: nat, v: nat): nat
    requires 9 <= cb <= 16
  {
    Quot(Quot(OffsetOf(cb, v), SECTOR) * SECTOR, Pow2(cb))
  }

  function LastCluster(cb: nat, v: nat): nat
    requires 9 <= cb <= 16
  {
    Quot((Quot(OffsetOf(cb, v), SECTOR) + CsectorsOf(cb, v)) * SECTOR - 1, Pow2(cb))
  }

  /** Whole sectors lie in the clusters of their bytes. */
  lemma {:induction false} SectorCluster(cb: nat, x: nat, j: nat)
    requires 9 <= cb && j < SECTOR
    ensures Quot(Quot(x, SECTOR) * SECTOR + j, Pow2(cb)) == Quot(x, Pow2(cb))
  {
    hide Quot, Rem;
    var w := Pow2(cb - 9);
    assert Pow2(cb) == SECTOR * w by { Pow2Add(9, cb - 9); assert Pow2(9) == 512; }
    QuotQuot(x, SECTOR, w);
    QuotQuot(Quot(x, SECTOR) * SECTOR + j, SECTOR, w);
    DivExact(Quot(x, SECTOR), SECTOR, j);
  }

  /** Freeing a descriptor's sectors visits exactly the clusters its chunk touches, and the sectors
      read for decompression hold the whole chunk. */
  lemma {:induction false} DescriptorClusters(cb: nat, r: Chunk)
    requires 9 <= cb <= 16 && r.Valid(Pow2(cb)) && r.c * Pow2(cb) + r.pos < Pow2(CsizeShift(cb))
    ensures var v := Pack(cb, r.c * Pow2(cb) + r.pos, r.len);
            && (forall x: nat :: Touches(Pow2(cb), r, x) <==> FirstCluster(cb, v) <= x <= LastCluster(cb, v))
            && r.len <= CsectorsOf(cb, v) * SECTOR - Rem(OffsetOf(cb, v), SECTOR)
  {
    hide Pow2, Quot, Rem, And, Pack, OffsetOf, CsectorsOf, Touches;
    var off := r.c * Pow2(cb) + r.pos;
    DescriptorRoundTrip(cb, off, r.len);
    DescriptorRange(cb, off, r.len);
    ChunkClusters(Pow2(cb), r);
  }

  lemma {:induction false} DescriptorRange(cb: nat, off: nat, len: nat)
    requires 9 <= cb <= 16 && 1 <= len <= Pow2(cb) && off < Pow2(CsizeShift(cb))
    ensures FirstCluster(cb, Pack(cb, off, len)) == Quot(off, Pow2(cb))
    ensures LastCluster(cb, Pack(cb, off, len)) == Quot(off + len - 1, Pow2(cb))
    ensures len <= CsectorsOf(cb, Pack(cb, off, len)) * SECTOR - Rem(off, SECTOR)
  {
    hide Pow2, Quot, Rem, And, Pack, OffsetOf, CsectorsOf;
    var last := off + len - 1;
    DescriptorRoundTrip(cb, off, len);
    SectorCluster(cb, off, 0);
    SectorCluster(cb, last, SECTOR - 1);
    DivMono(off, last, SECTOR);
    QuotRem(off, SECTOR);
    QuotBetween(last, SECTOR);
  }

  lemma {:induction false} ChunkClusters(size: nat, r: Chunk)
    requires size >= 1 && r.Valid(size)
    ensures var off := r.c * size + r.pos; forall x: nat :: Touches(size, r, x) <==> Quot(off, size) <= x <= Quot(off + r.len - 1, size)
  {
    hide Quot, Rem;
    DivExact(r.c, size, r.pos);
    if r.pos + r.len <= size {
      DivExact(r.c, size, r.pos + r.len - 1);
    } else {
      Distrib(r.c, 1, size);
      DivExact(r.c + 1, size, r.pos + r.len - 1 - size);
    }
  }
}
