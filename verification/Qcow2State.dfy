/** The in-memory state of an open image and the host file behind it. */
module Qcow2State {
  import opened Bytes
  import opened Qcow2Layout
  import opened Qcow2SnapTable

  const L2_CACHE_SIZE: nat := 16

  class BDRVQcowState {
    const g: Geo
    const crypt: Cipher
    const backing: seq<Sector>

    // the host file
    var file: File

    // active L1 table, kept in memory and written through
    var l1: seq<Entry>
    var l1Off: nat

    // L2 cache
    var l2Keys: seq<nat>
    var l2Hits: seq<nat>
    var l2Cache: seq<seq<Entry>>

    // reference counts
    var rt: seq<nat>
    var rtOff: nat
    var rbCacheOff: nat
    var rbCache: seq<nat>
    var fci: nat

    // where the next compressed chunk goes: a byte of a cluster that is in use, none if the cluster is 0
    var freeCluster: nat
    var freePos: nat

    // snapshots
    var snaps: seq<Snap>
    var snapOff: nat
    var snapSize: nat

    /** Opens the image that is stored in file: all tables are read, the caches are empty. */
    constructor Open(g: Geo, crypt: Cipher, backing: seq<Sector>, file: File)
      requires g.Valid() && 0 in file && file[0].Header?
      ensures this.g == g && this.crypt == crypt && this.backing == backing && this.file == file
      ensures l1Off == file[0].l1Off && l1 == ReadL1(g, file, file[0].l1Off, file[0].l1Size)
      ensures rtOff == file[0].rtOff && rt == ReadPtrs(g, file, file[0].rtOff, file[0].rtSize)
      ensures snapOff == file[0].snapOff && snaps == ReadSnaps(file, file[0].snapOff, file[0].nbSnaps) && snapSize == TableBytes(snaps)
      ensures |l2Keys| == |l2Hits| == |l2Cache| == L2_CACHE_SIZE
      ensures forall k :: 0 <= k < L2_CACHE_SIZE ==> l2Keys[k] == 0 && l2Hits[k] == 0
      ensures rbCacheOff == 0 && |rbCache| == g.epb && fci == 0 && freeCluster == 0
    {
      var h := file[0];
      var list := ReadSnaps(file, h.snapOff, h.nbSnaps);
      this.g, this.crypt, this.backing, this.file := g, crypt, backing, file;
      l1, l1Off := ReadL1(g, file, h.l1Off, h.l1Size), h.l1Off;
      l2Keys, l2Hits := seq(L2_CACHE_SIZE, _ => 0), seq(L2_CACHE_SIZE, _ => 0);
      l2Cache := seq(L2_CACHE_SIZE, _ => seq(g.es, _ => ZERO));
      rt, rtOff := ReadPtrs(g, file, h.rtOff, h.rtSize), h.rtOff;
      rbCacheOff, rbCache, fci := 0, seq(g.epb, _ => 0), 0;
      freeCluster, freePos := 0, 0;
      snaps, snapOff, snapSize := list, h.snapOff, TableBytes(list);
    }
  }
}
