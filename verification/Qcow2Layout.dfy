/** The host file of a QCOW2 image: clusters with typed contents, the tables stored in them,
    and the guest disk an L1 table stands for. Host offsets are counted in clusters, so a table
    entry is a cluster number and the copied flag; byte order is left out. */
module Qcow2Layout {
  import opened Division
  import opened Bytes

  /** Sectors, 8-byte entries and 2-byte reference counts per cluster. The file format has
      cs = 2^(cluster_bits-9), es = 64*cs and epb = 256*cs; nothing below needs more than Valid. */
  datatype Geo = Geo(cs: nat, es: nat, epb: nat)
  {
    ghost predicate Valid()
    {
      cs >= 1 && es >= 1 && epb >= 2
    }
  }

  /** An L1 or L2 entry. The number 0 in `cluster` is the unallocated entry, as offset 0 is in the file. */
  datatype Entry = Entry(copied: bool, cluster: nat)

  const ZERO: Entry := Entry(false, 0)
  const STALE_ENTRY: Entry := Entry(false, 0xDEAD)
  const STALE_COUNT: nat := 0xDEAD

  datatype SnapInfo = SnapInfo(id: string, name: string, vmStateSize: nat, dateSec: nat, dateNsec: nat, vmClockNsec: nat)

  datatype Snap = Snap(info: SnapInfo, l1Off: nat, l1Size: nat)

  datatype Cluster =
    | Header(l1Off: nat, l1Size: nat, rtOff: nat, rtSize: nat, snapOff: nat, nbSnaps: nat)
    | Table(entries: seq<Entry>)
    | Ptrs(ptrs: seq<nat>)
    | Counts(counts: seq<nat>)
    | Data(sectors: seq<Sector>)
    | SnapTable(snaps: seq<Snap>)

  type File = map<nat, Cluster>

  // ---------------------------------------------------------------- cluster accessors

  function EntryAt(f: File, c: nat, j: nat): Entry
  {
    if c in f && f[c].Table? && j < |f[c].entries| then f[c].entries[j] else STALE_ENTRY
  }

  function PtrAt(f: File, c: nat, j: nat): nat
  {
    if c in f && f[c].Ptrs? && j < |f[c].ptrs| then f[c].ptrs[j] else STALE_ENTRY.cluster
  }

  function CountAt(f: File, c: nat, j: nat): nat
  {
    if c in f && f[c].Counts? && j < |f[c].counts| then f[c].counts[j] else STALE_COUNT
  }

  function SectorAt(f: File, c: nat, j: nat): Sector
  {
    if c in f && f[c].Data? && j < |f[c].sectors| then f[c].sectors[j] else STALE_SECTOR
  }

  /** The raw zero entry is the only one that names cluster 0. */
  ghost predicate Normal(e: Entry)
  {
    e.cluster == 0 ==> !e.copied
  }

  ghost predicate IsTable(g: Geo, f: File, c: nat)
  {
    c in f && f[c].Table? && |f[c].entries| == g.es && forall j :: 0 <= j < g.es ==> Normal(f[c].entries[j])
  }

  ghost predicate IsCounts(g: Geo, f: File, c: nat)
  {
    c in f && f[c].Counts? && |f[c].counts| == g.epb
  }

  ghost predicate IsData(g: Geo, f: File, c: nat)
  {
    c in f && f[c].Data? && |f[c].sectors| == g.cs
  }

  ghost predicate SameAt(f: File, f': File, c: nat)
  {
    (c in f <==> c in f') && (c in f ==> f[c] == f'[c])
  }

  // ---------------------------------------------------------------- reading and writing clusters

  function ReadTable(g: Geo, f: File, c: nat): (t: seq<Entry>)
    ensures |t| == g.es
    ensures forall j :: 0 <= j < g.es ==> t[j] == EntryAt(f, c, j)
  {
    seq(g.es, j requires 0 <= j < g.es => EntryAt(f, c, j))
  }

  function ReadSectors(f: File, c: nat, start: nat, n: nat): (d: seq<Sector>)
    ensures |d| == n
    ensures forall k :: 0 <= k < n ==> d[k] == SectorAt(f, c, start + k)
  {
    seq<Sector>(n, k requires 0 <= k < n => SectorAt(f, c, start + k))
  }

  /** Overwrites sectors start .. start+|d| of cluster c and keeps the others. */
  function WriteSectors(g: Geo, f: File, c: nat, start: nat, d: seq<Sector>): (f': File)
    requires start + |d| <= g.cs
    ensures IsData(g, f', c)
    ensures forall x :: x != c ==> SameAt(f, f', x)
    ensures forall k :: 0 <= k < g.cs ==>
              SectorAt(f', c, k) == if start <= k < start + |d| then d[k - start] else SectorAt(f, c, k)
  {
    f[c := Data(seq<Sector>(g.cs, k requires 0 <= k < g.cs =>
                      if start <= k < start + |d| then d[k - start] else SectorAt(f, c, k)))]
  }

  function PutEntry(f: File, c: nat, j: nat, e: Entry): File
  {
    if c in f && f[c].Table? && j < |f[c].entries| then f[c := Table(f[c].entries[j := e])] else f
  }

  function PutPtr(f: File, c: nat, j: nat, p: nat): File
  {
    if c in f && f[c].Ptrs? && j < |f[c].ptrs| then f[c := Ptrs(f[c].ptrs[j := p])] else f
  }

  function PutCount(f: File, c: nat, j: nat, v: nat): File
  {
    if c in f && f[c].Counts? && j < |f[c].counts| then f[c := Counts(f[c].counts[j := v])] else f
  }

  // ---------------------------------------------------------------- tables that span clusters

  /** Clusters needed for n 8-byte entries. */
  function EntryClusters(g: Geo, n: nat): nat
    requires g.es > 0
  {
    Quot(n + g.es - 1, g.es)
  }

  predicate InRun(x: nat, off: nat, n: nat)
  {
    off <= x < off + n
  }

  /** Entry i of the L1 table stored from cluster off. */
  function L1EntryAt(g: Geo, f: File, off: nat, i: nat): Entry
    requires g.es > 0
  {
    EntryAt(f, off + Quot(i, g.es), Rem(i, g.es))
  }

  function ReadL1(g: Geo, f: File, off: nat, n: nat): (t: seq<Entry>)
    requires g.es > 0
    ensures |t| == n
    ensures forall i :: 0 <= i < n ==> t[i] == L1EntryAt(g, f, off, i)
  {
    seq(n, i requires 0 <= i < n => L1EntryAt(g, f, off, i))
  }

  /** The first n slots of the reference count table stored from cluster off. */
  function ReadPtrs(g: Geo, f: File, off: nat, n: nat): (p: seq<nat>)
    requires g.es > 0
    ensures |p| == n
    ensures forall k :: 0 <= k < n ==> p[k] == PtrAt(f, off + Quot(k, g.es), Rem(k, g.es))
  {
    seq(n, k requires 0 <= k < n => PtrAt(f, off + Quot(k, g.es), Rem(k, g.es)))
  }

  /** The first n snapshots of the table stored at cluster off. */
  function ReadSnaps(f: File, off: nat, n: nat): seq<Snap>
  {
    if off in f && f[off].SnapTable? && n <= |f[off].snaps| then f[off].snaps[..n] else []
  }

  /** Stores the given clusters from cluster off on. */
  function PutClusters(f: File, off: nat, parts: seq<Cluster>): (f': File)
    ensures forall x :: x in f' <==> x in f || InRun(x, off, |parts|)
    ensures forall x :: x in f' ==> f'[x] == if InRun(x, off, |parts|) then parts[x - off] else f[x]
  {
    if parts == [] then f
    else PutClusters(f, off, parts[..|parts| - 1])[off + |parts| - 1 := parts[|parts| - 1]]
  }

  /** Cluster k of table t, the last one filled up with zero entries. */
  function TablePart(g: Geo, t: seq<Entry>, k: nat): (c: Cluster)
    ensures c.Table? && |c.entries| == g.es
    ensures forall j :: 0 <= j < g.es ==> c.entries[j] == if k * g.es + j < |t| then t[k * g.es + j] else ZERO
  {
    Table(seq(g.es, j requires 0 <= j < g.es => if k * g.es + j < |t| then t[k * g.es + j] else ZERO))
  }

  function TableParts(g: Geo, t: seq<Entry>): (p: seq<Cluster>)
    requires g.es > 0
    ensures |p| == EntryClusters(g, |t|)
    ensures forall k :: 0 <= k < |p| ==> p[k] == TablePart(g, t, k)
  {
    seq(EntryClusters(g, |t|), k requires 0 <= k < EntryClusters(g, |t|) => TablePart(g, t, k))
  }

  /** Writes table t from cluster off on. */
  function WriteL1(g: Geo, f: File, off: nat, t: seq<Entry>): (f': File)
    requires g.es > 0
  {
    PutClusters(f, off, TableParts(g, t))
  }

  function Erase(t: seq<Entry>): (p: seq<nat>)
    ensures |p| == |t|
    ensures forall i :: 0 <= i < |t| ==> p[i] == t[i].cluster
  {
    seq(|t|, i requires 0 <= i < |t| => t[i].cluster)
  }

  // ---------------------------------------------------------------- the guest disk of a root

  /** The data cluster that guest cluster v resolves to under the L1 table l1, or 0. */
  function Lookup(g: Geo, f: File, l1: seq<nat>, v: nat): nat
    requires g.es > 0
  {
    if Quot(v, g.es) < |l1| && l1[Quot(v, g.es)] != 0 then EntryAt(f, l1[Quot(v, g.es)], Rem(v, g.es)).cluster else 0
  }

  /** The backing file, extended by zero sectors; an image without one has the empty backing file. */
  function Backing(base: seq<Sector>, s: nat): Sector
  {
    if s < |base| then base[s] else ZERO_SECTOR
  }

  lemma {:induction false} BackingIs(base: seq<Sector>, s: nat)
    ensures s < |base| ==> Backing(base, s) == base[s]
    ensures s >= |base| ==> forall i :: 0 <= i < 512 ==> Backing(base, s)[i] == 0
  {
    hide Fill;
    forall i | 0 <= i < 512 ensures ZERO_SECTOR[i] == 0 { ZeroBytes(i); }
  }

  function ViewAt(g: Geo, f: File, l1: seq<nat>, base: seq<Sector>, crypt: Cipher, s: nat): Sector
    requires g.es > 0 && g.cs > 0
  {
    var p := Lookup(g, f, l1, Quot(s, g.cs));
    if p == 0 then Backing(base, s) else crypt.dec(s, SectorAt(f, p, Rem(s, g.cs)))
  }
}
