/** Reading and writing an open image of the first QCOW format. */
module Qcow1Image {
  import opened Division
  import opened Bytes
  import opened Qcow1Disk
  import opened Qcow2State
  import opened Qcow2Image

  class Qcow1State {
    const g: Grid
    const x: Ctx

    // the host file
    var d: Disk

    // L1 table, kept in memory and written through
    var l1: seq<nat>

    // L2 cache
    var keys: seq<nat>
    var hits: seq<nat>
    var cache: seq<seq<Qcow1Disk.Entry>>

    // the chunk decompressed last, -1 if none
    var packedOff: int
    var packed: seq<Sector>

    constructor Open(g: Grid, x: Ctx, d: Disk)
      ensures this.g == g && this.x == x && this.d == d && l1 == d.l1 && packedOff == -1
      ensures |keys| == |cache| == L2_CACHE_SIZE && HitsOk(hits) && forall k :: 0 <= k < |keys| ==> keys[k] == 0
    {
      this.g, this.x, this.d, l1 := g, x, d, d.l1;
      keys, hits := seq(L2_CACHE_SIZE, _ => 0), seq(L2_CACHE_SIZE, _ => 0);
      cache := seq(L2_CACHE_SIZE, _ => seq(g.es, _ => Unused));
      packedOff, packed := -1, [];
    }
  }

  ghost predicate CacheOk(g: Grid, d: Disk, keys: seq<nat>, cache: seq<seq<Qcow1Disk.Entry>>)
  {
    && |keys| == |cache| == L2_CACHE_SIZE
    && (forall k :: 0 <= k < |keys| && keys[k] != 0 ==> Qcow1Disk.IsTable(g, d, keys[k]) && cache[k] == d.ext[keys[k]].entries)
    && (forall k, m :: 0 <= k < m < |keys| && keys[k] != 0 ==> keys[k] != keys[m])
  }

  ghost predicate ChunksOk(g: Grid, x: Ctx, d: Disk)
  {
    forall o :: o in d.ext && d.ext[o].Chunk? ==> |x.codec.inflate(d.ext[o].bytes)| == g.cs
  }

  /** The decompressed cluster is that of the chunk at the offset it is named after, if there is one. */
  ghost predicate PackedOk(x: Ctx, d: Disk, off: int, packed: seq<Sector>)
  {
    off >= 0 && off in d.ext && d.ext[off].Chunk? ==> packed == x.codec.inflate(d.ext[off].bytes)
  }

  ghost predicate NoneEncrypted(g: Grid, x: Ctx, d: Disk)
    requires g.Valid()
  {
    x.crypt.Aes? ==> forall c: nat :: !EntryOf(g, d, c).Packed?
  }

  /** Everything but the L2 cache and its hits, and what is in the decompressed cluster. */
  ghost predicate Stored(s: Qcow1State)
    reads s
  {
    && Struct(s.g, s.d) && s.x.Valid(s.g.cs) && s.l1 == s.d.l1
    && ChunksOk(s.g, s.x, s.d) && NoneEncrypted(s.g, s.x, s.d) && (s.packedOff >= 0 ==> |s.packed| == s.g.cs)
  }

  /** The image is in order, except perhaps for the decompressed cluster. */
  ghost predicate Live(s: Qcow1State)
    reads s
  {
    Stored(s) && CacheOk(s.g, s.d, s.keys, s.cache) && HitsOk(s.hits)
  }

  ghost predicate Valid(s: Qcow1State)
    reads s
  {
    Live(s) && PackedOk(s.x, s.d, s.packedOff, s.packed)
  }

  ghost predicate SameChunks(d: Disk, d': Disk)
  {
    && (forall o :: o in d.ext && d.ext[o].Chunk? ==> o in d'.ext && d'.ext[o] == d.ext[o])
    && (forall o :: o in d'.ext && d'.ext[o].Chunk? ==> o in d.ext && d'.ext[o] == d.ext[o])
  }

  lemma {:induction false} PackedKept(x: Ctx, d: Disk, d': Disk, off: int, packed: seq<Sector>)
    requires SameChunks(d, d')
    ensures PackedOk(x, d', off, packed) <==> PackedOk(x, d, off, packed)
  {
  }

  // ---------------------------------------------------------------- L2 cache

  /** Looks for a cached table and counts the hit. */
  method Search(s: Qcow1State, off: nat) returns (found: bool, k: nat)
    requires Live(s)
    modifies s`hits
    ensures Live(s) && k < L2_CACHE_SIZE
    ensures found <==> off in s.keys
    ensures if found then s.keys[k] == off else forall m :: 0 <= m < |s.hits| ==> s.hits[k] <= s.hits[m]
  {
    for i := 0 to L2_CACHE_SIZE
      invariant Live(s) && s.hits == old(s.hits)
      invariant forall m :: 0 <= m < i ==> s.keys[m] != off
    {
      if s.keys[i] == off {
        s.hits := L2CacheHit(s.hits, i);
        return true, i;
      }
    }
    found := false;
    k := L2CacheNewEntry(s.hits);
  }

  method LoadTable(s: Qcow1State, off: nat) returns (k: nat)
    requires Live(s) && off != 0 && Qcow1Disk.IsTable(s.g, s.d, off)
    modifies s`keys, s`hits, s`cache
    ensures Live(s) && k < L2_CACHE_SIZE && s.keys[k] == off
  {
    hide Struct, EntryOf, ChunksOk, NoneEncrypted;
    var found;
    found, k := Search(s, off);
    if !found {
      s.cache := s.cache[k := s.d.ext[off].entries];
      s.keys := s.keys[k := off];
      s.hits := s.hits[k := 1];
    }
  }

  /** The end of the file, rounded up to a cluster. */
  function EndFor(g: Grid, len: nat): nat
    requires g.Valid()
  {
    var size := 512 * g.cs;
    Quot(len + size - 1, size) * size
  }

  lemma {:induction false} EndAligned(g: Grid, len: nat)
    requires g.Valid()
    ensures len <= EndFor(g, len) < len + 512 * g.cs && Rem(EndFor(g, len), 512) == 0
  {
    hide Quot, Rem;
    Aligned(len, g.cs, Quot(len + 512 * g.cs - 1, 512 * g.cs));
  }

  lemma {:induction false} Aligned(len: nat, cs: nat, q: nat)
    requires cs >= 1 && q == Quot(len + 512 * cs - 1, 512 * cs)
    ensures len <= q * (512 * cs) < len + 512 * cs && Rem(q * (512 * cs), 512) == 0
  {
    hide Quot, Rem;
    QuotBetween(len + 512 * cs - 1, 512 * cs);
    assert q * (512 * cs) == (q * cs) * 512;
    DivExact(q * cs, 512, 0);
  }

  /** A new table for L1 slot i, written to the file and cached. */
  method NewTable(s: Qcow1State, i: nat) returns (k: nat)
    requires Live(s) && i < |s.l1| && s.l1[i] == 0
    modifies s`d, s`l1, s`keys, s`hits, s`cache
    ensures Live(s) && k < L2_CACHE_SIZE && |s.l1| == |old(s.l1)| && s.l1[i] != 0 && s.keys[k] == s.l1[i]
    ensures Appended(old(s.d), s.d) && SameChunks(old(s.d), s.d) && s.d.len == EndFor(s.g, old(s.d.len)) + 8 * s.g.es
    ensures forall c: nat :: EntryOf(s.g, s.d, c) == old(EntryOf(s.g, s.d, c))
    ensures forall n: nat :: View(s.g, s.x, s.d, n) == old(View(s.g, s.x, s.d, n))
  {
    hide Struct, EntryOf, View, ChunksOk, NoneEncrypted, Put, PutL1, EndFor;
    StructGives(s.g, s.d);
    EndAligned(s.g, s.d.len);
    var off := EndFor(s.g, s.d.len);
    AddTable(s.g, s.d, i, off);
    var found;
    found, k := Search(s, off);
    var empty := seq(s.g.es, _ => Unused);
    ghost var d0 := s.d;
    s.l1 := s.l1[i := off];
    s.d := PutL1(s.d, i, off);
    s.cache := s.cache[k := empty];
    s.d := Put(s.d, off, Table(empty));
    s.keys := s.keys[k := off];
    s.hits := s.hits[k := 1];
    StoredKept(s.g, s.x, d0, s.d);
  }

  lemma {:induction false} StructGives(g: Grid, d: Disk)
    requires Struct(g, d)
    ensures g.Valid() && d.len > 0 && forall o :: o in d.ext ==> o < d.len
  {
  }

  /** The same chunks, and no more entries that point at one. */
  lemma {:induction false} StoredKept(g: Grid, x: Ctx, d: Disk, d': Disk)
    requires g.Valid() && ChunksOk(g, x, d) && NoneEncrypted(g, x, d) && SameChunks(d, d')
    requires forall c: nat :: EntryOf(g, d', c) == EntryOf(g, d, c) || !EntryOf(g, d', c).Packed?
    ensures ChunksOk(g, x, d') && NoneEncrypted(g, x, d')
  {
    hide EntryOf;
  }

  // ---------------------------------------------------------------- clusters

  /** The sectors of a new cluster that the caller will not write are zeros. */
  ghost predicate ZerosOutside(x: Ctx, sectors: seq<Sector>, start: nat, a: nat, b: nat)
  {
    forall i :: 0 <= i < |sectors| && !(a <= i < b) ==> x.Dec(start + i, sectors[i]) == ZERO_SECTOR
  }

  /** A cluster of zeros past the end of the file. */
  method AppendCluster(s: Qcow1State, off: nat, start: nat, a: nat, b: nat) returns (ghost sectors: seq<Sector>)
    requires Struct(s.g, s.d) && s.x.Valid(s.g.cs) && off >= s.d.len && b <= s.g.cs
    modifies s`d
    ensures |sectors| == s.g.cs && ZerosOutside(s.x, sectors, start, a, b)
    ensures s.d == Put(old(s.d), off, Data(sectors))
  {
    hide Struct;
    sectors := seq(s.g.cs, _ => ZERO_SECTOR);
    s.d := Put(s.d, off, Data(seq(s.g.cs, _ => ZERO_SECTOR)));
    if s.x.crypt.Aes? && b - a < s.g.cs {
      for i := 0 to s.g.cs
        invariant |sectors| == s.g.cs && s.d == Put(old(s.d), off, Data(sectors))
        invariant forall m :: 0 <= m < i && !(a <= m < b) ==> s.x.Dec(start + m, sectors[m]) == ZERO_SECTOR
      {
        if i < a || i >= b {
          var raw := EncryptSectors(s.x.Enc, start + i, [ZERO_SECTOR]);
          PutInside(old(s.d), off, sectors, i, raw[0]);
          assert raw == [raw[0]];
          sectors := sectors[i := raw[0]];
          s.d := PutSectors(s.d, off, i, raw);
        }
      }
    }
  }

  lemma {:induction false} PutInside(d: Disk, off: nat, sectors: seq<Sector>, i: nat, a: Sector)
    requires i < |sectors|
    ensures PutSectors(Put(d, off, Data(sectors)), off, i, [a]) == Put(d, off, Data(sectors[i := a]))
  {
    assert sectors[..i] + [a] + sectors[i + 1..] == sectors[i := a];
  }

  /** Inflates the chunk of an entry unless it is the one inflated last, going by its offset. */
  method DecompressCluster(s: Qcow1State, e: Qcow1Disk.Entry)
    requires Live(s) && e.Packed? && IsChunk(s.d, e.off, e.len)
    modifies s`packedOff, s`packed
    ensures Live(s) && s.packedOff == e.off && |s.packed| == s.g.cs
    ensures s.packed == if old(s.packedOff) == e.off then old(s.packed) else s.x.codec.inflate(s.d.ext[e.off].bytes)
    ensures old(Valid(s)) ==> Valid(s) && s.packed == s.x.codec.inflate(s.d.ext[e.off].bytes)
  {
    if s.packedOff != e.off {
      s.packed := s.x.codec.inflate(s.d.ext[e.off].bytes);
      s.packedOff := e.off;
    }
  }

  /** Where the next extent can go once cluster c has an L2 table. */
  function Landing(g: Grid, d: Disk, c: nat): nat
    requires g.Valid()
  {
    var i := Quot(c, g.es);
    if i < |d.l1| && d.l1[i] != 0 then d.len else EndFor(g, d.len) + 8 * g.es
  }

  /** The cached table for cluster c, which is made if there is none. */
  method TableFor(s: Qcow1State, c: nat) returns (k: nat)
    requires Live(s) && InDisk(s, c)
    modifies s`d, s`l1, s`keys, s`hits, s`cache
    ensures Live(s) && k < L2_CACHE_SIZE && |s.l1| == |old(s.l1)| && InDisk(s, c)
    ensures s.l1[Quot(c, s.g.es)] != 0 && s.keys[k] == s.l1[Quot(c, s.g.es)]
    ensures Appended(old(s.d), s.d) && SameChunks(old(s.d), s.d) && s.d.len == Landing(s.g, old(s.d), c)
    ensures forall c': nat :: EntryOf(s.g, s.d, c') == old(EntryOf(s.g, s.d, c'))
    ensures forall n: nat :: View(s.g, s.x, s.d, n) == old(View(s.g, s.x, s.d, n))
  {
    hide EntryOf, View, ChunksOk, NoneEncrypted, EntriesOk, Laid, Qcow1Disk.IsTable, EndFor, Quot, Size;
    var i := Quot(c, s.g.es);
    if s.l1[i] == 0 {
      k := NewTable(s, i);
    } else {
      k := LoadTable(s, s.l1[i]);
    }
  }

  ghost predicate InDisk(s: Qcow1State, c: nat)
    requires s.g.Valid()
    reads s
  {
    Quot(c, s.g.es) < |s.l1|
  }

  /** The entry of a cluster; nothing is allocated. */
  method Lookup(s: Qcow1State, sector: nat) returns (e: Qcow1Disk.Entry)
    requires Live(s) && InDisk(s, Quot(sector, s.g.cs))
    modifies s`keys, s`hits, s`cache
    ensures Live(s) && e == EntryOf(s.g, s.d, Quot(sector, s.g.cs))
  {
    hide ChunksOk, NoneEncrypted, EntriesOk, Laid, Quot, Rem;
    var c := Quot(sector, s.g.cs);
    var i := Quot(c, s.g.es);
    if s.l1[i] == 0 { return Unused; }
    var k := LoadTable(s, s.l1[i]);
    e := s.cache[k][Rem(c, s.g.es)];
  }

  /** Entry c in the cache and in the file now is e. */
  method StoreEntry(s: Qcow1State, c: nat, k: nat, e: Qcow1Disk.Entry)
    requires Live(s) && InDisk(s, c) && s.l1[Quot(c, s.g.es)] != 0 && k < L2_CACHE_SIZE && s.keys[k] == s.l1[Quot(c, s.g.es)]
    requires EntryOk(s.g, s.d, e) && (e.Packed? ==> !s.x.crypt.Aes?) && forall c': nat :: !SameTarget(e, EntryOf(s.g, s.d, c'))
    modifies s`d, s`cache
    ensures Live(s) && SamePlaces(old(s.d), s.d) && SameChunks(old(s.d), s.d)
    ensures forall c': nat :: EntryOf(s.g, s.d, c') == if c' == c then e else old(EntryOf(s.g, s.d, c'))
    ensures forall n: nat :: View(s.g, s.x, s.d, n) ==
              SectorAt(s.g, s.x, old(s.d), if Quot(n, s.g.cs) == c then e else old(EntryOf(s.g, s.d, Quot(n, s.g.cs))), n)
  {
    hide EntryOf, EntryOk, ChunksOk, NoneEncrypted, EntriesOk, Laid, Quot, Rem, View, SectorAt, PutEntry, Size;
    var j := Rem(c, s.g.es);
    ghost var d0 := s.d;
    SetEntry(s.g, s.d, c, e);
    s.cache := s.cache[k := s.cache[k][j := e]];
    s.d := PutEntry(s.d, s.l1[Quot(c, s.g.es)], j, e);
    if e.Packed? { StoredPacked(s.g, s.x, d0, s.d); } else { StoredKept(s.g, s.x, d0, s.d); }
  }

  lemma {:induction false} StoredPacked(g: Grid, x: Ctx, d: Disk, d': Disk)
    requires g.Valid() && ChunksOk(g, x, d) && SameChunks(d, d') && !x.crypt.Aes?
    ensures ChunksOk(g, x, d') && NoneEncrypted(g, x, d')
  {
  }

  /** What a sector of the cluster reads as, before the write that the cluster is wanted for. */
  ghost function Initial(g: Grid, x: Ctx, d: Disk, n: nat): Sector
    requires g.Valid()
  {
    if EntryOf(g, d, Quot(n, g.cs)).Unused? then ZERO_SECTOR else View(g, x, d, n)
  }

  /** The entry of cluster c is that of a chunk at offset off. */
  ghost predicate Names(g: Grid, d: Disk, off: int, c: nat)
    requires g.Valid()
  {
    EntryOf(g, d, c).Packed? && EntryOf(g, d, c).off == off
  }

  /** Sector n as it is read while the cluster packed is held for the chunk at off. */
  ghost function Seen(g: Grid, x: Ctx, d: Disk, off: int, packed: seq<Sector>, n: nat): Sector
    requires g.Valid()
  {
    if Names(g, d, off, Quot(n, g.cs)) && Rem(n, g.cs) < |packed| then packed[Rem(n, g.cs)] else View(g, x, d, n)
  }

  lemma {:induction false} SeenRight(g: Grid, x: Ctx, d: Disk, off: int, packed: seq<Sector>, n: nat)
    requires Struct(g, d) && ChunksOk(g, x, d) && PackedOk(x, d, off, packed)
    ensures Seen(g, x, d, off, packed, n) == View(g, x, d, n)
  {
    hide EntryOf, Quot, Rem, Struct, ChunksOk;
    StructGives(g, d);
    var c := Quot(n, g.cs);
    if Names(g, d, off, c) { PackedChunk(g, x, d, c); }
  }

  /** The same while the cluster packed is held for the chunk at off. */
  ghost function Kept(g: Grid, x: Ctx, d: Disk, off: int, packed: seq<Sector>, n: nat): Sector
    requires g.Valid()
  {
    if EntryOf(g, d, Quot(n, g.cs)).Unused? then ZERO_SECTOR else Seen(g, x, d, off, packed, n)
  }

  lemma {:induction false} KeptSame(g: Grid, x: Ctx, d: Disk, d': Disk, off: int, packed: seq<Sector>)
    requires g.Valid() && (forall c: nat :: EntryOf(g, d', c) == EntryOf(g, d, c)) && forall n: nat :: View(g, x, d', n) == View(g, x, d, n)
    ensures forall n: nat :: Kept(g, x, d', off, packed, n) == Kept(g, x, d, off, packed, n)
  {
    hide EntryOf, View, Quot, Rem;
  }

  lemma {:induction false} KeptPlain(g: Grid, x: Ctx, d: Disk, off: int, packed: seq<Sector>, c: nat)
    requires g.Valid() && EntryOf(g, d, c).Plain?
    ensures forall n: nat :: Quot(n, g.cs) == c ==> Kept(g, x, d, off, packed, n) == View(g, x, d, n)
  {
    hide EntryOf, View, Quot, Rem;
  }

  /** What is held for the right chunk does not show. */
  lemma {:induction false} KeptRight(g: Grid, x: Ctx, d: Disk, off: int, packed: seq<Sector>, n: nat)
    requires Struct(g, d) && ChunksOk(g, x, d) && NoneEncrypted(g, x, d) && PackedOk(x, d, off, packed)
    ensures Kept(g, x, d, off, packed, n) == Initial(g, x, d, n)
  {
    hide EntryOf, Quot, Rem, Struct, ChunksOk;
    StructGives(g, d);
    var c := Quot(n, g.cs);
    if EntryOf(g, d, c).Packed? { PackedChunk(g, x, d, c); }
  }

  ghost predicate Inside(g: Grid, n: nat, c: nat, a: nat, b: nat)
    requires g.Valid()
  {
    Quot(n, g.cs) == c && a <= Rem(n, g.cs) < b
  }

  /** The sectors of cluster c outside a .. b have their initial contents. */
  ghost predicate Prepared(g: Grid, x: Ctx, d: Disk, off: int, packed: seq<Sector>, c: nat, sectors: seq<Sector>, a: nat, b: nat)
    requires g.Valid() && |sectors| == g.cs
  {
    forall n: nat :: Quot(n, g.cs) == c && !Inside(g, n, c, a, b) ==> x.Dec(n, sectors[Rem(n, g.cs)]) == Kept(g, x, d, off, packed, n)
  }

  /** Room for an uncompressed cluster; a chunk that is only partly overwritten is unpacked into it. */
  method NewCluster(s: Qcow1State, sector: nat, e: Qcow1Disk.Entry, a: nat, b: nat) returns (off: nat, ghost sectors: seq<Sector>)
    requires Live(s) && e == EntryOf(s.g, s.d, Quot(sector, s.g.cs)) && !e.Plain? && a < b <= s.g.cs
    modifies s`d, s`packedOff, s`packed
    ensures |sectors| == s.g.cs && Prepared(s.g, s.x, old(s.d), old(s.packedOff), old(s.packed), Quot(sector, s.g.cs), sectors, a, b)
    ensures off >= old(s.d.len) && Rem(off, 512) == 0 && s.d == Put(old(s.d), off, Data(sectors))
    ensures old(PackedOk(s.x, s.d, s.packedOff, s.packed)) ==> PackedOk(s.x, old(s.d), s.packedOff, s.packed)
    ensures s.packedOff >= 0 ==> |s.packed| == s.g.cs
    ensures if e.Packed? && b - a < s.g.cs then s.packedOff == e.off else s.packedOff == old(s.packedOff) && s.packed == old(s.packed)
  {
    hide EntryOf, Quot, Rem, Laid, EntriesOk, Put, View, ZerosOutside, Prepared, Kept, EndFor;
    EndAligned(s.g, s.d.len);
    off := EndFor(s.g, s.d.len);
    if e.Packed? && b - a < s.g.cs {
      PackedChunk(s.g, s.x, s.d, Quot(sector, s.g.cs));
      DecompressCluster(s, e);
      sectors := s.packed;
      s.d := Put(s.d, off, Data(s.packed));
      PreparedPacked(s.g, s.x, old(s.d), old(s.packedOff), old(s.packed), Quot(sector, s.g.cs), a, b);
    } else {
      RemLe(sector, s.g.cs);
      var start := sector - Rem(sector, s.g.cs);
      sectors := AppendCluster(s, off, start, a, b);
      PreparedZeros(s.g, s.x, old(s.d), s.packedOff, s.packed, sector, sectors, a, b);
    }
  }

  lemma {:induction false} RemLe(x: nat, m: nat)
    requires m > 0
    ensures Rem(x, m) <= x
  {
    if x >= m { RemLe(x - m, m); }
  }

  lemma {:induction false} PackedChunk(g: Grid, x: Ctx, d: Disk, c: nat)
    requires Struct(g, d) && ChunksOk(g, x, d) && EntryOf(g, d, c).Packed?
    ensures IsChunk(d, EntryOf(g, d, c).off, EntryOf(g, d, c).len) && |x.codec.inflate(d.ext[EntryOf(g, d, c).off].bytes)| == g.cs
  {
    hide EntryOf;
    assert EntryOk(g, d, EntryOf(g, d, c));
  }

  lemma {:induction false} PreparedPacked(g: Grid, x: Ctx, d: Disk, off: int, packed: seq<Sector>, c: nat, a: nat, b: nat)
    requires Struct(g, d) && ChunksOk(g, x, d) && NoneEncrypted(g, x, d) && EntryOf(g, d, c).Packed? && (off >= 0 ==> |packed| == g.cs)
    ensures EntryOf(g, d, c).off in d.ext && d.ext[EntryOf(g, d, c).off].Chunk?
    ensures var sectors := if off == EntryOf(g, d, c).off then packed else x.codec.inflate(d.ext[EntryOf(g, d, c).off].bytes);
            |sectors| == g.cs && Prepared(g, x, d, off, packed, c, sectors, a, b)
  {
    hide EntryOf, Quot, Rem, Struct, ChunksOk;
    PackedChunk(g, x, d, c);
  }

  lemma {:induction false} PreparedZeros(g: Grid, x: Ctx, d: Disk, off: int, packed: seq<Sector>, sector: nat, sectors: seq<Sector>, a: nat, b: nat)
    requires g.Valid() && |sectors| == g.cs && a < b <= g.cs && sector >= Rem(sector, g.cs)
    requires EntryOf(g, d, Quot(sector, g.cs)).Unused? || b - a == g.cs
    requires ZerosOutside(x, sectors, sector - Rem(sector, g.cs), a, b)
    ensures Prepared(g, x, d, off, packed, Quot(sector, g.cs), sectors, a, b)
  {
    hide EntryOf, Quot, Rem, View;
    QuotRem(sector, g.cs);
    forall n: nat | Quot(n, g.cs) == Quot(sector, g.cs) ensures n == sector - Rem(sector, g.cs) + Rem(n, g.cs) { QuotRem(n, g.cs); }
  }

  /** What is held after k sectors of cluster c were made room for: the chunk of c if it had to be
      unpacked, else what was held before. */
  ghost predicate HeldFor(g: Grid, d: Disk, c: nat, k: int, off: int, packed: seq<Sector>, off': int, packed': seq<Sector>)
    requires g.Valid()
  {
    if EntryOf(g, d, c).Packed? && k < g.cs then off' == EntryOf(g, d, c).off else off' == off && packed' == packed
  }

  /** The cluster that holds a sector, allocated if need be for a write of sectors a .. b of it. */
  method GetClusterOffset(s: Qcow1State, sector: nat, a: nat, b: nat) returns (off: nat)
    requires Live(s) && InDisk(s, Quot(sector, s.g.cs)) && a < b <= s.g.cs
    modifies s`d, s`l1, s`keys, s`hits, s`cache, s`packedOff, s`packed
    ensures Live(s) && |s.l1| == |old(s.l1)| && Appended(old(s.d), s.d) && (old(Valid(s)) ==> Valid(s))
    ensures HeldFor(s.g, old(s.d), Quot(sector, s.g.cs), b - a, old(s.packedOff), old(s.packed), s.packedOff, s.packed)
    ensures var c := Quot(sector, s.g.cs);
            && EntryOf(s.g, s.d, c) == Plain(off)
            && (forall c': nat :: c' != c ==> EntryOf(s.g, s.d, c') == old(EntryOf(s.g, s.d, c')))
            && (forall n: nat :: !Inside(s.g, n, c, a, b) ==>
                  View(s.g, s.x, s.d, n) == if Quot(n, s.g.cs) == c then Kept(s.g, s.x, old(s.d), old(s.packedOff), old(s.packed), n) else View(s.g, s.x, old(s.d), n))
  {
    hide EntryOf, Quot, Rem, View, ChunksOk, PackedOk, NoneEncrypted, Laid, EntriesOk, Put, Inside, SectorAt, EntryOk, Size, EndFor, Kept;
    var c := Quot(sector, s.g.cs);
    var k := TableFor(s, c);
    PackedKept(s.x, old(s.d), s.d, s.packedOff, s.packed);
    KeptSame(s.g, s.x, old(s.d), s.d, s.packedOff, s.packed);
    var e := CachedEntry(s, c, k);
    if e.Plain? {
      KeptPlain(s.g, s.x, s.d, s.packedOff, s.packed, c);
      return e.off;
    }
    ghost var d0 := s.d;
    ghost var sectors;
    off, sectors := NewCluster(s, sector, e, a, b);
    ClusterAdded(s.g, s.x, d0, s.d, old(s.packedOff), old(s.packed), c, off, sectors, a, b);
    StoredKept(s.g, s.x, d0, s.d);
    PackedKept(s.x, d0, s.d, s.packedOff, s.packed);
    AppendedTrans(old(s.d), d0, s.d);
    ghost var d1 := s.d;
    StoreEntry(s, c, k, Plain(off));
    PackedKept(s.x, d1, s.d, s.packedOff, s.packed);
    AppendedTrans(old(s.d), d1, s.d);
  }

  method CachedEntry(s: Qcow1State, c: nat, k: nat) returns (e: Qcow1Disk.Entry)
    requires Live(s) && InDisk(s, c) && k < L2_CACHE_SIZE && s.l1[Quot(c, s.g.es)] != 0 && s.keys[k] == s.l1[Quot(c, s.g.es)]
    ensures e == EntryOf(s.g, s.d, c)
  {
    hide Quot, Rem;
    e := s.cache[k][Rem(c, s.g.es)];
  }

  lemma {:induction false} ClusterAdded(g: Grid, x: Ctx, d: Disk, d': Disk, held: int, packed: seq<Sector>, c: nat, off: nat, sectors: seq<Sector>, a: nat, b: nat)
    requires Struct(g, d) && off >= d.len && Rem(off, 512) == 0 && |sectors| == g.cs && d' == Put(d, off, Data(sectors))
    requires Prepared(g, x, d, held, packed, c, sectors, a, b)
    ensures Struct(g, d') && EntryOk(g, d', Plain(off)) && off !in d.ext && d' == d.(ext := d.ext[off := Data(sectors)], len := d'.len) && Appended(d, d')
    ensures forall c': nat :: EntryOf(g, d', c') == EntryOf(g, d, c') && !SameTarget(Plain(off), EntryOf(g, d, c'))
    ensures forall n: nat :: View(g, x, d', n) == View(g, x, d, n)
    ensures forall n: nat :: !Inside(g, n, c, a, b) && Quot(n, g.cs) == c ==> SectorAt(g, x, d', Plain(off), n) == Kept(g, x, d, held, packed, n)
    ensures forall n: nat :: View(g, x, d', n) == SectorAt(g, x, d', EntryOf(g, d', Quot(n, g.cs)), n)
  {
    hide EntryOf, Quot, Rem, Put, Kept, Inside;
    assert Size(Data(sectors)) >= 1;
    AddExtent(g, d, off, Data(sectors));
    PutFresh(d, off, Data(sectors));
    PutAppends(d, off, Data(sectors));
  }

  // ---------------------------------------------------------------- writing

  /** A write of n sectors from sector on reaches cluster c. */
  ghost predicate Reached(g: Grid, c: nat, sector: nat, n: nat)
    requires g.Valid()
  {
    n > 0 && Quot(sector, g.cs) <= c <= Quot(sector + n - 1, g.cs)
  }

  /** Guest sector n after a write: a cluster that the write allocates is zeros besides. */
  ghost function Wrote(g: Grid, x: Ctx, d: Disk, sector: nat, buf: seq<Sector>, n: nat): Sector
    requires g.Valid()
  {
    if sector <= n < sector + |buf| then buf[n - sector]
    else if Reached(g, Quot(n, g.cs), sector, |buf|) then Initial(g, x, d, n)
    else View(g, x, d, n)
  }

  /** The first cluster of a write is unpacked, and others follow: its chunk is held from then on. */
  ghost predicate Unpacks(g: Grid, d: Disk, sector: nat)
    requires g.Valid()
  {
    Rem(sector, g.cs) != 0 && EntryOf(g, d, Quot(sector, g.cs)).Packed?
  }

  /** Guest sector n after a write while the cluster packed is held for the chunk at off: that cluster
      is what becomes of the first one it is named for, be it right or not. */
  ghost function WroteHolding(g: Grid, x: Ctx, d: Disk, off: int, packed: seq<Sector>, sector: nat, buf: seq<Sector>, n: nat): Sector
    requires g.Valid()
  {
    if sector <= n < sector + |buf| then buf[n - sector]
    else if !Reached(g, Quot(n, g.cs), sector, |buf|) then View(g, x, d, n)
    else if Quot(n, g.cs) != Quot(sector, g.cs) && Unpacks(g, d, sector) then Initial(g, x, d, n)
    else Kept(g, x, d, off, packed, n)
  }

  ghost predicate WrittenHolding(g: Grid, x: Ctx, d: Disk, off: int, packed: seq<Sector>, d': Disk, sector: nat, buf: seq<Sector>)
    requires g.Valid()
  {
    && (forall n: nat :: View(g, x, d', n) == WroteHolding(g, x, d, off, packed, sector, buf, n))
    && (forall c: nat :: if Reached(g, c, sector, |buf|) then EntryOf(g, d', c).Plain? else EntryOf(g, d', c) == EntryOf(g, d, c))
  }

  /** Holding the right cluster is as good as holding none. */
  lemma {:induction false} HoldingRight(g: Grid, x: Ctx, d: Disk, off: int, packed: seq<Sector>, d': Disk, sector: nat, buf: seq<Sector>)
    requires Struct(g, d) && ChunksOk(g, x, d) && NoneEncrypted(g, x, d) && PackedOk(x, d, off, packed)
    requires g.Valid() && WrittenHolding(g, x, d, off, packed, d', sector, buf)
    ensures Written(g, x, d, d', sector, buf)
  {
    hide EntryOf, Quot, Rem, Struct, ChunksOk, NoneEncrypted, PackedOk, View, Initial, Kept, Reached;
    forall n: nat ensures View(g, x, d', n) == Wrote(g, x, d, sector, buf, n) { KeptRight(g, x, d, off, packed, n); }
  }

  /** From d to d' buf was written at sector. */
  ghost predicate Written(g: Grid, x: Ctx, d: Disk, d': Disk, sector: nat, buf: seq<Sector>)
    requires g.Valid()
  {
    && (forall n: nat :: View(g, x, d', n) == Wrote(g, x, d, sector, buf, n))
    && (forall c: nat :: EntryOf(g, d', c).Unused? <==> EntryOf(g, d, c).Unused? && !Reached(g, c, sector, |buf|))
  }

  /** Sector by sector: what is written, zeros in a cluster that the write allocates, else no change. A
      cluster is allocated if a written sector is in it. */
  lemma {:induction false} WrittenMeans(g: Grid, x: Ctx, d: Disk, d': Disk, sector: nat, buf: seq<Sector>, n: nat, m: nat)
    requires g.Valid() && Written(g, x, d, d', sector, buf)
    ensures sector <= n < sector + |buf| ==> View(g, x, d', n) == buf[n - sector]
    ensures !(sector <= n < sector + |buf|) && !EntryOf(g, d, Quot(n, g.cs)).Unused? ==> View(g, x, d', n) == View(g, x, d, n)
    ensures !(sector <= n < sector + |buf|) && View(g, x, d', n) != View(g, x, d, n) ==> forall b :: 0 <= b < 512 ==> View(g, x, d', n)[b] == 0
    ensures sector <= m < sector + |buf| && Quot(m, g.cs) == Quot(n, g.cs) ==> !EntryOf(g, d', Quot(n, g.cs)).Unused?
    ensures sector <= m < sector + |buf| && Quot(m, g.cs) == Quot(n, g.cs) && !(sector <= n < sector + |buf|) && EntryOf(g, d, Quot(n, g.cs)).Unused? ==>
              forall b :: 0 <= b < 512 ==> View(g, x, d', n)[b] == 0
  {
    hide View, EntryOf, Quot;
    assert View(g, x, d', n) == Wrote(g, x, d, sector, buf, n);
    if sector <= m < sector + |buf| { ReachedAt(g, sector, |buf|, m); }
    forall b | 0 <= b < 512 ensures ZERO_SECTOR[b] == 0 { ZeroBytes(b); }
  }

  /** Sectors idx .. idx + n of one cluster, from sector on. */
  lemma {:induction false} OnePiece(g: Grid, sector: nat, k: nat, n: nat)
    requires g.Valid() && 1 <= k && Rem(sector, g.cs) + k <= g.cs
    ensures sector <= n < sector + k <==> Inside(g, n, Quot(sector, g.cs), Rem(sector, g.cs), Rem(sector, g.cs) + k)
    ensures sector <= n < sector + k ==> Rem(n, g.cs) - Rem(sector, g.cs) == n - sector
    ensures forall c: nat :: Reached(g, c, sector, k) <==> c == Quot(sector, g.cs)
  {
    hide Quot, Rem;
    var q, r := Quot(sector, g.cs), Rem(sector, g.cs);
    QuotRem(sector, g.cs);
    QuotIs(sector + k - 1, g.cs, q, q * g.cs);
    QuotRem(n, g.cs);
    if sector <= n < sector + k { QuotIs(n, g.cs, q, q * g.cs); }
  }

  /** The part of a write that falls into one cluster. */
  method WritePiece(s: Qcow1State, sector: nat, data: seq<Sector>)
    requires Live(s) && InDisk(s, Quot(sector, s.g.cs)) && 1 <= |data| && Rem(sector, s.g.cs) + |data| <= s.g.cs
    modifies s`d, s`l1, s`keys, s`hits, s`cache, s`packedOff, s`packed
    ensures Live(s) && |s.l1| == |old(s.l1)| && Appended(old(s.d), s.d)
    ensures WrittenHolding(s.g, s.x, old(s.d), old(s.packedOff), old(s.packed), s.d, sector, data)
    ensures HeldFor(s.g, old(s.d), Quot(sector, s.g.cs), |data|, old(s.packedOff), old(s.packed), s.packedOff, s.packed)
  {
    hide EntryOf, Quot, Rem, View, ChunksOk, PackedOk, NoneEncrypted, Laid, EntriesOk, Inside, PutSectors, Reached, Kept, Size, HeldFor;
    var idx := Rem(sector, s.g.cs);
    var off := GetClusterOffset(s, sector, idx, idx + |data|);
    var raw := EncryptSectors(s.x.Enc, sector, data);
    ghost var d0 := s.d;
    WriteInside(s.g, s.x, s.d, Quot(sector, s.g.cs), idx, raw);
    s.d := PutSectors(s.d, off, idx, raw);
    StoredKept(s.g, s.x, d0, s.d);
    PieceWritten(s.g, s.x, old(s.d), old(s.packedOff), old(s.packed), d0, s.d, sector, data, raw);
    AppendedTrans(old(s.d), d0, s.d);
  }

  lemma {:induction false} PieceWritten(g: Grid, x: Ctx, d: Disk, off: int, packed: seq<Sector>, d1: Disk, d': Disk, sector: nat, data: seq<Sector>, raw: seq<Sector>)
    requires g.Valid() && x.Valid(g.cs) && 1 <= |data| && Rem(sector, g.cs) + |data| <= g.cs
    requires |raw| == |data| && forall i :: 0 <= i < |data| ==> raw[i] == x.Enc(sector + i, data[i])
    requires var c, idx := Quot(sector, g.cs), Rem(sector, g.cs);
             && EntryOf(g, d1, c).Plain? && (forall c': nat :: c' != c ==> EntryOf(g, d1, c') == EntryOf(g, d, c'))
             && (forall c': nat :: EntryOf(g, d', c') == EntryOf(g, d1, c'))
             && (forall n: nat :: !Inside(g, n, c, idx, idx + |data|) ==>
                   View(g, x, d1, n) == if Quot(n, g.cs) == c then Kept(g, x, d, off, packed, n) else View(g, x, d, n))
             && (forall n: nat :: View(g, x, d', n) ==
                  if Quot(n, g.cs) == c && idx <= Rem(n, g.cs) < idx + |raw| then x.Dec(n, raw[Rem(n, g.cs) - idx]) else View(g, x, d1, n))
    ensures WrittenHolding(g, x, d, off, packed, d', sector, data)
  {
    hide EntryOf, Quot, Rem, View, Reached, Kept, Initial, Unpacks;
    forall n: nat ensures View(g, x, d', n) == WroteHolding(g, x, d, off, packed, sector, data, n) {
      OnePiece(g, sector, |data|, n);
      if sector <= n < sector + |data| { assert raw[n - sector] == x.Enc(n, data[n - sector]); }
    }
    OnePiece(g, sector, |data|, 0);
  }

  /** A range and the part of a cluster that follows it. */
  lemma {:induction false} ReachedNext(g: Grid, sector: nat, pos: nat, n: nat, c: nat)
    requires g.Valid() && 1 <= n && (pos == 0 || Rem(sector + pos, g.cs) == 0) && Rem(sector + pos, g.cs) + n <= g.cs
    ensures Reached(g, c, sector, pos + n) <==> Reached(g, c, sector, pos) || c == Quot(sector + pos, g.cs)
    ensures Reached(g, c, sector, pos) ==> c != Quot(sector + pos, g.cs)
  {
    hide Quot, Rem;
    OnePiece(g, sector + pos, n, 0);
    DivMono(sector + pos, sector + pos + n - 1, g.cs);
    assert Reached(g, Quot(sector + pos + n - 1, g.cs), sector + pos, n);
    if pos > 0 {
      BeforeStart(sector + pos, g.cs);
      DivMono(sector, sector + pos - 1, g.cs);
    }
  }

  lemma {:induction false} ReachedAt(g: Grid, sector: nat, n: nat, m: nat)
    requires g.Valid() && sector <= m < sector + n
    ensures Reached(g, Quot(m, g.cs), sector, n)
  {
    hide Quot;
    DivMono(sector, m, g.cs);
    DivMono(m, sector + n - 1, g.cs);
  }

  lemma {:induction false} BeforeStart(x: nat, d: nat)
    requires d > 0 && x > 0 && Rem(x, d) == 0
    ensures Quot(x, d) == Quot(x - 1, d) + 1
  {
    hide Quot, Rem;
    var q := Quot(x, d);
    QuotRem(x, d);
    if q == 0 {
      assert false;
    } else {
      assert q * d == (q - 1) * d + d;
      QuotIs(x - 1, d, q - 1, (q - 1) * d);
    }
  }

  /** Between the pieces of a write: once the first cluster was unpacked its chunk is held, which no
      cluster is named for any more; until then it is what was held before. */
  ghost predicate StillHeld(g: Grid, d: Disk, off: int, packed: seq<Sector>, d': Disk, off': int, packed': seq<Sector>, sector: nat, pos: nat)
    requires g.Valid()
  {
    if pos > 0 && Unpacks(g, d, sector) then forall c: nat :: !Names(g, d', off', c) else off' == off && packed' == packed
  }

  lemma {:induction false} WrittenNext(g: Grid, x: Ctx, d0: Disk, off0: int, packed0: seq<Sector>, d1: Disk, off1: int, packed1: seq<Sector>, d2: Disk, sector: nat, buf: seq<Sector>, pos: nat, n: nat)
    requires g.Valid() && 1 <= n && pos + n <= |buf| && (pos == 0 || Rem(sector + pos, g.cs) == 0) && Rem(sector + pos, g.cs) + n <= g.cs
    requires WrittenHolding(g, x, d0, off0, packed0, d1, sector, buf[..pos]) && StillHeld(g, d0, off0, packed0, d1, off1, packed1, sector, pos)
    requires WrittenHolding(g, x, d1, off1, packed1, d2, sector + pos, buf[pos..pos + n])
    ensures WrittenHolding(g, x, d0, off0, packed0, d2, sector, buf[..pos + n])
  {
    hide EntryOf, Quot, Rem, View, Reached, Unpacks;
    assert |buf[..pos]| == pos && |buf[pos..pos + n]| == n && |buf[..pos + n]| == pos + n;
    if pos > 0 { ReachedAt(g, sector, pos, sector); }
    forall m: nat ensures View(g, x, d2, m) == WroteHolding(g, x, d0, off0, packed0, sector, buf[..pos + n], m) {
      ReachedNext(g, sector, pos, n, Quot(m, g.cs));
      OnePiece(g, sector + pos, n, m);
      if sector <= m < sector + pos { ReachedAt(g, sector, pos, m); }
    }
    forall c: nat ensures if Reached(g, c, sector, pos + n) then EntryOf(g, d2, c).Plain? else EntryOf(g, d2, c) == EntryOf(g, d0, c) {
      ReachedNext(g, sector, pos, n, c);
      OnePiece(g, sector + pos, n, 0);
    }
  }

  /** A piece that is not the last one fills its cluster up. */
  lemma {:induction false} HeldNext(g: Grid, x: Ctx, d0: Disk, off0: int, packed0: seq<Sector>, d1: Disk, off1: int, packed1: seq<Sector>, d2: Disk, off2: int, packed2: seq<Sector>, sector: nat, buf: seq<Sector>, pos: nat, n: nat)
    requires Struct(g, d1) && g.Valid() && 1 <= n && pos + n <= |buf| && (pos == 0 || Rem(sector + pos, g.cs) == 0) && Rem(sector + pos, g.cs) + n == g.cs
    requires WrittenHolding(g, x, d0, off0, packed0, d1, sector, buf[..pos]) && StillHeld(g, d0, off0, packed0, d1, off1, packed1, sector, pos)
    requires WrittenHolding(g, x, d1, off1, packed1, d2, sector + pos, buf[pos..pos + n])
    requires HeldFor(g, d1, Quot(sector + pos, g.cs), n, off1, packed1, off2, packed2)
    ensures StillHeld(g, d0, off0, packed0, d2, off2, packed2, sector, pos + n)
  {
    hide EntryOf, Quot, Rem, View, Seen, WroteHolding;
    var q := Quot(sector + pos, g.cs);
    OnePiece(g, sector + pos, n, 0);
    forall c: nat ensures EntryOf(g, d2, c).Plain? || (c != q && EntryOf(g, d2, c) == EntryOf(g, d1, c)) {}
    if pos == 0 {
      assert EntryOf(g, d1, q) == EntryOf(g, d0, q);
      if EntryOf(g, d1, q).Packed? {
        forall c: nat ensures !Names(g, d2, EntryOf(g, d1, q).off, c) {
          if c != q { assert !SameTarget(EntryOf(g, d1, q), EntryOf(g, d1, c)); }
        }
      }
    } else if Unpacks(g, d0, sector) {
      forall c: nat ensures !Names(g, d2, off2, c) { assert !Names(g, d1, off1, c); }
    }
  }

  ghost predicate Fits(s: Qcow1State, sector: nat, n: nat)
    requires s.g.Valid()
    reads s
  {
    n > 0 ==> InDisk(s, Quot(sector + n - 1, s.g.cs))
  }

  lemma {:induction false} FitsAt(s: Qcow1State, sector: nat, n: nat, pos: nat)
    requires s.g.Valid() && Fits(s, sector, n) && pos < n
    ensures InDisk(s, Quot(sector + pos, s.g.cs))
  {
    hide Quot;
    DivMono(sector + pos, sector + n - 1, s.g.cs);
    DivMono(Quot(sector + pos, s.g.cs), Quot(sector + n - 1, s.g.cs), s.g.es);
  }

  /** Where the next piece starts: at a cluster unless the request is done. */
  lemma {:induction false} NextStart(sector: nat, cs: nat, n: nat)
    requires cs > 0 && Rem(sector, cs) + n == cs
    ensures Rem(sector + n, cs) == 0
  {
    hide Quot, Rem;
    QuotRem(sector, cs);
    assert (Quot(sector, cs) + 1) * cs == Quot(sector, cs) * cs + cs;
    DivExact(Quot(sector, cs) + 1, cs, 0);
  }

  /** Writes from sector on. A cluster that is held wrongly for a chunk becomes what the guest sees of
      it besides; afterwards none is held. */
  method Write(s: Qcow1State, sector: nat, buf: seq<Sector>)
    requires Live(s) && Fits(s, sector, |buf|)
    modifies s`d, s`l1, s`keys, s`hits, s`cache, s`packedOff, s`packed
    ensures Valid(s) && |s.l1| == |old(s.l1)| && Appended(old(s.d), s.d) && s.packedOff == -1
    ensures WrittenHolding(s.g, s.x, old(s.d), old(s.packedOff), old(s.packed), s.d, sector, buf)
    ensures old(Valid(s)) ==> Written(s.g, s.x, old(s.d), s.d, sector, buf)
  {
    hide EntryOf, Quot, Rem, View, ChunksOk, NoneEncrypted, Struct, Written, WrittenHolding, CacheOk, HitsOk, HeldFor, StillHeld;
    var pos := 0;
    StructGives(s.g, s.d);
    NothingWritten(s.g, s.x, s.d, s.packedOff, s.packed, sector);
    ghost var d0, off0, packed0 := s.d, s.packedOff, s.packed;
    assert buf[..0] == [];
    while pos < |buf|
      invariant 0 <= pos <= |buf| && Live(s) && s.g.Valid() && |s.l1| == |old(s.l1)| && Appended(d0, s.d)
      invariant pos < |buf| ==> pos == 0 || Rem(sector + pos, s.g.cs) == 0
      invariant WrittenHolding(s.g, s.x, d0, off0, packed0, s.d, sector, buf[..pos]) && Fits(s, sector, |buf|)
      invariant pos < |buf| ==> StillHeld(s.g, d0, off0, packed0, s.d, s.packedOff, s.packed, sector, pos)
    {
      var n := s.g.cs - Rem(sector + pos, s.g.cs);
      if n > |buf| - pos { n := |buf| - pos; } else { NextStart(sector + pos, s.g.cs, n); }
      ghost var d1, off1, packed1 := s.d, s.packedOff, s.packed;
      FitsAt(s, sector, |buf|, pos);
      WritePiece(s, sector + pos, buf[pos..pos + n]);
      WrittenNext(s.g, s.x, d0, off0, packed0, d1, off1, packed1, s.d, sector, buf, pos, n);
      if pos + n < |buf| { HeldNext(s.g, s.x, d0, off0, packed0, d1, off1, packed1, s.d, s.packedOff, s.packed, sector, buf, pos, n); }
      AppendedTrans(d0, d1, s.d);
      pos := pos + n;
    }
    assert buf[..pos] == buf;
    s.packedOff := -1;
    if old(Valid(s)) { HoldingRight(s.g, s.x, d0, off0, packed0, s.d, sector, buf); }
  }

  lemma {:induction false} NothingWritten(g: Grid, x: Ctx, d: Disk, off: int, packed: seq<Sector>, sector: nat)
    requires g.Valid()
    ensures WrittenHolding(g, x, d, off, packed, d, sector, []) && StillHeld(g, d, off, packed, d, off, packed, sector, 0)
  {
    hide EntryOf, Quot, Rem, View;
  }
}
