/** Reads, compressed writes, emptying and whole runs on the first QCOW format. */
module Qcow1Ops {
  import opened Division
  import opened Bytes
  import opened Qcow1Disk
  import opened Qcow1Image
  import opened Qcow2State
  import Commit
  import Qcow2Refcount

  const EIO: int := 5

  // ---------------------------------------------------------------- reading

  /** What a piece of n sectors from sector reads as. */
  ghost predicate Reads(s: Qcow1State, sector: nat, buf: seq<Sector>)
    requires s.g.Valid()
    reads s
  {
    forall i :: 0 <= i < |buf| ==> buf[i] == View(s.g, s.x, s.d, sector + i)
  }

  /** Sectors from the backing file, zeros if there is none. */
  method ReadBase(x: Ctx, sector: nat, n: nat) returns (data: seq<Sector>)
    ensures |data| == n && forall i :: 0 <= i < n ==> data[i] == x.Base(sector + i)
  {
    data := [];
    for i := 0 to n
      invariant |data| == i && forall m :: 0 <= m < i ==> data[m] == x.Base(sector + m)
    {
      data := data + [x.Base(sector + i)];
    }
  }

  /** One step of the read callback: the sectors of one cluster. */
  method ReadPiece(s: Qcow1State, sector: nat, n: nat) returns (ret: int, piece: seq<Sector>)
    requires Live(s) && InDisk(s, Quot(sector, s.g.cs)) && 1 <= n && Rem(sector, s.g.cs) + n <= s.g.cs
    modifies s`keys, s`hits, s`cache, s`packedOff, s`packed
    ensures Live(s) && ret == 0 && |piece| == n
    ensures forall i :: 0 <= i < n ==> piece[i] == Seen(s.g, s.x, s.d, old(s.packedOff), old(s.packed), sector + i)
    ensures var e := EntryOf(s.g, s.d, Quot(sector, s.g.cs));
            if e.Packed? then s.packedOff == e.off && (old(s.packedOff) == e.off ==> s.packed == old(s.packed))
            else s.packedOff == old(s.packedOff) && s.packed == old(s.packed)
    ensures old(Valid(s)) ==> Valid(s)
  {
    hide EntryOf, Quot, Rem, ChunksOk, PackedOk, NoneEncrypted, Laid, CacheOk, Qcow2Image.HitsOk, Seen;
    var idx := Rem(sector, s.g.cs);
    ghost var off0, packed0 := s.packedOff, s.packed;
    var e := Lookup(s, sector);
    match e {
      case Unused =>
        piece := ReadBase(s.x, sector, n);
      case Packed(off, len) =>
        PackedChunk(s.g, s.x, s.d, Quot(sector, s.g.cs));
        DecompressCluster(s, e);
        piece := s.packed[idx..idx + n];
      case Plain(off) =>
        IsDataOf(s.g, s.d, Quot(sector, s.g.cs));
        if Rem(off, 512) != 0 { return -EIO, []; }
        piece := EncryptSectors(s.x.Dec, sector, s.d.ext[off].sectors[idx..idx + n]);
    }
    forall i | 0 <= i < n ensures piece[i] == Seen(s.g, s.x, s.d, off0, packed0, sector + i) {
      SeenIs(s.g, s.x, s.d, off0, packed0, sector, n, i);
    }
    ret := 0;
  }

  /** A sector of a piece, by the entry of its cluster. */
  lemma {:induction false} SeenIs(g: Grid, x: Ctx, d: Disk, off: int, packed: seq<Sector>, sector: nat, n: nat, i: nat)
    requires g.Valid() && i < n && Rem(sector, g.cs) + n <= g.cs && (off >= 0 ==> |packed| == g.cs)
    ensures var e, j := EntryOf(g, d, Quot(sector, g.cs)), Rem(sector, g.cs) + i;
            Seen(g, x, d, off, packed, sector + i) ==
              match e
              case Unused => x.Base(sector + i)
              case Plain(o) => if IsData(g, d, o) then x.Dec(sector + i, d.ext[o].sectors[j]) else STALE_SECTOR
              case Packed(o, len) =>
                if o == off then packed[j]
                else if IsChunk(d, o, len) && j < |x.codec.inflate(d.ext[o].bytes)| then x.codec.inflate(d.ext[o].bytes)[j]
                else STALE_SECTOR
  {
    hide EntryOf, Quot, Rem;
    PieceIndex(g, sector, n);
    var m := sector + i;
    assert Quot(m, g.cs) == Quot(sector, g.cs) && Rem(m, g.cs) == Rem(sector, g.cs) + i;
  }

  lemma {:induction false} PieceIndex(g: Grid, sector: nat, n: nat)
    requires g.Valid() && 1 <= n && Rem(sector, g.cs) + n <= g.cs
    ensures forall m: nat :: sector <= m < sector + n ==> Quot(m, g.cs) == Quot(sector, g.cs) && Rem(m, g.cs) == Rem(sector, g.cs) + (m - sector)
  {
    hide Quot, Rem;
    var q := Quot(sector, g.cs);
    QuotRem(sector, g.cs);
    forall m: nat | sector <= m < sector + n ensures Quot(m, g.cs) == q && Rem(m, g.cs) == Rem(sector, g.cs) + (m - sector) {
      QuotIs(m, g.cs, q, q * g.cs);
    }
  }

  /** No cluster from that of sector up to c is compressed. */
  ghost predicate NonePacked(g: Grid, d: Disk, sector: nat, c: nat)
    requires g.Valid()
  {
    forall c': nat :: Quot(sector, g.cs) <= c' < c ==> !EntryOf(g, d, c').Packed?
  }

  /** What a request that starts at sector gets for sector n: the held cluster is replaced by the first
      other chunk on the way. */
  ghost function Got(g: Grid, x: Ctx, d: Disk, off: int, packed: seq<Sector>, sector: nat, n: nat): Sector
    requires g.Valid()
  {
    if NonePacked(g, d, sector, Quot(n, g.cs)) then Seen(g, x, d, off, packed, n) else View(g, x, d, n)
  }

  lemma {:induction false} GotRight(g: Grid, x: Ctx, d: Disk, off: int, packed: seq<Sector>, sector: nat, n: nat)
    requires Struct(g, d) && ChunksOk(g, x, d) && PackedOk(x, d, off, packed)
    ensures g.Valid() && Got(g, x, d, off, packed, sector, n) == View(g, x, d, n)
  {
    hide Seen, View, Struct, ChunksOk, PackedOk, NonePacked;
    StructGives(g, d);
    SeenRight(g, x, d, off, packed, n);
  }

  /** After the cluster of at, the rest of the request gets what it would have got from there on. */
  lemma {:induction false} GotNext(g: Grid, x: Ctx, d: Disk, off: int, packed: seq<Sector>, off': int, packed': seq<Sector>, at: nat, at': nat, n: nat)
    requires Struct(g, d) && Quot(at', g.cs) == Quot(at, g.cs) + 1 && at' <= n
    requires var e := EntryOf(g, d, Quot(at, g.cs)); if e.Packed? then off' == e.off else off' == off && packed' == packed
    ensures Got(g, x, d, off', packed', at', n) == Got(g, x, d, off, packed, at, n)
  {
    hide EntryOf, Quot, Rem, View;
    var c, m := Quot(at, g.cs), Quot(n, g.cs);
    DivMono(at', n, g.cs);
    if EntryOf(g, d, c).Packed? {
      assert !NonePacked(g, d, at, m);
      assert c != m && !SameTarget(EntryOf(g, d, c), EntryOf(g, d, m));
    } else {
      assert NonePacked(g, d, at, m) <==> NonePacked(g, d, at', m);
    }
  }

  /** A request driven to its completion. */
  method AioRead(s: Qcow1State, sector: nat, nb: nat) returns (ret: int, buf: seq<Sector>)
    requires Live(s) && Fits(s, sector, nb)
    modifies s`keys, s`hits, s`cache, s`packedOff, s`packed
    ensures Live(s) && ret == 0 && |buf| == nb
    ensures forall i :: 0 <= i < nb ==> buf[i] == Got(s.g, s.x, s.d, old(s.packedOff), old(s.packed), sector, sector + i)
    ensures old(Valid(s)) ==> Valid(s) && Reads(s, sector, buf)
    ensures s.packedOff == old(s.packedOff) || s.packedOff < s.d.len
    ensures nb > 0 && EntryOf(s.g, s.d, Quot(sector + nb - 1, s.g.cs)).Packed? ==> s.packedOff == EntryOf(s.g, s.d, Quot(sector + nb - 1, s.g.cs)).off
  {
    hide EntryOf, Quot, Rem, View, ChunksOk, PackedOk, NoneEncrypted, Struct, CacheOk, Qcow2Image.HitsOk, Got, Seen;
    StructGives(s.g, s.d);
    buf := [];
    while |buf| < nb
      invariant |buf| <= nb && Live(s) && s.g.Valid() && (old(Valid(s)) ==> Valid(s))
      invariant forall i :: 0 <= i < |buf| ==> buf[i] == Got(s.g, s.x, s.d, old(s.packedOff), old(s.packed), sector, sector + i)
      invariant |buf| < nb ==> forall n: nat :: n >= sector + |buf| ==>
                  Got(s.g, s.x, s.d, s.packedOff, s.packed, sector + |buf|, n) == Got(s.g, s.x, s.d, old(s.packedOff), old(s.packed), sector, n)
      invariant s.packedOff == old(s.packedOff) || s.packedOff < s.d.len
      invariant |buf| > 0 && EntryOf(s.g, s.d, Quot(sector + |buf| - 1, s.g.cs)).Packed? ==> s.packedOff == EntryOf(s.g, s.d, Quot(sector + |buf| - 1, s.g.cs)).off
      decreases nb - |buf|
    {
      var at := sector + |buf|;
      var n := s.g.cs - Rem(at, s.g.cs);
      if n > nb - |buf| { n := nb - |buf|; }
      FitsAt(s, sector, nb, |buf|);
      ghost var off, packed := s.packedOff, s.packed;
      var piece;
      ret, piece := ReadPiece(s, at, n);
      if ret < 0 { return; }
      PieceGot(s.g, s.x, s.d, off, packed, s.packedOff, s.packed, at, n);
      forall i | |buf| <= i < |buf| + n ensures (buf + piece)[i] == Got(s.g, s.x, s.d, old(s.packedOff), old(s.packed), sector, sector + i) {
        assert (buf + piece)[i] == piece[i - |buf|] && at + (i - |buf|) == sector + i;
      }
      buf := buf + piece;
    }
    ret := 0;
    if old(Valid(s)) {
      forall i | 0 <= i < nb ensures buf[i] == View(s.g, s.x, s.d, sector + i) {
        GotRight(s.g, s.x, s.d, old(s.packedOff), old(s.packed), sector, sector + i);
      }
    }
  }

  lemma {:induction false} PieceGot(g: Grid, x: Ctx, d: Disk, off: int, packed: seq<Sector>, off': int, packed': seq<Sector>, at: nat, n: nat)
    requires Struct(g, d) && 1 <= n && Rem(at, g.cs) + n <= g.cs
    requires var e := EntryOf(g, d, Quot(at, g.cs)); if e.Packed? then off' == e.off else off' == off && packed' == packed
    ensures forall m: nat :: at <= m < at + n ==> Got(g, x, d, off, packed, at, m) == Seen(g, x, d, off, packed, m)
    ensures Rem(at, g.cs) + n == g.cs ==> forall m: nat :: m >= at + n ==> Got(g, x, d, off', packed', at + n, m) == Got(g, x, d, off, packed, at, m)
    ensures Quot(at + n - 1, g.cs) == Quot(at, g.cs) && (EntryOf(g, d, Quot(at, g.cs)).Packed? ==> off' < d.len)
  {
    hide EntryOf, Quot, Rem, View, Seen, Laid, EntriesOk;
    PieceIndex(g, at, n);
    if EntryOf(g, d, Quot(at, g.cs)).Packed? { TargetIn(g, d, Quot(at, g.cs)); StructGives(g, d); }
    if Rem(at, g.cs) + n == g.cs {
      NextStart(at, g.cs, n);
      BeforeStart(at + n, g.cs);
      forall m: nat | m >= at + n ensures Got(g, x, d, off', packed', at + n, m) == Got(g, x, d, off, packed, at, m) {
        GotNext(g, x, d, off, packed, off', packed', at, at + n, m);
      }
    }
  }

  /** The request comes to the chunk at off before it comes to another one. */
  ghost predicate Stumbles(g: Grid, d: Disk, off: int, sector: nat, nb: nat)
    requires g.Valid()
  {
    exists c: nat :: Reached(g, c, sector, nb) && Names(g, d, off, c) && NonePacked(g, d, sector, c)
  }

  /** A read is right whatever cluster is held if and only if it does not come first to the chunk that
      the held cluster is named after. */
  lemma {:induction false} RightWhateverHeld(g: Grid, x: Ctx, d: Disk, off: int, sector: nat, nb: nat)
    requires g.Valid()
    ensures (forall p: seq<Sector>, n: nat :: |p| == g.cs && sector <= n < sector + nb ==> Got(g, x, d, off, p, sector, n) == View(g, x, d, n))
            <==> !Stumbles(g, d, off, sector, nb)
  {
    hide EntryOf, Quot, Rem, View, Reached, Names, NonePacked;
    if Stumbles(g, d, off, sector, nb) {
      var c: nat :| Reached(g, c, sector, nb) && Names(g, d, off, c) && NonePacked(g, d, sector, c);
      var n := SectorIn(g, c, sector, nb);
      var other := if View(g, x, d, n) == Fill(0) then Fill(1) else Fill(0);
      assert Fill(0)[0] == 0 && Fill(1)[0] == 1;
      var p: seq<Sector> := seq<Sector>(g.cs, _ => other);
      assert p[Rem(n, g.cs)] == other;
      assert Got(g, x, d, off, p, sector, n) == other;
    } else {
      forall p: seq<Sector>, n: nat | |p| == g.cs && sector <= n < sector + nb ensures Got(g, x, d, off, p, sector, n) == View(g, x, d, n) {
        ReachedAt(g, sector, nb, n);
      }
    }
  }

  lemma {:induction false} SectorIn(g: Grid, c: nat, sector: nat, nb: nat) returns (n: nat)
    requires g.Valid() && Reached(g, c, sector, nb)
    ensures sector <= n < sector + nb && Quot(n, g.cs) == c
  {
    hide Quot, Rem;
    if c == Quot(sector, g.cs) {
      n := sector;
    } else {
      n := c * g.cs;
      DivExact(c, g.cs, 0);
      QuotBetween(sector, g.cs);
      MulMono(Quot(sector, g.cs) + 1, c, g.cs);
      assert (Quot(sector, g.cs) + 1) * g.cs == Quot(sector, g.cs) * g.cs + g.cs;
      QuotBetween(sector + nb - 1, g.cs);
      MulMono(c, Quot(sector + nb - 1, g.cs), g.cs);
    }
  }

  // ---------------------------------------------------------------- compressed writes

  /** The chunk goes to the end of the file, whatever its alignment. */
  method AppendChunk(s: Qcow1State, c: nat, out: seq<Byte>)
    requires Live(s) && InDisk(s, c) && EntryOf(s.g, s.d, c).Unused? && !s.x.crypt.Aes?
    requires 1 <= |out| < 512 * s.g.cs && |s.x.codec.inflate(out)| == s.g.cs
    modifies s`d, s`l1, s`keys, s`hits, s`cache
    ensures Live(s) && |s.l1| == |old(s.l1)| && Appended(old(s.d), s.d)
    ensures forall c': nat :: EntryOf(s.g, s.d, c') == if c' == c then Packed(Landing(s.g, old(s.d), c), |out|) else old(EntryOf(s.g, s.d, c'))
    ensures forall n: nat :: View(s.g, s.x, s.d, n) == if Quot(n, s.g.cs) == c then s.x.codec.inflate(out)[Rem(n, s.g.cs)] else old(View(s.g, s.x, s.d, n))
    ensures PackedOk(s.x, s.d, s.packedOff, s.packed) <==>
              if s.packedOff == Landing(s.g, old(s.d), c) then s.packed == s.x.codec.inflate(out) else old(PackedOk(s.x, s.d, s.packedOff, s.packed))
  {
    hide EntryOf, Quot, Rem, View, ChunksOk, PackedOk, NoneEncrypted, Laid, EntriesOk, EntryOk, SectorAt, Put, PutEntry, Size, EndFor, Landing;
    var i, j := Quot(c, s.g.es), Rem(c, s.g.es);
    var k := TableFor(s, c);
    PackedKept(s.x, old(s.d), s.d, s.packedOff, s.packed);
    var off := s.d.len;
    var e := Packed(off, |out|);
    ghost var d0 := s.d;
    ChunkPlaced(s.g, s.x, d0, c, out);
    s.cache := s.cache[k := s.cache[k][j := e]];
    s.d := PutEntry(s.d, s.l1[i], j, e);
    s.d := Put(s.d, off, Chunk(out));
    ChunkStored(s.g, s.x, d0, s.d, off, out, s.packedOff, s.packed);
    AppendedTrans(old(s.d), d0, s.d);
  }

  lemma {:induction false} ChunkPlaced(g: Grid, x: Ctx, d: Disk, c: nat, out: seq<Byte>)
    requires Struct(g, d) && Quot(c, g.es) < |d.l1| && d.l1[Quot(c, g.es)] != 0
    requires 1 <= |out| < 512 * g.cs && |x.codec.inflate(out)| == g.cs
    ensures var e, t := Packed(d.len, |out|), d.l1[Quot(c, g.es)];
            var d' := Put(PutEntry(d, t, Rem(c, g.es), e), d.len, Chunk(out));
            && Struct(g, d') && Appended(d, d') && d'.l1 == d.l1 && d.len !in d.ext && d.len in d'.ext && d'.ext[d.len] == Chunk(out)
            && (forall o :: o in d'.ext ==> o in d.ext || o == d.len)
            && (forall o :: o in d.ext && o != t ==> o in d'.ext && d'.ext[o] == d.ext[o])
            && IsTable(g, d, t) && IsTable(g, d', t) && d'.ext[t].entries == d.ext[t].entries[Rem(c, g.es) := e]
            && (forall c': nat :: EntryOf(g, d', c') == if c' == c then e else EntryOf(g, d, c'))
            && (forall n: nat :: View(g, x, d', n) == if Quot(n, g.cs) == c then x.codec.inflate(out)[Rem(n, g.cs)] else View(g, x, d, n))
  {
    hide EntryOf, Quot, Rem, Laid, EntriesOk, Put, PutEntry;
    var e, t := Packed(d.len, |out|), d.l1[Quot(c, g.es)];
    var d1 := Put(d, d.len, Chunk(out));
    assert Size(Chunk(out)) == |out|;
    AddExtent(g, d, d.len, Chunk(out));
    PutFresh(d, d.len, Chunk(out));
    PutAppends(d, d.len, Chunk(out));
    StructGives(g, d);
    EntryFirst(d, t, Rem(c, g.es), e, d.len, Chunk(out));
    SetEntry(g, d1, c, e);
    AppendedTrans(d, d1, PutEntry(d1, t, Rem(c, g.es), e));
  }

  lemma {:induction false} ChunkStored(g: Grid, x: Ctx, d: Disk, d': Disk, off: nat, out: seq<Byte>, packedOff: int, packed: seq<Sector>)
    requires g.Valid() && ChunksOk(g, x, d) && !x.crypt.Aes? && |x.codec.inflate(out)| == g.cs
    requires off !in d.ext && off in d'.ext && d'.ext[off] == Chunk(out)
    requires forall o :: o in d'.ext ==> o in d.ext || o == off
    requires forall o :: o in d.ext && d.ext[o].Chunk? ==> o in d'.ext && d'.ext[o] == d.ext[o]
    requires forall o :: o in d'.ext && o in d.ext && d'.ext[o].Chunk? ==> d'.ext[o] == d.ext[o]
    ensures ChunksOk(g, x, d') && NoneEncrypted(g, x, d')
    ensures PackedOk(x, d', packedOff, packed) <==> if packedOff == off then packed == x.codec.inflate(out) else PackedOk(x, d, packedOff, packed)
  {
  }

  /** The chunk does not land where the held cluster says its chunk is, or is that very chunk again, or
      there is no chunk because the cluster does not compress. */
  predicate Harmless(s: Qcow1State, sector: nat, buf: seq<Sector>)
    requires s.g.Valid()
    reads s
  {
    |s.x.codec.deflate(buf)| >= 512 * s.g.cs || s.packedOff != Landing(s.g, s.d, Quot(sector, s.g.cs)) || s.packed == buf
  }

  /** A whole cluster, compressed if that makes it smaller. The disk is right afterwards; the held
      cluster is right if and only if the write was harmless. */
  method WriteCompressed(s: Qcow1State, sector: nat, buf: seq<Sector>) returns (ret: int)
    requires Valid(s) && Fits(s, sector, |buf|) && Rem(sector, s.g.cs) == 0
    requires !s.x.crypt.Aes? && EntryOf(s.g, s.d, Quot(sector, s.g.cs)).Unused?
    modifies s`d, s`l1, s`keys, s`hits, s`cache, s`packedOff, s`packed
    ensures Live(s) && |s.l1| == |old(s.l1)| && Appended(old(s.d), s.d)
    ensures if |buf| == s.g.cs then ret == 0 && Written(s.g, s.x, old(s.d), s.d, sector, buf) else ret == -Qcow2Refcount.EINVAL && s.d == old(s.d)
    ensures Valid(s) <==> |buf| != s.g.cs || old(Harmless(s, sector, buf))
    ensures |buf| == s.g.cs && |s.x.codec.deflate(buf)| < 512 * s.g.cs ==>
              && s.packedOff == old(s.packedOff) && s.packed == old(s.packed)
              && EntryOf(s.g, s.d, Quot(sector, s.g.cs)) == Packed(Landing(s.g, old(s.d), Quot(sector, s.g.cs)), |s.x.codec.deflate(buf)|)
    ensures |buf| == s.g.cs && |s.x.codec.deflate(buf)| >= 512 * s.g.cs ==> s.packedOff == -1
    ensures s.packedOff == old(s.packedOff) || s.packedOff == -1
  {
    hide EntryOf, Quot, Rem, View, ChunksOk, PackedOk, NoneEncrypted, EntriesOk, Laid, CacheOk, Qcow2Image.HitsOk, Written, Landing;
    if |buf| != s.g.cs { return -Qcow2Refcount.EINVAL; }
    var out := s.x.codec.deflate(buf);
    if |out| >= 512 * s.g.cs {
      Write(s, sector, buf);
    } else {
      FitsAt(s, sector, |buf|, 0);
      AppendChunk(s, Quot(sector, s.g.cs), out);
      ChunkWritten(s.g, s.x, old(s.d), s.d, sector, buf);
    }
    ret := 0;
  }

  lemma {:induction false} ChunkWritten(g: Grid, x: Ctx, d: Disk, d': Disk, sector: nat, buf: seq<Sector>)
    requires g.Valid() && |buf| == g.cs && Rem(sector, g.cs) == 0 && EntryOf(g, d, Quot(sector, g.cs)).Unused?
    requires forall c: nat :: if c == Quot(sector, g.cs) then EntryOf(g, d', c).Packed? else EntryOf(g, d', c) == EntryOf(g, d, c)
    requires forall n: nat :: View(g, x, d', n) == if Quot(n, g.cs) == Quot(sector, g.cs) then buf[Rem(n, g.cs)] else View(g, x, d, n)
    ensures Written(g, x, d, d', sector, buf)
  {
    hide EntryOf, Quot, Rem, View, Reached, Initial;
    forall n: nat ensures View(g, x, d', n) == Wrote(g, x, d, sector, buf, n) { OnePiece(g, sector, |buf|, n); }
    OnePiece(g, sector, |buf|, 0);
  }

  // ---------------------------------------------------------------- allocation and emptying

  ghost function Allocation(s: Qcow1State, total: nat): (alloc: seq<bool>)
    requires s.g.Valid()
    reads s
    ensures |alloc| == total && forall n: nat :: n < total ==> alloc[n] == !EntryOf(s.g, s.d, Quot(n, s.g.cs)).Unused?
  {
    var g, d := s.g, s.d;
    seq(total, n requires 0 <= n => !EntryOf(g, d, Quot(n, g.cs)).Unused?)
  }

  /** Reports a run that is allocated or not as a whole, as committing needs it. */
  method IsAllocated(s: Qcow1State, sector: nat, nb: nat, ghost total: nat) returns (used: bool, n: nat)
    requires Live(s) && InDisk(s, Quot(sector, s.g.cs)) && 1 <= nb && sector + nb <= total
    modifies s`keys, s`hits, s`cache
    ensures Live(s) && n <= nb && Rem(sector, s.g.cs) + n <= s.g.cs && Commit.UniformRun(Allocation(s, total), sector, used, n)
  {
    hide EntryOf, Quot, Rem, ChunksOk, PackedOk, NoneEncrypted, Laid, EntriesOk, CacheOk, Qcow2Image.HitsOk;
    var e := Lookup(s, sector);
    n := s.g.cs - Rem(sector, s.g.cs);
    if n > nb { n := nb; }
    used := !e.Unused?;
    PieceIndex(s.g, sector, n);
  }

  /** The empty L1 table, and nothing after it. The cluster decompressed last is kept, though its chunk
      is gone. */
  method MakeEmpty(s: Qcow1State)
    requires Live(s)
    modifies s`d, s`l1, s`keys, s`hits, s`cache
    ensures Valid(s) && s.d == Disk(old(s.d.base), s.l1, map[], old(s.d.base)) && |s.l1| == |old(s.l1)|
    ensures forall i :: 0 <= i < |s.l1| ==> s.l1[i] == 0
    ensures forall c: nat :: EntryOf(s.g, s.d, c).Unused?
    ensures forall n: nat :: View(s.g, s.x, s.d, n) == s.x.Base(n)
  {
    hide Quot, Rem, View, EntryOf, Struct, Truncated, ChunksOk, NoneEncrypted, CacheOk, Qcow2Image.HitsOk;
    EmptyDisk(s.g, s.x, s.d, seq(|s.l1|, _ => 0));
    s.l1 := seq(|s.l1|, _ => 0);
    s.d := s.d.(l1 := s.l1);
    s.d := Truncated(s.d, s.d.base);
    s.cache := seq(L2_CACHE_SIZE, _ => seq(s.g.es, _ => Unused));
    s.keys := seq(L2_CACHE_SIZE, _ => 0);
    s.hits := seq(L2_CACHE_SIZE, _ => 0);
    ClearedOk(s.g, s.d, s.keys, s.hits, s.cache);
  }

  lemma {:induction false} ClearedOk(g: Grid, d: Disk, keys: seq<nat>, hits: seq<nat>, cache: seq<seq<Entry>>)
    requires |keys| == |hits| == |cache| == L2_CACHE_SIZE && forall k :: 0 <= k < L2_CACHE_SIZE ==> keys[k] == 0 && hits[k] == 0
    ensures CacheOk(g, d, keys, cache) && Qcow2Image.HitsOk(hits)
  {
  }

  /** After emptying, a cluster is written compressed and read back. The disk has it, but the read gets
      the cluster held from before if the chunk lands where that one's chunk was. */
  method EmptyPackRead(s: Qcow1State, sector: nat, buf: seq<Sector>) returns (out: seq<Sector>)
    requires Valid(s) && Fits(s, sector, |buf|) && |buf| == s.g.cs && Rem(sector, s.g.cs) == 0 && !s.x.crypt.Aes?
    modifies s`d, s`l1, s`keys, s`hits, s`cache, s`packedOff, s`packed
    ensures Live(s) && |out| == |buf| && forall i: nat :: i < |buf| ==> View(s.g, s.x, s.d, sector + i) == buf[i]
    ensures var at := EndFor(s.g, old(s.d.base)) + 8 * s.g.es;
            out == if |s.x.codec.deflate(buf)| < 512 * s.g.cs && old(s.packedOff) == at then old(s.packed) else buf
  {
    hide EntryOf, Quot, Rem, View, Stored, CacheOk, Qcow2Image.HitsOk, PackedOk, Written, EndFor, Got;
    LiveGives(s);
    MakeEmpty(s);
    ghost var d0 := s.d;
    var _ := WriteCompressed(s, sector, buf);
    ghost var d1, off, packed := s.d, s.packedOff, s.packed;
    var ret;
    ret, out := AioRead(s, sector, |buf|);
    LandingEmptied(s.g, d0, Quot(sector, s.g.cs));
    forall i: nat | i < |buf|
      ensures View(s.g, s.x, d1, sector + i) == buf[i]
      ensures Got(s.g, s.x, d1, off, packed, sector, sector + i) == if Names(s.g, d1, off, Quot(sector, s.g.cs)) && i < |packed| then packed[i] else buf[i]
    {
      PackedView(s.g, s.x, d0, d1, off, packed, sector, buf, i);
    }
    PackedEntry(s.g, s.x, d0, d1, sector, buf);
  }

  lemma {:induction false} LiveGives(s: Qcow1State)
    requires Live(s)
    ensures s.g.Valid() && (s.packedOff >= 0 ==> |s.packed| == s.g.cs) && s.x.Valid(s.g.cs)
  {
  }

  lemma {:induction false} LandingEmptied(g: Grid, d: Disk, c: nat)
    requires g.Valid() && d.len == d.base && forall i :: 0 <= i < |d.l1| ==> d.l1[i] == 0
    ensures Landing(g, d, c) == EndFor(g, d.base) + 8 * g.es
  {
  }

  lemma {:induction false} PackedView(g: Grid, x: Ctx, d0: Disk, d: Disk, off: int, packed: seq<Sector>, sector: nat, buf: seq<Sector>, i: nat)
    requires g.Valid() && |buf| == g.cs && Rem(sector, g.cs) == 0 && i < |buf| && Written(g, x, d0, d, sector, buf)
    ensures View(g, x, d, sector + i) == buf[i]
    ensures Got(g, x, d, off, packed, sector, sector + i) == if Names(g, d, off, Quot(sector, g.cs)) && i < |packed| then packed[i] else buf[i]
  {
    hide EntryOf, Quot, Rem, View;
    PieceIndex(g, sector, |buf|);
    assert View(g, x, d, sector + i) == Wrote(g, x, d0, sector, buf, sector + i);
  }

  lemma {:induction false} PackedEntry(g: Grid, x: Ctx, d0: Disk, d: Disk, sector: nat, buf: seq<Sector>)
    requires g.Valid() && |buf| == g.cs && Rem(sector, g.cs) == 0 && Written(g, x, d0, d, sector, buf)
    ensures !EntryOf(g, d, Quot(sector, g.cs)).Unused?
  {
    hide EntryOf, Quot, Rem, View;
    OnePiece(g, sector, |buf|, sector);
  }

  /** A file with an empty L1 table and nothing behind it. */
  lemma {:induction false} NewDisk(g: Grid, x: Ctx, d: Disk)
    requires g.Valid() && d.ext == map[] && 0 < d.base == d.len && forall i :: 0 <= i < |d.l1| ==> d.l1[i] == 0
    ensures Struct(g, d) && ChunksOk(g, x, d) && NoneEncrypted(g, x, d)
    ensures (forall c: nat :: EntryOf(g, d, c).Unused?) && forall n: nat :: View(g, x, d, n) == x.Base(n)
  {
    hide Quot, Rem;
  }

  lemma {:induction false} EmptyDisk(g: Grid, x: Ctx, d: Disk, l1: seq<nat>)
    requires Struct(g, d) && forall i :: 0 <= i < |l1| ==> l1[i] == 0
    ensures var d' := Truncated(d.(l1 := l1), d.base);
            && d' == Disk(d.base, l1, map[], d.base) && Struct(g, d') && ChunksOk(g, x, d') && NoneEncrypted(g, x, d')
            && (forall c: nat :: EntryOf(g, d', c).Unused?) && (forall n: nat :: View(g, x, d', n) == x.Base(n))
  {
    hide Quot, Rem, Size, EntryOf, View, EntriesOk;
    var d' := Truncated(d.(l1 := l1), d.base);
    assert d'.ext == map[];
    NewDisk(g, x, d');
  }

  /** After a commit the backing file has what the guest saw; emptied, the overlay shows the same. */
  lemma {:induction false} EmptiedShowsBase(g: Grid, x: Ctx, d: Disk, base: nat -> Sector, total: nat, l1: seq<nat>)
    requires Struct(g, d) && (forall i :: 0 <= i < |l1| ==> l1[i] == 0) && forall n: nat :: n < total ==> base(n) == View(g, x, d, n)
    ensures forall n: nat :: n < total ==> View(g, x.(backing := Some(base)), Truncated(d.(l1 := l1), d.base), n) == View(g, x, d, n)
  {
    hide View, Truncated;
    EmptyDisk(g, x.(backing := Some(base)), d, l1);
  }

  // ---------------------------------------------------------------- when a write is a flat update

  /** The write changed the written sectors and no others. */
  ghost predicate FlatUpdate(g: Grid, x: Ctx, d: Disk, d': Disk, sector: nat, buf: seq<Sector>)
    requires g.Valid()
  {
    forall n: nat :: View(g, x, d', n) == if sector <= n < sector + |buf| then buf[n - sector] else View(g, x, d, n)
  }

  /** In the clusters the write allocates, the sectors it leaves out were zeros. */
  ghost predicate RestZero(g: Grid, x: Ctx, d: Disk, sector: nat, n: nat)
    requires g.Valid()
  {
    forall m: nat :: Reached(g, Quot(m, g.cs), sector, n) && !(sector <= m < sector + n) && EntryOf(g, d, Quot(m, g.cs)).Unused? ==> x.Base(m) == ZERO_SECTOR
  }

  lemma {:induction false} FlatIff(g: Grid, x: Ctx, d: Disk, d': Disk, sector: nat, buf: seq<Sector>)
    requires g.Valid() && Written(g, x, d, d', sector, buf)
    ensures FlatUpdate(g, x, d, d', sector, buf) <==> RestZero(g, x, d, sector, |buf|)
  {
    hide EntryOf, Quot, Rem, Reached;
    if FlatUpdate(g, x, d, d', sector, buf) {
      forall m: nat | Reached(g, Quot(m, g.cs), sector, |buf|) && !(sector <= m < sector + |buf|) && EntryOf(g, d, Quot(m, g.cs)).Unused? ensures x.Base(m) == ZERO_SECTOR {
        assert View(g, x, d', m) == Wrote(g, x, d, sector, buf, m);
        assert View(g, x, d', m) == View(g, x, d, m);
      }
    } else {
      var m: nat :| View(g, x, d', m) != if sector <= m < sector + |buf| then buf[m - sector] else View(g, x, d, m);
      assert View(g, x, d', m) == Wrote(g, x, d, sector, buf, m);
    }
  }

  /** Without a backing file, or with clusters of one sector, every write is a flat update. */
  lemma {:induction false} AlwaysFlat(g: Grid, x: Ctx, d: Disk, d': Disk, sector: nat, buf: seq<Sector>)
    requires g.Valid() && Written(g, x, d, d', sector, buf) && (x.backing.None? || g.cs == 1)
    ensures FlatUpdate(g, x, d, d', sector, buf)
  {
    hide EntryOf, Quot, Rem, View, Written, Reached;
    forall m: nat | Reached(g, Quot(m, g.cs), sector, |buf|) && !(sector <= m < sector + |buf|) ensures x.Base(m) == ZERO_SECTOR {
      if g.cs == 1 { ReachedOne(g, sector, |buf|, m); }
    }
    FlatIff(g, x, d, d', sector, buf);
  }

  lemma {:induction false} ReachedOne(g: Grid, sector: nat, n: nat, m: nat)
    requires g.Valid() && g.cs == 1 && Reached(g, Quot(m, g.cs), sector, n)
    ensures sector <= m < sector + n
  {
    hide Quot;
    DivExact(m, 1, 0);
    DivExact(sector, 1, 0);
    DivExact(sector + n - 1, 1, 0);
  }

  /** With a backing file and clusters of 4096 bytes, a write of one sector hides the next one. */
  lemma {:induction false} NeighbourLost(x: Ctx, d: Disk, d': Disk, a: Sector)
    requires x.backing == Some((n: nat) => Fill(1)) && EntryOf(Grid(8, 512), d, 0).Unused?
    requires Written(Grid(8, 512), x, d, d', 0, [a])
    ensures View(Grid(8, 512), x, d, 1) == Fill(1) && View(Grid(8, 512), x, d', 1) == ZERO_SECTOR != Fill(1)
  {
    hide EntryOf;
    var g := Grid(8, 512);
    assert Quot(0, 8) == 0 && Quot(1, 8) == 0;
    assert View(g, x, d', 1) == Wrote(g, x, d, 0, [a], 1);
    assert ZERO_SECTOR[0] == 0 && Fill(1)[0] == 1;
  }
}
