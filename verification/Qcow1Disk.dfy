/** The first QCOW format: tables, clusters and compressed chunks are only ever added at the end of
    the file. */
module Qcow1Disk {
  import opened Division
  import opened Bytes

  /** Sectors in a cluster and entries in an L2 table. */
  datatype Grid = Grid(cs: nat, es: nat)
  {
    ghost predicate Valid()
    {
      cs >= 1 && es >= 1
    }
  }

  /** An L2 entry, with byte offsets. */
  datatype Entry = Unused | Plain(off: nat) | Packed(off: nat, len: nat)

  /** A part of the file that is read and written as one thing. */
  datatype Extent = Table(entries: seq<Entry>) | Data(sectors: seq<Sector>) | Chunk(bytes: seq<Byte>)

  function Size(e: Extent): nat
  {
    match e
    case Table(entries) => 8 * |entries|
    case Data(sectors) => 512 * |sectors|
    case Chunk(bytes) => |bytes|
  }

  /** The host file: header and L1 table end at base, the extents follow. */
  datatype Disk = Disk(base: nat, l1: seq<nat>, ext: map<nat, Extent>, len: nat)

  predicate Clear(a: nat, n: nat, b: nat, m: nat)
  {
    a + n <= b || b + m <= a
  }

  /** Writing an extent destroys whatever it overlaps. */
  function Put(d: Disk, off: nat, e: Extent): Disk
  {
    var kept := map o | o in d.ext && Clear(o, Size(d.ext[o]), off, Size(e)) :: d.ext[o];
    var end := off + Size(e);
    Disk(d.base, if off < d.base then [] else d.l1, kept[off := e], if end > d.len then end else d.len)
  }

  /** Writing inside an extent. */
  function PutEntry(d: Disk, off: nat, j: nat, e: Entry): Disk
  {
    if off in d.ext && d.ext[off].Table? && j < |d.ext[off].entries|
    then d.(ext := d.ext[off := Table(d.ext[off].entries[j := e])])
    else d
  }

  function PutSectors(d: Disk, off: nat, idx: nat, raw: seq<Sector>): Disk
  {
    if off in d.ext && d.ext[off].Data? && idx + |raw| <= |d.ext[off].sectors|
    then d.(ext := d.ext[off := Data(d.ext[off].sectors[..idx] + raw + d.ext[off].sectors[idx + |raw|..])])
    else d
  }

  function PutL1(d: Disk, i: nat, off: nat): Disk
  {
    if i < |d.l1| then d.(l1 := d.l1[i := off]) else d
  }

  /** Cutting the file off at n. */
  function Truncated(d: Disk, n: nat): Disk
  {
    d.(ext := map o | o in d.ext && o + Size(d.ext[o]) <= n :: d.ext[o], len := n)
  }

  // ---------------------------------------------------------------- invariant

  ghost predicate IsTable(g: Grid, d: Disk, off: nat)
  {
    off in d.ext && d.ext[off].Table? && |d.ext[off].entries| == g.es
  }

  ghost predicate IsData(g: Grid, d: Disk, off: nat)
  {
    off in d.ext && d.ext[off].Data? && |d.ext[off].sectors| == g.cs
  }

  ghost predicate IsChunk(d: Disk, off: nat, n: nat)
  {
    off in d.ext && d.ext[off].Chunk? && |d.ext[off].bytes| == n
  }

  /** Extents lie between base and the end of the file and do not overlap. */
  ghost predicate Laid(d: Disk)
  {
    && 0 < d.base <= d.len
    && (forall o :: o in d.ext ==> d.base <= o && Size(d.ext[o]) >= 1 && o + Size(d.ext[o]) <= d.len)
    && (forall o, p :: o in d.ext && p in d.ext && o < p ==> o + Size(d.ext[o]) <= p)
  }

  /** The entry for guest cluster c. */
  ghost function EntryOf(g: Grid, d: Disk, c: nat): Entry
    requires g.Valid()
  {
    var i := Quot(c, g.es);
    if i < |d.l1| && IsTable(g, d, d.l1[i]) then d.ext[d.l1[i]].entries[Rem(c, g.es)] else Unused
  }

  /** An entry points at an extent of its own kind; clusters start at a sector. */
  ghost predicate EntryOk(g: Grid, d: Disk, e: Entry)
  {
    match e
    case Unused => true
    case Plain(off) => IsData(g, d, off) && Rem(off, 512) == 0
    case Packed(off, n) => IsChunk(d, off, n) && n < 512 * g.cs
  }

  ghost predicate SameTarget(e: Entry, e': Entry)
  {
    !e.Unused? && !e'.Unused? && e.off == e'.off
  }

  ghost predicate TablesOk(g: Grid, d: Disk)
  {
    && (forall i :: 0 <= i < |d.l1| && d.l1[i] != 0 ==> IsTable(g, d, d.l1[i]))
    && (forall i, j :: 0 <= i < j < |d.l1| && d.l1[i] != 0 ==> d.l1[i] != d.l1[j])
    && 0 !in d.ext
  }

  ghost predicate EntriesOk(g: Grid, d: Disk)
    requires g.Valid()
  {
    && (forall c: nat :: EntryOk(g, d, EntryOf(g, d, c)))
    && (forall c: nat, c': nat :: SameTarget(EntryOf(g, d, c), EntryOf(g, d, c')) ==> c == c')
  }

  /** Every table, cluster and chunk in use has a place of its own. */
  ghost predicate Struct(g: Grid, d: Disk)
  {
    g.Valid() && Laid(d) && TablesOk(g, d) && EntriesOk(g, d)
  }

  // ---------------------------------------------------------------- what the guest sees

  datatype Crypt = NoCrypt | Aes(cipher: Cipher)

  datatype Option<T> = None | Some(value: T)

  /** deflate and inflate. */
  datatype Codec = Codec(deflate: seq<Sector> -> seq<Byte>, inflate: seq<Byte> -> seq<Sector>)
  {
    ghost predicate Lossless(cs: nat)
    {
      forall a: seq<Sector> :: |a| == cs ==> |deflate(a)| >= 1 && inflate(deflate(a)) == a
    }
  }

  datatype Ctx = Ctx(crypt: Crypt, codec: Codec, backing: Option<nat -> Sector>)
  {
    ghost predicate Valid(cs: nat)
    {
      codec.Lossless(cs) && (crypt.Aes? ==> crypt.cipher.Invertible())
    }

    function Enc(n: nat, a: Sector): Sector
    {
      if crypt.Aes? then crypt.cipher.enc(n, a) else a
    }

    function Dec(n: nat, a: Sector): Sector
    {
      if crypt.Aes? then crypt.cipher.dec(n, a) else a
    }

    function Base(n: nat): Sector
    {
      if backing.Some? then backing.value(n) else ZERO_SECTOR
    }
  }

  /** Guest sector n, which entry e of its cluster describes. */
  ghost function SectorAt(g: Grid, x: Ctx, d: Disk, e: Entry, n: nat): Sector
    requires g.Valid()
  {
    var j := Rem(n, g.cs);
    match e
    case Unused => x.Base(n)
    case Plain(off) => if IsData(g, d, off) then x.Dec(n, d.ext[off].sectors[j]) else STALE_SECTOR
    case Packed(off, len) =>
      if IsChunk(d, off, len) && j < |x.codec.inflate(d.ext[off].bytes)| then x.codec.inflate(d.ext[off].bytes)[j] else STALE_SECTOR
  }

  ghost function View(g: Grid, x: Ctx, d: Disk, n: nat): Sector
    requires g.Valid()
  {
    SectorAt(g, x, d, EntryOf(g, d, Quot(n, g.cs)), n)
  }

  /** Sector k of cluster j of L1 slot i: decrypted from the cluster that slot j of the L2 table names,
      or from the chunk it names, inflated; without either it is the backing file's, or zeros. */
  lemma {:induction false} GuestSector(g: Grid, x: Ctx, d: Disk, i: nat, j: nat, k: nat)
    requires Struct(g, d) && j < g.es && k < g.cs
    ensures var n := (i * g.es + j) * g.cs + k;
            var e := if i < |d.l1| && d.l1[i] != 0 && d.l1[i] in d.ext && d.ext[d.l1[i]].Table? && j < |d.ext[d.l1[i]].entries| then d.ext[d.l1[i]].entries[j] else Unused;
            && (e.Unused? && x.backing.Some? ==> View(g, x, d, n) == x.backing.value(n))
            && (e.Unused? && x.backing.None? ==> forall b :: 0 <= b < 512 ==> View(g, x, d, n)[b] == 0)
            && (e.Plain? ==> e.off in d.ext && d.ext[e.off].Data? && |d.ext[e.off].sectors| == g.cs
                             && View(g, x, d, n) == if x.crypt.Aes? then x.crypt.cipher.dec(n, d.ext[e.off].sectors[k]) else d.ext[e.off].sectors[k])
            && (e.Packed? ==> e.off in d.ext && d.ext[e.off].Chunk? && |d.ext[e.off].bytes| == e.len
                              && (k < |x.codec.inflate(d.ext[e.off].bytes)| ==> View(g, x, d, n) == x.codec.inflate(d.ext[e.off].bytes)[k]))
  {
    hide Quot, Rem, EntryOf, Laid, TablesOk;
    SlotEntry(g, d, i, j);
    DivExact(i * g.es + j, g.cs, k);
    forall b | 0 <= b < 512 ensures ZERO_SECTOR[b] == 0 { ZeroBytes(b); }
    assert EntryOk(g, d, EntryOf(g, d, i * g.es + j));
  }

  lemma {:induction false} SlotEntry(g: Grid, d: Disk, i: nat, j: nat)
    requires Struct(g, d) && j < g.es
    ensures EntryOf(g, d, i * g.es + j) ==
            if i < |d.l1| && d.l1[i] != 0 && d.l1[i] in d.ext && d.ext[d.l1[i]].Table? && j < |d.ext[d.l1[i]].entries| then d.ext[d.l1[i]].entries[j] else Unused
  {
    hide Quot, Rem, Laid, EntriesOk;
    DivExact(i, g.es, j);
  }

  // ---------------------------------------------------------------- steps

  /** What lies past the end of the file overlaps nothing. */
  lemma {:induction false} PutFresh(d: Disk, off: nat, e: Extent)
    requires Laid(d) && off >= d.len && Size(e) >= 1
    ensures Laid(Put(d, off, e)) && off !in d.ext
    ensures Put(d, off, e) == Disk(d.base, d.l1, d.ext[off := e], off + Size(e))
  {
    hide Size;
    assert Put(d, off, e).ext == d.ext[off := e];
  }

  /** An extent nobody points to changes nothing. */
  lemma {:induction false} AddExtent(g: Grid, d: Disk, off: nat, e: Extent)
    requires Struct(g, d) && off >= d.len && Size(e) >= 1
    ensures Struct(g, Put(d, off, e))
    ensures forall c: nat :: EntryOf(g, Put(d, off, e), c) == EntryOf(g, d, c)
    ensures forall c: nat :: !EntryOf(g, d, c).Unused? ==> EntryOf(g, d, c).off != off
    ensures forall x: Ctx, n: nat :: View(g, x, Put(d, off, e), n) == View(g, x, d, n)
  {
    hide Quot, Rem, Size, Put;
    PutFresh(d, off, e);
    var d' := Put(d, off, e);
    assert forall o :: o in d.ext ==> o in d'.ext && d'.ext[o] == d.ext[o];
    forall c: nat ensures EntryOf(g, d', c) == EntryOf(g, d, c) && EntryOk(g, d', EntryOf(g, d, c)) && (!EntryOf(g, d, c).Unused? ==> EntryOf(g, d, c).off != off) {
      assert EntryOk(g, d, EntryOf(g, d, c));
    }
  }

  /** The same extents, perhaps with other contents. */
  ghost predicate SamePlaces(d: Disk, d': Disk)
  {
    d' == d.(ext := d'.ext) && d'.ext.Keys == d.ext.Keys && forall o :: o in d.ext ==> Size(d'.ext[o]) == Size(d.ext[o])
  }

  lemma {:induction false} LaidKept(d: Disk, d': Disk)
    requires Laid(d) && SamePlaces(d, d')
    ensures Laid(d')
  {
    hide Size;
  }

  /** Sectors keep their contents if entries and their extents do. */
  lemma {:induction false} ViewKept(g: Grid, d: Disk, d': Disk)
    requires g.Valid() && EntriesOk(g, d) && forall c: nat :: EntryOf(g, d', c) == EntryOf(g, d, c)
    requires forall c: nat :: !EntryOf(g, d, c).Unused? ==> EntryOf(g, d, c).off in d.ext && EntryOf(g, d, c).off in d'.ext && d'.ext[EntryOf(g, d, c).off] == d.ext[EntryOf(g, d, c).off]
    ensures forall x: Ctx, n: nat :: View(g, x, d', n) == View(g, x, d, n)
    ensures EntriesOk(g, d')
  {
    hide EntryOf, Quot, Rem;
    forall c: nat ensures EntryOk(g, d', EntryOf(g, d', c)) { assert EntryOk(g, d, EntryOf(g, d, c)); }
  }

  lemma {:induction false} TargetIn(g: Grid, d: Disk, c: nat)
    requires g.Valid() && EntriesOk(g, d)
    ensures !EntryOf(g, d, c).Unused? ==> EntryOf(g, d, c).off in d.ext && !d.ext[EntryOf(g, d, c).off].Table?
  {
    hide EntryOf;
    assert EntryOk(g, d, EntryOf(g, d, c));
  }

  /** A new L2 table without entries. */
  lemma {:induction false} AddTable(g: Grid, d: Disk, i: nat, off: nat)
    requires Struct(g, d) && i < |d.l1| && d.l1[i] == 0 && off >= d.len
    ensures var d' := Put(PutL1(d, i, off), off, Table(seq(g.es, _ => Unused)));
            && Struct(g, d') && d' == Disk(d.base, d.l1[i := off], d.ext[off := Table(seq(g.es, _ => Unused))], off + 8 * g.es)
            && (forall c: nat :: EntryOf(g, d', c) == EntryOf(g, d, c))
            && (forall x: Ctx, n: nat :: View(g, x, d', n) == View(g, x, d, n))
  {
    hide Quot, Rem, Put, EntryOk, View, EntriesOk;
    var e := Table(seq(g.es, _ => Unused));
    assert Size(e) == 8 * g.es;
    PutFresh(PutL1(d, i, off), off, e);
    var d' := Put(PutL1(d, i, off), off, e);
    AddTableEntries(g, d, d', i, off);
    forall c: nat | !EntryOf(g, d, c).Unused? ensures EntryOf(g, d, c).off in d.ext { TargetIn(g, d, c); }
    ViewKept(g, d, d');
  }

  lemma {:induction false} AddTableEntries(g: Grid, d: Disk, d': Disk, i: nat, off: nat)
    requires Struct(g, d) && i < |d.l1| && d.l1[i] == 0 && off >= d.len
    requires d'.ext == d.ext[off := Table(seq(g.es, _ => Unused))] && d'.l1 == d.l1[i := off]
    ensures TablesOk(g, d')
    ensures forall c: nat :: EntryOf(g, d', c) == EntryOf(g, d, c)
  {
    hide Quot, Rem, Size, EntryOk, EntriesOk;
    assert forall j :: 0 <= j < |d.l1| && d.l1[j] != 0 ==> d.l1[j] in d.ext && d.l1[j] != off;
    assert off !in d.ext;
  }

  /** Pointing the entry of cluster c somewhere else. */
  lemma {:induction false} SetEntry(g: Grid, d: Disk, c: nat, e: Entry)
    requires Struct(g, d) && Quot(c, g.es) < |d.l1| && d.l1[Quot(c, g.es)] != 0
    requires EntryOk(g, d, e) && forall c': nat :: !SameTarget(e, EntryOf(g, d, c'))
    ensures var off := d.l1[Quot(c, g.es)];
            var d' := PutEntry(d, off, Rem(c, g.es), e);
            && Struct(g, d') && SamePlaces(d, d')
            && (forall o :: o in d.ext && o != off ==> d'.ext[o] == d.ext[o])
            && IsTable(g, d, off) && IsTable(g, d', off) && d'.ext[off].entries == d.ext[off].entries[Rem(c, g.es) := e]
            && (forall c': nat :: EntryOf(g, d', c') == if c' == c then e else EntryOf(g, d, c'))
            && (forall x: Ctx, n: nat :: View(g, x, d', n) == SectorAt(g, x, d, if Quot(n, g.cs) == c then e else EntryOf(g, d, Quot(n, g.cs)), n))
  {
    hide Quot, Rem, EntryOf, EntriesOk, EntryOk, Laid;
    var off := d.l1[Quot(c, g.es)];
    var d' := PutEntry(d, off, Rem(c, g.es), e);
    SetEntryMap(g, d, c, e);
    LaidKept(d, d');
    SetEntryOk(g, d, d', c, e);
  }

  lemma {:induction false} SetEntryMap(g: Grid, d: Disk, c: nat, e: Entry)
    requires g.Valid() && TablesOk(g, d) && Quot(c, g.es) < |d.l1| && d.l1[Quot(c, g.es)] != 0
    ensures forall c': nat :: EntryOf(g, PutEntry(d, d.l1[Quot(c, g.es)], Rem(c, g.es), e), c') == if c' == c then e else EntryOf(g, d, c')
  {
    hide Quot, Rem;
    var d' := PutEntry(d, d.l1[Quot(c, g.es)], Rem(c, g.es), e);
    forall c': nat ensures EntryOf(g, d', c') == if c' == c then e else EntryOf(g, d, c') {
      if Quot(c', g.es) == Quot(c, g.es) && Rem(c', g.es) == Rem(c, g.es) { DivModUnique(c, c', g.es); }
    }
  }

  lemma {:induction false} SetEntryOk(g: Grid, d: Disk, d': Disk, c: nat, e: Entry)
    requires g.Valid() && EntriesOk(g, d)
    requires EntryOk(g, d, e) && forall c': nat :: !SameTarget(e, EntryOf(g, d, c'))
    requires forall c': nat :: EntryOf(g, d', c') == if c' == c then e else EntryOf(g, d, c')
    requires forall o :: o in d.ext && !d.ext[o].Table? ==> o in d'.ext && d'.ext[o] == d.ext[o]
    ensures EntriesOk(g, d')
    ensures forall x: Ctx, n: nat :: View(g, x, d', n) == SectorAt(g, x, d, if Quot(n, g.cs) == c then e else EntryOf(g, d, Quot(n, g.cs)), n)
  {
    hide Quot, Rem, EntryOf;
    forall c': nat ensures EntryOk(g, d', EntryOf(g, d', c')) {
      assert EntryOk(g, d, EntryOf(g, d, c'));
    }
    forall x: Ctx, n: nat ensures View(g, x, d', n) == SectorAt(g, x, d, if Quot(n, g.cs) == c then e else EntryOf(g, d, Quot(n, g.cs)), n) {
      assert EntryOk(g, d, EntryOf(g, d, Quot(n, g.cs)));
    }
  }

  /** Writing inside the cluster of c. */
  lemma {:induction false} WriteInside(g: Grid, x: Ctx, d: Disk, c: nat, idx: nat, raw: seq<Sector>)
    requires Struct(g, d) && EntryOf(g, d, c).Plain? && idx + |raw| <= g.cs
    ensures var d' := PutSectors(d, EntryOf(g, d, c).off, idx, raw);
            && Struct(g, d') && SamePlaces(d, d')
            && (forall o :: o in d.ext ==> if d.ext[o].Data? then d'.ext[o].Data? else d'.ext[o] == d.ext[o])
            && (forall c': nat :: EntryOf(g, d', c') == EntryOf(g, d, c'))
            && (forall n: nat :: View(g, x, d', n) ==
                  if Quot(n, g.cs) == c && idx <= Rem(n, g.cs) < idx + |raw| then x.Dec(n, raw[Rem(n, g.cs) - idx]) else View(g, x, d, n))
  {
    hide Quot, Rem, EntriesOk, Laid;
    var off := EntryOf(g, d, c).off;
    assert IsData(g, d, off) by { IsDataOf(g, d, c); }
    var d' := PutSectors(d, off, idx, raw);
    LaidKept(d, d');
    WriteInsideView(g, x, d, d', c, idx, raw);
  }

  lemma {:induction false} IsDataOf(g: Grid, d: Disk, c: nat)
    requires g.Valid() && EntriesOk(g, d) && EntryOf(g, d, c).Plain?
    ensures IsData(g, d, EntryOf(g, d, c).off) && Rem(EntryOf(g, d, c).off, 512) == 0
  {
    hide EntryOf;
    assert EntryOk(g, d, EntryOf(g, d, c));
  }

  lemma {:induction false} WriteInsideView(g: Grid, x: Ctx, d: Disk, d': Disk, c: nat, idx: nat, raw: seq<Sector>)
    requires g.Valid() && EntriesOk(g, d) && EntryOf(g, d, c).Plain? && idx + |raw| <= g.cs
    requires forall c': nat :: EntryOf(g, d', c') == EntryOf(g, d, c')
    requires d' == PutSectors(d, EntryOf(g, d, c).off, idx, raw)
    ensures EntriesOk(g, d')
    ensures forall n: nat :: View(g, x, d', n) ==
              if Quot(n, g.cs) == c && idx <= Rem(n, g.cs) < idx + |raw| then x.Dec(n, raw[Rem(n, g.cs) - idx]) else View(g, x, d, n)
  {
    hide Quot, Rem, EntryOf;
    var e := EntryOf(g, d, c);
    assert EntryOk(g, d, e);
    forall c': nat ensures EntryOk(g, d', EntryOf(g, d, c')) {
      assert EntryOk(g, d, EntryOf(g, d, c'));
    }
    forall n: nat ensures View(g, x, d', n) == if Quot(n, g.cs) == c && idx <= Rem(n, g.cs) < idx + |raw| then x.Dec(n, raw[Rem(n, g.cs) - idx]) else View(g, x, d, n) {
      var e' := EntryOf(g, d, Quot(n, g.cs));
      assert EntryOk(g, d, e');
      if Quot(n, g.cs) != c { assert !SameTarget(e, e'); }
    }
  }

  /** A chunk is written after its entry: the order makes no difference. */
  lemma {:induction false} EntryFirst(d: Disk, t: nat, j: nat, e: Entry, off: nat, ext: Extent)
    requires Laid(d) && t in d.ext && off >= d.len && Size(ext) >= 1
    ensures Put(PutEntry(d, t, j, e), off, ext) == PutEntry(Put(d, off, ext), t, j, e)
  {
    hide Put, Laid;
    PutFresh(d, off, ext);
    LaidKept(d, PutEntry(d, t, j, e));
    LaidGives(d, t);
    PutFresh(PutEntry(d, t, j, e), off, ext);
  }

  lemma {:induction false} LaidGives(d: Disk, t: nat)
    requires Laid(d) && t in d.ext
    ensures t < d.len
  {
  }

  /** From d to d' nothing moved, shrank or went away, and what is new lies past the old end. */
  ghost predicate Appended(d: Disk, d': Disk)
  {
    && d'.base == d.base && d.len <= d'.len
    && (forall o :: o in d.ext ==> o in d'.ext && Size(d'.ext[o]) == Size(d.ext[o]))
    && (forall o :: o in d'.ext ==> o in d.ext || o >= d.len)
  }

  lemma {:induction false} AppendedTrans(d: Disk, d1: Disk, d': Disk)
    requires Appended(d, d1) && Appended(d1, d')
    ensures Appended(d, d')
  {
    hide Size;
  }

  lemma {:induction false} PutAppends(d: Disk, off: nat, e: Extent)
    requires Laid(d) && off >= d.len && Size(e) >= 1
    ensures Appended(d, Put(d, off, e))
  {
    hide Size, Put;
    PutFresh(d, off, e);
  }
}
