/** Mapping guest clusters to host clusters, reading and writing. */
module Qcow2Io {
  import opened Division
  import opened Bytes
  import opened Qcow2Layout
  import opened Qcow2Trees
  import opened Qcow2Counts
  import opened Qcow2Volume
  import opened Qcow2Steps
  import opened Qcow2State
  import opened Qcow2Image

  /** The cached L2 table of slot i is the one the tree reaches. */
  lemma {:induction false} SlotTable(g: Geo, v: Vol, i: nat)
    requires Struct(g, v) && i < |v.l1| && v.l1[i].cluster != 0
    ensures IsTable(g, v.file, v.l1[i].cluster) && TreesRefs(g, v, v.l1[i].cluster) >= 1
  {
    ActiveRef(g, v, i, 0);
    assert Roots(g, v)[0] == Erase(v.l1);
    assert L2Ok(g, v.file, Erase(v.l1)[i]);
  }

  /** The L2 table that covers guest cluster u, or 0. */
  ghost function L2Of(g: Geo, l1: seq<Entry>, u: nat): nat
    requires g.es > 0
  {
    if Quot(u, g.es) < |l1| then l1[Quot(u, g.es)].cluster else 0
  }

  /** Looking up a guest cluster without allocating. */
  method FindCluster(s: BDRVQcowState, u: nat) returns (p: nat)
    requires Readable(s)
    modifies s`l2Keys, s`l2Hits, s`l2Cache
    ensures Readable(s)
    ensures p == Lookup(s.g, s.file, Erase(s.l1), u)
    ensures L2Of(s.g, s.l1, u) == 0 || L2Of(s.g, s.l1, u) in old(s.l2Keys) ==> s.l2Keys == old(s.l2Keys) && s.l2Cache == old(s.l2Cache)
  {
    var i := Quot(u, s.g.es);
    if i >= |s.l1| { return 0; }
    var off := s.l1[i].cluster;
    if off == 0 { return 0; }
    SlotTable(s.g, V(s), i);
    var k := L2CacheLoad(s, off);
    p := s.l2Cache[k][Rem(u, s.g.es)].cluster;
  }

  /** Number of sectors of a request that lie in the cluster of its first sector. */
  function InCluster(g: Geo, sector: nat, n: nat): (m: nat)
    requires g.cs > 0
    ensures n > 0 ==> 0 < m <= n
    ensures m <= n && Rem(sector, g.cs) + m <= g.cs
  {
    if g.cs - Rem(sector, g.cs) > n then n else g.cs - Rem(sector, g.cs)
  }

  lemma {:induction false} SectorInCluster(sector: nat, k: nat, d: nat)
    requires d > 0 && Rem(sector, d) + k < d
    ensures Quot(sector + k, d) == Quot(sector, d) && Rem(sector + k, d) == Rem(sector, d) + k
  {
    QuotRem(sector, d);
    DivExact(Quot(sector, d), d, Rem(sector, d) + k);
  }

  /** Sectors sector .. sector+n of the backing file, which reads as zero past its end. */
  method BackingRead(base: seq<Sector>, sector: nat, n: nat) returns (buf: seq<Sector>)
    ensures |buf| == n && forall k :: 0 <= k < n ==> buf[k] == Backing(base, sector + k)
    ensures forall k :: 0 <= k < n ==> if sector + k < |base| then buf[k] == base[sector + k] else forall i :: 0 <= i < 512 ==> buf[k][i] == 0
  {
    var n1 := if sector + n <= |base| then n else if sector >= |base| then 0 else |base| - sector;
    buf := (if n1 > 0 then base[sector..sector + n1] else []) + seq<Sector>(n - n1, _ => ZERO_SECTOR);
    forall i | 0 <= i < 512 ensures ZERO_SECTOR[i] == 0 { ZeroBytes(i); }
  }

  /** A read returns the guest disk, sector by sector. It changes nothing but the cache, and not
      even that if it stays inside one cluster whose L2 table is cached. */
  method QcowRead(s: BDRVQcowState, sector: nat, n: nat) returns (buf: seq<Sector>)
    requires Readable(s)
    modifies s`l2Keys, s`l2Hits, s`l2Cache
    ensures Readable(s)
    ensures |buf| == n && forall k :: 0 <= k < n ==> buf[k] == View(X(s), V(s), 0, sector + k)
    ensures forall k :: 0 <= k < n && Lookup(s.g, s.file, Erase(s.l1), Quot(sector + k, s.g.cs)) == 0 ==>
              if sector + k < |s.backing| then buf[k] == s.backing[sector + k] else forall i :: 0 <= i < 512 ==> buf[k][i] == 0
    ensures
      var w := L2Of(s.g, s.l1, Quot(sector, s.g.cs));
      Rem(sector, s.g.cs) + n <= s.g.cs && w in old(s.l2Keys) ==> s.l2Keys == old(s.l2Keys) && s.l2Cache == old(s.l2Cache)
  {
    hide View, Struct, CacheOk, HitsOk, L2Of, Quot, Rem, Lookup;
    buf := [];
    while |buf| < n
      invariant |buf| <= n
      invariant Readable(s)
      invariant forall k :: 0 <= k < |buf| ==> buf[k] == View(X(s), V(s), 0, sector + k)
      invariant
        var w := L2Of(s.g, s.l1, Quot(sector, s.g.cs));
        Rem(sector, s.g.cs) + n <= s.g.cs && w in old(s.l2Keys) ==>
          (|buf| == 0 || |buf| == n) && s.l2Keys == old(s.l2Keys) && s.l2Cache == old(s.l2Cache)
      decreases n - |buf|
    {
      var piece := ReadPiece(s, sector + |buf|, n - |buf|);
      ghost var done := |buf|;
      buf := buf + piece;
    }
    forall k | 0 <= k < n && Lookup(s.g, s.file, Erase(s.l1), Quot(sector + k, s.g.cs)) == 0
      ensures if sector + k < |s.backing| then buf[k] == s.backing[sector + k] else forall i :: 0 <= i < 512 ==> buf[k][i] == 0
    {
      UnmappedView(X(s), V(s), sector + k);
    }
  }

  /** The part of a read that lies in one cluster. */
  method ReadPiece(s: BDRVQcowState, sec: nat, n: nat) returns (d: seq<Sector>)
    requires Readable(s) && n > 0
    modifies s`l2Keys, s`l2Hits, s`l2Cache
    ensures Readable(s)
    ensures |d| == InCluster(s.g, sec, n)
    ensures forall k :: 0 <= k < |d| ==> d[k] == View(X(s), V(s), 0, sec + k)
    ensures L2Of(s.g, s.l1, Quot(sec, s.g.cs)) in old(s.l2Keys) ==> s.l2Keys == old(s.l2Keys) && s.l2Cache == old(s.l2Cache)
  {
    hide Struct, CacheOk, HitsOk, L2Of, Quot, Rem;
    var u := Quot(sec, s.g.cs);
    var idx := Rem(sec, s.g.cs);
    var m := InCluster(s.g, sec, n);
    var p := FindCluster(s, u);
    if p == 0 {
      d := BackingRead(s.backing, sec, m);
    } else {
      var raw := ReadSectors(s.file, p, idx, m);
      d := EncryptSectors(s.crypt.dec, sec, raw);
    }
    forall k | 0 <= k < m ensures d[k] == View(X(s), V(s), 0, sec + k) {
      SectorInCluster(sec, k, s.g.cs);
      assert Roots(s.g, V(s))[0] == Erase(s.l1);
    }
  }

  // ---------------------------------------------------------------- an L2 table of its own for slot i

  /** Slot i of the L1 table has its own, unshared L2 table, cached in slot k. */
  ghost predicate HoldsL2(s: BDRVQcowState, i: nat, k: nat)
    requires s.g.Valid()
    reads s
  {
    && k < |s.l2Keys| && i < |s.l1| && s.l2Keys[k] == s.l1[i].cluster
    && OwnsL2(s.g, V(s), i, s.l1[i].cluster)
  }

  /** The flag decides: without it the cluster is shared, with it the active image is its only user. */
  lemma {:induction false} FlagMeans(g: Geo, v: Vol, e: Entry)
    requires Sound(g, v) && FlagOk(g, v, e) && e.cluster != 0 && TreesRefs(g, v, e.cluster) >= 1
    ensures MetaRefs(g, v, e.cluster) == 0
    ensures if e.copied then TreesRefs(g, v, e.cluster) == 1 else TreesRefs(g, v, e.cluster) >= 2
  {
    assert VRC(g, v, e.cluster) == Refs(g, v, e.cluster);
  }

  /** Stores the new table w for slot i: empty, or a copy of the table the slot had. */
  method StoreL2(s: BDRVQcowState, i: nat, w: nat, ghost k: nat) returns (t: seq<Entry>)
    requires Readable(s) && Counted(s) && RoomFor(s, k) && Synced(V(s)) && s.crypt.Invertible()
    requires i < |s.l1| && w != 0 && Refs(s.g, V(s), w) == 0
    requires Balanced(s.g, V(s), w, 1, s.l1[i].cluster) && FlagsBut(s.g, V(s), i, -1, -1)
    requires s.l1[i].cluster != 0 ==> TreesRefs(s.g, V(s), s.l1[i].cluster) >= 2
    modifies s`file, s`l1
    ensures Valid(s) && SameViews(X(s), old(V(s)), V(s))
    ensures s.l1 == old(s.l1)[i := Entry(true, w)] && OwnsL2(s.g, V(s), i, w)
    ensures w !in s.l2Keys && IsTable(s.g, s.file, w) && t == ReadTable(s.g, s.file, w)
    ensures RoomFor(s, k)
  {
    hide View, Struct, Balanced, FlagsBut, Refs, TreesRefs, PutEntry, Synced, TableShape, OwnedCounted, BlockCacheOk, ScanOk, CacheOk, RC, Quot, Rem;
    ghost var v := V(s);
    var replaced := s.l1[i].cluster;
    t := if replaced == 0 then seq(s.g.es, _ => ZERO) else ReadTable(s.g, s.file, replaced);
    s.l1 := s.l1[i := Entry(true, w)];
    s.file := SetL1File(s.g, s.file, s.l1Off, i, w, t);
    assert t == ReadTable(s.g, s.file, w);
    assert SetL1Pre(s.g, v, V(s), i, w, t);
    hide SetL1Pre, SetL1File;
    InstalledL2(s.g, X(s), v, V(s), i, w, t, s.l2Keys, s.l2Cache);
    InstalledCounts(s.g, v, V(s), i, w, t, s.rbCacheOff, s.rbCache);
  }

  lemma {:induction false} InstalledL2(g: Geo, x: Ctx, v: Vol, v': Vol, i: nat, w: nat, t: seq<Entry>, keys: seq<nat>, cache: seq<seq<Entry>>)
    requires x.g == g && SetL1Pre(g, v, v', i, w, t) && CacheOk(g, v, keys, cache)
    requires Synced(v) && Balanced(g, v, w, 1, v.l1[i].cluster) && FlagsBut(g, v, i, -1, -1)
    requires v.l1[i].cluster != 0 ==> TreesRefs(g, v, v.l1[i].cluster) >= 2
    ensures Sound(g, v') && SameViews(x, v, v') && OwnsL2(g, v', i, w) && CacheOk(g, v', keys, cache) && w !in keys
    ensures IsTable(g, v'.file, w)
  {
    SetL1Sound(x, v, v', i, w, t);
    SetL1Basics(g, v, v', i, w, t);
    forall y | TreesRefs(g, v, y) >= 1 && y in keys ensures SameAt(v.file, v'.file, y) && TreesRefs(g, v', y) >= 1 {
      SetL1Frame(g, v, v', i, w, t, y);
    }
    CacheKept(g, v, v', keys, cache);
  }

  lemma {:induction false} InstalledCounts(g: Geo, v: Vol, v': Vol, i: nat, w: nat, t: seq<Entry>, off: nat, cache: seq<nat>)
    requires SetL1Pre(g, v, v', i, w, t)
    requires OwnedCounted(g, v.file, v.rt, v.rtOff) && BlockCacheOk(g, v.file, v.rt, off, cache)
    ensures TableShape(g, v'.file, v'.rt, v'.rtOff)
    ensures OwnedCounted(g, v'.file, v'.rt, v'.rtOff) && BlockCacheOk(g, v'.file, v'.rt, off, cache)
    ensures forall y :: RC(g, v'.file, v'.rt, y) == RC(g, v.file, v.rt, y)
  {
    SetL1Meta(g, v, v', i, w, t);
    forall y ensures RC(g, v'.file, v'.rt, y) == RC(g, v.file, v.rt, y) {
      assert VRC(g, v', y) == VRC(g, v, y);
    }
    if off != 0 {
      assert Owned(g, v.rt, v.rtOff, off);
      SetL1Frame(g, v, v', i, w, t, off);
    }
  }

  lemma {:induction false} GrabBalanced(g: Geo, v: Vol, v': Vol, a: nat, n: nat, r: nat)
    requires g.Valid() && Balanced(g, v, 0, 0, r)
    requires forall y :: VRC(g, v', y) + Refs(g, v, y) == Refs(g, v', y) + VRC(g, v, y) + One(InRun(y, a, n))
    ensures Balanced(g, v', a, n, r)
  {
    forall y ensures VRC(g, v', y) + One(r != 0 && y == r) == Refs(g, v', y) + One(InRun(y, a, n)) {
      assert VRC(g, v, y) + One(r != 0 && y == r) == Refs(g, v, y) + One(InRun(y, 0, 0));
    }
  }

  /** Allocates one cluster while cluster r (none if 0) is released but still named in slot i or (p, q). */
  method GrabCluster(s: BDRVQcowState, ghost r: nat, ghost i: int, ghost p: int, ghost q: int, ghost k: nat) returns (w: nat)
    requires Readable(s) && Counted(s) && Synced(V(s)) && RoomFor(s, k) && k >= 2
    requires Balanced(s.g, V(s), 0, 0, r) && FlagsBut(s.g, V(s), i, p, q)
    requires r != 0 ==> TreesRefs(s.g, V(s), r) >= 2
    modifies s`file, s`rt, s`rbCache, s`rbCacheOff, s`fci
    ensures Readable(s) && Counted(s) && Synced(V(s)) && RoomFor(s, k - 2)
    ensures SameViews(X(s), old(V(s)), V(s))
    ensures w != 0 && w != r && Refs(s.g, V(s), w) == 0
    ensures Balanced(s.g, V(s), w, 1, r) && FlagsBut(s.g, V(s), i, p, q)
    ensures forall y :: TreesRefs(s.g, V(s), y) == old(TreesRefs(s.g, V(s), y))
    ensures forall y :: old(TreesRefs(s.g, V(s), y)) >= 1 ==> SameAt(old(s.file), s.file, y)
  {
    ghost var v := V(s);
    BalancedCovers(s.g, v, 0, 0, r);
    w := Grab(s, 1, i, p, q, k);
    GrabBalanced(s.g, v, V(s), w, 1, r);
    assert InRun(w, w, 1);
  }

  /** Allocates a table for slot i, after the reference to a shared table has been given up. */
  method AllocateL2(s: BDRVQcowState, i: nat, ghost k: nat) returns (slot: nat)
    requires Readable(s) && Counted(s) && Synced(V(s)) && s.crypt.Invertible() && RoomFor(s, k) && k >= 2
    requires i < |s.l1| && Balanced(s.g, V(s), 0, 0, s.l1[i].cluster) && FlagsBut(s.g, V(s), i, -1, -1)
    requires s.l1[i].cluster != 0 ==> TreesRefs(s.g, V(s), s.l1[i].cluster) >= 2
    modifies s`file, s`l1, s`l2Keys, s`l2Hits, s`l2Cache, s`rt, s`rbCache, s`rbCacheOff, s`fci
    ensures Valid(s) && SameViews(X(s), old(V(s)), V(s)) && RoomFor(s, k - 2)
    ensures |s.l1| == old(|s.l1|) && HoldsL2(s, i, slot)
  {
    hide View, Struct, Balanced, FlagsBut, Refs, TreesRefs, Synced, Room, Sound, CacheOk, Counted, HoldsL2;
    ghost var v := V(s);
    var w := GrabCluster(s, s.l1[i].cluster, i, -1, -1, k);
    ghost var v1 := V(s);
    slot := InstallL2(s, i, w, k - 2);
    SameViewsTrans(X(s), v, v1, V(s));
  }

  method InstallL2(s: BDRVQcowState, i: nat, w: nat, ghost k: nat) returns (slot: nat)
    requires Readable(s) && Counted(s) && RoomFor(s, k) && Synced(V(s)) && s.crypt.Invertible()
    requires i < |s.l1| && w != 0 && Refs(s.g, V(s), w) == 0
    requires Balanced(s.g, V(s), w, 1, s.l1[i].cluster) && FlagsBut(s.g, V(s), i, -1, -1)
    requires s.l1[i].cluster != 0 ==> TreesRefs(s.g, V(s), s.l1[i].cluster) >= 2
    modifies s`file, s`l1, s`l2Keys, s`l2Hits, s`l2Cache
    ensures Valid(s) && SameViews(X(s), old(V(s)), V(s)) && RoomFor(s, k)
    ensures |s.l1| == old(|s.l1|) && HoldsL2(s, i, slot)
  {
    var t := StoreL2(s, i, w, k);
    slot := CacheL2(s, i, t);
  }

  /** Puts a freshly stored table into the least used cache slot. */
  method CacheL2(s: BDRVQcowState, i: nat, t: seq<Entry>) returns (slot: nat)
    requires Valid(s) && i < |s.l1| && OwnsL2(s.g, V(s), i, s.l1[i].cluster) && s.l1[i].cluster !in s.l2Keys
    requires IsTable(s.g, s.file, s.l1[i].cluster) && t == ReadTable(s.g, s.file, s.l1[i].cluster)
    modifies s`l2Keys, s`l2Hits, s`l2Cache
    ensures Valid(s) && HoldsL2(s, i, slot)
  {
    slot := L2CacheNewEntry(s.l2Hits);
    L2CacheInsert(s, slot, s.l1[i].cluster, t);
  }

  lemma {:induction false} SameViewsTrans(x: Ctx, v: Vol, v1: Vol, v2: Vol)
    requires x.g.Valid() && SameViews(x, v, v1) && SameViews(x, v1, v2)
    ensures SameViews(x, v, v2)
  {
    forall k, s | 0 <= k <= |v.snaps| ensures View(x, v2, k, s) == View(x, v, k, s) {
      assert View(x, v1, k, s) == View(x, v, k, s);
    }
  }

  /** Makes sure slot i has an unshared L2 table, and loads it into the cache. */
  method EnsureL2(s: BDRVQcowState, i: nat, ghost k: nat) returns (slot: nat)
    requires Valid(s) && RoomFor(s, k) && k >= 2 && i < |s.l1|
    modifies s`file, s`l1, s`l2Keys, s`l2Hits, s`l2Cache, s`rt, s`rbCache, s`rbCacheOff, s`fci
    ensures Valid(s) && SameViews(X(s), old(V(s)), V(s)) && RoomFor(s, k - 2)
    ensures |s.l1| == old(|s.l1|) && HoldsL2(s, i, slot)
  {
    hide View, Struct, FlagsBut, Balanced, Synced, Refs, TreesRefs, Room, IsTable, NamedOnlyAt, ReadTable;
    ghost var v := V(s);
    var e := s.l1[i];
    if e.cluster == 0 {
      FlagsWeakenL1(s.g, v, i);
      slot := AllocateL2(s, i, k);
    } else {
      SlotTable(s.g, v, i);
      ActiveFlag(s.g, v, i);
      FlagMeans(s.g, v, e);
      if !e.copied {
        NamedAtL1(s.g, v, i);
        slot := ReplaceL2(s, i, k);
      } else {
        slot := L2CacheLoad(s, e.cluster);
        RoomShrinks(s.g, s.file, s.rt, s.fci, k, k - 2);
      }
    }
  }

  lemma {:induction false} FlagsWeakenL1(g: Geo, v: Vol, i: int)
    requires g.Valid() && FlagsExact(g, v)
    ensures FlagsBut(g, v, i, -1, -1)
  {
  }

  lemma {:induction false} ActiveFlag(g: Geo, v: Vol, i: nat)
    requires g.Valid() && FlagsExact(g, v) && i < |v.l1|
    ensures FlagOk(g, v, v.l1[i])
  {
  }

  lemma {:induction false} NamedAtL1(g: Geo, v: Vol, i: nat)
    requires Struct(g, v) && i < |v.l1| && v.l1[i].cluster != 0
    ensures NamedOnlyAt(g, v, v.l1[i].cluster, i, -1, -1)
  {
    OnlyAtL1(g, v, i);
  }

  /** Gives up the shared table of slot i and allocates a copy of it. */
  method ReplaceL2(s: BDRVQcowState, i: nat, ghost k: nat) returns (slot: nat)
    requires Valid(s) && RoomFor(s, k) && k >= 2 && i < |s.l1| && s.l1[i].cluster != 0
    requires NamedOnlyAt(s.g, V(s), s.l1[i].cluster, i, -1, -1) && TreesRefs(s.g, V(s), s.l1[i].cluster) >= 2
    modifies s`file, s`l1, s`l2Keys, s`l2Hits, s`l2Cache, s`rt, s`rbCache, s`rbCacheOff, s`fci
    ensures Valid(s) && SameViews(X(s), old(V(s)), V(s)) && RoomFor(s, k - 2)
    ensures |s.l1| == old(|s.l1|) && HoldsL2(s, i, slot)
  {
    hide View, Struct, Sound, Balanced, FlagsBut, Synced, TreesRefs, Refs, CacheOk, Counted, Room, HoldsL2, HitsOk, NamedOnlyAt;
    ghost var v := V(s);
    Release(s, s.l1[i].cluster, i, -1, -1, k);
    ghost var v1 := V(s);
    slot := AllocateL2(s, i, k);
    SameViewsTrans(X(s), v, v1, V(s));
  }

  // ---------------------------------------------------------------- a data cluster of its own for guest cluster u

  /** Only cluster d, to which nothing refers, differs between v and v'. */
  ghost predicate FillsOnly(g: Geo, v: Vol, v': Vol, d: nat)
    requires g.Valid()
  {
    v' == v.(file := v'.file) && IsData(g, v'.file, d) && Refs(g, v, d) == 0 && forall y :: y != d ==> SameAt(v.file, v'.file, y)
  }

  /** Filling an unreferenced cluster changes no guest disk, reference, count or flag. */
  lemma {:induction false} Filled(x: Ctx, v: Vol, v': Vol, d: nat, keys: seq<nat>, cache: seq<seq<Entry>>)
    requires Struct(x.g, v) && FillsOnly(x.g, v, v', d) && CacheOk(x.g, v, keys, cache)
    ensures Struct(x.g, v') && SameViews(x, v, v') && CacheOk(x.g, v', keys, cache)
    ensures Synced(v) ==> Synced(v')
    ensures forall y :: Refs(x.g, v', y) == Refs(x.g, v, y) && VRC(x.g, v', y) == VRC(x.g, v, y)
    ensures forall y :: TreesRefs(x.g, v', y) == TreesRefs(x.g, v, y)
  {
    FreshWrite(x, v, v');
    CacheKept(x.g, v, v', keys, cache);
  }

  /** Sectors sec .. sec+n of the active image as they are stored. */
  ghost function Stored(x: Ctx, v: Vol, sec: nat, n: nat): (d: seq<Sector>)
    requires x.g.Valid()
    ensures |d| == n && forall k :: 0 <= k < n ==> d[k] == x.crypt.enc(sec + k, View(x, v, 0, sec + k))
  {
    seq<Sector>(n, k requires 0 <= k < n => x.crypt.enc(sec + k, View(x, v, 0, sec + k)))
  }

  /** Copies sectors n .. m of the guest cluster that starts at sector start into host cluster d.
      The nested read finds its L2 table in the cache, so the cache stays as it is. */
  method CopySectors(s: BDRVQcowState, start: nat, d: nat, n: nat, m: nat)
    requires Readable(s) && n <= m <= s.g.cs
    requires Rem(start, s.g.cs) == 0 && L2Of(s.g, s.l1, Quot(start, s.g.cs)) in s.l2Keys
    modifies s`l2Keys, s`l2Hits, s`l2Cache, s`file
    ensures HitsOk(s.l2Hits) && s.l2Keys == old(s.l2Keys) && s.l2Cache == old(s.l2Cache)
    ensures s.file == if n == m then old(s.file) else WriteSectors(s.g, old(s.file), d, n, Stored(X(s), old(V(s)), start + n, m - n))
  {
    hide Struct;
    if m <= n { return; }
    SectorInCluster(start, n, s.g.cs);
    var buf := QcowRead(s, start + n, m - n);
    var raw := EncryptSectors(s.crypt.enc, start + n, buf);
    assert raw == Stored(X(s), V(s), start + n, m - n);
    s.file := WriteSectors(s.g, s.file, d, n, raw);
  }

  /** In cluster d every guest sector outside n .. m of the cluster at start reads back as before. */
  ghost predicate CopiedAround(x: Ctx, v: Vol, f: File, start: nat, d: nat, n: nat, m: nat)
    requires x.g.Valid()
  {
    forall k :: 0 <= k < x.g.cs && !(n <= k < m) ==> x.crypt.dec(start + k, SectorAt(f, d, k)) == View(x, v, 0, start + k)
  }

  /** Prepares the allocated cluster d: whatever the caller will not write is copied. The first step
      only says that the stale bytes of the cluster are from now on seen as sectors. */
  method FillCluster(s: BDRVQcowState, start: nat, d: nat, n: nat, m: nat)
    requires Readable(s) && s.crypt.Invertible() && n < m <= s.g.cs && Refs(s.g, V(s), d) == 0
    requires Rem(start, s.g.cs) == 0 && L2Of(s.g, s.l1, Quot(start, s.g.cs)) in s.l2Keys
    modifies s`l2Keys, s`l2Hits, s`l2Cache, s`file
    ensures HitsOk(s.l2Hits) && s.l2Keys == old(s.l2Keys) && s.l2Cache == old(s.l2Cache)
    ensures FillsOnly(s.g, old(V(s)), V(s), d)
    ensures CopiedAround(X(s), old(V(s)), s.file, start, d, n, m)
  {
    hide Struct, View, Refs, TreesRefs, VRC, Synced, Stored, Quot, Rem, L2Of;
    ghost var v := V(s);
    s.file := WriteSectors(s.g, s.file, d, 0, []);
    if m - n < s.g.cs {
      ghost var v1 := V(s);
      Filled(X(s), v, v1, d, s.l2Keys, s.l2Cache);
      CopyAround(s, start, d, n, m);
      CopiedSame(X(s), v, v1, s.file, start, d, n, m);
      FillsAgain(s.g, v, v1, V(s), d);
    }
  }

  lemma {:induction false} CopiedSame(x: Ctx, v: Vol, v1: Vol, f: File, start: nat, d: nat, n: nat, m: nat)
    requires x.g.Valid() && SameViews(x, v, v1) && CopiedAround(x, v1, f, start, d, n, m)
    ensures CopiedAround(x, v, f, start, d, n, m)
  {
    hide View;
  }

  lemma {:induction false} FillsAgain(g: Geo, v: Vol, v1: Vol, v2: Vol, d: nat)
    requires g.Valid() && FillsOnly(g, v, v1, d) && FillsOnly(g, v1, v2, d)
    ensures FillsOnly(g, v, v2, d)
  {
    forall y | y != d ensures SameAt(v.file, v2.file, y) { assert SameAt(v.file, v1.file, y) && SameAt(v1.file, v2.file, y); }
  }

  method CopyAround(s: BDRVQcowState, start: nat, d: nat, n: nat, m: nat)
    requires Readable(s) && s.crypt.Invertible() && n < m <= s.g.cs && Refs(s.g, V(s), d) == 0 && IsData(s.g, s.file, d)
    requires Rem(start, s.g.cs) == 0 && L2Of(s.g, s.l1, Quot(start, s.g.cs)) in s.l2Keys
    modifies s`l2Keys, s`l2Hits, s`l2Cache, s`file
    ensures HitsOk(s.l2Hits) && s.l2Keys == old(s.l2Keys) && s.l2Cache == old(s.l2Cache)
    ensures FillsOnly(s.g, old(V(s)), V(s), d)
    ensures CopiedAround(X(s), old(V(s)), s.file, start, d, n, m)
  {
    hide Struct, View, Refs, TreesRefs, VRC, Synced, Stored, Quot, Rem, L2Of, CopiedAround;
    ghost var v1 := V(s);
    CopySectors(s, start, d, 0, n);
    ghost var v2 := V(s);
    Filled(X(s), v1, v2, d, s.l2Keys, s.l2Cache);
    CopySectors(s, start, d, m, s.g.cs);
    CopyBothSides(X(s), v1, v1, v2, s.file, start, d, n, m);
  }

  lemma {:induction false} CopyBothSides(x: Ctx, v: Vol, v1: Vol, v2: Vol, f: File, start: nat, d: nat, n: nat, m: nat)
    requires x.g.Valid() && x.crypt.Invertible() && n < m <= x.g.cs
    requires SameViews(x, v, v1) && SameViews(x, v, v2)
    requires IsData(x.g, v1.file, d)
    requires v2.file == if n == 0 then v1.file else WriteSectors(x.g, v1.file, d, 0, Stored(x, v1, start + 0, n))
    requires f == if m == x.g.cs then v2.file else WriteSectors(x.g, v2.file, d, m, Stored(x, v2, start + m, x.g.cs - m))
    ensures CopiedAround(x, v, f, start, d, n, m)
  {
    forall k | 0 <= k < x.g.cs && !(n <= k < m) ensures x.crypt.dec(start + k, SectorAt(f, d, k)) == View(x, v, 0, start + k) {
      if k < n {
        assert SectorAt(v2.file, d, k) == Stored(x, v1, start, n)[k];
        assert View(x, v1, 0, start + k) == View(x, v, 0, start + k);
      } else {
        assert SectorAt(f, d, k) == Stored(x, v2, start + m, x.g.cs - m)[k - m];
        assert View(x, v2, 0, start + k) == View(x, v, 0, start + k);
      }
    }
  }

  lemma {:induction false} EnteredData(x: Ctx, v: Vol, v': Vol, i: nat, j: nat, w: nat, d: nat, keys: seq<nat>, cache: seq<seq<Entry>>, slot: nat)
    requires Struct(x.g, v) && OwnsL2(x.g, v, i, w) && j < x.g.es && d != 0
    requires v' == v.(file := PutEntry(v.file, w, j, Entry(true, d)))
    requires IsData(x.g, v.file, d) && Refs(x.g, v, d) == 0
    requires Synced(v) && Balanced(x.g, v, d, 1, EntryAt(v.file, w, j).cluster)
    requires FlagsBut(x.g, v, -1, i, j) && EntryAt(v.file, w, j).cluster != d
    requires CacheOk(x.g, v, keys, cache) && slot < |keys| && keys[slot] == w
    ensures Sound(x.g, v')
    ensures CacheOk(x.g, v', keys, cache[slot := cache[slot][j := Entry(true, d)]])
    ensures OwnsData(x.g, v', GuestCluster(x.g, i, j), d)
  {
    hide Struct, Sound, Balanced, FlagsBut, Refs, TreesRefs, Synced, OwnsData, OwnsL2, CacheOk;
    OwnsL2Named(x.g, v, i, w);
    SetL2Sound(x, v, v', i, j, w, d);
    SetL2Basics(x.g, v, v', i, j, w, d);
    EnteredOwns(x.g, v, v', i, j, w, d);
    if EntryAt(v.file, w, j).cluster != 0 { OldEntryData(x.g, v, i, j, w); }
    EnteredCache(x.g, v, v', w, j, d, keys, cache, slot);
  }

  lemma {:induction false} OwnsL2Named(g: Geo, v: Vol, i: nat, w: nat)
    requires Struct(g, v) && OwnsL2(g, v, i, w)
    ensures g.Valid() && w != 0
  {
  }

  lemma {:induction false} OldEntryData(g: Geo, v: Vol, i: nat, j: nat, w: nat)
    requires Struct(g, v) && OwnsL2(g, v, i, w) && j < g.es && EntryAt(v.file, w, j).cluster != 0
    ensures IsData(g, v.file, EntryAt(v.file, w, j).cluster)
  {
    assert Roots(g, v)[0] == Erase(v.l1);
    assert TreeOk(g, v.file, Erase(v.l1));
    assert L2Ok(g, v.file, Erase(v.l1)[i]);
    assert L2Ptrs(g, v.file, w)[j] == EntryAt(v.file, w, j).cluster;
  }

  lemma {:induction false} EnteredOwns(g: Geo, v: Vol, v': Vol, i: nat, j: nat, w: nat, d: nat)
    requires Struct(g, v) && OwnsL2(g, v, i, w) && j < g.es && d != 0
    requires v' == v.(file := PutEntry(v.file, w, j, Entry(true, d)))
    requires IsData(g, v.file, d) && Refs(g, v, d) == 0 && EntryAt(v.file, w, j).cluster != d
    ensures OwnsData(g, v', GuestCluster(g, i, j), d)
  {
    SetL2Basics(g, v, v', i, j, w, d);
    SetL2Refs(g, v, v', i, j, w, d, d);
    DivExact(i, g.es, j);
    assert Erase(v.l1)[i] == w;
    assert L2Ptrs(g, v'.file, w)[j] == d;
  }

  lemma {:induction false} CacheSlots(g: Geo, v: Vol, keys: seq<nat>, cache: seq<seq<Entry>>, slot: nat)
    requires g.Valid() && CacheOk(g, v, keys, cache) && slot < |keys| && keys[slot] != 0
    ensures |cache| == |keys| && |cache[slot]| == g.es
  {
  }

  /** The cache slot of the changed table is changed in the same way. */
  lemma {:induction false} EnteredCache(g: Geo, v: Vol, v': Vol, w: nat, j: nat, d: nat, keys: seq<nat>, cache: seq<seq<Entry>>, slot: nat)
    requires g.Valid() && IsTable(g, v.file, w) && IsTable(g, v'.file, w) && j < g.es
    requires v' == v.(file := PutEntry(v.file, w, j, Entry(true, d)))
    requires CacheOk(g, v, keys, cache) && slot < |keys| && keys[slot] == w && w != 0
    requires EntryAt(v.file, w, j).cluster != 0 ==> IsData(g, v.file, EntryAt(v.file, w, j).cluster)
    requires forall y :: TreesRefs(g, v, y) >= 1 && y != EntryAt(v.file, w, j).cluster ==> TreesRefs(g, v', y) >= 1
    ensures CacheOk(g, v', keys, cache[slot := cache[slot][j := Entry(true, d)]])
  {
    hide TreesRefs;
    var t := cache[slot][j := Entry(true, d)];
    var cache' := cache[slot := t];
    forall k | 0 <= k < |keys| && keys[k] != 0
      ensures IsTable(g, v'.file, keys[k]) && cache'[k] == ReadTable(g, v'.file, keys[k]) && TreesRefs(g, v', keys[k]) >= 1
    {
      if k == slot {
        assert ReadTable(g, v'.file, w) == t;
      } else {
        assert keys[k] != w;
        assert SameAt(v.file, v'.file, keys[k]);
        assert ReadTable(g, v'.file, keys[k]) == ReadTable(g, v.file, keys[k]);
      }
    }
  }

  /** Enters data cluster d in slot (i, j), in the cache and in the file. */
  method StoreEntry(s: BDRVQcowState, slot: nat, i: nat, j: nat, d: nat, ghost k: nat)
    requires Readable(s) && Counted(s) && Synced(V(s)) && s.crypt.Invertible() && RoomFor(s, k)
    requires HoldsL2(s, i, slot) && j < s.g.es && d != 0
    requires IsData(s.g, s.file, d) && Refs(s.g, V(s), d) == 0
    requires
      var o := EntryAt(s.file, s.l1[i].cluster, j).cluster;
      o != d && Balanced(s.g, V(s), d, 1, o) && FlagsBut(s.g, V(s), -1, i, j)
    modifies s`file, s`l2Cache
    ensures Valid(s) && RoomFor(s, k)
    ensures OwnsData(s.g, V(s), GuestCluster(s.g, i, j), d)
    ensures V(s) == old(V(s)).(file := s.file) && s.file == PutEntry(old(s.file), s.l1[i].cluster, j, Entry(true, d))
  {
    hide View, Struct, FlagsExact, FlagsBut, Balanced, Synced, Refs, TreesRefs, TableShape, OwnedCounted, BlockCacheOk, ScanOk, CacheOk, RC, PutEntry, IsData, OwnsData, HitsOk;
    ghost var v := V(s);
    CacheSlots(s.g, v, s.l2Keys, s.l2Cache, slot);
    var w := s.l1[i].cluster;
    s.l2Cache := s.l2Cache[slot := s.l2Cache[slot][j := Entry(true, d)]];
    s.file := PutEntry(s.file, w, j, Entry(true, d));
    EnteredData(X(s), v, V(s), i, j, w, d, s.l2Keys, old(s.l2Cache), slot);
    EnteredCounts(s.g, v, V(s), i, j, w, d, s.rbCacheOff, s.rbCache);
  }

  lemma {:induction false} EnteredCounts(g: Geo, v: Vol, v': Vol, i: nat, j: nat, w: nat, d: nat, off: nat, cache: seq<nat>)
    requires Struct(g, v) && OwnsL2(g, v, i, w) && j < g.es && d != 0
    requires v' == v.(file := PutEntry(v.file, w, j, Entry(true, d)))
    requires OwnedCounted(g, v.file, v.rt, v.rtOff) && BlockCacheOk(g, v.file, v.rt, off, cache)
    ensures TableShape(g, v'.file, v'.rt, v'.rtOff)
    ensures OwnedCounted(g, v'.file, v'.rt, v'.rtOff) && BlockCacheOk(g, v'.file, v'.rt, off, cache)
    ensures forall y :: RC(g, v'.file, v'.rt, y) == RC(g, v.file, v.rt, y)
  {
    SetL2Basics(g, v, v', i, j, w, d);
    SetL2Meta(g, v, v', w);
    forall y ensures RC(g, v'.file, v'.rt, y) == RC(g, v.file, v.rt, y) {
      assert VRC(g, v', y) == VRC(g, v, y);
    }
    OccBlock(v.rt, w);
  }

  /** All guest sectors read as before except n .. m of the active image's cluster u. */
  ghost predicate SameViewsBut(x: Ctx, v: Vol, v': Vol, u: nat, n: nat, m: nat)
    requires x.g.Valid()
  {
    && |v'.snaps| == |v.snaps|
    && forall k, s :: 0 <= k <= |v.snaps| && !(k == 0 && Quot(s, x.g.cs) == u && n <= Rem(s, x.g.cs) < m) ==>
         View(x, v', k, s) == View(x, v, k, s)
  }

  lemma {:induction false} EnteredViews(x: Ctx, v0: Vol, v: Vol, v': Vol, i: nat, j: nat, w: nat, d: nat, start: nat, n: nat, m: nat)
    requires Struct(x.g, v) && OwnsL2(x.g, v, i, w) && j < x.g.es && d != 0
    requires v' == v.(file := PutEntry(v.file, w, j, Entry(true, d)))
    requires IsData(x.g, v.file, d)
    requires SameViews(x, v0, v) && CopiedAround(x, v0, v.file, start, d, n, m)
    requires Rem(start, x.g.cs) == 0 && Quot(start, x.g.cs) == GuestCluster(x.g, i, j)
    ensures SameViewsBut(x, v0, v', GuestCluster(x.g, i, j), n, m)
  {
    hide View, Struct, OwnsL2, PutEntry, IsData, Quot, Rem;
    assert x.g.Valid() by { OwnsL2Named(x.g, v, i, w); }
    var u := GuestCluster(x.g, i, j);
    forall k, s | 0 <= k <= |v0.snaps| && !(k == 0 && Quot(s, x.g.cs) == u && n <= Rem(s, x.g.cs) < m)
      ensures View(x, v', k, s) == View(x, v0, k, s)
    {
      SetL2Views(x, v, v', i, j, w, d, k, s);
      assert View(x, v, k, s) == View(x, v0, k, s);
      if k == 0 && Quot(s, x.g.cs) == u {
        QuotRem(s, x.g.cs);
        QuotRem(start, x.g.cs);
        assert s == start + Rem(s, x.g.cs);
      }
    }
  }

  lemma {:induction false} FlagsFilled(x: Ctx, v: Vol, v': Vol, d: nat, i: int, p: int, q: int)
    requires Struct(x.g, v) && FillsOnly(x.g, v, v', d) && FlagsBut(x.g, v, i, p, q)
    requires forall y :: VRC(x.g, v', y) == VRC(x.g, v, y)
    ensures FlagsBut(x.g, v', i, p, q)
  {
    forall k | 0 <= k < |v.l1| && v.l1[k].cluster != 0 ensures SameAt(v.file, v'.file, v.l1[k].cluster) {
      ActiveRef(x.g, v, k, 0);
    }
    FlagsCarry(x.g, v, v', i, p, q);
  }

  lemma {:induction false} BalancedFilled(g: Geo, v: Vol, v': Vol, a: nat, n: nat, r: nat)
    requires g.Valid() && Balanced(g, v, a, n, r)
    requires forall y :: VRC(g, v', y) == VRC(g, v, y) && Refs(g, v', y) == Refs(g, v, y)
    ensures Balanced(g, v', a, n, r)
  {
    forall y ensures VRC(g, v', y) + One(r != 0 && y == r) == Refs(g, v', y) + One(InRun(y, a, n)) {
      assert VRC(g, v, y) == VRC(g, v', y);
    }
  }

  /** The allocated cluster d is filled and keeps the state of the image. */
  method PrepareData(s: BDRVQcowState, slot: nat, i: nat, j: nat, start: nat, d: nat, n: nat, m: nat, ghost k: nat)
    requires Readable(s) && Counted(s) && Synced(V(s)) && s.crypt.Invertible() && RoomFor(s, k)
    requires HoldsL2(s, i, slot) && j < s.g.es && d != 0 && n < m <= s.g.cs
    requires Rem(start, s.g.cs) == 0 && Quot(start, s.g.cs) == GuestCluster(s.g, i, j)
    requires Refs(s.g, V(s), d) == 0
    requires
      var o := EntryAt(s.file, s.l1[i].cluster, j).cluster;
      o != d && Balanced(s.g, V(s), d, 1, o) && FlagsBut(s.g, V(s), -1, i, j)
    modifies s`l2Keys, s`l2Hits, s`l2Cache, s`file
    ensures Readable(s) && Counted(s) && Synced(V(s)) && RoomFor(s, k)
    ensures HoldsL2(s, i, slot) && IsData(s.g, s.file, d) && Refs(s.g, V(s), d) == 0
    ensures
      var o := EntryAt(s.file, s.l1[i].cluster, j).cluster;
      o != d && Balanced(s.g, V(s), d, 1, o) && FlagsBut(s.g, V(s), -1, i, j)
    ensures V(s) == old(V(s)).(file := s.file)
    ensures SameViews(X(s), old(V(s)), V(s)) && CopiedAround(X(s), old(V(s)), s.file, start, d, n, m)
  {
    hide View, Struct, FlagsBut, Balanced, Synced, CopiedAround;
    ghost var v := V(s);
    DivExact(i, s.g.es, j);
    assert L2Of(s.g, s.l1, Quot(start, s.g.cs)) in s.l2Keys;
    FillCluster(s, start, d, n, m);
    Filled(X(s), v, V(s), d, s.l2Keys, s.l2Cache);
    FlagsFilled(X(s), v, V(s), d, -1, i, j);
    BalancedFilled(s.g, v, V(s), d, 1, EntryAt(v.file, s.l1[i].cluster, j).cluster);
    FilledCounts(s.g, v, V(s), d, s.rbCacheOff, s.rbCache);
  }

  lemma {:induction false} FilledCounts(g: Geo, v: Vol, v': Vol, d: nat, off: nat, cache: seq<nat>)
    requires Struct(g, v) && FillsOnly(g, v, v', d)
    requires OwnedCounted(g, v.file, v.rt, v.rtOff) && BlockCacheOk(g, v.file, v.rt, off, cache)
    ensures TableShape(g, v'.file, v'.rt, v'.rtOff)
    ensures OwnedCounted(g, v'.file, v'.rt, v'.rtOff) && BlockCacheOk(g, v'.file, v'.rt, off, cache)
    ensures forall y :: RC(g, v'.file, v'.rt, y) == RC(g, v.file, v.rt, y)
  {
    OccBlock(v.rt, d);
    OccBlock(v.rt, off);
    ShapeFrame(g, v.file, v'.file, v.rt, v.rtOff);
    assert off != d ==> SameAt(v.file, v'.file, off);
  }

  /** Allocates, fills and enters a data cluster for slot (i, j). */
  method AllocateData(s: BDRVQcowState, slot: nat, i: nat, j: nat, start: nat, n: nat, m: nat, ghost k: nat) returns (d: nat)
    requires Readable(s) && Counted(s) && Synced(V(s)) && s.crypt.Invertible() && RoomFor(s, k) && k >= 2
    requires HoldsL2(s, i, slot) && j < s.g.es && n < m <= s.g.cs
    requires Rem(start, s.g.cs) == 0 && Quot(start, s.g.cs) == GuestCluster(s.g, i, j)
    requires
      var o := EntryAt(s.file, s.l1[i].cluster, j).cluster;
      && Balanced(s.g, V(s), 0, 0, o) && FlagsBut(s.g, V(s), -1, i, j) && (o != 0 ==> TreesRefs(s.g, V(s), o) >= 2)
    modifies s`file, s`l2Keys, s`l2Hits, s`l2Cache, s`rt, s`rbCache, s`rbCacheOff, s`fci
    ensures Valid(s) && RoomFor(s, k - 2)
    ensures OwnsData(s.g, V(s), GuestCluster(s.g, i, j), d)
    ensures SameViewsBut(X(s), old(V(s)), V(s), GuestCluster(s.g, i, j), n, m)
  {
    hide View, Struct, FlagsBut, Balanced, Synced, CopiedAround, Refs, TreesRefs, CacheOk, Counted, Room, Sound, SameViewsBut, OwnsData, Quot, Rem, HitsOk;
    ghost var v := V(s);
    ghost var w := s.l1[i].cluster;
    ghost var o := EntryAt(s.file, w, j).cluster;
    d := GrabCluster(s, o, -1, i, j, k);
    assert SameAt(v.file, s.file, w);
    ghost var v1 := V(s);
    PrepareData(s, slot, i, j, start, d, n, m, k - 2);
    ghost var v2 := V(s);
    StoreEntry(s, slot, i, j, d, k - 2);
    EnteredViews(X(s), v1, v2, V(s), i, j, w, d, start, n, m);
    ViewsButAfter(X(s), v, v1, V(s), GuestCluster(s.g, i, j), n, m);
  }

  lemma {:induction false} ViewsButAfter(x: Ctx, v: Vol, v1: Vol, v2: Vol, u: nat, n: nat, m: nat)
    requires x.g.Valid() && SameViews(x, v, v1) && SameViewsBut(x, v1, v2, u, n, m)
    ensures SameViewsBut(x, v, v2, u, n, m)
  {
    forall k, s | 0 <= k <= |v.snaps| && !(k == 0 && Quot(s, x.g.cs) == u && n <= Rem(s, x.g.cs) < m)
      ensures View(x, v2, k, s) == View(x, v, k, s)
    {
      hide View;
      assert View(x, v1, k, s) == View(x, v, k, s);
    }
  }

  lemma {:induction false} SlotEntry(g: Geo, v: Vol, i: nat, j: nat)
    requires Sound(g, v) && i < |v.l1| && v.l1[i].cluster != 0 && j < g.es
    requires EntryAt(v.file, v.l1[i].cluster, j).cluster != 0
    ensures
      var e := EntryAt(v.file, v.l1[i].cluster, j);
      && (if e.copied then TreesRefs(g, v, e.cluster) == 1 else TreesRefs(g, v, e.cluster) >= 2)
      && NamedOnlyAt(g, v, e.cluster, -1, i, j)
      && Lookup(g, v.file, Erase(v.l1), GuestCluster(g, i, j)) == e.cluster
  {
    var e := EntryAt(v.file, v.l1[i].cluster, j);
    hide View, Balanced, Synced, VRC, TreesRefs, TableShape, RootsOk, Exclusive, Injective, L1Stored, SnapsTyped;
    ActiveRef(g, v, i, j);
    assert FlagOk(g, v, e);
    FlagMeans(g, v, e);
    OnlyAtL2(g, v, i, j);
    DivExact(i, g.es, j);
  }

  /** Makes sure guest cluster (i, j) has an unshared data cluster. */
  method EnsureData(s: BDRVQcowState, slot: nat, i: nat, j: nat, start: nat, n: nat, m: nat, ghost k: nat) returns (d: nat)
    requires Valid(s) && RoomFor(s, k) && k >= 2
    requires HoldsL2(s, i, slot) && j < s.g.es && n < m <= s.g.cs
    requires Rem(start, s.g.cs) == 0 && Quot(start, s.g.cs) == GuestCluster(s.g, i, j)
    modifies s`file, s`l2Keys, s`l2Hits, s`l2Cache, s`rt, s`rbCache, s`rbCacheOff, s`fci
    ensures Valid(s) && RoomFor(s, k - 2)
    ensures OwnsData(s.g, V(s), GuestCluster(s.g, i, j), d)
    ensures SameViewsBut(X(s), old(V(s)), V(s), GuestCluster(s.g, i, j), n, m)
  {
    hide View, Struct, FlagsBut, Balanced, Synced, SameViewsBut, Refs, TreesRefs, Room, Quot, Rem;
    ghost var v := V(s);
    var e := s.l2Cache[slot][j];
    assert e == EntryAt(s.file, s.l1[i].cluster, j);
    if e.cluster == 0 {
      FlagsWeaken(s.g, v, i, j);
      d := AllocateData(s, slot, i, j, start, n, m, k);
    } else {
      SlotEntry(s.g, v, i, j);
      if !e.copied {
        Release(s, e.cluster, -1, i, j, k);
        assert SameAt(v.file, s.file, s.l1[i].cluster);
        ghost var v1 := V(s);
        d := AllocateData(s, slot, i, j, start, n, m, k);
        ViewsButAfter(X(s), v, v1, V(s), GuestCluster(s.g, i, j), n, m);
      } else {
        d := e.cluster;
        ViewsButNone(X(s), v, GuestCluster(s.g, i, j), n, m);
        RoomShrinks(s.g, s.file, s.rt, s.fci, k, k - 2);
      }
    }
  }

  lemma {:induction false} ViewsButNone(x: Ctx, v: Vol, u: nat, n: nat, m: nat)
    requires x.g.Valid()
    ensures SameViewsBut(x, v, v, u, n, m)
  {
  }

  lemma {:induction false} RoomShrinks(g: Geo, f: File, rt: seq<nat>, fci: nat, k: nat, m: nat)
    requires g.Valid() && Room(g, f, rt, fci, k) && m <= k
    ensures Room(g, f, rt, fci, m)
  {
  }

  lemma {:induction false} FlagsWeaken(g: Geo, v: Vol, p: int, q: int)
    requires g.Valid() && FlagsExact(g, v)
    ensures FlagsBut(g, v, -1, p, q)
  {
  }
}
