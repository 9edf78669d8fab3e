/** The invariant of an open image, the L2 cache, and allocation seen from the image. */
module Qcow2Image {
  import opened Division
  import opened Qcow2Layout
  import opened Qcow2Trees
  import opened Qcow2Counts
  import opened Qcow2Volume
  import opened Qcow2Steps
  import opened Qcow2State
  import opened Qcow2Refcount

  const MAX_HITS: nat := 0xffffffff

  /** Clusters taken by n bytes; a cluster has es 8-byte entries. */
  function ByteClusters(g: Geo, n: nat): nat
    requires g.es > 0
  {
    Quot(n + 8 * g.es - 1, 8 * g.es)
  }

  ghost function V(s: BDRVQcowState): Vol
    requires s.g.es > 0
    reads s
  {
    Vol(s.file, s.l1, s.l1Off, s.snaps, s.snapOff, ByteClusters(s.g, s.snapSize), s.rt, s.rtOff)
  }

  ghost function X(s: BDRVQcowState): Ctx
  {
    Ctx(s.g, s.backing, s.crypt)
  }

  /** Every used slot holds the L2 table its key names, keys are distinct, and a key names a table
      that is still referenced, so its cluster cannot be handed out again. */
  ghost predicate CacheOk(g: Geo, v: Vol, keys: seq<nat>, cache: seq<seq<Entry>>)
    requires g.Valid()
  {
    && |keys| == |cache| == L2_CACHE_SIZE
    && (forall k :: 0 <= k < |keys| && keys[k] != 0 ==>
          IsTable(g, v.file, keys[k]) && cache[k] == ReadTable(g, v.file, keys[k]) && TreesRefs(g, v, keys[k]) >= 1)
    && (forall k, m :: 0 <= k < m < |keys| && keys[k] != 0 ==> keys[k] != keys[m])
  }

  ghost predicate HitsOk(hits: seq<nat>)
  {
    |hits| == L2_CACHE_SIZE && forall k :: 0 <= k < |hits| ==> hits[k] < MAX_HITS
  }

  /** The image can be read: the trees are in order and the cache agrees with the file. */
  ghost predicate Readable(s: BDRVQcowState)
    reads s
  {
    s.g.Valid() && Struct(s.g, V(s)) && CacheOk(s.g, V(s), s.l2Keys, s.l2Cache) && HitsOk(s.l2Hits)
  }

  ghost predicate Counted(s: BDRVQcowState)
    reads s
  {
    CountState(s) && OwnedCounted(s.g, s.file, s.rt, s.rtOff) && ScanOk(s.g, s.rt, s.fci)
  }

  /** What every completed operation keeps. */
  ghost predicate Valid(s: BDRVQcowState)
    reads s
  {
    Readable(s) && Counted(s) && Sound(s.g, V(s)) && s.crypt.Invertible()
  }

  // ---------------------------------------------------------------- L2 cache

  lemma {:induction false} CacheKept(g: Geo, v: Vol, v': Vol, keys: seq<nat>, cache: seq<seq<Entry>>)
    requires g.Valid() && CacheOk(g, v, keys, cache)
    requires forall y :: TreesRefs(g, v, y) >= 1 && y in keys ==> SameAt(v.file, v'.file, y) && TreesRefs(g, v', y) >= 1
    ensures CacheOk(g, v', keys, cache)
  {
    forall k | 0 <= k < |keys| && keys[k] != 0
      ensures IsTable(g, v'.file, keys[k]) && cache[k] == ReadTable(g, v'.file, keys[k]) && TreesRefs(g, v', keys[k]) >= 1
    {
      assert keys[k] in keys;
      assert SameAt(v.file, v'.file, keys[k]);
      assert ReadTable(g, v'.file, keys[k]) == ReadTable(g, v.file, keys[k]);
    }
  }

  method L2CacheReset(s: BDRVQcowState)
    requires s.g.Valid()
    modifies s`l2Keys, s`l2Hits, s`l2Cache
    ensures CacheOk(s.g, V(s), s.l2Keys, s.l2Cache) && HitsOk(s.l2Hits)
    ensures forall k :: 0 <= k < |s.l2Keys| ==> s.l2Keys[k] == 0
  {
    s.l2Cache := seq(L2_CACHE_SIZE, _ => seq(s.g.es, _ => ZERO));
    s.l2Keys := seq(L2_CACHE_SIZE, _ => 0);
    s.l2Hits := seq(L2_CACHE_SIZE, _ => 0);
  }

  /** The slot to evict has the least hits of all. */
  method L2CacheNewEntry(hits: seq<nat>) returns (k: nat)
    requires HitsOk(hits)
    ensures k < |hits| && forall m :: 0 <= m < |hits| ==> hits[k] <= hits[m]
  {
    k := 0;
    var least := MAX_HITS;
    for i := 0 to L2_CACHE_SIZE
      invariant k < |hits| && least == (if i == 0 then MAX_HITS else hits[k])
      invariant forall m :: 0 <= m < i ==> least <= hits[m]
    {
      if hits[i] < least {
        least := hits[i];
        k := i;
      }
    }
  }

  /** Counts a hit; when the counter is full, all counters are halved. */
  method L2CacheHit(hits: seq<nat>, k: nat) returns (hits': seq<nat>)
    requires HitsOk(hits) && k < |hits|
    ensures HitsOk(hits')
    ensures forall m :: 0 <= m < |hits| ==>
              hits'[m] == if hits[k] + 1 == MAX_HITS then hits[k := MAX_HITS][m] / 2 else hits[k := hits[k] + 1][m]
  {
    hits' := hits[k := hits[k] + 1];
    if hits'[k] == MAX_HITS {
      ghost var full := hits';
      for j := 0 to L2_CACHE_SIZE
        invariant |hits'| == |full|
        invariant forall m :: 0 <= m < j ==> hits'[m] == full[m] / 2
        invariant forall m :: j <= m < |full| ==> hits'[m] == full[m]
      {
        hits' := hits'[j := hits'[j] / 2];
      }
    }
  }

  /** Makes slot k hold the L2 table at off. A table that is cached already stays where it is. */
  method L2CacheLoad(s: BDRVQcowState, off: nat) returns (k: nat)
    requires Readable(s) && off != 0 && IsTable(s.g, s.file, off) && TreesRefs(s.g, V(s), off) >= 1
    modifies s`l2Keys, s`l2Hits, s`l2Cache
    ensures Readable(s)
    ensures k < L2_CACHE_SIZE && s.l2Keys[k] == off
    ensures off in old(s.l2Keys) ==> s.l2Keys == old(s.l2Keys) && s.l2Cache == old(s.l2Cache)
  {
    for i := 0 to L2_CACHE_SIZE
      invariant forall m :: 0 <= m < i ==> s.l2Keys[m] != off
      invariant s.l2Keys == old(s.l2Keys) && s.l2Cache == old(s.l2Cache) && s.l2Hits == old(s.l2Hits)
    {
      if s.l2Keys[i] == off {
        s.l2Hits := L2CacheHit(s.l2Hits, i);
        return i;
      }
    }
    k := L2CacheNewEntry(s.l2Hits);
    L2CacheInsert(s, k, off, ReadTable(s.g, s.file, off));
  }

  method L2CacheInsert(s: BDRVQcowState, k: nat, off: nat, t: seq<Entry>)
    requires Readable(s) && k < L2_CACHE_SIZE
    requires off != 0 && IsTable(s.g, s.file, off) && TreesRefs(s.g, V(s), off) >= 1 && t == ReadTable(s.g, s.file, off)
    requires off !in s.l2Keys
    modifies s`l2Keys, s`l2Hits, s`l2Cache
    ensures Readable(s)
    ensures s.l2Keys == old(s.l2Keys)[k := off] && s.l2Cache == old(s.l2Cache)[k := t]
  {
    s.l2Cache := s.l2Cache[k := t];
    s.l2Keys := s.l2Keys[k := off];
    s.l2Hits := s.l2Hits[k := 1];
  }

  // ---------------------------------------------------------------- allocation

  ghost predicate RoomFor(s: BDRVQcowState, k: nat)
    requires s.g.Valid()
    reads s
  {
    Room(s.g, s.file, s.rt, s.fci, k)
  }

  /** Gives up one reference to r in the counts; slot (i) or (p, q) still names r. */
  method Release(s: BDRVQcowState, r: nat, ghost i: int, ghost p: int, ghost q: int, ghost k: nat)
    requires Valid(s) && RoomFor(s, k)
    requires r != 0 && NamedOnlyAt(s.g, V(s), r, i, p, q)
    requires TreesRefs(s.g, V(s), r) >= 2
    modifies s`file, s`rt, s`rbCache, s`rbCacheOff, s`fci
    ensures Readable(s) && Counted(s) && RoomFor(s, k) && Synced(V(s))
    ensures SameViews(X(s), old(V(s)), V(s)) && Roots(s.g, V(s)) == old(Roots(s.g, V(s)))
    ensures Balanced(s.g, V(s), 0, 0, r) && FlagsBut(s.g, V(s), i, p, q)
    ensures forall y :: TreesRefs(s.g, V(s), y) == old(TreesRefs(s.g, V(s), y))
    ensures forall y :: old(TreesRefs(s.g, V(s), y)) >= 1 ==> SameAt(old(s.file), s.file, y)
    ensures Refs(s.g, V(s), r) >= 2
  {
    hide View, Struct, Balanced, FlagsExact, FlagsBut, Synced, TreesRefs, PlainRefs, Refs, CacheOk, OwnedCounted, TableShape, BlockCacheOk, ScanOk, Owned, RC, NamedOnlyAt, Room;
    ghost var v := V(s);
    SharedCounted(s.g, v, r);
    FreeClusters(s, r, 1);
    ghost var v' := V(s);
    Released(X(s), v, v', r, i, p, q);
    TreesArePlain(s.g, v);
    CacheKept(s.g, v, v', s.l2Keys, s.l2Cache);
    ScanLowered(s.g, s.file, s.rt, s.rtOff, old(s.fci), s.fci);
    RoomLowered(s.g, v.file, s.file, s.rt, old(s.fci), s.fci, r, 1, k);
    SharedStill(s.g, v', r);
  }

  lemma {:induction false} SharedCounted(g: Geo, v: Vol, r: nat)
    requires Sound(g, v) && TreesRefs(g, v, r) >= 2
    ensures r != 0 && !Owned(g, v.rt, v.rtOff, r) && RC(g, v.file, v.rt, r) >= 2
  {
    OccBlock(v.rt, r);
    assert MetaRefs(g, v, 0) >= 1;
    assert VRC(g, v, r) == Refs(g, v, r);
  }

  lemma {:induction false} SharedStill(g: Geo, v: Vol, r: nat)
    requires g.Valid() && TreesRefs(g, v, r) >= 2
    ensures Refs(g, v, r) >= 2
  {
  }

  lemma {:induction false} TreesArePlain(g: Geo, v: Vol)
    requires g.Valid()
    ensures forall y :: TreesRefs(g, v, y) >= 1 ==> PlainRefs(g, v, y) >= 1
  {
  }

  lemma {:induction false} ScanLowered(g: Geo, f: File, rt: seq<nat>, rtOff: nat, fci: nat, fci': nat)
    requires TableShape(g, f, rt, rtOff) && ScanOk(g, rt, fci) && fci' <= fci
    ensures ScanOk(g, rt, fci')
  {
    ScanDown(g, rt, fci, fci');
  }

  lemma {:induction false} RoomLowered(g: Geo, f: File, f': File, rt: seq<nat>, fci: nat, fci': nat, a: nat, n: nat, k: nat)
    requires g.Valid() && Room(g, f, rt, fci, k) && fci' <= fci
    requires forall y :: RC(g, f', rt, y) == RC(g, f, rt, y) - One(InRun(y, a, n))
    ensures Room(g, f', rt, fci', k)
  {
    forall y | y + k >= Capacity(g, rt) ensures RC(g, f', rt, y) == 0 { assert RC(g, f, rt, y) == 0; }
  }

  /** Allocates n clusters; what the image refers to is untouched. */
  method Grab(s: BDRVQcowState, n: nat, ghost i: int, ghost p: int, ghost q: int, ghost k: nat) returns (c: nat)
    requires Readable(s) && Counted(s) && RoomFor(s, k) && 1 <= n < s.g.epb && n + 1 <= k
    requires Covered(s.g, V(s)) && FlagsBut(s.g, V(s), i, p, q)
    modifies s`file, s`rt, s`rbCache, s`rbCacheOff, s`fci
    ensures Readable(s) && Counted(s) && RoomFor(s, k - (n + 1)) && (old(Synced(V(s))) ==> Synced(V(s)))
    ensures SameViews(X(s), old(V(s)), V(s)) && Roots(s.g, V(s)) == old(Roots(s.g, V(s)))
    ensures c > 0 && forall y :: InRun(y, c, n) ==> Refs(s.g, V(s), y) == 0 && old(Refs(s.g, V(s), y)) == 0
    ensures forall y :: VRC(s.g, V(s), y) + old(Refs(s.g, V(s), y)) ==
              Refs(s.g, V(s), y) + old(VRC(s.g, V(s), y)) + One(InRun(y, c, n))
    ensures FlagsBut(s.g, V(s), i, p, q)
    ensures |s.rt| == |old(s.rt)|
    ensures forall y :: TreesRefs(s.g, V(s), y) == old(TreesRefs(s.g, V(s), y))
    ensures forall y :: old(PlainRefs(s.g, V(s), y)) >= 1 ==> SameAt(old(s.file), s.file, y)
    ensures forall y :: Refs(s.g, V(s), y) >= old(Refs(s.g, V(s), y))
  {
    hide View, Struct, Covered, FlagsBut, Synced, TreesRefs, PlainRefs, Refs, CacheOk, OwnedCounted, TableShape, BlockCacheOk, ScanOk, Owned, RC, Room, NewTable;
    ghost var v := V(s);
    ghost var nb;
    c, nb := AllocClusters(s, n, k);
    ghost var v' := V(s);
    NewTableSize(v.rt, s.rt, nb);
    Allocated(X(s), v, v', c, n, nb, i, p, q);
    RunWasFree(s.g, v, c, n);
    TreesArePlain(s.g, v);
    CacheKept(s.g, v, v', s.l2Keys, s.l2Cache);
  }

  lemma {:induction false} NewTableSize(rt: seq<nat>, rt': seq<nat>, nb: nat)
    requires NewTable(rt, rt', nb)
    ensures |rt'| == |rt|
  {
  }

  lemma {:induction false} RunWasFree(g: Geo, v: Vol, c: nat, n: nat)
    requires g.Valid() && Covered(g, v) && forall y :: InRun(y, c, n) ==> RC(g, v.file, v.rt, y) == 0
    ensures forall y :: InRun(y, c, n) ==> Refs(g, v, y) == 0
  {
    forall y | InRun(y, c, n) ensures Refs(g, v, y) == 0 { assert VRC(g, v, y) == 0; }
  }
}
