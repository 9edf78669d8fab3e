/** Placing compressed chunks: several chunks share a cluster, each holding one reference to it. */
module Qcow2Compressed {
  import opened Division
  import opened Qcow2Layout
  import opened Qcow2Trees
  import opened Qcow2Counts
  import opened Qcow2State
  import opened Qcow2Refcount

  /** len bytes from byte pos of cluster c; it may run over into the next cluster. */
  datatype Chunk = Chunk(c: nat, pos: nat, len: nat)
  {
    predicate Valid(size: nat)
    {
      pos < size && 1 <= len <= size
    }
  }

  /** The bytes of cluster x that a chunk covers, from Lo to Hi. */
  function Lo(r: Chunk, x: nat): nat
  {
    if x == r.c then r.pos else 0
  }

  function Hi(size: nat, r: Chunk, x: nat): nat
  {
    if x == r.c then (if r.pos + r.len < size then r.pos + r.len else size)
    else if x == r.c + 1 && r.pos + r.len > size then r.pos + r.len - size
    else 0
  }

  predicate Touches(size: nat, r: Chunk, x: nat)
  {
    Lo(r, x) < Hi(size, r, x)
  }

  /** In no cluster do the two chunks cover a common byte. */
  ghost predicate Apart(size: nat, r: Chunk, q: Chunk)
  {
    forall x: nat :: Touches(size, r, x) && Touches(size, q, x) ==> Hi(size, r, x) <= Lo(q, x) || Hi(size, q, x) <= Lo(r, x)
  }

  ghost predicate AllApart(size: nat, rs: seq<Chunk>)
  {
    forall i, j :: 0 <= i < j < |rs| ==> Apart(size, rs[i], rs[j])
  }

  /** Cluster numbers a and b of clusters that start at byte p and q. */
  ghost predicate Starts(size: nat, a: nat, b: nat, p: nat, q: nat)
  {
    && (a == b ==> p == q) && (a + 1 == b ==> p + size == q) && (b + 1 == a ==> q + size == p)
    && (a + 1 < b ==> p + 2 * size <= q) && (b + 1 < a ==> q + 2 * size <= p)
  }

  lemma {:induction false} StartsAt(size: nat, a: nat, b: nat)
    ensures Starts(size, a, b, a * size, b * size)
  {
    if a < b { MulMono(if a + 1 < b then a + 2 else b, b, size); }
    if b < a { MulMono(if b + 1 < a then b + 2 else a, a, size); }
  }

  lemma {:induction false} ApartFrom(size: nat, r: Chunk, q: Chunk, a: nat, b: nat)
    requires r.Valid(size) && q.Valid(size) && Starts(size, r.c, q.c, a, b)
    ensures Apart(size, r, q) <==> a + r.pos + r.len <= b + q.pos || b + q.pos + q.len <= a + r.pos
  {
    assert Touches(size, r, r.c) && Touches(size, q, q.c);
    assert Touches(size, r, q.c) <==> q.c == r.c || (q.c == r.c + 1 && r.pos + r.len > size);
    assert Touches(size, q, r.c) <==> q.c == r.c || (r.c == q.c + 1 && q.pos + q.len > size);
  }

  /** In bytes of the file: chunks apart do not overlap, and a chunk touches the clusters that have a
      byte of it. */
  lemma {:induction false} ApartBytes(size: nat, r: Chunk, q: Chunk, x: nat)
    requires r.Valid(size) && q.Valid(size)
    ensures Apart(size, r, q) <==> r.c * size + r.pos + r.len <= q.c * size + q.pos || q.c * size + q.pos + q.len <= r.c * size + r.pos
    ensures Touches(size, r, x) <==> r.c * size + r.pos < x * size + size && x * size < r.c * size + r.pos + r.len
  {
    hide Apart;
    StartsAt(size, r.c, q.c);
    StartsAt(size, r.c, x);
    ApartFrom(size, r, q, r.c * size, q.c * size);
  }

  /** Chunks that touch cluster x. */
  ghost function Touching(size: nat, rs: seq<Chunk>, x: nat): nat
  {
    if rs == [] then 0 else Touching(size, rs[..|rs| - 1], x) + One(Touches(size, rs[|rs| - 1], x))
  }

  lemma {:induction false} TouchingAt(size: nat, rs: seq<Chunk>, i: nat, x: nat)
    requires i < |rs| && Touches(size, rs[i], x)
    ensures Touching(size, rs, x) >= 1
  {
    if i < |rs| - 1 { TouchingAt(size, rs[..|rs| - 1], i, x); }
  }

  lemma {:induction false} NoneTouches(size: nat, rs: seq<Chunk>, x: nat)
    requires Touching(size, rs, x) == 0
    ensures forall i :: 0 <= i < |rs| ==> !Touches(size, rs[i], x)
  {
    forall i | 0 <= i < |rs| ensures !Touches(size, rs[i], x) {
      if Touches(size, rs[i], x) { TouchingAt(size, rs, i, x); }
    }
  }

  lemma {:induction false} TouchingSnoc(size: nat, rs: seq<Chunk>, r: Chunk, x: nat)
    ensures Touching(size, rs + [r], x) == Touching(size, rs, x) + One(Touches(size, r, x))
  {
    assert (rs + [r])[..|rs|] == rs;
  }

  /** Chunks of a single byte. */
  ghost function Ones(rs: seq<Chunk>): nat
  {
    if rs == [] then 0 else Ones(rs[..|rs| - 1]) + One(rs[|rs| - 1].len == 1)
  }

  lemma {:induction false} OnesSnoc(rs: seq<Chunk>, r: Chunk)
    ensures Ones(rs + [r]) == Ones(rs) + One(r.len == 1)
  {
    assert (rs + [r])[..|rs|] == rs;
  }

  /** The chunks in the first fp bytes of cluster x are no more than those bytes, and about half as
      many unless they are single bytes. */
  ghost predicate Sparse(size: nat, rs: seq<Chunk>, x: nat, fp: nat)
  {
    Touching(size, rs, x) <= fp && 2 * Touching(size, rs, x) <= fp + 1 + Ones(rs)
  }

  /** It stays so when a chunk comes in behind the others, and so it begins with the first one. */
  lemma {:induction false} SparseSnoc(size: nat, rs: seq<Chunk>, r: Chunk, x: nat, fp: nat)
    requires r.Valid(size) && Touches(size, r, x) && Hi(size, r, x) == fp
    requires Touching(size, rs, x) != 0 ==> r.c == x && r.pos + r.len <= size && Sparse(size, rs, x, r.pos)
    ensures Sparse(size, rs + [r], x, fp)
  {
    TouchingSnoc(size, rs, r, x);
    OnesSnoc(rs, r);
  }

  /** A reference count block made after the counts were in table rt0. */
  ghost predicate MadeSince(rt0: seq<nat>, rt: seq<nat>, x: nat)
  {
    IsBlock(rt, x) && !IsBlock(rt0, x)
  }

  /** Since the counts were (f0, rt0), the chunks rs were placed, and cluster a (none if 0) was
      allocated for the next one: each chunk counts once in each cluster it touches, and so does
      each new count block in its own cluster, which no chunk touches. */
  ghost predicate Placed(g: Geo, size: nat, f0: File, rt0: seq<nat>, f: File, rt: seq<nat>, rs: seq<Chunk>, a: nat)
    requires g.Valid()
  {
    && AllApart(size, rs) && (forall i :: 0 <= i < |rs| ==> rs[i].Valid(size))
    && (forall x :: RC(g, f, rt, x) == RC(g, f0, rt0, x) + Touching(size, rs, x) + One(a != 0 && x == a) + One(MadeSince(rt0, rt, x)))
    && (forall x, i :: 0 <= i < |rs| && Touches(size, rs[i], x) ==> !MadeSince(rt0, rt, x))
    && (a != 0 ==> !MadeSince(rt0, rt, a)) && (forall x :: IsBlock(rt0, x) ==> IsBlock(rt, x))
  }

  /** The rest of cluster fc from fp on is unused, though the cluster is counted. */
  ghost predicate TailFree(g: Geo, size: nat, f0: File, rt0: seq<nat>, rt: seq<nat>, rs: seq<Chunk>, fc: nat, fp: nat)
    requires g.Valid()
  {
    fc != 0 ==>
      && 0 < fp < size && RC(g, f0, rt0, fc) == 0 && Touching(size, rs, fc) >= 1 && !MadeSince(rt0, rt, fc) && Sparse(size, rs, fc, fp)
      && forall i :: 0 <= i < |rs| && Touches(size, rs[i], fc) ==> Hi(size, rs[i], fc) <= fp
  }

  /** A chunk that keeps clear of the others joins them. */
  lemma {:induction false} PlaceChunk(g: Geo, size: nat, f0: File, rt0: seq<nat>, f: File, rt: seq<nat>, f': File, rs: seq<Chunk>, a: nat, r: Chunk)
    requires g.Valid() && Placed(g, size, f0, rt0, f, rt, rs, a) && r.Valid(size)
    requires forall i :: 0 <= i < |rs| ==> Apart(size, rs[i], r)
    requires forall x: nat :: RC(g, f', rt, x) + One(a != 0 && x == a) == RC(g, f, rt, x) + One(Touches(size, r, x))
    requires forall x: nat :: Touches(size, r, x) ==> !MadeSince(rt0, rt, x)
    ensures Placed(g, size, f0, rt0, f', rt, rs + [r], 0)
  {
    hide RC, Touches, Touching, MadeSince;
    forall x: nat ensures RC(g, f', rt, x) == RC(g, f0, rt0, x) + Touching(size, rs + [r], x) + One(MadeSince(rt0, rt, x)) { TouchingSnoc(size, rs, r, x); }
  }

  /** Nothing placed so far touches a cluster that had no references. */
  lemma {:induction false} FreshApart(g: Geo, size: nat, f0: File, rt0: seq<nat>, f: File, rt: seq<nat>, rs: seq<Chunk>, c: nat)
    requires g.Valid() && Placed(g, size, f0, rt0, f, rt, rs, 0) && RC(g, f, rt, c) == 0
    ensures forall i :: 0 <= i < |rs| ==> !Touches(size, rs[i], c)
  {
    hide RC;
    forall i | 0 <= i < |rs| ensures !Touches(size, rs[i], c) {
      if Touches(size, rs[i], c) { TouchingAt(size, rs, i, c); }
    }
  }

  // ---------------------------------------------------------------- allocation

  /** Counts, caches and scan position are in order, with k clusters of room. */
  ghost predicate CountsOk(s: BDRVQcowState, k: nat)
    reads s
  {
    s.g.Valid() && CountState(s) && OwnedCounted(s.g, s.file, s.rt, s.rtOff) && ScanOk(s.g, s.rt, s.fci) && Room(s.g, s.file, s.rt, s.fci, k)
  }

  ghost predicate AllocState(s: BDRVQcowState, size: nat, f0: File, rt0: seq<nat>, rs: seq<Chunk>, k: nat)
    reads s
  {
    && CountsOk(s, k) && size >= 2
    && Placed(s.g, size, f0, rt0, s.file, s.rt, rs, 0)
    && TailFree(s.g, size, f0, rt0, s.rt, rs, s.freeCluster, s.freePos)
  }

  /** The state while cluster a waits for its first chunk. */
  ghost predicate HoldsOne(s: BDRVQcowState, size: nat, f0: File, rt0: seq<nat>, rs: seq<Chunk>, a: nat, k: nat)
    reads s
  {
    && CountsOk(s, k) && size >= 2 && a != 0
    && Placed(s.g, size, f0, rt0, s.file, s.rt, rs, a)
    && TailFree(s.g, size, f0, rt0, s.rt, rs, s.freeCluster, s.freePos)
    && (s.freeCluster != 0 ==> s.freeCluster != a)
    && RC(s.g, f0, rt0, a) == 0 && Touching(size, rs, a) == 0
  }

  lemma {:induction false} BlocksAfter(g: Geo, f: File, rt: seq<nat>, rtOff: nat, rt0: seq<nat>, rt': seq<nat>, nb: nat)
    requires g.Valid() && OwnedCounted(g, f, rt, rtOff) && NewTable(rt, rt', nb)
    requires nb != 0 ==> RC(g, f, rt, nb) == 0
    requires forall x :: IsBlock(rt0, x) ==> IsBlock(rt, x)
    ensures forall x :: MadeSince(rt0, rt', x) <==> MadeSince(rt0, rt, x) || (nb != 0 && x == nb)
    ensures forall x :: IsBlock(rt0, x) ==> IsBlock(rt', x)
    ensures nb != 0 ==> !MadeSince(rt0, rt, nb)
  {
    hide RC;
    if nb != 0 {
      var k :| 0 <= k < |rt| && rt[k] == 0 && rt' == rt[k := nb];
      assert rt'[k] == nb;
      forall x ensures IsBlock(rt', x) <==> IsBlock(rt, x) || x == nb {
        if IsBlock(rt, x) { var j :| 0 <= j < |rt| && rt[j] == x; assert rt'[j] == x; }
      }
      assert !Owned(g, rt, rtOff, nb);
    }
  }

  /** The counts after a run c .. c+n was allocated: the run and perhaps a count block were free. */
  ghost predicate RunTaken(g: Geo, f: File, rt: seq<nat>, f': File, rt': seq<nat>, c: nat, n: nat, nb: nat)
    requires g.Valid()
  {
    && c > 0 && NewTable(rt, rt', nb) && (nb != 0 ==> !InRun(nb, c, n))
    && (forall x :: InRun(x, c, n) || (nb != 0 && x == nb) ==> RC(g, f, rt, x) == 0)
    && (forall x :: RC(g, f', rt', x) == RC(g, f, rt, x) + One(InRun(x, c, n)) + One(nb != 0 && x == nb))
  }

  /** What a taken run leaves of the old placement. */
  lemma {:induction false} RunClear(g: Geo, size: nat, f0: File, rt0: seq<nat>, f: File, rt: seq<nat>, rtOff: nat, f': File, rt': seq<nat>, rs: seq<Chunk>, c: nat, n: nat, nb: nat, fc: nat, fp: nat)
    requires g.Valid() && OwnedCounted(g, f, rt, rtOff) && RunTaken(g, f, rt, f', rt', c, n, nb)
    requires Placed(g, size, f0, rt0, f, rt, rs, 0) && TailFree(g, size, f0, rt0, rt, rs, fc, fp)
    ensures forall x :: RC(g, f', rt', x) == RC(g, f0, rt0, x) + Touching(size, rs, x) + One(InRun(x, c, n)) + One(MadeSince(rt0, rt', x))
    ensures forall x, i :: 0 <= i < |rs| && Touches(size, rs[i], x) ==> !MadeSince(rt0, rt', x) && !InRun(x, c, n)
    ensures forall x :: InRun(x, c, n) ==> !MadeSince(rt0, rt', x) && RC(g, f0, rt0, x) == 0 && Touching(size, rs, x) == 0
    ensures TailFree(g, size, f0, rt0, rt', rs, fc, fp) && (fc != 0 ==> !InRun(fc, c, n))
    ensures forall x :: IsBlock(rt0, x) ==> IsBlock(rt', x)
  {
    hide RC, Touches, Touching, MadeSince, OwnedCounted, NewTable, AllApart;
    BlocksAfter(g, f, rt, rtOff, rt0, rt', nb);
    forall x, i | 0 <= i < |rs| && Touches(size, rs[i], x) ensures !MadeSince(rt0, rt', x) && !InRun(x, c, n) {
      if RC(g, f, rt, x) == 0 { FreshApart(g, size, f0, rt0, f, rt, rs, x); }
    }
    forall x ensures InRun(x, c, n) ==> !MadeSince(rt0, rt', x) && RC(g, f0, rt0, x) == 0 && Touching(size, rs, x) == 0 {
      assert RC(g, f, rt, x) == RC(g, f0, rt0, x) + Touching(size, rs, x) + One(MadeSince(rt0, rt, x));
    }
  }

  /** A whole cluster, not yet used by a chunk. */
  method AllocOne(s: BDRVQcowState, size: nat, ghost f0: File, ghost rt0: seq<nat>, ghost rs: seq<Chunk>, ghost k: nat) returns (c: nat)
    requires AllocState(s, size, f0, rt0, rs, k) && k >= 2
    modifies s`file, s`rt, s`rbCache, s`rbCacheOff, s`fci
    ensures HoldsOne(s, size, f0, rt0, rs, c, k - 2) && c == old(NextFree(s.g, s.file, s.rt, s.fci))
  {
    hide RC, Touches, TableShape, OwnedCounted, BlockCacheOk, ScanOk, Room, Owned, AllApart, NewTable, TailFree;
    ghost var nb;
    ghost var f, rt := s.file, s.rt;
    c, nb := AllocClusters(s, 1, k);
    RunClear(s.g, size, f0, rt0, f, rt, s.rtOff, s.file, s.rt, rs, c, 1, nb, s.freeCluster, s.freePos);
    assert InRun(c, c, 1);
  }

  /** One more reference to a cluster that is counted already. */
  method AddRef(s: BDRVQcowState, c: nat, ghost k: nat)
    requires CountsOk(s, k) && 1 <= RC(s.g, s.file, s.rt, c) < MAX_COUNT
    modifies s`file, s`rt, s`rbCache, s`rbCacheOff, s`fci
    ensures CountsOk(s, k) && s.rt == old(s.rt)
    ensures forall x :: RC(s.g, s.file, s.rt, x) == RC(s.g, old(s.file), s.rt, x) + One(x == c)
  {
    CountedHasBlock(s.g, s.file, s.rt, c);
    var _, _ := UpdateClusterRefcount(s, c, 1);
  }

  lemma {:induction false} CountedHasBlock(g: Geo, f: File, rt: seq<nat>, c: nat)
    requires g.Valid() && RC(g, f, rt, c) >= 1
    ensures Quot(c, g.epb) < |rt| && rt[Quot(c, g.epb)] != 0
  {
  }

  lemma {:induction false} StartPlaced(g: Geo, size: nat, f0: File, rt0: seq<nat>, f: File, rt: seq<nat>, rs: seq<Chunk>, c: nat, n: nat)
    requires g.Valid() && 1 <= n <= size && c != 0 && Placed(g, size, f0, rt0, f, rt, rs, c)
    requires RC(g, f0, rt0, c) == 0 && Touching(size, rs, c) == 0
    ensures Placed(g, size, f0, rt0, f, rt, rs + [Chunk(c, 0, n)], 0)
    ensures n < size ==> TailFree(g, size, f0, rt0, rt, rs + [Chunk(c, 0, n)], c, n)
  {
    hide RC, MadeSince, Sparse;
    var r := Chunk(c, 0, n);
    NoneTouches(size, rs, c);
    assert forall x: nat :: Touches(size, r, x) <==> x == c;
    forall i | 0 <= i < |rs| ensures Apart(size, rs[i], r) {}
    PlaceChunk(g, size, f0, rt0, f, rt, f, rs, c, r);
    TouchingSnoc(size, rs, r, c);
    SparseSnoc(size, rs, r, c, n);
  }

  /** The first chunk of a fresh cluster: the allocation already counted it. */
  method PlaceAtStart(s: BDRVQcowState, size: nat, c: nat, n: nat, ghost f0: File, ghost rt0: seq<nat>, ghost rs: seq<Chunk>, ghost k: nat) returns (r: Chunk)
    requires HoldsOne(s, size, f0, rt0, rs, c, k) && 1 <= n <= size
    modifies s`freeCluster, s`freePos
    ensures r == Chunk(c, 0, n) && AllocState(s, size, f0, rt0, rs + [r], k)
    ensures if n < size then s.freeCluster == c && s.freePos == n else s.freeCluster == 0
  {
    hide TableShape, OwnedCounted, BlockCacheOk, ScanOk, Room, RC, AllApart, Apart, Placed;
    r := Chunk(c, 0, n);
    s.freeCluster, s.freePos := c, n;
    if s.freePos == size { s.freeCluster := 0; }
    StartPlaced(s.g, size, f0, rt0, s.file, s.rt, rs, c, n);
  }

  /** A chunk that starts in the free tail, and perhaps runs over into the fresh cluster after it,
      keeps clear of the others and ends behind them. */
  lemma {:induction false} TailApart(size: nat, rs: seq<Chunk>, fc: nat, fp: nat, n: nat)
    requires 0 < fp < size && 1 <= n <= size
    requires forall i :: 0 <= i < |rs| && Touches(size, rs[i], fc) ==> Hi(size, rs[i], fc) <= fp
    requires fp + n > size ==> forall i :: 0 <= i < |rs| ==> !Touches(size, rs[i], fc + 1)
    ensures forall i :: 0 <= i < |rs| ==> Apart(size, rs[i], Chunk(fc, fp, n))
    ensures forall x: nat :: Touches(size, Chunk(fc, fp, n), x) <==> x == fc || (fp + n > size && x == fc + 1)
  {
    var r := Chunk(fc, fp, n);
    assert forall x: nat :: Touches(size, r, x) <==> x == fc || (fp + n > size && x == fc + 1);
    forall i | 0 <= i < |rs| ensures Apart(size, rs[i], r) {}
  }

  lemma {:induction false} TailPlaced(g: Geo, size: nat, f0: File, rt0: seq<nat>, f: File, rt: seq<nat>, f': File, rs: seq<Chunk>, fc: nat, fp: nat, n: nat, a: nat)
    requires g.Valid() && 1 <= n <= size && fc != 0 && Placed(g, size, f0, rt0, f, rt, rs, a) && TailFree(g, size, f0, rt0, rt, rs, fc, fp)
    requires if fp + n <= size then a == 0 else a == fc + 1 && RC(g, f0, rt0, a) == 0 && Touching(size, rs, a) == 0
    requires forall x :: RC(g, f', rt, x) == RC(g, f, rt, x) + One(x == fc)
    ensures Placed(g, size, f0, rt0, f', rt, rs + [Chunk(fc, fp, n)], 0)
    ensures fp + n < size ==> TailFree(g, size, f0, rt0, rt, rs + [Chunk(fc, fp, n)], fc, fp + n)
    ensures fp + n > size ==> TailFree(g, size, f0, rt0, rt, rs + [Chunk(fc, fp, n)], fc + 1, fp + n - size)
  {
    hide RC, MadeSince, Sparse, Touches, Touching, Apart, AllApart;
    var r := Chunk(fc, fp, n);
    if a != 0 { NoneTouches(size, rs, a); }
    TailApart(size, rs, fc, fp, n);
    PlaceChunk(g, size, f0, rt0, f, rt, f', rs, a, r);
    if fp + n < size {
      TouchingSnoc(size, rs, r, fc);
      SparseSnoc(size, rs, r, fc, fp + n);
    } else if fp + n > size {
      TouchingSnoc(size, rs, r, a);
      SparseSnoc(size, rs, r, a, fp + n - size);
    }
  }

  lemma {:induction false} TailCounted(s: BDRVQcowState, size: nat, f0: File, rt0: seq<nat>, rs: seq<Chunk>, k: nat)
    requires AllocState(s, size, f0, rt0, rs, k) && s.freeCluster != 0
    ensures RC(s.g, s.file, s.rt, s.freeCluster) == Touching(size, rs, s.freeCluster) >= 1
  {
    hide RC, Touching, Touches, MadeSince, AllApart, Sparse;
  }

  method PlaceInTail(s: BDRVQcowState, size: nat, n: nat, ghost f0: File, ghost rt0: seq<nat>, ghost rs: seq<Chunk>, ghost k: nat) returns (r: Chunk)
    requires AllocState(s, size, f0, rt0, rs, k) && 1 <= n && s.freeCluster != 0 && n <= size - s.freePos
    requires RC(s.g, s.file, s.rt, s.freeCluster) < MAX_COUNT
    modifies s`file, s`rt, s`rbCache, s`rbCacheOff, s`fci, s`freeCluster, s`freePos
    ensures r == Chunk(old(s.freeCluster), old(s.freePos), n) && AllocState(s, size, f0, rt0, rs + [r], k)
    ensures if r.pos + n < size then s.freeCluster == r.c && s.freePos == r.pos + n else s.freeCluster == 0
  {
    hide TableShape, OwnedCounted, BlockCacheOk, ScanOk, Placed, Touches, RC, Room;
    ghost var f := s.file;
    r := Chunk(s.freeCluster, s.freePos, n);
    TailCounted(s, size, f0, rt0, rs, k);
    AddRef(s, r.c, k);
    TailPlaced(s.g, size, f0, rt0, f, s.rt, s.file, rs, r.c, r.pos, n, 0);
    s.freePos := s.freePos + n;
    if s.freePos == size { s.freeCluster := 0; }
  }

  method PlaceAcross(s: BDRVQcowState, size: nat, n: nat, ghost f0: File, ghost rt0: seq<nat>, ghost rs: seq<Chunk>, ghost k: nat) returns (r: Chunk)
    requires AllocState(s, size, f0, rt0, rs, k) && k >= 2 && n <= size && s.freeCluster != 0 && n > size - s.freePos
    requires RC(s.g, s.file, s.rt, s.freeCluster) < MAX_COUNT
    modifies s`file, s`rt, s`rbCache, s`rbCacheOff, s`fci, s`freeCluster, s`freePos
    ensures AllocState(s, size, f0, rt0, rs + [r], k - 2)
    ensures var c := old(NextFree(s.g, s.file, s.rt, s.fci));
            r == if c == old(s.freeCluster) + 1 then Chunk(old(s.freeCluster), old(s.freePos), n) else Chunk(c, 0, n)
    ensures var e := r.pos + n;
            if e < size then s.freeCluster == r.c && s.freePos == e
            else if e == size then s.freeCluster == 0
            else s.freeCluster == r.c + 1 && s.freePos == e - size
  {
    hide AllocState, HoldsOne, NextFree, RC;
    TailCounted(s, size, f0, rt0, rs, k);
    TailInside(s, size, f0, rt0, rs, k);
    var c := AllocOne(s, size, f0, rt0, rs, k);
    if s.freeCluster + 1 == c {
      r := PlaceOver(s, size, n, c, f0, rt0, rs, k - 2);
    } else {
      r := PlaceAtStart(s, size, c, n, f0, rt0, rs, k - 2);
    }
  }

  lemma {:induction false} TailInside(s: BDRVQcowState, size: nat, f0: File, rt0: seq<nat>, rs: seq<Chunk>, k: nat)
    requires AllocState(s, size, f0, rt0, rs, k) && s.freeCluster != 0
    ensures 0 < s.freePos < size
  {
    hide CountsOk, Placed, RC, Touching, Touches, MadeSince, Sparse;
  }

  /** The bytes run over into the fresh cluster, which is the next one. */
  method PlaceOver(s: BDRVQcowState, size: nat, n: nat, c: nat, ghost f0: File, ghost rt0: seq<nat>, ghost rs: seq<Chunk>, ghost k: nat) returns (r: Chunk)
    requires HoldsOne(s, size, f0, rt0, rs, c, k) && 1 <= n <= size && s.freeCluster != 0 && c == s.freeCluster + 1 && n > size - s.freePos
    requires Touching(size, rs, s.freeCluster) < MAX_COUNT
    modifies s`file, s`rt, s`rbCache, s`rbCacheOff, s`fci, s`freeCluster, s`freePos
    ensures r == Chunk(old(s.freeCluster), old(s.freePos), n) && AllocState(s, size, f0, rt0, rs + [r], k)
    ensures s.freeCluster == c && s.freePos == old(s.freePos) + n - size < size
  {
    hide TableShape, OwnedCounted, BlockCacheOk, ScanOk, Touches, RC, Room, AllApart, Touching, MadeSince, Sparse;
    r := Chunk(s.freeCluster, s.freePos, n);
    ghost var f := s.file;
    assert RC(s.g, f, s.rt, r.c) == Touching(size, rs, r.c);
    AddRef(s, r.c, k);
    TailPlaced(s.g, size, f0, rt0, f, s.rt, s.file, rs, r.c, r.pos, n, c);
    s.freeCluster, s.freePos := c, s.freePos + n - size;
  }

  /** Clusters that n bytes may take: none if they fit behind the last chunk. */
  function BytesNeed(s: BDRVQcowState, size: nat, n: nat): nat
    reads s
  {
    if s.freeCluster != 0 && n + s.freePos <= size then 0 else 2
  }

  /** Place for n bytes: behind the last chunk if they fit there, across the boundary if the next
      cluster is the one allocated, else at the start of a new cluster. */
  method AllocBytes(s: BDRVQcowState, size: nat, n: nat, ghost f0: File, ghost rt0: seq<nat>, ghost rs: seq<Chunk>, ghost k: nat) returns (r: Chunk)
    requires AllocState(s, size, f0, rt0, rs, k) && BytesNeed(s, size, n) <= k && 1 <= n <= size
    requires s.freeCluster != 0 ==> RC(s.g, s.file, s.rt, s.freeCluster) < MAX_COUNT
    modifies s`file, s`rt, s`rbCache, s`rbCacheOff, s`fci, s`freeCluster, s`freePos
    ensures AllocState(s, size, f0, rt0, rs + [r], k - old(BytesNeed(s, size, n)))
    ensures var c := old(NextFree(s.g, s.file, s.rt, s.fci));
            r == if old(s.freeCluster != 0 && (n + s.freePos <= size || s.freeCluster + 1 == NextFree(s.g, s.file, s.rt, s.fci)))
                 then Chunk(old(s.freeCluster), old(s.freePos), n) else Chunk(c, 0, n)
    ensures var e := r.pos + n;
            if e < size then s.freeCluster == r.c && s.freePos == e
            else if e == size then s.freeCluster == 0
            else s.freeCluster == r.c + 1 && s.freePos == e - size
  {
    hide TableShape, OwnedCounted, BlockCacheOk, ScanOk, RC, Placed, Touches;
    if s.freeCluster == 0 {
      var c := AllocOne(s, size, f0, rt0, rs, k);
      r := PlaceAtStart(s, size, c, n, f0, rt0, rs, k - 2);
    } else if n <= size - s.freePos {
      r := PlaceInTail(s, size, n, f0, rt0, rs, k);
    } else {
      r := PlaceAcross(s, size, n, f0, rt0, rs, k);
    }
  }

  // ---------------------------------------------------------------- any sequence of allocations

  /** The n whole clusters from c on. */
  ghost function Whole(size: nat, c: nat, n: nat): seq<Chunk>
  {
    seq(n, i requires 0 <= i => Chunk(c + i, 0, size))
  }

  lemma {:induction false} TouchingWhole(size: nat, rs: seq<Chunk>, c: nat, n: nat, x: nat)
    requires size >= 1
    ensures Touching(size, rs + Whole(size, c, n), x) == Touching(size, rs, x) + One(InRun(x, c, n))
  {
    if n == 0 {
      assert rs + Whole(size, c, n) == rs;
    } else {
      TouchingWhole(size, rs, c, n - 1, x);
      assert rs + Whole(size, c, n) == (rs + Whole(size, c, n - 1)) + [Chunk(c + n - 1, 0, size)];
      TouchingSnoc(size, rs + Whole(size, c, n - 1), Chunk(c + n - 1, 0, size), x);
    }
  }

  lemma {:induction false} OnesWhole(size: nat, rs: seq<Chunk>, c: nat, n: nat)
    requires size >= 2
    ensures Ones(rs + Whole(size, c, n)) == Ones(rs)
  {
    if n == 0 {
      assert rs + Whole(size, c, n) == rs;
    } else {
      OnesWhole(size, rs, c, n - 1);
      assert rs + Whole(size, c, n) == (rs + Whole(size, c, n - 1)) + [Chunk(c + n - 1, 0, size)];
      OnesSnoc(rs + Whole(size, c, n - 1), Chunk(c + n - 1, 0, size));
    }
  }

  lemma {:induction false} WholeApart(size: nat, rs: seq<Chunk>, c: nat, n: nat)
    requires size >= 1 && AllApart(size, rs)
    requires forall x, i :: 0 <= i < |rs| && Touches(size, rs[i], x) ==> !InRun(x, c, n)
    ensures AllApart(size, rs + Whole(size, c, n))
    ensures forall i, x: nat :: |rs| <= i < |rs| + n && Touches(size, (rs + Whole(size, c, n))[i], x) ==> InRun(x, c, n)
  {
    var all := rs + Whole(size, c, n);
    forall i, x: nat | |rs| <= i < |rs| + n && Touches(size, all[i], x) ensures InRun(x, c, n) && x == c + (i - |rs|) {
      assert all[i] == Chunk(c + (i - |rs|), 0, size);
    }
    forall i, j | 0 <= i < j < |all| ensures Apart(size, all[i], all[j]) {
      if j < |rs| {
        assert Apart(size, rs[i], rs[j]);
      } else {
        forall x: nat | Touches(size, all[i], x) && Touches(size, all[j], x) ensures false {
          assert x == c + (j - |rs|);
          if i < |rs| { assert Touches(size, rs[i], x) && InRun(x, c, n); }
        }
      }
    }
  }

  lemma {:induction false} WholePlaced(g: Geo, size: nat, f0: File, rt0: seq<nat>, f: File, rt: seq<nat>, rs: seq<Chunk>, c: nat, n: nat, fc: nat, fp: nat)
    requires g.Valid() && size >= 2 && AllApart(size, rs) && (forall i :: 0 <= i < |rs| ==> rs[i].Valid(size))
    requires forall x :: RC(g, f, rt, x) == RC(g, f0, rt0, x) + Touching(size, rs, x) + One(InRun(x, c, n)) + One(MadeSince(rt0, rt, x))
    requires forall x, i :: 0 <= i < |rs| && Touches(size, rs[i], x) ==> !MadeSince(rt0, rt, x) && !InRun(x, c, n)
    requires forall x :: InRun(x, c, n) ==> !MadeSince(rt0, rt, x)
    requires forall x :: IsBlock(rt0, x) ==> IsBlock(rt, x)
    requires TailFree(g, size, f0, rt0, rt, rs, fc, fp) && (fc != 0 ==> !InRun(fc, c, n))
    ensures Placed(g, size, f0, rt0, f, rt, rs + Whole(size, c, n), 0)
    ensures TailFree(g, size, f0, rt0, rt, rs + Whole(size, c, n), fc, fp)
  {
    hide RC, MadeSince, Touches, Touching, AllApart, InRun;
    WholeApart(size, rs, c, n);
    forall x: nat ensures RC(g, f, rt, x) == RC(g, f0, rt0, x) + Touching(size, rs + Whole(size, c, n), x) + One(MadeSince(rt0, rt, x)) {
      TouchingWhole(size, rs, c, n, x);
    }
    TouchingWhole(size, rs, c, n, fc);
    OnesWhole(size, rs, c, n);
  }

  /** alloc_clusters between the calls that place chunks. */
  method AllocRun(s: BDRVQcowState, size: nat, n: nat, ghost f0: File, ghost rt0: seq<nat>, ghost rs: seq<Chunk>, ghost k: nat) returns (c: nat)
    requires AllocState(s, size, f0, rt0, rs, k) && 1 <= n < s.g.epb && n + 1 <= k
    modifies s`file, s`rt, s`rbCache, s`rbCacheOff, s`fci
    ensures AllocState(s, size, f0, rt0, rs + Whole(size, c, n), k - (n + 1))
  {
    hide RC, Touches, TableShape, OwnedCounted, BlockCacheOk, ScanOk, Room, Owned, AllApart, NewTable, TailFree, Touching, Whole;
    ghost var nb;
    ghost var f, rt := s.file, s.rt;
    c, nb := AllocClusters(s, n, k);
    RunClear(s.g, size, f0, rt0, f, rt, s.rtOff, s.file, s.rt, rs, c, n, nb, s.freeCluster, s.freePos);
    WholePlaced(s.g, size, f0, rt0, s.file, s.rt, rs, c, n, s.freeCluster, s.freePos);
  }

  /** A call of alloc_bytes or of alloc_clusters. */
  datatype Request = Bytes(n: nat) | Clusters(n: nat)
  {
    predicate Fits(size: nat, epb: nat)
    {
      if Bytes? then 1 <= n <= size else 1 <= n < epb
    }

    function Cost(): nat
    {
      if Bytes? then 2 else n + 1
    }
  }

  /** What the caller owns after a request was answered with byte pos of cluster c. */
  ghost function Extent(size: nat, q: Request, at: (nat, nat)): seq<Chunk>
  {
    if q.Bytes? then [Chunk(at.0, at.1, q.n)] else Whole(size, at.0, q.n)
  }

  ghost function Extents(size: nat, qs: seq<Request>, at: seq<(nat, nat)>): seq<Chunk>
    requires |qs| == |at|
  {
    if qs == [] then [] else Extents(size, qs[..|qs| - 1], at[..|at| - 1]) + Extent(size, qs[|qs| - 1], at[|at| - 1])
  }

  ghost function Costs(qs: seq<Request>): nat
  {
    if qs == [] then 0 else Costs(qs[..|qs| - 1]) + qs[|qs| - 1].Cost()
  }

  lemma {:induction false} CostsUpTo(qs: seq<Request>, i: nat)
    requires i <= |qs|
    ensures Costs(qs[..i]) <= Costs(qs)
    ensures i < |qs| ==> Costs(qs[..i + 1]) == Costs(qs[..i]) + qs[i].Cost()
    decreases |qs|
  {
    if i < |qs| {
      assert qs[..i + 1][..i] == qs[..i];
      CostsUpTo(qs[..|qs| - 1], i);
      assert qs[..|qs| - 1][..i] == qs[..i];
    } else {
      assert qs[..i] == qs;
    }
  }

  lemma {:induction false} ExtentsSnoc(size: nat, qs: seq<Request>, i: nat, at: seq<(nat, nat)>, p: (nat, nat))
    requires i < |qs| && |at| == i
    ensures Extents(size, qs[..i + 1], at + [p]) == Extents(size, qs[..i], at) + Extent(size, qs[i], p)
  {
    assert qs[..i + 1][..i] == qs[..i];
    assert (at + [p])[..i] == at;
  }

  /** Requests for a single byte. */
  ghost function OneByte(qs: seq<Request>): nat
  {
    if qs == [] then 0 else OneByte(qs[..|qs| - 1]) + One(qs[|qs| - 1] == Bytes(1))
  }

  lemma {:induction false} OneByteUpTo(qs: seq<Request>, i: nat)
    requires i <= |qs|
    ensures OneByte(qs[..i]) <= OneByte(qs)
    decreases |qs|
  {
    if i < |qs| {
      OneByteUpTo(qs[..|qs| - 1], i);
      assert qs[..|qs| - 1][..i] == qs[..i];
    } else {
      assert qs[..i] == qs;
    }
  }

  lemma {:induction false} ExtentsOnes(size: nat, qs: seq<Request>, at: seq<(nat, nat)>)
    requires |qs| == |at| && size >= 2
    ensures Ones(Extents(size, qs, at)) == OneByte(qs)
  {
    if qs != [] {
      var n := |qs| - 1;
      ExtentsOnes(size, qs[..n], at[..n]);
      if qs[n].Bytes? {
        OnesSnoc(Extents(size, qs[..n], at[..n]), Chunk(at[n].0, at[n].1, qs[n].n));
      } else {
        OnesWhole(size, Extents(size, qs[..n], at[..n]), at[n].0, qs[n].n);
      }
    }
  }

  /** Clusters that a request may take in the present state. */
  function Needs(s: BDRVQcowState, size: nat, q: Request): (k: nat)
    reads s
    ensures k <= q.Cost()
  {
    if q.Bytes? then BytesNeed(s, size, q.n) else q.n + 1
  }

  /** One request. */
  method Answer(s: BDRVQcowState, size: nat, q: Request, ghost f0: File, ghost rt0: seq<nat>, ghost rs: seq<Chunk>, ghost k: nat) returns (p: (nat, nat))
    requires AllocState(s, size, f0, rt0, rs, k) && q.Fits(size, s.g.epb) && Needs(s, size, q) <= k
    requires s.freeCluster != 0 ==> RC(s.g, s.file, s.rt, s.freeCluster) < MAX_COUNT
    modifies s`file, s`rt, s`rbCache, s`rbCacheOff, s`fci, s`freeCluster, s`freePos
    ensures AllocState(s, size, f0, rt0, rs + Extent(size, q, p), k - old(Needs(s, size, q)))
  {
    hide AllocState, RC, Whole;
    if q.Bytes? {
      var r := AllocBytes(s, size, q.n, f0, rt0, rs, k);
      p := (r.c, r.pos);
    } else {
      var c := AllocRun(s, size, q.n, f0, rt0, rs, k);
      p := (c, 0);
    }
  }

  lemma {:induction false} StateRoom(s: BDRVQcowState, size: nat, f0: File, rt0: seq<nat>, rs: seq<Chunk>, k: nat, m: nat)
    requires AllocState(s, size, f0, rt0, rs, k)
    ensures s.g.Valid() && CountState(s) && (m <= k ==> Room(s.g, s.file, s.rt, s.fci, m))
    ensures Room(s.g, s.file, s.rt, s.fci, m) ==> AllocState(s, size, f0, rt0, rs, m)
  {
    hide TableShape, OwnedCounted, BlockCacheOk, ScanOk, RC, Placed, TailFree;
  }

  method RoomForRequest(s: BDRVQcowState, size: nat, need: nat, ghost f0: File, ghost rt0: seq<nat>, ghost rs: seq<Chunk>, ghost k: nat) returns (has: bool)
    requires AllocState(s, size, f0, rt0, rs, k)
    modifies s`rbCache, s`rbCacheOff
    ensures AllocState(s, size, f0, rt0, rs, k) && s.g.Valid() && (has <==> Room(s.g, s.file, s.rt, s.fci, need))
  {
    hide TableShape, OwnedCounted, BlockCacheOk, ScanOk, RC, Placed, TailFree, Room;
    StateRoom(s, size, f0, rt0, rs, k, k);
    has := HasRoom(s, need);
  }

  /** A request is answered if there is room for it at that moment. */
  method Ask(s: BDRVQcowState, size: nat, q: Request, ghost f0: File, ghost rt0: seq<nat>, ghost rs: seq<Chunk>, ghost k: nat) returns (p: (nat, nat), done: bool)
    requires AllocState(s, size, f0, rt0, rs, k) && q.Fits(size, s.g.epb) && CountsSuffice(size, Ones(rs))
    modifies s`file, s`rt, s`rbCache, s`rbCacheOff, s`fci, s`freeCluster, s`freePos
    ensures done ==> AllocState(s, size, f0, rt0, rs + Extent(size, q, p), Left(k, q.Cost()))
    ensures !done ==> AllocState(s, size, f0, rt0, rs, k) && k < q.Cost() && s.g.Valid() && !Room(s.g, s.file, s.rt, s.fci, Needs(s, size, q))
  {
    hide AllocState, RC, Room, Ones, CountsSuffice, Extent;
    var need := Needs(s, size, q);
    p := (0, 0);
    done := RoomForRequest(s, size, need, f0, rt0, rs, k);
    StateRoom(s, size, f0, rt0, rs, k, need);
    if done {
      ghost var m := if need <= k then k else need;
      TailCount(s, size, f0, rt0, rs, m);
      p := Answer(s, size, q, f0, rt0, rs, m);
      StateRoom(s, size, f0, rt0, rs + Extent(size, q, p), m - need, Left(k, q.Cost()));
    }
  }

  /** Shared clusters cannot reach the largest count, unless they are of 64 KiB, the largest size
      there is, and 65534 or more single bytes are asked for. */
  predicate CountsSuffice(size: nat, ones: nat)
  {
    size <= MAX_COUNT || size + ones < 2 * MAX_COUNT
  }

  lemma {:induction false} TailCount(s: BDRVQcowState, size: nat, f0: File, rt0: seq<nat>, rs: seq<Chunk>, k: nat)
    requires AllocState(s, size, f0, rt0, rs, k) && CountsSuffice(size, Ones(rs))
    ensures s.freeCluster != 0 ==> RC(s.g, s.file, s.rt, s.freeCluster) < MAX_COUNT
  {
    hide RC, Touching, Ones, MadeSince, Placed;
    if s.freeCluster != 0 { TailCounted(s, size, f0, rt0, rs, k); }
  }

  lemma {:induction false} NothingPlaced(s: BDRVQcowState, size: nat, k: nat)
    requires CountsOk(s, k) && size >= 2 && s.freeCluster == 0
    ensures AllocState(s, size, s.file, s.rt, [], k)
  {
    hide RC;
  }

  /** Whatever the sequence of calls, up to the first that there is no room for, the extents handed
      out share no byte, each counts once in each cluster it touches, and besides them only new count
      blocks are counted. */
  method AllocAll(s: BDRVQcowState, size: nat, qs: seq<Request>, ghost k: nat) returns (at: seq<(nat, nat)>)
    requires CountsOk(s, k) && size >= 2 && s.freeCluster == 0
    requires forall i :: 0 <= i < |qs| ==> qs[i].Fits(size, s.g.epb)
    requires CountsSuffice(size, OneByte(qs))
    modifies s`file, s`rt, s`rbCache, s`rbCacheOff, s`fci, s`freeCluster, s`freePos
    ensures |at| <= |qs| && CountsOk(s, Left(k, Costs(qs[..|at|]))) && AllApart(size, Extents(size, qs[..|at|], at))
    ensures forall x :: RC(s.g, s.file, s.rt, x) ==
              RC(s.g, old(s.file), old(s.rt), x) + Touching(size, Extents(size, qs[..|at|], at), x) + One(MadeSince(old(s.rt), s.rt, x))
    ensures forall x, i :: 0 <= i < |Extents(size, qs[..|at|], at)| && Touches(size, Extents(size, qs[..|at|], at)[i], x) ==> !MadeSince(old(s.rt), s.rt, x)
    ensures |at| < |qs| ==> !Room(s.g, s.file, s.rt, s.fci, Needs(s, size, qs[|at|]))
    ensures Costs(qs) <= k ==> |at| == |qs|
  {
    hide *;
    ghost var f0, rt0 := s.file, s.rt;
    at := [];
    NothingPlaced(s, size, k);
    NothingAsked(size, qs, k);
    while |at| < |qs|
      invariant |at| <= |qs| && AllocState(s, size, f0, rt0, Extents(size, qs[..|at|], at), Left(k, Costs(qs[..|at|])))
      decreases |qs| - |at|
    {
      var i := |at|;
      CostsUpTo(qs, i + 1);
      CostsUpTo(qs, i);
      LeftTwice(k, Costs(qs[..i]), qs[i].Cost());
      ExtentsOnes(size, qs[..i], at);
      OneByteUpTo(qs, i);
      FewerSuffice(size, OneByte(qs[..i]), OneByte(qs));
      var p, done := Ask(s, size, qs[i], f0, rt0, Extents(size, qs[..i], at), Left(k, Costs(qs[..i])));
      if !done { break; }
      ExtentsSnoc(size, qs, i, at, p);
      at := at + [p];
    }
    PlacedFacts(s, size, f0, rt0, Extents(size, qs[..|at|], at), Left(k, Costs(qs[..|at|])));
  }

  lemma {:induction false} LeftTwice(k: nat, m: nat, n: nat)
    ensures Left(k, m + n) == Left(Left(k, m), n) && (m + n <= k ==> Left(k, m) >= n)
  {
  }

  lemma {:induction false} FewerSuffice(size: nat, m: nat, n: nat)
    requires m <= n && CountsSuffice(size, n)
    ensures CountsSuffice(size, m)
  {
  }

  lemma {:induction false} NothingAsked(size: nat, qs: seq<Request>, k: nat)
    ensures Left(k, Costs(qs[..0])) == k && Extents(size, qs[..0], []) == []
  {
  }

  lemma {:induction false} PlacedFacts(s: BDRVQcowState, size: nat, f0: File, rt0: seq<nat>, rs: seq<Chunk>, k: nat)
    requires AllocState(s, size, f0, rt0, rs, k)
    ensures CountsOk(s, k) && s.g.Valid() && AllApart(size, rs)
    ensures forall x :: RC(s.g, s.file, s.rt, x) == RC(s.g, f0, rt0, x) + Touching(size, rs, x) + One(MadeSince(rt0, s.rt, x))
    ensures forall x, i :: 0 <= i < |rs| && Touches(size, rs[i], x) ==> !MadeSince(rt0, s.rt, x)
  {
    hide RC, Touching, Touches, MadeSince, AllApart;
  }
}
