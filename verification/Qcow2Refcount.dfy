/** Reading, updating and handing out reference counted clusters. */
module Qcow2Refcount {
  import opened Division
  import opened Qcow2Layout
  import opened Qcow2Trees
  import opened Qcow2Counts
  import opened Qcow2State

  const EINVAL: int := 22

  /** Table and blocks are in order and the block cache agrees with the file. */
  ghost predicate CountState(s: BDRVQcowState)
    reads s
  {
    TableShape(s.g, s.file, s.rt, s.rtOff) && BlockCacheOk(s.g, s.file, s.rt, s.rbCacheOff, s.rbCache)
  }

  method LoadRefcountBlock(s: BDRVQcowState, off: nat)
    requires CountState(s) && IsBlock(s.rt, off)
    modifies s`rbCache, s`rbCacheOff
    ensures CountState(s) && s.rbCacheOff == off
  {
    assert BlockOk(s.g, s.file, off);
    s.rbCache := s.file[off].counts;
    s.rbCacheOff := off;
  }

  method GetRefcount(s: BDRVQcowState, c: nat) returns (r: nat)
    requires CountState(s)
    modifies s`rbCache, s`rbCacheOff
    ensures CountState(s)
    ensures r == RC(s.g, s.file, s.rt, c)
  {
    var k := Quot(c, s.g.epb);
    if k >= |s.rt| { return 0; }
    var off := s.rt[k];
    if off == 0 { return 0; }
    assert IsBlock(s.rt, off);
    if off != s.rbCacheOff {
      LoadRefcountBlock(s, off);
    }
    r := s.rbCache[Rem(c, s.g.epb)];
  }

  /** Reads the last k counts to see whether there is room for k clusters. */
  method HasRoom(s: BDRVQcowState, k: nat) returns (has: bool)
    requires CountState(s)
    modifies s`rbCache, s`rbCacheOff
    ensures CountState(s)
    ensures has <==> Room(s.g, s.file, s.rt, s.fci, k)
  {
    hide RC, BlocksOk, BlocksStored, TableStored, BlockCacheOk;
    var end := |s.rt| * s.g.epb;
    if s.fci + k > end { return false; }
    var x := end - k;
    while x < end
      invariant end - k <= x <= end && CountState(s)
      invariant forall y :: end - k <= y < x ==> RC(s.g, s.file, s.rt, y) == 0
    {
      var r := GetRefcount(s, x);
      if r != 0 { return false; }
      x := x + 1;
    }
    forall y | y + k >= Capacity(s.g, s.rt) ensures RC(s.g, s.file, s.rt, y) == 0 {
      if RC(s.g, s.file, s.rt, y) != 0 { CountedInTable(s.g, s.file, s.rt, y); }
    }
    has := true;
  }

  /** Advances over free clusters until n of them have been passed or a used one is met. */
  method ExtendRun(s: BDRVQcowState, n: nat) returns (fits: bool)
    requires CountState(s) && s.fci >= 1 && RC(s.g, s.file, s.rt, s.fci - 1) == 0
    modifies s`rbCache, s`rbCacheOff, s`fci
    ensures CountState(s)
    ensures s.fci >= old(s.fci)
    ensures forall x :: old(s.fci) - 1 <= x < s.fci ==> RC(s.g, s.file, s.rt, x) == 0
    ensures if fits then s.fci == old(s.fci) - 1 + (if n == 0 then 1 else n) else s.fci < old(s.fci) - 1 + n && RC(s.g, s.file, s.rt, s.fci) != 0
  {
    ghost var run := s.fci - 1;
    var i := 1;
    while i < n
      invariant CountState(s)
      invariant 1 <= i && (i <= n || i == 1)
      invariant s.fci == run + i
      invariant forall x :: run <= x < run + i ==> RC(s.g, s.file, s.rt, x) == 0
    {
      var r := GetRefcount(s, s.fci);
      if r != 0 { return false; }
      s.fci := s.fci + 1;
      i := i + 1;
    }
    fits := true;
  }

  ghost predicate FreeRun(g: Geo, f: File, rt: seq<nat>, y: nat, n: nat)
    requires g.epb > 0
  {
    forall x :: InRun(x, y, n) ==> RC(g, f, rt, x) == 0
  }

  lemma {:induction false} UsedIn(g: Geo, f: File, rt: seq<nat>, y: nat, n: nat, x: nat)
    requires g.epb > 0 && InRun(x, y, n) && RC(g, f, rt, x) != 0
    ensures !FreeRun(g, f, rt, y, n)
  {
  }

  /** Scans for n consecutive free clusters from the current position on, and finds the first such run. */
  method AllocClustersNoref(s: BDRVQcowState, n: nat) returns (c: nat)
    requires CountState(s)
    modifies s`rbCache, s`rbCacheOff, s`fci
    ensures CountState(s)
    ensures s.fci == c + n
    ensures n >= 1 ==> c >= old(s.fci) && (c == old(s.fci) || RC(s.g, s.file, s.rt, c - 1) != 0)
    ensures n == 0 ==> c == NextFree(s.g, s.file, s.rt, old(s.fci)) + 1
    ensures forall x :: c <= x < c + n ==> RC(s.g, s.file, s.rt, x) == 0
    ensures n >= 1 ==> forall y: nat :: old(s.fci) <= y < c ==> !FreeRun(s.g, s.file, s.rt, y, n)
    ensures n == 1 ==> c == NextFree(s.g, s.file, s.rt, old(s.fci))
  {
    hide RC;
    ghost var start := s.fci;
    while true
      invariant CountState(s)
      invariant s.fci >= start && (s.fci == start || RC(s.g, s.file, s.rt, s.fci - 1) != 0)
      invariant n >= 1 ==> forall y: nat :: start <= y < s.fci ==> !FreeRun(s.g, s.file, s.rt, y, n)
      invariant n <= 1 ==> NextFree(s.g, s.file, s.rt, s.fci) == NextFree(s.g, s.file, s.rt, start)
      decreases Capacity(s.g, s.rt) - s.fci
    {
      ghost var run := s.fci;
      var r := GetRefcount(s, s.fci);
      if r == 0 {
        s.fci := s.fci + 1;
        var fits := ExtendRun(s, n);
        if fits { return s.fci - n; }
      }
      CountedInTable(s.g, s.file, s.rt, s.fci);
      if n >= 1 {
        forall y: nat | run <= y <= s.fci ensures !FreeRun(s.g, s.file, s.rt, y, n) { UsedIn(s.g, s.file, s.rt, y, n, s.fci); }
      }
      s.fci := s.fci + 1;
    }
  }

  /** Adds addend to one count; a block is created on the first count in its range. */
  method UpdateClusterRefcount(s: BDRVQcowState, c: nat, addend: int) returns (r: int, ghost nb: nat)
    requires addend == 1 || addend == -1
    requires CountState(s)
    requires addend == 1 ==> CanCount(s.g, s.file, s.rt, s.fci, c)
    requires addend == 1 && s.rt[Quot(c, s.g.epb)] == 0 ==> OwnedCounted(s.g, s.file, s.rt, s.rtOff)
    modifies s`file, s`rt, s`rbCache, s`rbCacheOff, s`fci
    ensures CountState(s)
    ensures r < 0 <==> !(0 <= RC(s.g, old(s.file), old(s.rt), c) + addend <= 0xffff)
    ensures r < 0 ==> nb == 0 && s.file == old(s.file) && s.fci == old(s.fci)
    ensures r >= 0 ==> r == RC(s.g, old(s.file), old(s.rt), c) + addend
    ensures r >= 0 ==> forall x :: RC(s.g, s.file, s.rt, x) == RC(s.g, old(s.file), old(s.rt), x) + (if x == c then addend else 0) + One(nb != 0 && x == nb)
    ensures r >= 0 ==> Quot(c, s.g.epb) < |s.rt| && s.rbCacheOff == s.rt[Quot(c, s.g.epb)]
    ensures nb == 0 ==> s.rt == old(s.rt) && forall x :: !IsBlock(s.rt, x) ==> SameAt(old(s.file), s.file, x)
    ensures nb != 0 ==> addend == 1 && old(s.rt[Quot(c, s.g.epb)]) == 0 && s.rt == old(s.rt)[Quot(c, s.g.epb) := nb]
    ensures nb != 0 ==> nb == old(NextFree(s.g, s.file, s.rt, s.fci)) && s.fci == nb + 1
    ensures (addend == 1 && old(s.rt[Quot(c, s.g.epb)]) == 0) <==> nb != 0
    ensures forall x :: !Owned(s.g, s.rt, s.rtOff, x) ==> SameAt(old(s.file), s.file, x)
    ensures nb == 0 && r >= 0 ==> s.fci == if r == 0 && c < old(s.fci) then c else old(s.fci)
    decreases if Quot(c, s.g.epb) < |s.rt| && s.rt[Quot(c, s.g.epb)] == 0 then 1 else 0
  {
    nb := 0;
    var k := Quot(c, s.g.epb);
    if k >= |s.rt| { return -EINVAL, 0; }
    var off := s.rt[k];
    if off == 0 {
      if addend < 0 { return -EINVAL, 0; }
      off := CreateRefcountBlock(s, c);
      nb := off;
    } else {
      assert IsBlock(s.rt, off);
      if off != s.rbCacheOff {
        LoadRefcountBlock(s, off);
      }
    }
    var j := Rem(c, s.g.epb);
    r := s.rbCache[j] + addend;
    if r < 0 || r > MAX_COUNT { return -EINVAL, nb; }
    if r == 0 && c < s.fci { s.fci := c; }
    StoreCount(s.g, s.file, s.rt, s.rtOff, c, r);
    s.rbCache := s.rbCache[j := r];
    s.file := PutCount(s.file, off, j, r);
  }

  /** The new block takes the next free cluster and then counts itself. */
  method CreateRefcountBlock(s: BDRVQcowState, c: nat) returns (off: nat)
    requires CountState(s) && OwnedCounted(s.g, s.file, s.rt, s.rtOff)
    requires CanCount(s.g, s.file, s.rt, s.fci, c) && s.rt[Quot(c, s.g.epb)] == 0
    modifies s`file, s`rt, s`rbCache, s`rbCacheOff, s`fci
    ensures CountState(s) && s.rbCacheOff == off
    ensures off != 0 && off != c && off == old(NextFree(s.g, s.file, s.rt, s.fci)) && s.fci == off + 1
    ensures s.rt == old(s.rt)[Quot(c, s.g.epb) := off]
    ensures forall x :: RC(s.g, s.file, s.rt, x) == RC(s.g, old(s.file), old(s.rt), x) + One(x == off)
    ensures forall x :: !Owned(s.g, s.rt, s.rtOff, x) ==> SameAt(old(s.file), s.file, x)
    decreases 1, 0
  {
    hide RC, BlocksOk, BlocksStored, TableStored, Owned, IsBlock, PutPtr;
    var k := Quot(c, s.g.epb);
    off := AllocClustersNoref(s, 1);
    assert RC(s.g, s.file, s.rt, off) == 0;
    NewBlock(s.g, s.file, s.rt, s.rtOff, k, off);
    s.rbCache := seq(s.g.epb, _ => 0);
    s.file := s.file[off := Counts(s.rbCache)];
    s.rt := s.rt[k := off];
    s.file := PutPtr(s.file, s.rtOff + Quot(k, s.g.es), Rem(k, s.g.es), off);
    s.rbCacheOff := off;
    var _, _ := UpdateClusterRefcount(s, off, 1);
  }

  /** Every cluster of the run can be counted; if a block is missing, the scan position is free and
      lies in the range the block will describe. */
  ghost predicate RunCountable(g: Geo, f: File, rt: seq<nat>, fci: nat, c: nat, n: nat)
    requires g.epb > 0
  {
    forall x :: InRun(x, c, n) ==>
      && RC(g, f, rt, x) < MAX_COUNT
      && Quot(x, g.epb) < |rt|
      && (rt[Quot(x, g.epb)] != 0 ||
          (&& Quot(x, g.epb) == Quot(fci, g.epb) && RC(g, f, rt, fci) == 0 && c + n <= fci
           && forall k :: 0 <= k < Quot(fci, g.epb) ==> rt[k] != 0))
  }

  /** Between (f, rt) and (f', rt') the counts of the run went up by one, and a new block nb counts itself. */
  ghost predicate RunCounted(g: Geo, f: File, rt: seq<nat>, f': File, rt': seq<nat>, c: nat, n: nat, nb: nat)
    requires g.epb > 0
  {
    forall x :: RC(g, f', rt', x) == RC(g, f, rt, x) + One(InRun(x, c, n)) + One(nb != 0 && x == nb)
  }

  /** The table gained block nb, which was the free cluster at the scan position, or nothing if nb is 0. */
  ghost predicate BlockAdded(g: Geo, f: File, rt: seq<nat>, rt': seq<nat>, fci: nat, fci': nat, nb: nat)
    requires g.epb > 0
  {
    if nb == 0 then rt' == rt && fci' == fci
    else
      && nb == fci && fci' == nb + 1 && RC(g, f, rt, nb) == 0
      && Quot(nb, g.epb) < |rt| && rt[Quot(nb, g.epb)] == 0 && rt' == rt[Quot(nb, g.epb) := nb]
  }

  /** Counts of clusters c .. c+n up by one; at most one block has to be created on the way. */
  method IncRefcounts(s: BDRVQcowState, c: nat, n: nat) returns (ghost nb: nat)
    requires CountState(s) && OwnedCounted(s.g, s.file, s.rt, s.rtOff)
    requires RunCountable(s.g, s.file, s.rt, s.fci, c, n)
    modifies s`file, s`rt, s`rbCache, s`rbCacheOff, s`fci
    ensures CountState(s) && OwnedCounted(s.g, s.file, s.rt, s.rtOff)
    ensures RunCounted(s.g, old(s.file), old(s.rt), s.file, s.rt, c, n, nb)
    ensures BlockAdded(s.g, old(s.file), old(s.rt), s.rt, old(s.fci), s.fci, nb)
    ensures nb != 0 ==> c + n <= nb
    ensures RunHasBlocks(s.g, s.rt, c, n)
    ensures forall x :: !Owned(s.g, s.rt, s.rtOff, x) ==> SameAt(old(s.file), s.file, x)
  {
    nb := 0;
    var i := 0;
    while i < n
      invariant 0 <= i <= n
      invariant Counting(s, old(s.file), old(s.rt), old(s.fci), c, n, i, nb)
    {
      nb := IncNext(s, old(s.file), old(s.rt), old(s.fci), c, n, i, nb);
      i := i + 1;
    }
  }

  /** The state after i clusters of the run c .. c+n have been counted, starting from (f, rt, fci). */
  ghost predicate Counting(s: BDRVQcowState, f: File, rt: seq<nat>, fci: nat, c: nat, n: nat, i: nat, nb: nat)
    reads s
  {
    && CountState(s) && OwnedCounted(s.g, s.file, s.rt, s.rtOff)
    && RunCounted(s.g, f, rt, s.file, s.rt, c, i, nb)
    && BlockAdded(s.g, f, rt, s.rt, fci, s.fci, nb)
    && (nb != 0 ==> c + n <= nb)
    && RunHasBlocks(s.g, s.rt, c, i)
    && (forall x :: !Owned(s.g, s.rt, s.rtOff, x) ==> SameAt(f, s.file, x))
  }

  method IncNext(s: BDRVQcowState, ghost f: File, ghost rt: seq<nat>, ghost fci: nat, c: nat, ghost n: nat, i: nat, ghost nb: nat)
    returns (ghost nb': nat)
    requires i < n && s.g.Valid() && RunCountable(s.g, f, rt, fci, c, n)
    requires Counting(s, f, rt, fci, c, n, i, nb)
    modifies s`file, s`rt, s`rbCache, s`rbCacheOff, s`fci
    ensures Counting(s, f, rt, fci, c, n, i + 1, nb')
  {
    RunStep(s.g, f, rt, fci, s.file, s.rt, s.fci, c, n, i, nb);
    ghost var f1, rt1, fci1 := s.file, s.rt, s.fci;
    ghost var b := IncOne(s, c + i);
    RunCombine(s.g, f, rt, fci, f1, rt1, fci1, s.file, s.rt, s.fci, c, n, i, nb, b);
    nb' := if b != 0 then b else nb;
  }

  /** After i clusters of a countable run have been counted the next one can be counted. */
  lemma {:induction false} RunStep(g: Geo, f: File, rt: seq<nat>, fci: nat, f': File, rt': seq<nat>, fci': nat, c: nat, n: nat, i: nat, nb: nat)
    requires g.epb > 0 && i < n
    requires RunCountable(g, f, rt, fci, c, n)
    requires RunCounted(g, f, rt, f', rt', c, i, nb) && BlockAdded(g, f, rt, rt', fci, fci', nb)
    requires nb != 0 ==> c + n <= nb
    ensures RunCountable(g, f', rt', fci', c + i, 1)
    ensures nb != 0 ==> rt'[Quot(c + i, g.epb)] != 0
    ensures nb == 0 && rt'[Quot(c + i, g.epb)] == 0 ==> c + n <= fci
  {
    var x := c + i;
    assert InRun(x, c, n) && !InRun(x, c, i);
    assert RC(g, f', rt', x) == RC(g, f, rt, x);
    if nb == 0 && rt[Quot(x, g.epb)] == 0 {
      assert RC(g, f', rt', fci) == RC(g, f, rt, fci);
    }
  }

  ghost predicate RunHasBlocks(g: Geo, rt: seq<nat>, c: nat, n: nat)
    requires g.epb > 0
  {
    forall x :: InRun(x, c, n) ==> Quot(x, g.epb) < |rt| && rt[Quot(x, g.epb)] != 0
  }

  lemma {:induction false} RunCombine(g: Geo, f: File, rt: seq<nat>, fci: nat, f1: File, rt1: seq<nat>, fci1: nat,
                   f2: File, rt2: seq<nat>, fci2: nat, c: nat, n: nat, i: nat, nb: nat, b: nat)
    requires g.epb > 0 && i < n
    requires RunCounted(g, f, rt, f1, rt1, c, i, nb) && BlockAdded(g, f, rt, rt1, fci, fci1, nb)
    requires RunCounted(g, f1, rt1, f2, rt2, c + i, 1, b) && BlockAdded(g, f1, rt1, rt2, fci1, fci2, b)
    requires RunHasBlocks(g, rt1, c, i) && Quot(c + i, g.epb) < |rt2| && rt2[Quot(c + i, g.epb)] != 0
    requires nb != 0 ==> b == 0
    requires b != 0 ==> c + n <= b
    ensures
      var nb' := if b != 0 then b else nb;
      RunCounted(g, f, rt, f2, rt2, c, i + 1, nb') && BlockAdded(g, f, rt, rt2, fci, fci2, nb')
    ensures RunHasBlocks(g, rt2, c, i + 1)
  {
    var nb' := if b != 0 then b else nb;
    forall x: nat
      ensures RC(g, f2, rt2, x) == RC(g, f, rt, x) + One(InRun(x, c, i + 1)) + One(nb' != 0 && x == nb')
    {
      assert RC(g, f1, rt1, x) == RC(g, f, rt, x) + One(InRun(x, c, i)) + One(nb != 0 && x == nb);
    }
    forall x | InRun(x, c, i + 1) ensures Quot(x, g.epb) < |rt2| && rt2[Quot(x, g.epb)] != 0 {
      assert x == c + i || InRun(x, c, i);
    }
  }

  method IncOne(s: BDRVQcowState, x: nat) returns (ghost b: nat)
    requires CountState(s) && OwnedCounted(s.g, s.file, s.rt, s.rtOff)
    requires RunCountable(s.g, s.file, s.rt, s.fci, x, 1)
    modifies s`file, s`rt, s`rbCache, s`rbCacheOff, s`fci
    ensures CountState(s) && OwnedCounted(s.g, s.file, s.rt, s.rtOff)
    ensures RunCounted(s.g, old(s.file), old(s.rt), s.file, s.rt, x, 1, b)
    ensures BlockAdded(s.g, old(s.file), old(s.rt), s.rt, old(s.fci), s.fci, b)
    ensures b != 0 ==> x < b && Quot(x, s.g.epb) == Quot(b, s.g.epb)
    ensures Quot(x, s.g.epb) < |s.rt| && s.rt[Quot(x, s.g.epb)] != 0
    ensures forall y :: Owned(s.g, old(s.rt), s.rtOff, y) ==> Owned(s.g, s.rt, s.rtOff, y)
    ensures forall y :: !Owned(s.g, s.rt, s.rtOff, y) ==> SameAt(old(s.file), s.file, y)
  {
    assert InRun(x, x, 1);
    var r;
    r, b := UpdateClusterRefcount(s, x, 1);
    OwnedStep(s.g, old(s.file), old(s.rt), s.file, s.rt, s.rtOff, Quot(x, s.g.epb), b);
  }

  /** Where the scan stopped, every missing block will lie in its own range: blocks exist up to the
      start of the run, and the run is shorter than one range. */
  lemma {:induction false} RunPlaced(g: Geo, f: File, rt: seq<nat>, rtOff: nat, fci: nat, c: nat, n: nat, k: nat)
    requires TableShape(g, f, rt, rtOff) && ScanOk(g, rt, fci)
    requires Room(g, f, rt, fci, k) && 1 <= n < g.epb && n + 1 <= k
    requires c == fci || (c > fci && RC(g, f, rt, c - 1) != 0)
    requires forall x :: InRun(x, c, n) ==> RC(g, f, rt, x) == 0
    ensures RunCountable(g, f, rt, c + n, c, n)
    ensures c + k <= Capacity(g, rt)
  {
    assert c > fci ==> c - 1 + k < Capacity(g, rt);
    forall x | InRun(x, c, n)
      ensures Quot(x, g.epb) < |rt|
      ensures rt[Quot(x, g.epb)] == 0 ==>
                && Quot(x, g.epb) == Quot(c + n, g.epb) && RC(g, f, rt, c + n) == 0
                && forall m :: 0 <= m < Quot(c + n, g.epb) ==> rt[m] != 0
    {
      DivBound(x, g.epb, |rt|);
      var q := Quot(x, g.epb);
      if rt[q] == 0 {
        assert c > 0 ==> Quot(c - 1, g.epb) < |rt| && rt[Quot(c - 1, g.epb)] != 0;
        assert c > 0 ==> Quot(c - 1, g.epb) < q;
        RangeEnd(c, n, x, g.epb);
      }
    }
  }

  /** A run shorter than a range that starts before range q and reaches into it ends in it, and
      starts in the range before. */
  lemma {:induction false} RangeEnd(c: nat, n: nat, x: nat, d: nat)
    requires 1 <= n < d && InRun(x, c, n)
    requires c > 0 ==> Quot(c - 1, d) < Quot(x, d)
    ensures Quot(c + n, d) == Quot(x, d)
    ensures Quot(x, d) > 0 ==> c > 0 && Quot(c - 1, d) == Quot(x, d) - 1
  {
    var q := Quot(x, d);
    var e := q * d;
    QuotBetween(x, d);
    if c > 0 {
      QuotBetween(c - 1, d);
      MulMono(Quot(c - 1, d) + 1, q, d);
      assert (Quot(c - 1, d) + 1) * d == Quot(c - 1, d) * d + d;
    } else {
      QuotIs(x, d, 0, 0);
    }
    hide Quot, Rem;
    QuotIs(c + n, d, q, e);
    if q > 0 {
      assert (q - 1) * d == e - d;
      QuotIs(c - 1, d, q - 1, e - d);
    }
  }

  /** Allocates n clusters with count one. k clusters of room shrink to k - (n + 1). */
  method AllocClusters(s: BDRVQcowState, n: nat, ghost k: nat) returns (c: nat, ghost nb: nat)
    requires CountState(s) && OwnedCounted(s.g, s.file, s.rt, s.rtOff) && ScanOk(s.g, s.rt, s.fci)
    requires Room(s.g, s.file, s.rt, s.fci, k) && 1 <= n < s.g.epb && n + 1 <= k
    modifies s`file, s`rt, s`rbCache, s`rbCacheOff, s`fci
    ensures CountState(s) && OwnedCounted(s.g, s.file, s.rt, s.rtOff) && ScanOk(s.g, s.rt, s.fci)
    ensures Room(s.g, s.file, s.rt, s.fci, k - (n + 1))
    ensures c > 0 && c >= old(s.fci) && (n == 1 ==> c == old(NextFree(s.g, s.file, s.rt, s.fci)))
    ensures forall x :: InRun(x, c, n) || (nb != 0 && x == nb) ==> RC(s.g, old(s.file), old(s.rt), x) == 0
    ensures nb != 0 ==> !InRun(nb, c, n)
    ensures forall x :: RC(s.g, s.file, s.rt, x) ==
              RC(s.g, old(s.file), old(s.rt), x) + One(InRun(x, c, n)) + One(nb != 0 && x == nb)
    ensures NewTable(old(s.rt), s.rt, nb)
    ensures forall x :: !Owned(s.g, s.rt, s.rtOff, x) ==> SameAt(old(s.file), s.file, x)
    ensures forall y: nat :: old(s.fci) <= y < c ==> !FreeRun(s.g, old(s.file), old(s.rt), y, n)
  {
    hide RC, FreeRun, BlocksOk, BlocksStored, TableStored, BlockCacheOk, OwnedCounted, ScanOk, Room, Owned, NewTable;
    c := AllocClustersNoref(s, n);
    nb := CountRun(s, c, n, old(s.fci), k);
  }

  /** Counts the run that was found from the scan position fci on. */
  method CountRun(s: BDRVQcowState, c: nat, n: nat, ghost fci: nat, ghost k: nat) returns (ghost nb: nat)
    requires CountState(s) && OwnedCounted(s.g, s.file, s.rt, s.rtOff) && ScanOk(s.g, s.rt, fci)
    requires Room(s.g, s.file, s.rt, fci, k) && 1 <= n < s.g.epb && n + 1 <= k
    requires s.fci == c + n && (c == fci || (c > fci && RC(s.g, s.file, s.rt, c - 1) != 0))
    requires forall x :: c <= x < c + n ==> RC(s.g, s.file, s.rt, x) == 0
    modifies s`file, s`rt, s`rbCache, s`rbCacheOff, s`fci
    ensures CountState(s) && OwnedCounted(s.g, s.file, s.rt, s.rtOff) && ScanOk(s.g, s.rt, s.fci)
    ensures Room(s.g, s.file, s.rt, s.fci, k - (n + 1))
    ensures c > 0
    ensures forall x :: InRun(x, c, n) || (nb != 0 && x == nb) ==> RC(s.g, old(s.file), old(s.rt), x) == 0
    ensures nb != 0 ==> !InRun(nb, c, n)
    ensures forall x :: RC(s.g, s.file, s.rt, x) ==
              RC(s.g, old(s.file), old(s.rt), x) + One(InRun(x, c, n)) + One(nb != 0 && x == nb)
    ensures NewTable(old(s.rt), s.rt, nb)
    ensures forall x :: !Owned(s.g, s.rt, s.rtOff, x) ==> SameAt(old(s.file), s.file, x)
  {
    RunPlaced(s.g, s.file, s.rt, s.rtOff, fci, c, n, k);
    nb := IncRefcounts(s, c, n);
    assert InRun(c + n - 1, c, n);
    assert InRun(c, c, n);
  }

  /** Counts of clusters c .. c+n down by one. */
  method FreeClusters(s: BDRVQcowState, c: nat, n: nat)
    requires CountState(s) && OwnedCounted(s.g, s.file, s.rt, s.rtOff)
    requires forall x :: InRun(x, c, n) ==> x != 0 && !Owned(s.g, s.rt, s.rtOff, x) && RC(s.g, s.file, s.rt, x) >= 1
    modifies s`file, s`rt, s`rbCache, s`rbCacheOff, s`fci
    ensures CountState(s) && OwnedCounted(s.g, s.file, s.rt, s.rtOff)
    ensures s.rt == old(s.rt)
    ensures forall x :: RC(s.g, s.file, s.rt, x) == RC(s.g, old(s.file), s.rt, x) - One(InRun(x, c, n))
    ensures forall x :: !Owned(s.g, s.rt, s.rtOff, x) ==> SameAt(old(s.file), s.file, x)
    ensures s.fci <= old(s.fci)
    ensures s.fci == old(s.fci) || InRun(s.fci, c, n)
    ensures forall x :: InRun(x, c, n) && RC(s.g, s.file, s.rt, x) == 0 ==> s.fci <= x
  {
    var i := 0;
    while i < n
      invariant 0 <= i <= n
      invariant CountState(s) && OwnedCounted(s.g, s.file, s.rt, s.rtOff)
      invariant s.rt == old(s.rt)
      invariant forall x :: RC(s.g, s.file, s.rt, x) == RC(s.g, old(s.file), s.rt, x) - One(InRun(x, c, i))
      invariant forall x :: !Owned(s.g, s.rt, s.rtOff, x) ==> SameAt(old(s.file), s.file, x)
      invariant s.fci <= old(s.fci)
      invariant s.fci == old(s.fci) || InRun(s.fci, c, i)
      invariant forall x :: InRun(x, c, i) && RC(s.g, s.file, s.rt, x) == 0 ==> s.fci <= x
    {
      var x := c + i;
      assert InRun(x, c, n) && !InRun(x, c, i);
      CountBounded(s.g, s.file, s.rt, x);
      var _, _ := UpdateClusterRefcount(s, x, -1);
      i := i + 1;
    }
  }
}
