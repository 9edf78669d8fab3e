/** The two-level reference count table as a flat map from cluster number to count. */
module Qcow2Counts {
  import opened Division
  import opened Qcow2Layout

  const MAX_COUNT: nat := 0xffff

  // ---------------------------------------------------------------- the flat map

  /** The count stored for cluster x; clusters without a block count as free. */
  ghost function RC(g: Geo, f: File, rt: seq<nat>, x: nat): nat
    requires g.epb > 0
  {
    if Quot(x, g.epb) < |rt| && rt[Quot(x, g.epb)] != 0 then CountAt(f, rt[Quot(x, g.epb)], Rem(x, g.epb)) else 0
  }

  ghost predicate IsBlock(rt: seq<nat>, x: nat)
  {
    x != 0 && x in rt
  }

  ghost predicate BlockOk(g: Geo, f: File, c: nat)
  {
    IsCounts(g, f, c) && forall j :: 0 <= j < g.epb ==> f[c].counts[j] <= MAX_COUNT
  }

  ghost predicate IsPtrs(g: Geo, f: File, c: nat)
  {
    c in f && f[c].Ptrs? && |f[c].ptrs| == g.es
  }

  /** Clusters that only the reference counting code writes: its blocks and its table. */
  ghost predicate Owned(g: Geo, rt: seq<nat>, rtOff: nat, x: nat)
    requires g.es > 0
  {
    IsBlock(rt, x) || InRun(x, rtOff, EntryClusters(g, |rt|))
  }

  /** Blocks exist for an initial part of the table, are distinct and lie outside the table. */
  ghost predicate BlocksOk(g: Geo, rt: seq<nat>, rtOff: nat)
    requires g.es > 0
  {
    && rtOff > 0
    && (forall k, m :: 0 <= k < m < |rt| && rt[m] != 0 ==> rt[k] != 0 && rt[k] != rt[m])
    && (forall x :: IsBlock(rt, x) ==> !InRun(x, rtOff, EntryClusters(g, |rt|)))
  }

  ghost predicate BlocksStored(g: Geo, f: File, rt: seq<nat>)
  {
    forall x :: IsBlock(rt, x) ==> BlockOk(g, f, x)
  }

  /** Slot k of the reference count table in the file. */
  ghost function TableSlot(g: Geo, f: File, rtOff: nat, k: nat): nat
    requires g.es > 0
  {
    PtrAt(f, rtOff + Quot(k, g.es), Rem(k, g.es))
  }

  /** The table in memory is the table in the file. */
  ghost predicate TableStored(g: Geo, f: File, rt: seq<nat>, rtOff: nat)
    requires g.es > 0
  {
    && (forall x :: InRun(x, rtOff, EntryClusters(g, |rt|)) ==> IsPtrs(g, f, x))
    && (forall k {:trigger TableSlot(g, f, rtOff, k)} :: 0 <= k < |rt| ==> TableSlot(g, f, rtOff, k) == rt[k])
  }

  /** Header, table and blocks are themselves counted. */
  ghost predicate OwnedCounted(g: Geo, f: File, rt: seq<nat>, rtOff: nat)
    requires g.es > 0 && g.epb > 0
  {
    RC(g, f, rt, 0) >= 1 && forall x :: Owned(g, rt, rtOff, x) ==> RC(g, f, rt, x) >= 1
  }

  ghost predicate TableShape(g: Geo, f: File, rt: seq<nat>, rtOff: nat)
  {
    && g.Valid()
    && BlocksOk(g, rt, rtOff)
    && BlocksStored(g, f, rt)
    && TableStored(g, f, rt, rtOff)
  }

  ghost predicate TableOk(g: Geo, f: File, rt: seq<nat>, rtOff: nat)
  {
    TableShape(g, f, rt, rtOff) && OwnedCounted(g, f, rt, rtOff)
  }

  /** The cached block, if any, is the block in the file. */
  ghost predicate BlockCacheOk(g: Geo, f: File, rt: seq<nat>, off: nat, cache: seq<nat>)
  {
    |cache| == g.epb && (off != 0 ==> IsBlock(rt, off) && IsCounts(g, f, off) && f[off].counts == cache)
  }

  /** The scan position has not run ahead of the blocks that exist. */
  ghost predicate ScanOk(g: Geo, rt: seq<nat>, fci: nat)
    requires g.epb > 0
  {
    fci == 0 || (Quot(fci - 1, g.epb) < |rt| && rt[Quot(fci - 1, g.epb)] != 0)
  }

  lemma {:induction false} ScanDown(g: Geo, rt: seq<nat>, fci: nat, fci': nat)
    requires g.Valid() && ScanOk(g, rt, fci) && fci' <= fci
    requires forall k, m :: 0 <= k < m < |rt| && rt[m] != 0 ==> rt[k] != 0
    ensures ScanOk(g, rt, fci')
  {
    if fci' > 0 { DivMono(fci' - 1, fci - 1, g.epb); }
  }

  ghost function Capacity(g: Geo, rt: seq<nat>): nat
  {
    |rt| * g.epb
  }

  /** The last k clusters the table can count, and everything above, are free and unscanned. */
  ghost predicate Room(g: Geo, f: File, rt: seq<nat>, fci: nat, k: nat)
    requires g.epb > 0
  {
    fci + k <= Capacity(g, rt) && forall x :: x + k >= Capacity(g, rt) ==> RC(g, f, rt, x) == 0
  }

  /** What is left of the room after something of the given cost. */
  function Left(room: nat, cost: nat): nat
  {
    if cost <= room then room - cost else 0
  }

  /** The table gained block nb in an empty slot, or nothing if nb is 0. */
  ghost predicate NewTable(rt: seq<nat>, rt': seq<nat>, nb: nat)
  {
    if nb == 0 then rt' == rt else exists k :: 0 <= k < |rt| && rt[k] == 0 && rt' == rt[k := nb]
  }

  lemma {:induction false} CountedInTable(g: Geo, f: File, rt: seq<nat>, x: nat)
    requires g.epb > 0 && RC(g, f, rt, x) != 0
    ensures x < Capacity(g, rt)
  {
    DivBound(x, g.epb, |rt|);
  }

  /** The first free cluster at or after start. */
  ghost function NextFree(g: Geo, f: File, rt: seq<nat>, start: nat): (c: nat)
    requires g.epb > 0
    ensures c >= start && RC(g, f, rt, c) == 0
    ensures forall x :: start <= x < c ==> RC(g, f, rt, x) != 0
    decreases Capacity(g, rt) - start
  {
    if RC(g, f, rt, start) == 0 then start
    else
      CountedInTable(g, f, rt, start);
      NextFree(g, f, rt, start + 1)
  }

  /** A count for x can be stored: its block exists, or the cluster that will become its block
      lies in the range that block describes. */
  ghost predicate CanCount(g: Geo, f: File, rt: seq<nat>, fci: nat, x: nat)
    requires g.epb > 0
  {
    && Quot(x, g.epb) < |rt|
    && (rt[Quot(x, g.epb)] != 0 ||
        (&& x < fci
         && Quot(NextFree(g, f, rt, fci), g.epb) == Quot(x, g.epb)
         && forall k :: 0 <= k < Quot(x, g.epb) ==> rt[k] != 0))
  }

  // ---------------------------------------------------------------- frames

  /** The count of x is read from the block of its range only. */
  lemma {:induction false} RCFrame(g: Geo, f: File, f': File, rt: seq<nat>, x: nat)
    requires g.epb > 0
    requires forall b :: IsBlock(rt, b) ==> SameAt(f, f', b)
    ensures RC(g, f', rt, x) == RC(g, f, rt, x)
  {
    if Quot(x, g.epb) < |rt| && rt[Quot(x, g.epb)] != 0 {
      assert IsBlock(rt, rt[Quot(x, g.epb)]);
    }
  }

  lemma {:induction false} TableStoredFrame(g: Geo, f: File, f': File, rt: seq<nat>, rtOff: nat)
    requires g.es > 0 && TableStored(g, f, rt, rtOff)
    requires forall x :: InRun(x, rtOff, EntryClusters(g, |rt|)) ==> SameAt(f, f', x)
    ensures TableStored(g, f', rt, rtOff)
  {
    forall k | 0 <= k < |rt| ensures TableSlot(g, f', rtOff, k) == rt[k] {
      SlotInRun(g, k, |rt|);
      assert TableSlot(g, f, rtOff, k) == rt[k];
      var c := rtOff + Quot(k, g.es);
      assert InRun(c, rtOff, EntryClusters(g, |rt|));
      assert SameAt(f, f', c);
    }
  }

  lemma {:induction false} CountBounded(g: Geo, f: File, rt: seq<nat>, x: nat)
    requires g.epb > 0 && BlocksStored(g, f, rt)
    ensures RC(g, f, rt, x) <= MAX_COUNT
  {
    if Quot(x, g.epb) < |rt| && rt[Quot(x, g.epb)] != 0 {
      assert IsBlock(rt, rt[Quot(x, g.epb)]);
    }
  }

  /** Counting clusters stay counted while counts grow, a new block included. */
  lemma {:induction false} OwnedStep(g: Geo, f: File, rt: seq<nat>, f': File, rt': seq<nat>, rtOff: nat, k: nat, nb: nat)
    requires g.Valid() && OwnedCounted(g, f, rt, rtOff)
    requires if nb == 0 then rt' == rt else k < |rt| && rt[k] == 0 && rt' == rt[k := nb] && RC(g, f', rt', nb) >= 1
    requires forall x :: RC(g, f', rt', x) >= RC(g, f, rt, x)
    ensures OwnedCounted(g, f', rt', rtOff)
    ensures forall x :: Owned(g, rt, rtOff, x) ==> Owned(g, rt', rtOff, x)
  {
    forall x | IsBlock(rt, x) ensures IsBlock(rt', x) {
      var i :| 0 <= i < |rt| && rt[i] == x;
      assert rt'[i] == x;
    }
    forall x | Owned(g, rt', rtOff, x) && x != nb ensures Owned(g, rt, rtOff, x) {
      if IsBlock(rt', x) {
        var i :| 0 <= i < |rt'| && rt'[i] == x;
        assert rt[i] == x;
      }
    }
    assert RC(g, f', rt', 0) >= RC(g, f, rt, 0);
  }

  /** Writes outside the counting clusters do not disturb the counts. */
  lemma {:induction false} CountsFrame(g: Geo, f: File, f': File, rt: seq<nat>, rtOff: nat)
    requires TableOk(g, f, rt, rtOff)
    requires forall x :: Owned(g, rt, rtOff, x) ==> SameAt(f, f', x)
    ensures TableOk(g, f', rt, rtOff)
    ensures forall x :: RC(g, f', rt, x) == RC(g, f, rt, x)
  {
    assert forall b :: IsBlock(rt, b) ==> Owned(g, rt, rtOff, b);
    forall x ensures RC(g, f', rt, x) == RC(g, f, rt, x) { RCFrame(g, f, f', rt, x); }
    assert forall b :: InRun(b, rtOff, EntryClusters(g, |rt|)) ==> Owned(g, rt, rtOff, b);
    TableStoredFrame(g, f, f', rt, rtOff);
  }

  /** As few clusters as hold n entries. */
  lemma {:induction false} EntryClustersLeast(g: Geo, n: nat)
    requires g.es > 0
    ensures n <= EntryClusters(g, n) * g.es < n + g.es
  {
    hide Quot;
    QuotBetween(n + g.es - 1, g.es);
  }

  lemma {:induction false} SlotInRun(g: Geo, k: nat, n: nat)
    requires g.es > 0 && k < n
    ensures Quot(k, g.es) < EntryClusters(g, n)
  {
    DivMono(k + g.es, n + g.es - 1, g.es);
    DivShift(k, g.es);
  }

  /** Storing count v for cluster c changes that one count. */
  lemma {:induction false} StoreCountRC(g: Geo, f: File, rt: seq<nat>, c: nat, v: nat, x: nat)
    requires g.epb > 0
    requires forall k, m :: 0 <= k < m < |rt| && rt[m] != 0 ==> rt[k] != rt[m]
    requires Quot(c, g.epb) < |rt| && rt[Quot(c, g.epb)] != 0 && IsCounts(g, f, rt[Quot(c, g.epb)])
    ensures RC(g, PutCount(f, rt[Quot(c, g.epb)], Rem(c, g.epb), v), rt, x) == if x == c then v else RC(g, f, rt, x)
  {
    var k, m := Quot(x, g.epb), Quot(c, g.epb);
    if k < |rt| && rt[k] != 0 {
      if k == m {
        if Rem(x, g.epb) == Rem(c, g.epb) { DivModUnique(x, c, g.epb); }
      } else {
        assert rt[k] != rt[m];
      }
    }
  }

  lemma {:induction false} StoreCount(g: Geo, f: File, rt: seq<nat>, rtOff: nat, c: nat, v: nat)
    requires TableShape(g, f, rt, rtOff)
    requires Quot(c, g.epb) < |rt| && rt[Quot(c, g.epb)] != 0
    requires v <= MAX_COUNT
    ensures
      var f' := PutCount(f, rt[Quot(c, g.epb)], Rem(c, g.epb), v);
      && TableShape(g, f', rt, rtOff)
      && (forall x :: RC(g, f', rt, x) == if x == c then v else RC(g, f, rt, x))
      && (forall x :: !IsBlock(rt, x) ==> SameAt(f, f', x))
  {
    var b := rt[Quot(c, g.epb)];
    assert IsBlock(rt, b);
    assert BlockOk(g, f, b);
    var f' := PutCount(f, b, Rem(c, g.epb), v);
    forall x ensures RC(g, f', rt, x) == if x == c then v else RC(g, f, rt, x) {
      StoreCountRC(g, f, rt, c, v, x);
    }
    TableStoredFrame(g, f, f', rt, rtOff);
  }

  /** Entering an empty block o for range k leaves every count as it was. */
  lemma {:induction false} NewBlock(g: Geo, f: File, rt: seq<nat>, rtOff: nat, k: nat, o: nat)
    requires TableShape(g, f, rt, rtOff)
    requires k < |rt| && rt[k] == 0 && forall m :: 0 <= m < k ==> rt[m] != 0
    requires o != 0 && !Owned(g, rt, rtOff, o)
    ensures
      var f' := PutPtr(f[o := Counts(seq(g.epb, _ => 0))], rtOff + Quot(k, g.es), Rem(k, g.es), o);
      var rt' := rt[k := o];
      && TableShape(g, f', rt', rtOff)
      && (forall x :: RC(g, f', rt', x) == RC(g, f, rt, x))
      && (forall x :: !Owned(g, rt', rtOff, x) ==> SameAt(f, f', x))
      && IsBlock(rt', o) && IsCounts(g, f', o) && f'[o].counts == seq(g.epb, _ => 0)
  {
    var c := rtOff + Quot(k, g.es);
    SlotInRun(g, k, |rt|);
    assert InRun(c, rtOff, EntryClusters(g, |rt|));
    assert IsPtrs(g, f, c);
    var f1 := f[o := Counts(seq(g.epb, _ => 0))];
    var f' := PutPtr(f1, c, Rem(k, g.es), o);
    var rt' := rt[k := o];
    assert rt'[k] == o;
    forall x ensures IsBlock(rt', x) <==> (IsBlock(rt, x) || x == o) {
      if IsBlock(rt, x) {
        var i :| 0 <= i < |rt| && rt[i] == x;
        assert rt'[i] == x;
      }
    }
    assert forall x :: InRun(x, rtOff, EntryClusters(g, |rt|)) ==> Owned(g, rt, rtOff, x);
    assert forall x :: IsBlock(rt, x) ==> Owned(g, rt, rtOff, x) && x != o && x != c && SameAt(f, f', x);
    NewBlockRC(g, f, f', rt, k, o);
    NewBlockStored(g, f, f', rt, rtOff, k, o);
    forall m, n | 0 <= m < n < |rt'| && rt'[n] != 0 ensures rt'[m] != 0 && rt'[m] != rt'[n] {
      if n == k { assert IsBlock(rt, rt[m]); }
    }
  }

  lemma {:induction false} NewBlockRC(g: Geo, f: File, f': File, rt: seq<nat>, k: nat, o: nat)
    requires g.epb > 0
    requires k < |rt| && rt[k] == 0
    requires o in f' && f'[o] == Counts(seq(g.epb, _ => 0))
    requires forall x :: IsBlock(rt, x) ==> SameAt(f, f', x)
    ensures forall x :: RC(g, f', rt[k := o], x) == RC(g, f, rt, x)
  {
    forall x: nat ensures RC(g, f', rt[k := o], x) == RC(g, f, rt, x) {
      var m := Quot(x, g.epb);
      if m < |rt| && m != k && rt[m] != 0 { assert IsBlock(rt, rt[m]); }
    }
  }

  lemma {:induction false} NewBlockStored(g: Geo, f: File, f': File, rt: seq<nat>, rtOff: nat, k: nat, o: nat)
    requires g.es > 0 && TableStored(g, f, rt, rtOff)
    requires k < |rt|
    requires
      var c := rtOff + Quot(k, g.es);
      && IsPtrs(g, f, c) && IsPtrs(g, f', c) && f'[c].ptrs == f[c].ptrs[Rem(k, g.es) := o]
      && forall x :: InRun(x, rtOff, EntryClusters(g, |rt|)) && x != c ==> SameAt(f, f', x)
    ensures TableStored(g, f', rt[k := o], rtOff)
  {
    var c := rtOff + Quot(k, g.es);
    forall m | 0 <= m < |rt| ensures TableSlot(g, f', rtOff, m) == rt[k := o][m] {
      SlotInRun(g, m, |rt|);
      var d := rtOff + Quot(m, g.es);
      assert InRun(d, rtOff, EntryClusters(g, |rt|));
      assert TableSlot(g, f, rtOff, m) == rt[m];
      if d == c {
        if Rem(m, g.es) == Rem(k, g.es) { DivModUnique(m, k, g.es); }
      } else {
        assert SameAt(f, f', d);
      }
    }
  }
}
