/** The walk over one tree that adjusts all its counts and recomputes its copied flags. */
module Qcow2Pass {
  import opened Qcow2Layout
  import opened Qcow2Trees
  import opened Qcow2Counts
  import opened Qcow2State
  import opened Qcow2Refcount

  /** addend times n, for an addend of 1, 0 or -1. */
  function Times(addend: int, n: int): int
  {
    if addend == 1 then n else if addend == -1 then -n else 0
  }

  /** Cluster x can take one more change by addend. */
  ghost predicate Countable(g: Geo, f: File, rt: seq<nat>, rtOff: nat, addend: int, x: nat)
    requires g.Valid()
  {
    && x != 0 && !Owned(g, rt, rtOff, x)
    && (addend != 0 ==> RC(g, f, rt, x) >= 1)
    && (addend == 1 ==> RC(g, f, rt, x) < MAX_COUNT)
  }

  ghost predicate Exact(g: Geo, f: File, rt: seq<nat>, e: Entry)
    requires g.Valid()
  {
    e.cluster != 0 ==> (e.copied <==> RC(g, f, rt, e.cluster) == 1)
  }

  /** Outside the counting clusters contents agree up to copied flags. */
  ghost predicate Retagged(g: Geo, f: File, f': File, rt: seq<nat>, rtOff: nat)
    requires g.Valid()
  {
    forall y :: !Owned(g, rt, rtOff, y) ==> Alike(g, f, f', y)
  }

  ghost predicate PassState(s: BDRVQcowState)
    reads s
  {
    s.g.Valid() && CountState(s) && OwnedCounted(s.g, s.file, s.rt, s.rtOff) && ScanOk(s.g, s.rt, s.fci)
  }

  /** Adjusts the count of one entry's cluster and sets its flag by the result. */
  method UpdateEntry(s: BDRVQcowState, e: Entry, addend: int) returns (e': Entry)
    requires PassState(s) && addend in {-1, 0, 1}
    requires Countable(s.g, s.file, s.rt, s.rtOff, addend, e.cluster)
    modifies s`file, s`rt, s`rbCache, s`rbCacheOff, s`fci
    ensures PassState(s) && s.rt == old(s.rt) && s.fci <= old(s.fci)
    ensures forall y :: RC(s.g, s.file, s.rt, y) == RC(s.g, old(s.file), s.rt, y) + (if y == e.cluster then addend else 0)
    ensures forall y :: !Owned(s.g, s.rt, s.rtOff, y) ==> SameAt(old(s.file), s.file, y)
    ensures e' == Entry(RC(s.g, s.file, s.rt, e.cluster) == 1, e.cluster)
  {
    var r;
    if addend != 0 {
      CountBounded(s.g, s.file, s.rt, e.cluster);
      ghost var nb;
      r, nb := UpdateClusterRefcount(s, e.cluster, addend);
      ScanDown(s.g, s.rt, old(s.fci), s.fci);
    } else {
      r := GetRefcount(s, e.cluster);
    }
    e' := Entry(r == 1, e.cluster);
  }

  // ---------------------------------------------------------------- one L2 table

  /** Between f and f' the first j entries of table t were processed, which turned it into t'. */
  ghost predicate Processed(g: Geo, f: File, f': File, rt: seq<nat>, rtOff: nat, t: seq<Entry>, t': seq<Entry>, j: nat, addend: int)
    requires g.Valid()
  {
    && j <= |t| == |t'|
    && Erase(t') == Erase(t)
    && (forall y :: RC(g, f', rt, y) == RC(g, f, rt, y) + Times(addend, Occ(Erase(t)[..j], y)))
    && (forall y :: !Owned(g, rt, rtOff, y) ==> SameAt(f, f', y))
    && (forall m :: 0 <= m < j ==> Exact(g, f', rt, t'[m]) && Normal(t'[m]))
    && (forall m :: j <= m < |t| ==> t'[m] == t[m])
  }

  ghost predicate TableStep(s: BDRVQcowState, f: File, rt: seq<nat>, fci: nat, t: seq<Entry>, t': seq<Entry>, j: nat, addend: int)
    reads s
  {
    PassState(s) && s.rt == rt && s.fci <= fci && Processed(s.g, f, s.file, rt, s.rtOff, t, t', j, addend)
  }

  lemma {:induction false} OccPrefixAt(p: seq<nat>, j: nat, m: nat)
    requires j <= |p| && m < j && p[m] != 0
    ensures Occ(p[..j], p[m]) >= 1
  {
    OccAt(p[..j], m);
  }

  lemma {:induction false} OccPrefixLe(p: seq<nat>, j: nat, y: nat)
    requires j <= |p|
    ensures Occ(p[..j], y) <= Occ(p, y)
    decreases |p| - j
  {
    if j < |p| {
      OccPrefix(p, j, y);
      OccPrefixLe(p, j + 1, y);
    } else {
      assert p[..j] == p;
    }
  }

  /** A pointer of a table without repetitions has not been met before its slot. */
  lemma {:induction false} OccFresh(p: seq<nat>, j: nat)
    requires j < |p| && p[j] != 0 && Occ(p, p[j]) <= 1
    ensures Occ(p[..j], p[j]) == 0
  {
    OccPrefix(p, j, p[j]);
    OccPrefixLe(p, j + 1, p[j]);
  }

  ghost predicate Processable(g: Geo, f: File, rt: seq<nat>, rtOff: nat, t: seq<Entry>, addend: int)
    requires g.Valid()
  {
    && (forall y :: Occ(Erase(t), y) <= 1)
    && (forall m :: 0 <= m < |t| && t[m].cluster != 0 ==> Countable(g, f, rt, rtOff, addend, t[m].cluster))
    && (forall m :: 0 <= m < |t| ==> Normal(t[m]))
  }

  lemma {:induction false} SkipEntry(g: Geo, f: File, f': File, rt: seq<nat>, rtOff: nat, t: seq<Entry>, t': seq<Entry>, j: nat, addend: int)
    requires g.Valid() && Processable(g, f, rt, rtOff, t, addend)
    requires Processed(g, f, f', rt, rtOff, t, t', j, addend) && j < |t| && t[j].cluster == 0
    ensures Processed(g, f, f', rt, rtOff, t, t', j + 1, addend)
  {
    var p := Erase(t);
    forall y ensures Occ(p[..j + 1], y) == Occ(p[..j], y) { OccPrefix(p, j, y); }
  }

  /** The cluster of the next entry still has its old count. */
  lemma {:induction false} NextCountable(g: Geo, f: File, f': File, rt: seq<nat>, rtOff: nat, t: seq<Entry>, t': seq<Entry>, j: nat, addend: int)
    requires g.Valid() && Processable(g, f, rt, rtOff, t, addend)
    requires Processed(g, f, f', rt, rtOff, t, t', j, addend) && j < |t| && t[j].cluster != 0
    ensures t'[j] == t[j] && Countable(g, f', rt, rtOff, addend, t[j].cluster)
  {
    OccFresh(Erase(t), j);
    assert RC(g, f', rt, t[j].cluster) == RC(g, f, rt, t[j].cluster) + Times(addend, Occ(Erase(t)[..j], t[j].cluster));
  }

  lemma {:induction false} TakeEntry(g: Geo, f: File, f1: File, f2: File, rt: seq<nat>, rtOff: nat, t: seq<Entry>, t': seq<Entry>, j: nat, addend: int)
    requires g.Valid() && Processable(g, f, rt, rtOff, t, addend)
    requires Processed(g, f, f1, rt, rtOff, t, t', j, addend) && j < |t| && t[j].cluster != 0
    requires addend in {-1, 0, 1}
    requires forall y :: RC(g, f2, rt, y) == RC(g, f1, rt, y) + (if y == t[j].cluster then addend else 0)
    requires forall y :: !Owned(g, rt, rtOff, y) ==> SameAt(f1, f2, y)
    ensures Processed(g, f, f2, rt, rtOff, t, t'[j := Entry(RC(g, f2, rt, t[j].cluster) == 1, t[j].cluster)], j + 1, addend)
  {
    var p, c := Erase(t), t[j].cluster;
    var t'' := t'[j := Entry(RC(g, f2, rt, c) == 1, c)];
    forall y ensures RC(g, f2, rt, y) == RC(g, f, rt, y) + Times(addend, Occ(p[..j + 1], y)) {
      OccPrefix(p, j, y);
      assert RC(g, f1, rt, y) == RC(g, f, rt, y) + Times(addend, Occ(p[..j], y));
    }
    OccFresh(p, j);
    forall m | 0 <= m < j + 1 ensures Exact(g, f2, rt, t''[m]) && Normal(t''[m]) {
      if m < j {
        assert Exact(g, f1, rt, t'[m]) && Normal(t'[m]);
        if t'[m].cluster != 0 {
          assert p[m] == Erase(t')[m] == t'[m].cluster;
          OccPrefixAt(p, j, m);
        }
      }
    }
    assert Erase(t'') == Erase(t);
    forall y | !Owned(g, rt, rtOff, y) ensures SameAt(f, f2, y) { assert SameAt(f, f1, y); }
  }

  method UpdateTableEntry(s: BDRVQcowState, ghost f: File, ghost rt: seq<nat>, ghost fci: nat, ghost t: seq<Entry>, t': seq<Entry>, j: nat, addend: int)
    returns (t'': seq<Entry>)
    requires TableStep(s, f, rt, fci, t, t', j, addend) && j < |t| && addend in {-1, 0, 1}
    requires Processable(s.g, f, rt, s.rtOff, t, addend)
    modifies s`file, s`rt, s`rbCache, s`rbCacheOff, s`fci
    ensures TableStep(s, f, rt, fci, t, t'', j + 1, addend)
  {
    assert t'[j] == t[j];
    hide Processed, Processable, RC;
    if t'[j].cluster == 0 {
      SkipEntry(s.g, f, s.file, rt, s.rtOff, t, t', j, addend);
      t'' := t';
    } else {
      NextCountable(s.g, f, s.file, rt, s.rtOff, t, t', j, addend);
      ghost var f1 := s.file;
      var e := UpdateEntry(s, t'[j], addend);
      TakeEntry(s.g, f, f1, s.file, rt, s.rtOff, t, t', j, addend);
      t'' := t'[j := e];
    }
  }

  /** Processes a whole L2 table held in memory. */
  method UpdateTable(s: BDRVQcowState, t: seq<Entry>, addend: int) returns (t': seq<Entry>)
    requires PassState(s) && addend in {-1, 0, 1}
    requires Processable(s.g, s.file, s.rt, s.rtOff, t, addend)
    modifies s`file, s`rt, s`rbCache, s`rbCacheOff, s`fci
    ensures TableStep(s, old(s.file), old(s.rt), old(s.fci), t, t', |t|, addend)
  {
    t' := t;
    var j := 0;
    assert Erase(t)[..0] == [];
    while j < |t|
      invariant j <= |t|
      invariant TableStep(s, old(s.file), old(s.rt), old(s.fci), t, t', j, addend)
    {
      t' := UpdateTableEntry(s, old(s.file), old(s.rt), old(s.fci), t, t', j, addend);
      j := j + 1;
    }
  }

  // ---------------------------------------------------------------- one L1 slot

  ghost predicate SlotExact(g: Geo, f: File, rt: seq<nat>, e: Entry)
    requires g.Valid()
  {
    Exact(g, f, rt, e) && (e.cluster != 0 ==> forall j :: 0 <= j < g.es ==> Exact(g, f, rt, EntryAt(f, e.cluster, j)))
  }

  ghost predicate SlotProcessable(g: Geo, f: File, rt: seq<nat>, rtOff: nat, p: nat, addend: int)
    requires g.Valid()
  {
    && p != 0 && IsTable(g, f, p)
    && (forall y :: L2Refs(g, f, p, y) <= 1)
    && (forall y :: L2Refs(g, f, p, y) >= 1 ==> Countable(g, f, rt, rtOff, addend, y))
  }

  /** Between f and f' the table at p and the count of p itself were processed; e is the new L1 entry. */
  ghost predicate SlotProcessed(g: Geo, f: File, f': File, rt: seq<nat>, rtOff: nat, p: nat, e: Entry, addend: int)
    requires g.Valid()
  {
    && e.cluster == p && SlotExact(g, f', rt, e)
    && (forall y :: RC(g, f', rt, y) == RC(g, f, rt, y) + Times(addend, L2Refs(g, f, p, y)))
    && Alike(g, f, f', p)
    && (forall y :: y != p && !Owned(g, rt, rtOff, y) ==> SameAt(f, f', y))
  }

  lemma {:induction false} SlotTableReady(g: Geo, f: File, rt: seq<nat>, rtOff: nat, p: nat, addend: int)
    requires g.Valid() && SlotProcessable(g, f, rt, rtOff, p, addend)
    ensures Processable(g, f, rt, rtOff, ReadTable(g, f, p), addend)
    ensures Erase(ReadTable(g, f, p)) == L2Ptrs(g, f, p)
    ensures Countable(g, f, rt, rtOff, addend, p) && Occ(L2Ptrs(g, f, p), p) == 0
  {
    var t := ReadTable(g, f, p);
    assert Erase(t) == L2Ptrs(g, f, p);
    assert L2Refs(g, f, p, p) == 1 + Occ(L2Ptrs(g, f, p), p);
    forall y ensures Occ(Erase(t), y) <= 1 { assert L2Refs(g, f, p, y) <= 1; }
    forall m | 0 <= m < |t| && t[m].cluster != 0 ensures Countable(g, f, rt, rtOff, addend, t[m].cluster) {
      OccAt(Erase(t), m);
      assert L2Refs(g, f, p, t[m].cluster) >= 1;
    }
    forall m | 0 <= m < |t| ensures Normal(t[m]) { assert t[m] == f[p].entries[m]; }
  }

  lemma {:induction false} SlotAssemble(g: Geo, f: File, f1: File, f2: File, f3: File, rt: seq<nat>, rtOff: nat, p: nat, t': seq<Entry>, addend: int)
    requires g.Valid() && SlotProcessable(g, f, rt, rtOff, p, addend) && addend in {-1, 0, 1}
    requires Processed(g, f, f1, rt, rtOff, ReadTable(g, f, p), t', g.es, addend)
    requires TableShape(g, f1, rt, rtOff)
    requires f2 == f1[p := Table(t')]
    requires forall y :: RC(g, f3, rt, y) == RC(g, f2, rt, y) + (if y == p then addend else 0)
    requires forall y :: !Owned(g, rt, rtOff, y) ==> SameAt(f2, f3, y)
    ensures SlotProcessed(g, f, f3, rt, rtOff, p, Entry(RC(g, f3, rt, p) == 1, p), addend)
  {
    SlotTableReady(g, f, rt, rtOff, p, addend);
    var t := ReadTable(g, f, p);
    var ptrs := L2Ptrs(g, f, p);
    assert ptrs[..g.es] == ptrs;
    forall y ensures RC(g, f2, rt, y) == RC(g, f1, rt, y) {
      assert !Owned(g, rt, rtOff, p);
      RCFrame(g, f1, f2, rt, y);
    }
    forall y ensures RC(g, f3, rt, y) == RC(g, f, rt, y) + Times(addend, L2Refs(g, f, p, y)) {
      assert RC(g, f1, rt, y) == RC(g, f, rt, y) + Times(addend, Occ(ptrs, y));
    }
    assert SameAt(f2, f3, p);
    assert f3[p] == Table(t');
    assert L2Ptrs(g, f3, p) == ptrs by { assert Erase(t') == ptrs; forall j | 0 <= j < g.es ensures L2Ptrs(g, f3, p)[j] == ptrs[j] { assert Erase(t')[j] == t'[j].cluster; } }
    forall j | 0 <= j < g.es ensures Exact(g, f3, rt, EntryAt(f3, p, j)) {
      assert Exact(g, f1, rt, t'[j]);
      if t'[j].cluster != 0 {
        assert Erase(t')[j] == ptrs[j] == t'[j].cluster;
        OccAt(ptrs, j);
      }
    }
    forall y | y != p && !Owned(g, rt, rtOff, y) ensures SameAt(f, f3, y) { assert SameAt(f, f1, y); assert SameAt(f2, f3, y); }
  }

  /** Processes the L2 table at p and then the reference to it. */
  method UpdateSlot(s: BDRVQcowState, p: nat, addend: int) returns (e: Entry)
    requires PassState(s) && addend in {-1, 0, 1}
    requires SlotProcessable(s.g, s.file, s.rt, s.rtOff, p, addend)
    modifies s`file, s`rt, s`rbCache, s`rbCacheOff, s`fci
    ensures PassState(s) && s.rt == old(s.rt) && s.fci <= old(s.fci)
    ensures SlotProcessed(s.g, old(s.file), s.file, s.rt, s.rtOff, p, e, addend)
  {
    hide SlotProcessable, SlotProcessed, Processed, Processable, RC;
    SlotTableReady(s.g, s.file, s.rt, s.rtOff, p, addend);
    var t := ReadTable(s.g, s.file, p);
    var t' := UpdateTable(s, t, addend);
    ghost var f1 := s.file;
    WriteTable(s, p, t', old(s.file), addend);
    e := UpdateEntry(s, Entry(false, p), addend);
    SlotAssemble(s.g, old(s.file), f1, f1[p := Table(t')], s.file, s.rt, s.rtOff, p, t', addend);
  }

  /** Stores the table if an entry changed. */
  method WriteTable(s: BDRVQcowState, p: nat, t': seq<Entry>, ghost f: File, addend: int)
    requires PassState(s) && SlotProcessable(s.g, f, s.rt, s.rtOff, p, addend)
    requires Processed(s.g, f, s.file, s.rt, s.rtOff, ReadTable(s.g, f, p), t', s.g.es, addend)
    requires addend in {-1, 0, 1}
    modifies s`file
    ensures PassState(s) && s.file == old(s.file)[p := Table(t')]
    ensures Countable(s.g, s.file, s.rt, s.rtOff, addend, p)
  {
    SlotTableReady(s.g, f, s.rt, s.rtOff, p, addend);
    ghost var f1 := s.file;
    assert !Owned(s.g, s.rt, s.rtOff, p);
    assert SameAt(f, f1, p);
    assert ReadTable(s.g, f1, p) == f1[p].entries;
    if t' != ReadTable(s.g, s.file, p) {
      s.file := s.file[p := Table(t')];
    } else {
      assert s.file == s.file[p := Table(t')];
    }
    WrittenTable(s.g, f, f1, s.file, s.rt, s.rtOff, p, t', addend, s.rbCacheOff, s.rbCache);
  }

  lemma {:induction false} WrittenTable(g: Geo, f: File, f1: File, f2: File, rt: seq<nat>, rtOff: nat, p: nat, t': seq<Entry>, addend: int, off: nat, cache: seq<nat>)
    requires TableOk(g, f1, rt, rtOff) && BlockCacheOk(g, f1, rt, off, cache) && SlotProcessable(g, f, rt, rtOff, p, addend)
    requires Processed(g, f, f1, rt, rtOff, ReadTable(g, f, p), t', g.es, addend)
    requires f2 == f1[p := Table(t')] && addend in {-1, 0, 1}
    ensures TableOk(g, f2, rt, rtOff) && BlockCacheOk(g, f2, rt, off, cache)
    ensures Countable(g, f2, rt, rtOff, addend, p)
  {
    SlotTableReady(g, f, rt, rtOff, p, addend);
    assert forall y :: Owned(g, rt, rtOff, y) ==> SameAt(f1, f2, y);
    CountsFrame(g, f1, f2, rt, rtOff);
    assert L2Ptrs(g, f, p)[..g.es] == L2Ptrs(g, f, p);
    assert RC(g, f1, rt, p) == RC(g, f, rt, p) + Times(addend, Occ(Erase(ReadTable(g, f, p))[..g.es], p));
    if off != 0 { assert Owned(g, rt, rtOff, off); }
  }

  // ---------------------------------------------------------------- one tree

  ghost predicate RootProcessable(g: Geo, f: File, rt: seq<nat>, rtOff: nat, l1: seq<Entry>, addend: int)
    requires g.Valid()
  {
    && TreeOk(g, f, Erase(l1))
    && (forall y :: TreeRefs(g, f, Erase(l1), y) <= 1)
    && (forall y :: TreeRefs(g, f, Erase(l1), y) >= 1 ==> Countable(g, f, rt, rtOff, addend, y))
    && (forall m :: 0 <= m < |l1| ==> Normal(l1[m]))
  }

  /** Between f and f' the first i slots of l1 were processed, which turned it into l1'. */
  ghost predicate RootProcessed(g: Geo, f: File, f': File, rt: seq<nat>, rtOff: nat, l1: seq<Entry>, l1': seq<Entry>, i: nat, addend: int)
    requires g.Valid()
  {
    && i <= |l1| == |l1'|
    && Erase(l1') == Erase(l1)
    && (forall y :: RC(g, f', rt, y) == RC(g, f, rt, y) + Times(addend, TreeRefs(g, f, Erase(l1)[..i], y)))
    && Retagged(g, f, f', rt, rtOff)
    && (forall y :: !Owned(g, rt, rtOff, y) && TreeRefs(g, f, Erase(l1)[..i], y) == 0 ==> SameAt(f, f', y))
    && (forall m :: 0 <= m < i ==> SlotExact(g, f', rt, l1'[m]) && Normal(l1'[m]))
    && (forall m :: i <= m < |l1| ==> l1'[m] == l1[m])
  }

  lemma {:induction false} TreePrefixLe(g: Geo, f: File, l1: seq<nat>, i: nat, y: nat)
    requires i <= |l1|
    ensures TreeRefs(g, f, l1[..i], y) <= TreeRefs(g, f, l1, y)
    decreases |l1| - i
  {
    if i < |l1| {
      TreePrefix(g, f, l1, i, y);
      TreePrefixLe(g, f, l1, i + 1, y);
    } else {
      assert l1[..i] == l1;
    }
  }

  /** What slot i of an injective tree refers to, the slots before do not. */
  lemma {:induction false} SlotFresh(g: Geo, f: File, l1: seq<nat>, i: nat, y: nat)
    requires i < |l1| && TreeRefs(g, f, l1, y) <= 1
    ensures L2Refs(g, f, l1[i], y) <= 1
    ensures L2Refs(g, f, l1[i], y) >= 1 ==> TreeRefs(g, f, l1[..i], y) == 0
  {
    TreePrefix(g, f, l1, i, y);
    TreePrefixLe(g, f, l1, i + 1, y);
  }

  lemma {:induction false} SlotReady(g: Geo, f: File, f': File, rt: seq<nat>, rtOff: nat, l1: seq<Entry>, l1': seq<Entry>, i: nat, addend: int)
    requires g.Valid() && RootProcessable(g, f, rt, rtOff, l1, addend) && addend in {-1, 0, 1}
    requires RootProcessed(g, f, f', rt, rtOff, l1, l1', i, addend) && i < |l1| && l1[i].cluster != 0
    ensures SlotProcessable(g, f', rt, rtOff, l1[i].cluster, addend)
    ensures forall y :: L2Refs(g, f', l1[i].cluster, y) == L2Refs(g, f, l1[i].cluster, y)
    ensures SameAt(f, f', l1[i].cluster)
  {
    var r, p := Erase(l1), l1[i].cluster;
    assert r[i] == p;
    assert L2Refs(g, f, p, p) >= 1;
    SlotFresh(g, f, r, i, p);
    TreeAt(g, f, r, i, p);
    assert L2Ok(g, f, p);
    assert SameAt(f, f', p);
    AlikePtrs(g, f, f', p);
    forall y ensures L2Refs(g, f', p, y) <= 1 { SlotFresh(g, f, r, i, y); }
    forall y | L2Refs(g, f', p, y) >= 1 ensures Countable(g, f', rt, rtOff, addend, y) {
      SlotFresh(g, f, r, i, y);
      TreeAt(g, f, r, i, y);
      assert Countable(g, f, rt, rtOff, addend, y);
      assert RC(g, f', rt, y) == RC(g, f, rt, y) + Times(addend, TreeRefs(g, f, r[..i], y));
    }
  }

  lemma {:induction false} SkipSlot(g: Geo, f: File, f': File, rt: seq<nat>, rtOff: nat, l1: seq<Entry>, l1': seq<Entry>, i: nat, addend: int)
    requires g.Valid() && RootProcessable(g, f, rt, rtOff, l1, addend)
    requires RootProcessed(g, f, f', rt, rtOff, l1, l1', i, addend) && i < |l1| && l1[i].cluster == 0
    ensures RootProcessed(g, f, f', rt, rtOff, l1, l1', i + 1, addend)
  {
    var r := Erase(l1);
    forall y ensures TreeRefs(g, f, r[..i + 1], y) == TreeRefs(g, f, r[..i], y) { TreePrefix(g, f, r, i, y); }
  }

  /** A slot processed earlier is not disturbed by slot i. */
  lemma {:induction false} SlotKept(g: Geo, f: File, f1: File, f2: File, rt: seq<nat>, rtOff: nat, l1: seq<Entry>, m: nat, i: nat, e: Entry, e2: Entry, addend: int)
    requires g.Valid() && RootProcessable(g, f, rt, rtOff, l1, addend)
    requires m < |l1| && i < |l1| && m != i && l1[i].cluster != 0 && e.cluster == l1[m].cluster
    requires Retagged(g, f, f1, rt, rtOff) && SlotExact(g, f1, rt, e)
    requires SlotProcessed(g, f1, f2, rt, rtOff, l1[i].cluster, e2, addend)
    requires forall y :: L2Refs(g, f1, l1[i].cluster, y) == L2Refs(g, f, l1[i].cluster, y)
    ensures SlotExact(g, f2, rt, e)
  {
    if e.cluster != 0 {
      var r, p := Erase(l1), e.cluster;
      TreeAtTwo(g, f, r, m, i, p);
      TreeAt(g, f, r, m, p);
      assert Countable(g, f, rt, rtOff, addend, p);
      assert SameAt(f1, f2, p);
      AlikePtrs(g, f, f1, p);
      forall j | 0 <= j < g.es ensures Exact(g, f2, rt, EntryAt(f2, p, j)) {
        var c := EntryAt(f1, p, j).cluster;
        assert Exact(g, f1, rt, EntryAt(f1, p, j));
        if c != 0 {
          assert L2Ptrs(g, f, p)[j] == c;
          OccAt(L2Ptrs(g, f, p), j);
          TreeAtTwo(g, f, r, m, i, c);
        }
      }
    }
  }

  lemma {:induction false} TakeSlot(g: Geo, f: File, f1: File, f2: File, rt: seq<nat>, rtOff: nat, l1: seq<Entry>, l1': seq<Entry>, i: nat, e: Entry, addend: int)
    requires g.Valid() && RootProcessable(g, f, rt, rtOff, l1, addend) && addend in {-1, 0, 1}
    requires RootProcessed(g, f, f1, rt, rtOff, l1, l1', i, addend) && i < |l1| && l1[i].cluster != 0
    requires SlotProcessed(g, f1, f2, rt, rtOff, l1[i].cluster, e, addend)
    ensures RootProcessed(g, f, f2, rt, rtOff, l1, l1'[i := e], i + 1, addend)
  {
    var r, p := Erase(l1), l1[i].cluster;
    SlotReady(g, f, f1, rt, rtOff, l1, l1', i, addend);
    var l2 := l1'[i := e];
    assert Erase(l2) == r by { forall m | 0 <= m < |l2| ensures Erase(l2)[m] == r[m] { assert Erase(l1')[m] == r[m]; } }
    forall y ensures RC(g, f2, rt, y) == RC(g, f, rt, y) + Times(addend, TreeRefs(g, f, r[..i + 1], y)) {
      TreePrefix(g, f, r, i, y);
      assert RC(g, f1, rt, y) == RC(g, f, rt, y) + Times(addend, TreeRefs(g, f, r[..i], y));
    }
    TakeSlotFrame(g, f, f1, f2, rt, rtOff, l1, l1', i, e, addend);
    forall m | 0 <= m < i + 1 ensures SlotExact(g, f2, rt, l2[m]) && Normal(l2[m]) {
      if m < i {
        assert l2[m] == l1'[m];
        assert Erase(l1')[m] == r[m];
        assert SlotExact(g, f1, rt, l1'[m]);
        SlotKept(g, f, f1, f2, rt, rtOff, l1, m, i, l1'[m], e, addend);
      }
    }
  }

  lemma {:induction false} TakeSlotFrame(g: Geo, f: File, f1: File, f2: File, rt: seq<nat>, rtOff: nat, l1: seq<Entry>, l1': seq<Entry>, i: nat, e: Entry, addend: int)
    requires g.Valid() && RootProcessable(g, f, rt, rtOff, l1, addend) && addend in {-1, 0, 1}
    requires RootProcessed(g, f, f1, rt, rtOff, l1, l1', i, addend) && i < |l1| && l1[i].cluster != 0
    requires SlotProcessed(g, f1, f2, rt, rtOff, l1[i].cluster, e, addend)
    ensures Retagged(g, f, f2, rt, rtOff)
    ensures forall y :: !Owned(g, rt, rtOff, y) && TreeRefs(g, f, Erase(l1)[..i + 1], y) == 0 ==> SameAt(f, f2, y)
  {
    var r, p := Erase(l1), l1[i].cluster;
    SlotReady(g, f, f1, rt, rtOff, l1, l1', i, addend);
    forall y | !Owned(g, rt, rtOff, y) ensures Alike(g, f, f2, y) {
      assert Alike(g, f, f1, y);
      if y != p {
        assert SameAt(f1, f2, y);
        AlikePtrs(g, f, f1, y);
        AlikePtrs(g, f1, f2, y);
      }
    }
    forall y | !Owned(g, rt, rtOff, y) && TreeRefs(g, f, r[..i + 1], y) == 0 ensures SameAt(f, f2, y) {
      TreePrefix(g, f, r, i, y);
      assert SameAt(f, f1, y);
      assert y != p;
      assert SameAt(f1, f2, y);
    }
  }

  ghost predicate RootStep(s: BDRVQcowState, f: File, rt: seq<nat>, fci: nat, l1: seq<Entry>, l1': seq<Entry>, i: nat, addend: int)
    reads s
  {
    PassState(s) && s.rt == rt && s.fci <= fci && RootProcessed(s.g, f, s.file, rt, s.rtOff, l1, l1', i, addend)
  }

  method UpdateRootSlot(s: BDRVQcowState, ghost f: File, ghost rt: seq<nat>, ghost fci: nat, ghost l1: seq<Entry>, l1': seq<Entry>, i: nat, addend: int)
    returns (l1'': seq<Entry>)
    requires RootStep(s, f, rt, fci, l1, l1', i, addend) && i < |l1| && addend in {-1, 0, 1}
    requires RootProcessable(s.g, f, rt, s.rtOff, l1, addend)
    modifies s`file, s`rt, s`rbCache, s`rbCacheOff, s`fci
    ensures RootStep(s, f, rt, fci, l1, l1'', i + 1, addend)
  {
    assert l1'[i] == l1[i];
    hide RootProcessed, RootProcessable, SlotProcessable, SlotProcessed, RC;
    if l1'[i].cluster == 0 {
      SkipSlot(s.g, f, s.file, rt, s.rtOff, l1, l1', i, addend);
      l1'' := l1';
    } else {
      SlotReady(s.g, f, s.file, rt, s.rtOff, l1, l1', i, addend);
      ghost var f1 := s.file;
      var e := UpdateSlot(s, l1'[i].cluster, addend);
      TakeSlot(s.g, f, f1, s.file, rt, s.rtOff, l1, l1', i, e, addend);
      l1'' := l1'[i := e];
    }
  }

  /** Adds addend to the count of everything the tree under l1 refers to, once per reference, and
      makes all its copied flags exact. */
  method UpdateRoot(s: BDRVQcowState, l1: seq<Entry>, addend: int) returns (l1': seq<Entry>)
    requires PassState(s) && addend in {-1, 0, 1}
    requires RootProcessable(s.g, s.file, s.rt, s.rtOff, l1, addend)
    modifies s`file, s`rt, s`rbCache, s`rbCacheOff, s`fci
    ensures RootStep(s, old(s.file), old(s.rt), old(s.fci), l1, l1', |l1|, addend)
  {
    l1' := l1;
    var i := 0;
    assert Erase(l1)[..0] == [];
    while i < |l1|
      invariant i <= |l1|
      invariant RootStep(s, old(s.file), old(s.rt), old(s.fci), l1, l1', i, addend)
    {
      l1' := UpdateRootSlot(s, old(s.file), old(s.rt), old(s.fci), l1, l1', i, addend);
      i := i + 1;
    }
  }
}
