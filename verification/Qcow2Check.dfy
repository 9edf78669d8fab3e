/** The format's own consistency check: it walks every table and compares what it finds with the
    stored counts and the copied flags. */
module Qcow2Check {
  import opened Qcow2Layout
  import opened Qcow2Trees
  import opened Qcow2Counts
  import opened Qcow2State
  import opened Qcow2Refcount
  import opened Qcow2Volume
  import opened Qcow2Image

  const WRAP: nat := 0x10000

  /** References found so far in 16-bit counters, and the number of complaints. */
  datatype Tally = Tally(table: seq<nat>, errors: nat)

  /** k references to cluster x can be tallied in n counters. */
  ghost predicate Fine(n: nat, x: nat, k: nat)
  {
    k == 0 || (x < n && k < WRAP)
  }

  /** The tally after references m were found: it complained exactly if some cluster is out of range or
      counted too often, or a flag was wrong, and is right unless it complained. */
  ghost predicate Tallied(t: Tally, m: nat -> nat, flagsOk: bool)
  {
    && (t.errors == 0 <==> flagsOk && forall x: nat :: Fine(|t.table|, x, m(x)))
    && (t.errors == 0 ==> forall x: nat :: x < |t.table| ==> t.table[x] == m(x))
  }

  lemma {:induction false} TalliedSame(t: Tally, m: nat -> nat, m': nat -> nat, flagsOk: bool)
    requires Tallied(t, m, flagsOk) && forall x: nat :: m'(x) == m(x)
    ensures Tallied(t, m', flagsOk)
  {
    forall x: nat ensures Fine(|t.table|, x, m'(x)) <==> Fine(|t.table|, x, m(x)) {}
  }

  /** One more reference to cluster c. */
  method IncOne(t: Tally, c: nat, ghost m: nat -> nat, ghost m': nat -> nat, ghost flagsOk: bool) returns (t': Tally)
    requires Tallied(t, m, flagsOk) && forall x: nat :: m'(x) == m(x) + One(x == c)
    ensures |t'.table| == |t.table| && Tallied(t', m', flagsOk)
  {
    if c >= |t.table| {
      assert !Fine(|t.table|, c, m'(c));
      t' := t.(errors := t.errors + 1);
    } else {
      var k := (t.table[c] + 1) % WRAP;
      t' := Tally(t.table[c := k], if k == 0 then t.errors + 1 else t.errors);
      if t.errors == 0 {
        assert Fine(|t.table|, c, m(c));
        assert Fine(|t.table|, c, m'(c)) <==> k != 0;
        forall x: nat | x != c ensures Fine(|t.table|, x, m'(x)) { assert Fine(|t.table|, x, m(x)); }
      } else if flagsOk {
        var x: nat :| !Fine(|t.table|, x, m(x));
        assert !Fine(|t.table|, x, m'(x));
      }
    }
  }

  /** One more reference to each of n clusters. */
  method IncRefcounts(t: Tally, c: nat, n: nat, ghost m: nat -> nat, ghost m': nat -> nat, ghost flagsOk: bool) returns (t': Tally)
    requires Tallied(t, m, flagsOk) && forall x: nat :: m'(x) == m(x) + One(InRun(x, c, n))
    ensures |t'.table| == |t.table| && Tallied(t', m', flagsOk)
  {
    hide Tallied;
    t' := t;
    ghost var p := m;
    for i := 0 to n
      invariant |t'.table| == |t.table| && Tallied(t', p, flagsOk)
      invariant forall x: nat :: p(x) == m(x) + One(InRun(x, c, i))
    {
      ghost var p' := (x: nat) => p(x) + One(x == c + i);
      t' := IncOne(t', c + i, p, p', flagsOk);
      p := p';
    }
    TalliedSame(t', p, m', flagsOk);
  }

  /** A complaint if the copied flag of e and the count of its cluster disagree. */
  method CheckCopied(s: BDRVQcowState, t: Tally, e: Entry, ghost m: nat -> nat, ghost flagsOk: bool) returns (t': Tally)
    requires CountState(s) && Tallied(t, m, flagsOk)
    modifies s`rbCache, s`rbCacheOff
    ensures CountState(s) && t'.table == t.table
    ensures Tallied(t', m, flagsOk && (e.copied <==> RC(s.g, s.file, s.rt, e.cluster) == 1))
  {
    hide RC, TableShape, BlockCacheOk;
    var r := GetRefcount(s, e.cluster);
    t' := if (r == 1) != e.copied then t.(errors := t.errors + 1) else t;
  }

  // ---------------------------------------------------------------- one L1 table

  ghost predicate EntriesFlagged(g: Geo, f: File, rt: seq<nat>, es: seq<Entry>)
    requires g.epb > 0
  {
    forall j :: 0 <= j < |es| && es[j].cluster != 0 ==> (es[j].copied <==> RC(g, f, rt, es[j].cluster) == 1)
  }

  /** The clusters an L2 table names. */
  method CheckL2(s: BDRVQcowState, t: Tally, es: seq<Entry>, checkCopied: bool, ghost m: nat -> nat, ghost m': nat -> nat, ghost flagsOk: bool) returns (t': Tally)
    requires CountState(s) && s.g.Valid() && Tallied(t, m, flagsOk) && forall x: nat :: m'(x) == m(x) + Occ(Erase(es), x)
    modifies s`rbCache, s`rbCacheOff
    ensures CountState(s) && |t'.table| == |t.table|
    ensures Tallied(t', m', flagsOk && (checkCopied ==> EntriesFlagged(s.g, s.file, s.rt, es)))
  {
    hide RC, TableShape, BlockCacheOk, Tallied, Occ, Erase;
    t' := t;
    ghost var p, ok := m, flagsOk;
    NothingNamed(es);
    for j := 0 to |es|
      invariant CountState(s) && |t'.table| == |t.table| && Tallied(t', p, ok)
      invariant ok <==> flagsOk && (checkCopied ==> EntriesFlagged(s.g, s.file, s.rt, es[..j]))
      invariant forall x: nat :: p(x) == m(x) + Occ(Erase(es[..j]), x)
    {
      var e := es[j];
      ghost var p' := (x: nat) => p(x) + One(x == e.cluster && x != 0);
      if e.cluster != 0 {
        if checkCopied {
          t' := CheckCopied(s, t', e, p, ok);
          ok := ok && (e.copied <==> RC(s.g, s.file, s.rt, e.cluster) == 1);
        }
        t' := IncOne(t', e.cluster, p, p', ok);
      } else {
        TalliedSame(t', p, p', ok);
      }
      assert es[..j + 1] == es[..j] + [e];
      EraseSnoc(es, j);
      p := p';
    }
    assert es[..|es|] == es;
    TalliedSame(t', p, m', ok);
  }

  lemma {:induction false} NothingNamed(es: seq<Entry>)
    ensures forall x: nat :: Occ(Erase(es[..0]), x) == 0
  {
  }

  lemma {:induction false} EraseSnoc(es: seq<Entry>, j: nat)
    requires j < |es|
    ensures forall x: nat :: Occ(Erase(es[..j + 1]), x) == Occ(Erase(es[..j]), x) + One(x != 0 && es[j].cluster == x)
  {
    assert Erase(es[..j + 1])[..j] == Erase(es[..j]);
  }

  ghost predicate TreeFlagged(g: Geo, f: File, rt: seq<nat>, l1: seq<Entry>)
    requires g.epb > 0
  {
    && EntriesFlagged(g, f, rt, l1)
    && forall k :: 0 <= k < |l1| && l1[k].cluster != 0 ==> EntriesFlagged(g, f, rt, ReadTable(g, f, l1[k].cluster))
  }

  lemma {:induction false} L2PtrsRead(g: Geo, f: File, c: nat)
    ensures Erase(ReadTable(g, f, c)) == L2Ptrs(g, f, c)
  {
  }

  lemma {:induction false} TreeFlaggedSnoc(g: Geo, f: File, rt: seq<nat>, l1: seq<Entry>, i: nat)
    requires g.epb > 0 && i < |l1|
    ensures TreeFlagged(g, f, rt, l1[..i + 1]) <==>
              && TreeFlagged(g, f, rt, l1[..i])
              && (l1[i].cluster != 0 ==> (l1[i].copied <==> RC(g, f, rt, l1[i].cluster) == 1) && EntriesFlagged(g, f, rt, ReadTable(g, f, l1[i].cluster)))
  {
    hide RC, ReadTable;
    assert l1[..i + 1] == l1[..i] + [l1[i]];
    if TreeFlagged(g, f, rt, l1[..i + 1]) {
      assert forall k :: 0 <= k < i ==> l1[..i][k] == l1[..i + 1][k];
      assert l1[..i + 1][i] == l1[i];
    }
  }

  /** The L2 table in an L1 slot and what it names. */
  method CheckSlot(s: BDRVQcowState, t: Tally, e: Entry, checkCopied: bool, ghost m: nat -> nat, ghost m': nat -> nat, ghost flagsOk: bool) returns (t': Tally)
    requires CountState(s) && s.g.Valid() && e.cluster != 0 && Tallied(t, m, flagsOk) && forall x: nat :: m'(x) == m(x) + L2Refs(s.g, s.file, e.cluster, x)
    modifies s`rbCache, s`rbCacheOff
    ensures CountState(s) && |t'.table| == |t.table|
    ensures Tallied(t', m', flagsOk && (checkCopied ==> (e.copied <==> RC(s.g, s.file, s.rt, e.cluster) == 1) && EntriesFlagged(s.g, s.file, s.rt, ReadTable(s.g, s.file, e.cluster))))
  {
    hide RC, TableShape, BlockCacheOk, Tallied, EntriesFlagged, ReadTable;
    t' := t;
    ghost var ok := flagsOk;
    if checkCopied {
      t' := CheckCopied(s, t', e, m, ok);
      ok := ok && (e.copied <==> RC(s.g, s.file, s.rt, e.cluster) == 1);
    }
    var es := ReadTable(s.g, s.file, e.cluster);
    L2PtrsRead(s.g, s.file, e.cluster);
    ghost var p := (x: nat) => m(x) + Occ(Erase(es), x);
    t' := CheckL2(s, t', es, checkCopied, m, p, ok);
    ok := ok && (checkCopied ==> EntriesFlagged(s.g, s.file, s.rt, es));
    t' := IncOne(t', e.cluster, p, m', ok);
  }

  /** The L2 tables of an L1 table and their clusters. */
  method CheckTree(s: BDRVQcowState, t: Tally, l1: seq<Entry>, checkCopied: bool, ghost m: nat -> nat, ghost m': nat -> nat, ghost flagsOk: bool) returns (t': Tally)
    requires CountState(s) && s.g.Valid() && Tallied(t, m, flagsOk)
    requires forall x: nat :: m'(x) == m(x) + TreeRefs(s.g, s.file, Erase(l1), x)
    modifies s`rbCache, s`rbCacheOff
    ensures CountState(s) && |t'.table| == |t.table|
    ensures Tallied(t', m', flagsOk && (checkCopied ==> TreeFlagged(s.g, s.file, s.rt, l1)))
  {
    hide *;
    t' := t;
    ghost var p, ok := m, flagsOk;
    NothingFlagged(s.g, s.file, s.rt, l1);
    for i := 0 to |l1|
      invariant CountState(s) && |t'.table| == |t.table| && Tallied(t', p, ok)
      invariant ok <==> flagsOk && (checkCopied ==> TreeFlagged(s.g, s.file, s.rt, l1[..i]))
      invariant forall x: nat :: p(x) == m(x) + TreeRefs(s.g, s.file, Erase(l1[..i]), x)
    {
      var e := l1[i];
      TreeFlaggedSnoc(s.g, s.file, s.rt, l1, i);
      ErasedPrefix(s.g, s.file, l1, i);
      if e.cluster != 0 {
        ghost var g, f := s.g, s.file;
        ghost var p' := (x: nat) => p(x) + L2Refs(g, f, e.cluster, x);
        t' := CheckSlot(s, t', e, checkCopied, p, p', ok);
        ok := ok && (checkCopied ==> TreeFlagged(s.g, s.file, s.rt, l1[..i + 1]));
        p := p';
      }
    }
    assert l1[..|l1|] == l1;
    TalliedSame(t', p, m', ok);
  }

  /** An L1 table as it is stored in the file, its L2 tables and their clusters. */
  method CheckRefcountsL1(s: BDRVQcowState, t: Tally, off: nat, n: nat, checkCopied: bool, ghost m: nat -> nat, ghost m': nat -> nat, ghost flagsOk: bool) returns (t': Tally)
    requires CountState(s) && s.g.Valid() && Tallied(t, m, flagsOk)
    requires forall x: nat :: m'(x) == m(x) + One(InRun(x, off, EntryClusters(s.g, n))) + TreeRefs(s.g, s.file, DiskRoot(s.g, s.file, off, n), x)
    modifies s`rbCache, s`rbCacheOff
    ensures CountState(s) && |t'.table| == |t.table|
    ensures Tallied(t', m', flagsOk && (checkCopied ==> TreeFlagged(s.g, s.file, s.rt, ReadL1(s.g, s.file, off, n))))
  {
    hide RC, CountState, Tallied, TreeFlagged, ReadL1, TreeRefs, Erase, InRun, EntryClusters;
    ghost var p := (x: nat) => m(x) + One(InRun(x, off, EntryClusters(s.g, n)));
    t' := IncRefcounts(t, off, EntryClusters(s.g, n), m, p, flagsOk);
    t' := CheckTree(s, t', ReadL1(s.g, s.file, off, n), checkCopied, p, m', flagsOk);
  }

  lemma {:induction false} NothingFlagged(g: Geo, f: File, rt: seq<nat>, l1: seq<Entry>)
    requires g.Valid()
    ensures g.epb > 0 && TreeFlagged(g, f, rt, l1[..0]) && forall x: nat :: TreeRefs(g, f, Erase(l1[..0]), x) == 0
  {
  }

  lemma {:induction false} ErasedPrefix(g: Geo, f: File, l1: seq<Entry>, i: nat)
    requires i < |l1|
    ensures forall x: nat :: TreeRefs(g, f, Erase(l1[..i + 1]), x) == TreeRefs(g, f, Erase(l1[..i]), x) + (if l1[i].cluster == 0 then 0 else L2Refs(g, f, l1[i].cluster, x))
  {
    assert Erase(l1[..i]) == Erase(l1)[..i] && Erase(l1[..i + 1]) == Erase(l1)[..i + 1];
    forall x: nat ensures TreeRefs(g, f, Erase(l1)[..i + 1], x) == TreeRefs(g, f, Erase(l1)[..i], x) + L2Refs(g, f, Erase(l1)[i], x) { TreePrefix(g, f, Erase(l1), i, x); }
  }

  // ---------------------------------------------------------------- the whole image

  ghost function PlusRun(m: nat -> nat, off: nat, n: nat): (r: nat -> nat)
    ensures forall x: nat :: r(x) == m(x) + One(InRun(x, off, n))
  {
    x => m(x) + One(InRun(x, off, n))
  }

  ghost function PlusL1(m: nat -> nat, g: Geo, f: File, off: nat, n: nat): (r: nat -> nat)
    requires g.es > 0
    ensures forall x: nat :: r(x) == m(x) + One(InRun(x, off, EntryClusters(g, n))) + TreeRefs(g, f, DiskRoot(g, f, off, n), x)
  {
    x => m(x) + One(InRun(x, off, EntryClusters(g, n))) + TreeRefs(g, f, DiskRoot(g, f, off, n), x)
  }

  ghost function PlusSnaps(m: nat -> nat, g: Geo, f: File, snaps: seq<Snap>): (r: nat -> nat)
    requires g.es > 0
    ensures forall x: nat :: r(x) == m(x) + SnapTableRefs(g, snaps, x) + RootsRefs(g, f, SnapRoots(g, f, snaps), x)
  {
    x => m(x) + SnapTableRefs(g, snaps, x) + RootsRefs(g, f, SnapRoots(g, f, snaps), x)
  }

  lemma {:induction false} SnapRefsSnoc(g: Geo, f: File, snaps: seq<Snap>, i: nat)
    requires g.es > 0 && i < |snaps|
    ensures forall x: nat :: SnapTableRefs(g, snaps[..i + 1], x) == SnapTableRefs(g, snaps[..i], x) + One(InRun(x, snaps[i].l1Off, EntryClusters(g, snaps[i].l1Size)))
    ensures forall x: nat :: RootsRefs(g, f, SnapRoots(g, f, snaps[..i + 1]), x) ==
              RootsRefs(g, f, SnapRoots(g, f, snaps[..i]), x) + TreeRefs(g, f, DiskRoot(g, f, snaps[i].l1Off, snaps[i].l1Size), x)
  {
    hide TreeRefs, DiskRoot, InRun, EntryClusters;
    assert snaps[..i + 1][..i] == snaps[..i];
    assert SnapRoots(g, f, snaps[..i + 1])[..i] == SnapRoots(g, f, snaps[..i]);
  }

  lemma {:induction false} NoSnaps(g: Geo, f: File, snaps: seq<Snap>)
    requires g.es > 0
    ensures forall x: nat :: SnapTableRefs(g, snaps[..0], x) == 0 && RootsRefs(g, f, SnapRoots(g, f, snaps[..0]), x) == 0
  {
  }

  /** The L1 tables of all snapshots. */
  method CheckSnapshots(s: BDRVQcowState, t: Tally, ghost m: nat -> nat, ghost m': nat -> nat, ghost flagsOk: bool) returns (t': Tally)
    requires CountState(s) && s.g.Valid() && Tallied(t, m, flagsOk)
    requires forall x: nat :: m'(x) == m(x) + SnapTableRefs(s.g, s.snaps, x) + RootsRefs(s.g, s.file, SnapRoots(s.g, s.file, s.snaps), x)
    modifies s`rbCache, s`rbCacheOff
    ensures CountState(s) && |t'.table| == |t.table| && Tallied(t', m', flagsOk)
  {
    hide *;
    ValidEs(s.g);
    t' := t;
    ghost var p := m;
    NoSnaps(s.g, s.file, s.snaps);
    for i := 0 to |s.snaps|
      invariant CountState(s) && |t'.table| == |t.table| && Tallied(t', p, flagsOk)
      invariant forall x: nat :: p(x) == m(x) + SnapTableRefs(s.g, s.snaps[..i], x) + RootsRefs(s.g, s.file, SnapRoots(s.g, s.file, s.snaps[..i]), x)
    {
      var sn := s.snaps[i];
      SnapRefsSnoc(s.g, s.file, s.snaps, i);
      ghost var p' := PlusL1(p, s.g, s.file, sn.l1Off, sn.l1Size);
      t' := CheckRefcountsL1(s, t', sn.l1Off, sn.l1Size, false, p, p', flagsOk);
      p := p';
    }
    assert s.snaps[..|s.snaps|] == s.snaps;
    TalliedSame(t', p, m', flagsOk);
  }

  /** The reference count blocks. */
  method CheckBlocks(t: Tally, rt: seq<nat>, ghost m: nat -> nat, ghost m': nat -> nat, ghost flagsOk: bool) returns (t': Tally)
    requires Tallied(t, m, flagsOk) && forall x: nat :: m'(x) == m(x) + Occ(rt, x)
    ensures |t'.table| == |t.table| && Tallied(t', m', flagsOk)
  {
    hide Tallied;
    t' := t;
    ghost var p := m;
    for i := 0 to |rt|
      invariant |t'.table| == |t.table| && Tallied(t', p, flagsOk)
      invariant forall x: nat :: p(x) == m(x) + Occ(rt[..i], x)
    {
      forall x: nat ensures Occ(rt[..i + 1], x) == Occ(rt[..i], x) + One(x != 0 && rt[i] == x) { OccPrefix(rt, i, x); }
      if rt[i] != 0 {
        ghost var p' := (x: nat) => p(x) + One(x == rt[i]);
        t' := IncOne(t', rt[i], p, p', flagsOk);
        p := p';
      }
    }
    assert rt[..|rt|] == rt;
    TalliedSame(t', p, m', flagsOk);
  }

  lemma {:induction false} RootsRefsFirst(g: Geo, f: File, a: seq<nat>, rest: seq<seq<nat>>, x: nat)
    ensures RootsRefs(g, f, [a] + rest, x) == TreeRefs(g, f, a, x) + RootsRefs(g, f, rest, x)
  {
    var all := [a] + rest;
    if rest == [] {
      assert all[..0] == [];
    } else {
      assert all[..|all| - 1] == [a] + rest[..|rest| - 1];
      RootsRefsFirst(g, f, a, rest[..|rest| - 1], x);
    }
  }

  lemma {:induction false} FlagsAre(g: Geo, v: Vol)
    requires g.Valid() && L1Stored(g, v.file, v.l1Off, v.l1)
    ensures ReadL1(g, v.file, v.l1Off, |v.l1|) == v.l1
    ensures FlagsExact(g, v) <==> TreeFlagged(g, v.file, v.rt, v.l1)
  {
    hide RC;
    if TreeFlagged(g, v.file, v.rt, v.l1) {
      forall k, j | 0 <= k < |v.l1| && v.l1[k].cluster != 0 && 0 <= j < g.es ensures FlagOk(g, v, EntryAt(v.file, v.l1[k].cluster, j)) {
        assert ReadTable(g, v.file, v.l1[k].cluster)[j] == EntryAt(v.file, v.l1[k].cluster, j);
      }
    }
    if FlagsExact(g, v) {
      forall k | 0 <= k < |v.l1| && v.l1[k].cluster != 0 ensures EntriesFlagged(g, v.file, v.rt, ReadTable(g, v.file, v.l1[k].cluster)) {
        forall j | 0 <= j < g.es ensures FlagOk(g, v, ReadTable(g, v.file, v.l1[k].cluster)[j]) {
          assert FlagOk(g, v, EntryAt(v.file, v.l1[k].cluster, j));
        }
      }
    }
  }

  /** Everything that refers to a cluster: header, L1 tables with their trees, snapshot table, and
      reference count table with its blocks. */
  method TallyAll(s: BDRVQcowState, n: nat, ghost m: nat -> nat) returns (t: Tally)
    requires CountState(s) && s.g.Valid() && L1Stored(s.g, s.file, s.l1Off, s.l1) && forall x: nat :: m(x) == Refs(s.g, V(s), x)
    modifies s`rbCache, s`rbCacheOff
    ensures CountState(s) && |t.table| == n && Tallied(t, m, FlagsExact(s.g, V(s)))
  {
    hide CountState, Tallied, TreeFlagged, FlagsExact, TreeRefs, RootsRefs, SnapTableRefs, SnapRoots, L1Stored, InRun, EntryClusters, Occ, Erase, ByteClusters, DiskRoot, Refs, PlusRun, PlusL1, PlusSnaps;
    ghost var g, v := s.g, V(s);
    FlagsAre(s.g, v);
    ghost var ok := FlagsExact(g, v);
    ghost var m0 := (x: nat) => 0;
    ghost var m1 := PlusRun(m0, 0, 1);
    ghost var m2 := PlusL1(m1, g, v.file, v.l1Off, |v.l1|);
    ghost var m3 := PlusSnaps(m2, g, v.file, v.snaps);
    ghost var m4 := PlusRun(m3, v.snapOff, v.snapClusters);
    ghost var m5 := PlusRun(m4, v.rtOff, EntryClusters(g, |v.rt|));
    t := Tally(seq(n, _ => 0), 0);
    NothingTallied(n, m0);
    t := IncRefcounts(t, 0, 1, m0, m1, true);
    t := CheckRefcountsL1(s, t, s.l1Off, |s.l1|, true, m1, m2, true);
    t := CheckSnapshots(s, t, m2, m3, ok);
    t := IncRefcounts(t, s.snapOff, ByteClusters(s.g, s.snapSize), m3, m4, ok);
    t := IncRefcounts(t, s.rtOff, EntryClusters(s.g, |s.rt|), m4, m5, ok);
    AllTallied(g, v);
    t := CheckBlocks(t, s.rt, m5, m, ok);
  }

  lemma {:induction false} ValidEs(g: Geo)
    requires g.Valid()
    ensures g.es > 0
  {
  }

  lemma {:induction false} NothingTallied(n: nat, m: nat -> nat)
    requires forall x: nat :: m(x) == 0
    ensures Tallied(Tally(seq(n, _ => 0), 0), m, true)
  {
  }

  lemma {:induction false} AllTallied(g: Geo, v: Vol)
    requires g.Valid() && ReadL1(g, v.file, v.l1Off, |v.l1|) == v.l1
    ensures forall x: nat :: Refs(g, v, x) ==
              One(InRun(x, 0, 1)) + One(InRun(x, v.l1Off, EntryClusters(g, |v.l1|))) + TreeRefs(g, v.file, DiskRoot(g, v.file, v.l1Off, |v.l1|), x)
              + SnapTableRefs(g, v.snaps, x) + RootsRefs(g, v.file, SnapRoots(g, v.file, v.snaps), x)
              + One(InRun(x, v.snapOff, v.snapClusters)) + One(InRun(x, v.rtOff, EntryClusters(g, |v.rt|))) + Occ(v.rt, x)
  {
    hide TreeRefs, RootsRefs, SnapTableRefs, SnapRoots, EntryClusters, Occ;
    forall x: nat ensures TreesRefs(g, v, x) == TreeRefs(g, v.file, Erase(v.l1), x) + RootsRefs(g, v.file, SnapRoots(g, v.file, v.snaps), x) {
      RootsRefsFirst(g, v.file, Erase(v.l1), SnapRoots(g, v.file, v.snaps), x);
    }
  }

  /** What the check accepts: every reference is inside the file and counted as often as it occurs. */
  ghost predicate Accepted(g: Geo, v: Vol, n: nat)
    requires g.Valid()
  {
    && FlagsExact(g, v)
    && (forall x: nat :: Fine(n, x, Refs(g, v, x)))
    && (forall x: nat :: x < n ==> VRC(g, v, x) == Refs(g, v, x))
  }

  /** n clusters of the file are compared; no complaint means the image is accepted, and the reverse. */
  method CheckRefcounts(s: BDRVQcowState, n: nat) returns (errors: nat)
    requires CountState(s) && s.g.Valid() && L1Stored(s.g, s.file, s.l1Off, s.l1)
    modifies s`rbCache, s`rbCacheOff
    ensures CountState(s) && (errors == 0 <==> Accepted(s.g, V(s), n))
  {
    hide CountState, Refs, RC, FlagsExact, L1Stored;
    ghost var g, v := s.g, V(s);
    ghost var m := (x: nat) => Refs(g, v, x);
    var t := TallyAll(s, n, m);
    errors := t.errors;
    for i := 0 to n
      invariant CountState(s)
      invariant errors == 0 <==> t.errors == 0 && forall x: nat :: x < i ==> VRC(g, v, x) == t.table[x]
    {
      var r := GetRefcount(s, i);
      if r != t.table[i] { errors := errors + 1; }
    }
    assert forall x: nat :: m(x) == Refs(g, v, x);
  }

  /** If the file holds all counted clusters, accepted means that the stored counts are the references
      and the flags are exact: the invariant every operation keeps. */
  lemma {:induction false} AcceptedIffBalanced(g: Geo, v: Vol, n: nat)
    requires TableShape(g, v.file, v.rt, v.rtOff) && forall x: nat :: VRC(g, v, x) != 0 ==> x < n
    ensures Accepted(g, v, n) <==> Balanced(g, v, 0, 0, 0) && FlagsExact(g, v)
  {
    hide Refs, RC, FlagsExact;
    if Accepted(g, v, n) {
      forall x: nat ensures VRC(g, v, x) == Refs(g, v, x) { assert Fine(n, x, Refs(g, v, x)); }
    }
    if Balanced(g, v, 0, 0, 0) {
      forall x: nat ensures VRC(g, v, x) == Refs(g, v, x) && Fine(n, x, Refs(g, v, x)) {
        assert VRC(g, v, x) + One(false) == Refs(g, v, x) + One(InRun(x, 0, 0));
        CountBounded(g, v.file, v.rt, x);
      }
    }
  }
}
