/** References held by L1/L2 trees, counted per path as the consistency check of the format
    walks them, and what a change to the host file does to those counts and to the guest disk. */
module Qcow2Trees {
  import opened Division
  import opened Qcow2Layout

  function One(b: bool): nat
  {
    if b then 1 else 0
  }

  /** How often pointer x occurs in p; 0 is not a pointer. */
  ghost function Occ(p: seq<nat>, x: nat): nat
  {
    if p == [] then 0 else Occ(p[..|p| - 1], x) + One(x != 0 && p[|p| - 1] == x)
  }

  ghost function L2Ptrs(g: Geo, f: File, c: nat): (p: seq<nat>)
    ensures |p| == g.es
    ensures forall j :: 0 <= j < g.es ==> p[j] == EntryAt(f, c, j).cluster
  {
    seq(g.es, j requires 0 <= j < g.es => EntryAt(f, c, j).cluster)
  }

  /** References contributed by one L1 slot: the L2 table itself and every data cluster in it. */
  ghost function L2Refs(g: Geo, f: File, p: nat, x: nat): nat
  {
    if p == 0 then 0 else One(p == x) + Occ(L2Ptrs(g, f, p), x)
  }

  ghost function TreeRefs(g: Geo, f: File, l1: seq<nat>, x: nat): nat
  {
    if l1 == [] then 0 else TreeRefs(g, f, l1[..|l1| - 1], x) + L2Refs(g, f, l1[|l1| - 1], x)
  }

  ghost function RootsRefs(g: Geo, f: File, roots: seq<seq<nat>>, x: nat): nat
  {
    if roots == [] then 0 else RootsRefs(g, f, roots[..|roots| - 1], x) + TreeRefs(g, f, roots[|roots| - 1], x)
  }

  /** Every L1 slot names an L2 table and every slot of that table names a data cluster. */
  ghost predicate TreeOk(g: Geo, f: File, l1: seq<nat>)
  {
    forall i :: 0 <= i < |l1| && l1[i] != 0 ==> L2Ok(g, f, l1[i])
  }

  ghost predicate L2Ok(g: Geo, f: File, p: nat)
  {
    IsTable(g, f, p) && forall j :: 0 <= j < g.es && L2Ptrs(g, f, p)[j] != 0 ==> IsData(g, f, L2Ptrs(g, f, p)[j])
  }

  ghost predicate RootsOk(g: Geo, f: File, roots: seq<seq<nat>>)
  {
    forall k :: 0 <= k < |roots| ==> TreeOk(g, f, roots[k])
  }

  /** Cluster c holds the same contents, up to the copied flags of a table. */
  ghost predicate Alike(g: Geo, f: File, f': File, c: nat)
  {
    SameAt(f, f', c) || (IsTable(g, f, c) && IsTable(g, f', c) && L2Ptrs(g, f, c) == L2Ptrs(g, f', c))
  }

  // ---------------------------------------------------------------- counting in one table

  lemma {:induction false} OccUpdate(p: seq<nat>, i: nat, q: nat, x: nat)
    requires i < |p|
    ensures Occ(p[i := q], x) + One(x != 0 && p[i] == x) == Occ(p, x) + One(x != 0 && q == x)
  {
    var n := |p| - 1;
    if i == n {
      assert p[i := q][..n] == p[..n];
    } else {
      OccUpdate(p[..n], i, q, x);
      assert p[i := q][..n] == p[..n][i := q];
    }
  }

  lemma {:induction false} OccZero(p: seq<nat>)
    ensures Occ(p, 0) == 0
  {
    if p != [] { OccZero(p[..|p| - 1]); }
  }

  lemma {:induction false} OccAt(p: seq<nat>, i: nat)
    requires i < |p| && p[i] != 0
    ensures Occ(p, p[i]) >= 1
  {
    OccUpdate(p, i, 0, p[i]);
  }

  lemma {:induction false} OccWitness(p: seq<nat>, x: nat) returns (i: nat)
    requires Occ(p, x) >= 1
    ensures x != 0 && i < |p| && p[i] == x
  {
    if x != 0 && p[|p| - 1] == x {
      i := |p| - 1;
    } else {
      i := OccWitness(p[..|p| - 1], x);
    }
  }

  lemma {:induction false} OccPrefix(p: seq<nat>, j: nat, y: nat)
    requires j < |p|
    ensures Occ(p[..j + 1], y) == Occ(p[..j], y) + One(y != 0 && p[j] == y)
  {
    assert p[..j + 1][..j] == p[..j];
  }

  lemma {:induction false} OccTwo(p: seq<nat>, i: nat, k: nat)
    requires i < |p| && k < |p| && i != k && p[i] != 0 && p[i] == p[k]
    ensures Occ(p, p[i]) >= 2
  {
    OccUpdate(p, i, 0, p[i]);
    OccAt(p[i := 0], k);
  }

  lemma {:induction false} OccAllZero(p: seq<nat>, x: nat)
    requires forall i :: 0 <= i < |p| ==> p[i] == 0
    ensures Occ(p, x) == 0
  {
    if p != [] { OccAllZero(p[..|p| - 1], x); }
  }

  // ---------------------------------------------------------------- counting in one tree

  lemma {:induction false} TreeUpdate(g: Geo, f: File, l1: seq<nat>, i: nat, q: nat, x: nat)
    requires i < |l1|
    ensures TreeRefs(g, f, l1[i := q], x) + L2Refs(g, f, l1[i], x) == TreeRefs(g, f, l1, x) + L2Refs(g, f, q, x)
  {
    var n := |l1| - 1;
    if i == n {
      assert l1[i := q][..n] == l1[..n];
    } else {
      TreeUpdate(g, f, l1[..n], i, q, x);
      assert l1[i := q][..n] == l1[..n][i := q];
    }
  }

  lemma {:induction false} TreePrefix(g: Geo, f: File, l1: seq<nat>, i: nat, y: nat)
    requires i < |l1|
    ensures TreeRefs(g, f, l1[..i + 1], y) == TreeRefs(g, f, l1[..i], y) + L2Refs(g, f, l1[i], y)
  {
    assert l1[..i + 1][..i] == l1[..i];
  }

  lemma {:induction false} TreeAt(g: Geo, f: File, l1: seq<nat>, i: nat, x: nat)
    requires i < |l1|
    ensures TreeRefs(g, f, l1, x) >= L2Refs(g, f, l1[i], x)
  {
    TreeUpdate(g, f, l1, i, 0, x);
  }

  /** Two slots of one tree contribute separately. */
  lemma {:induction false} TreeAtTwo(g: Geo, f: File, l1: seq<nat>, i: nat, k: nat, x: nat)
    requires i < |l1| && k < |l1| && i != k
    ensures TreeRefs(g, f, l1, x) >= L2Refs(g, f, l1[i], x) + L2Refs(g, f, l1[k], x)
  {
    TreeUpdate(g, f, l1, i, 0, x);
    TreeAt(g, f, l1[i := 0], k, x);
  }

  /** A data cluster reached through slots i and j is referenced. */
  lemma {:induction false} TreeData(g: Geo, f: File, l1: seq<nat>, i: nat, j: nat)
    requires i < |l1| && l1[i] != 0 && j < g.es && L2Ptrs(g, f, l1[i])[j] != 0
    ensures TreeRefs(g, f, l1, L2Ptrs(g, f, l1[i])[j]) >= 1
  {
    var d := L2Ptrs(g, f, l1[i])[j];
    OccAt(L2Ptrs(g, f, l1[i]), j);
    TreeAt(g, f, l1, i, d);
  }

  lemma {:induction false} TreeAllZero(g: Geo, f: File, l1: seq<nat>, x: nat)
    requires forall i :: 0 <= i < |l1| ==> l1[i] == 0
    ensures TreeRefs(g, f, l1, x) == 0
  {
    if l1 != [] { TreeAllZero(g, f, l1[..|l1| - 1], x); }
  }

  lemma {:induction false} TreeRefsFrame(g: Geo, f: File, f': File, l1: seq<nat>, x: nat)
    requires forall y :: TreeRefs(g, f, l1, y) >= 1 ==> Alike(g, f, f', y)
    ensures TreeRefs(g, f', l1, x) == TreeRefs(g, f, l1, x)
  {
    if l1 != [] {
      var n := |l1| - 1;
      assert forall y :: TreeRefs(g, f, l1[..n], y) >= 1 ==> TreeRefs(g, f, l1, y) >= 1;
      TreeRefsFrame(g, f, f', l1[..n], x);
      if l1[n] != 0 {
        TreeAt(g, f, l1, n, l1[n]);
        AlikePtrs(g, f, f', l1[n]);
      }
    }
  }

  lemma {:induction false} AlikePtrs(g: Geo, f: File, f': File, c: nat)
    requires Alike(g, f, f', c)
    ensures L2Ptrs(g, f', c) == L2Ptrs(g, f, c)
    ensures IsTable(g, f', c) == IsTable(g, f, c)
    ensures IsData(g, f', c) == IsData(g, f, c)
    ensures forall j :: SectorAt(f', c, j) == SectorAt(f, c, j)
  {
    if SameAt(f, f', c) {
      assert forall j: nat :: EntryAt(f, c, j) == EntryAt(f', c, j);
    }
  }

  /** A change outside a tree, or to copied flags only, leaves its shape and its lookups alone. */
  lemma {:induction false} TreeFrame(g: Geo, f: File, f': File, l1: seq<nat>)
    requires g.es > 0
    requires forall y :: TreeRefs(g, f, l1, y) >= 1 ==> Alike(g, f, f', y)
    ensures forall x :: TreeRefs(g, f', l1, x) == TreeRefs(g, f, l1, x)
    ensures TreeOk(g, f, l1) ==> TreeOk(g, f', l1)
    ensures forall v :: Lookup(g, f', l1, v) == Lookup(g, f, l1, v)
    ensures forall v, k :: Lookup(g, f, l1, v) != 0 ==>
              SectorAt(f', Lookup(g, f, l1, v), k) == SectorAt(f, Lookup(g, f, l1, v), k)
  {
    forall x ensures TreeRefs(g, f', l1, x) == TreeRefs(g, f, l1, x) {
      TreeRefsFrame(g, f, f', l1, x);
    }
    forall i | 0 <= i < |l1| && l1[i] != 0 ensures L2Ptrs(g, f', l1[i]) == L2Ptrs(g, f, l1[i]) {
      TreeAt(g, f, l1, i, l1[i]);
      AlikePtrs(g, f, f', l1[i]);
    }
    forall i, j | 0 <= i < |l1| && l1[i] != 0 && 0 <= j < g.es && L2Ptrs(g, f, l1[i])[j] != 0
      ensures Alike(g, f, f', L2Ptrs(g, f, l1[i])[j])
    {
      TreeData(g, f, l1, i, j);
    }
    if TreeOk(g, f, l1) {
      forall i | 0 <= i < |l1| && l1[i] != 0 ensures L2Ok(g, f', l1[i]) {
        TreeAt(g, f, l1, i, l1[i]);
        AlikePtrs(g, f, f', l1[i]);
        assert L2Ok(g, f, l1[i]);
        forall j | 0 <= j < g.es && L2Ptrs(g, f', l1[i])[j] != 0 ensures IsData(g, f', L2Ptrs(g, f', l1[i])[j]) {
          AlikePtrs(g, f, f', L2Ptrs(g, f, l1[i])[j]);
        }
      }
    }
    forall v: nat
      ensures Lookup(g, f', l1, v) == Lookup(g, f, l1, v)
      ensures forall k :: Lookup(g, f, l1, v) != 0 ==>
              SectorAt(f', Lookup(g, f, l1, v), k) == SectorAt(f, Lookup(g, f, l1, v), k)
    {
      LookupFrame(g, f, f', l1, v);
    }
  }

  lemma {:induction false} LookupFrame(g: Geo, f: File, f': File, l1: seq<nat>, v: nat)
    requires g.es > 0
    requires forall i :: 0 <= i < |l1| && l1[i] != 0 ==> L2Ptrs(g, f', l1[i]) == L2Ptrs(g, f, l1[i])
    requires forall i, j :: 0 <= i < |l1| && l1[i] != 0 && 0 <= j < g.es && L2Ptrs(g, f, l1[i])[j] != 0 ==>
               Alike(g, f, f', L2Ptrs(g, f, l1[i])[j])
    ensures Lookup(g, f', l1, v) == Lookup(g, f, l1, v)
    ensures forall k :: Lookup(g, f, l1, v) != 0 ==>
              SectorAt(f', Lookup(g, f, l1, v), k) == SectorAt(f, Lookup(g, f, l1, v), k)
  {
    var i, j := Quot(v, g.es), Rem(v, g.es);
    if i < |l1| && l1[i] != 0 {
      assert L2Ptrs(g, f, l1[i])[j] == EntryAt(f, l1[i], j).cluster;
      assert L2Ptrs(g, f', l1[i])[j] == EntryAt(f', l1[i], j).cluster;
      if Lookup(g, f, l1, v) != 0 {
        AlikePtrs(g, f, f', L2Ptrs(g, f, l1[i])[j]);
      }
    }
  }

  /** Counts depend on the pointers in the L2 tables only. */
  lemma {:induction false} TreeRefsSame(g: Geo, f: File, f': File, l1: seq<nat>, x: nat)
    requires forall i :: 0 <= i < |l1| && l1[i] != 0 ==> L2Ptrs(g, f', l1[i]) == L2Ptrs(g, f, l1[i])
    ensures TreeRefs(g, f', l1, x) == TreeRefs(g, f, l1, x)
  {
    if l1 != [] { TreeRefsSame(g, f, f', l1[..|l1| - 1], x); }
  }

  lemma {:induction false} LookupRef(g: Geo, f: File, l1: seq<nat>, v: nat)
    requires g.es > 0 && Lookup(g, f, l1, v) != 0
    ensures TreeRefs(g, f, l1, Lookup(g, f, l1, v)) >= 1
  {
    var i, j := Quot(v, g.es), Rem(v, g.es);
    assert L2Ptrs(g, f, l1[i])[j] == EntryAt(f, l1[i], j).cluster;
    TreeData(g, f, l1, i, j);
  }

  /** Two guest clusters that share a data cluster are two references. */
  lemma {:induction false} LookupTwo(g: Geo, f: File, l1: seq<nat>, v: nat, u: nat)
    requires g.es > 0 && v != u && Lookup(g, f, l1, v) != 0 && Lookup(g, f, l1, v) == Lookup(g, f, l1, u)
    ensures TreeRefs(g, f, l1, Lookup(g, f, l1, v)) >= 2
  {
    var d := Lookup(g, f, l1, v);
    var i, j, m, n := Quot(v, g.es), Rem(v, g.es), Quot(u, g.es), Rem(u, g.es);
    var p, q := L2Ptrs(g, f, l1[i]), L2Ptrs(g, f, l1[m]);
    assert p[j] == d && q[n] == d;
    if i == m {
      if j == n { DivModUnique(v, u, g.es); }
      OccTwo(p, j, n);
      TreeAt(g, f, l1, i, d);
    } else {
      OccAt(p, j);
      OccAt(q, n);
      TreeAtTwo(g, f, l1, i, m, d);
    }
  }

  /** If every root but the first keeps its count, the total moves with the first. */
  lemma {:induction false} RootsFirst(g: Geo, f: File, f': File, roots: seq<seq<nat>>, r: seq<nat>, x: nat)
    requires |roots| >= 1
    requires forall k :: 1 <= k < |roots| ==> TreeRefs(g, f', roots[k], x) == TreeRefs(g, f, roots[k], x)
    ensures RootsRefs(g, f', roots[0 := r], x) + TreeRefs(g, f, roots[0], x) == RootsRefs(g, f, roots, x) + TreeRefs(g, f', r, x)
  {
    RootsUpdate(g, f, roots, 0, [], x);
    RootsRefsFrame(g, f, f', roots[0 := []], x);
    RootsUpdate(g, f', roots, 0, [], x);
    RootsUpdate(g, f', roots, 0, r, x);
  }

  /** Rewriting an L2 table that the tree reaches only once exchanges exactly its own pointers. */
  lemma {:induction false} TreeWriteL2(g: Geo, f: File, f': File, l1: seq<nat>, i: nat, x: nat)
    requires g.es > 0
    requires i < |l1| && l1[i] != 0 && TreeRefs(g, f, l1, l1[i]) == 1
    requires forall y :: y != l1[i] ==> SameAt(f, f', y)
    ensures TreeRefs(g, f', l1, x) + Occ(L2Ptrs(g, f, l1[i]), x) == TreeRefs(g, f, l1, x) + Occ(L2Ptrs(g, f', l1[i]), x)
  {
    var w := l1[i];
    var l0 := l1[i := 0];
    TreeUpdate(g, f, l1, i, 0, w);
    assert TreeRefs(g, f, l0, w) == 0;
    TreeFrame(g, f, f', l0);
    TreeUpdate(g, f, l1, i, 0, x);
    TreeUpdate(g, f', l0, i, w, x);
    assert l0[i := w] == l1;
  }

  // ---------------------------------------------------------------- counting over all roots

  lemma {:induction false} RootsUpdate(g: Geo, f: File, roots: seq<seq<nat>>, k: nat, r: seq<nat>, x: nat)
    requires k < |roots|
    ensures RootsRefs(g, f, roots[k := r], x) + TreeRefs(g, f, roots[k], x) == RootsRefs(g, f, roots, x) + TreeRefs(g, f, r, x)
  {
    var n := |roots| - 1;
    if k == n {
      assert roots[k := r][..n] == roots[..n];
    } else {
      RootsUpdate(g, f, roots[..n], k, r, x);
      assert roots[k := r][..n] == roots[..n][k := r];
    }
  }

  lemma {:induction false} RootsAt(g: Geo, f: File, roots: seq<seq<nat>>, k: nat, x: nat)
    requires k < |roots|
    ensures RootsRefs(g, f, roots, x) >= TreeRefs(g, f, roots[k], x)
  {
    RootsUpdate(g, f, roots, k, [], x);
  }

  lemma {:induction false} RootsAtTwo(g: Geo, f: File, roots: seq<seq<nat>>, k: nat, m: nat, x: nat)
    requires k < |roots| && m < |roots| && k != m
    ensures RootsRefs(g, f, roots, x) >= TreeRefs(g, f, roots[k], x) + TreeRefs(g, f, roots[m], x)
  {
    RootsUpdate(g, f, roots, k, [], x);
    RootsAt(g, f, roots[k := []], m, x);
  }

  lemma {:induction false} RootsSnoc(g: Geo, f: File, roots: seq<seq<nat>>, r: seq<nat>, x: nat)
    ensures RootsRefs(g, f, roots + [r], x) == RootsRefs(g, f, roots, x) + TreeRefs(g, f, r, x)
  {
    hide TreeRefs;
    assert (roots + [r])[..|roots|] == roots;
  }

  lemma {:induction false} RootsRemove(g: Geo, f: File, roots: seq<seq<nat>>, k: nat, x: nat)
    requires k < |roots|
    ensures RootsRefs(g, f, roots[..k] + roots[k + 1..], x) + TreeRefs(g, f, roots[k], x) == RootsRefs(g, f, roots, x)
  {
    hide RootsRefs, TreeRefs;
    var n := |roots| - 1;
    RootsSnoc(g, f, roots[..n], roots[n], x);
    assert roots == roots[..n] + [roots[n]];
    if k == n {
      assert roots[..k] + roots[k + 1..] == roots[..n];
    } else {
      RootsRemove(g, f, roots[..n], k, x);
      var less := roots[..n][..k] + roots[..n][k + 1..];
      assert roots[..k] + roots[k + 1..] == less + [roots[n]];
      RootsSnoc(g, f, less, roots[n], x);
    }
  }

  lemma {:induction false} RootsRefsFrame(g: Geo, f: File, f': File, roots: seq<seq<nat>>, x: nat)
    requires forall k :: 0 <= k < |roots| ==> TreeRefs(g, f', roots[k], x) == TreeRefs(g, f, roots[k], x)
    ensures RootsRefs(g, f', roots, x) == RootsRefs(g, f, roots, x)
  {
    if roots != [] { RootsRefsFrame(g, f, f', roots[..|roots| - 1], x); }
  }

  /** The frame rule for all roots at once. */
  lemma {:induction false} RootsFrame(g: Geo, f: File, f': File, roots: seq<seq<nat>>)
    requires g.es > 0
    requires forall y :: RootsRefs(g, f, roots, y) >= 1 ==> Alike(g, f, f', y)
    ensures forall x :: RootsRefs(g, f', roots, x) == RootsRefs(g, f, roots, x)
    ensures RootsOk(g, f, roots) ==> RootsOk(g, f', roots)
    ensures forall k, x :: 0 <= k < |roots| ==> TreeRefs(g, f', roots[k], x) == TreeRefs(g, f, roots[k], x)
    ensures forall k, v :: 0 <= k < |roots| ==> Lookup(g, f', roots[k], v) == Lookup(g, f, roots[k], v)
    ensures forall k, v, j :: 0 <= k < |roots| && Lookup(g, f, roots[k], v) != 0 ==>
              SectorAt(f', Lookup(g, f, roots[k], v), j) == SectorAt(f, Lookup(g, f, roots[k], v), j)
  {
    forall k | 0 <= k < |roots|
      ensures forall y :: TreeRefs(g, f, roots[k], y) >= 1 ==> Alike(g, f, f', y)
    {
      forall y | TreeRefs(g, f, roots[k], y) >= 1 ensures Alike(g, f, f', y) {
        RootsAt(g, f, roots, k, y);
      }
    }
    forall k | 0 <= k < |roots|
      ensures forall x :: TreeRefs(g, f', roots[k], x) == TreeRefs(g, f, roots[k], x)
      ensures TreeOk(g, f, roots[k]) ==> TreeOk(g, f', roots[k])
      ensures forall v :: Lookup(g, f', roots[k], v) == Lookup(g, f, roots[k], v)
      ensures forall v, j :: Lookup(g, f, roots[k], v) != 0 ==>
                SectorAt(f', Lookup(g, f, roots[k], v), j) == SectorAt(f, Lookup(g, f, roots[k], v), j)
    {
      TreeFrame(g, f, f', roots[k]);
    }
    forall x ensures RootsRefs(g, f', roots, x) == RootsRefs(g, f, roots, x) {
      RootsRefsFrame(g, f, f', roots, x);
    }
  }
}
