/** What the single steps of writing do to references, flags and guest disks. */
module Qcow2Steps {
  import opened Division
  import opened Qcow2Layout
  import opened Qcow2Trees
  import opened Qcow2Counts
  import opened Qcow2Volume

  // ---------------------------------------------------------------- counts change, nothing else

  lemma {:induction false} NewBlockRefs(rt: seq<nat>, rt': seq<nat>, nb: nat, x: nat)
    requires NewTable(rt, rt', nb)
    ensures Occ(rt', x) == Occ(rt, x) + One(nb != 0 && x == nb)
    ensures |rt'| == |rt|
  {
    if nb != 0 {
      var k :| 0 <= k < |rt| && rt[k] == 0 && rt' == rt[k := nb];
      OccUpdate(rt, k, nb, x);
    }
  }

  /** Counts were updated and maybe a block nb was added: only the counting clusters changed. */
  lemma {:induction false} CountsChanged(x: Ctx, v: Vol, v': Vol, nb: nat)
    requires Struct(x.g, v)
    requires v' == v.(file := v'.file, rt := v'.rt) && NewTable(v.rt, v'.rt, nb)
    requires nb != 0 ==> Refs(x.g, v, nb) == 0
    requires TableShape(x.g, v'.file, v'.rt, v'.rtOff)
    requires forall y :: !Owned(x.g, v'.rt, v'.rtOff, y) ==> SameAt(v.file, v'.file, y)
    ensures Struct(x.g, v') && SameViews(x, v, v') && Roots(x.g, v') == Roots(x.g, v)
    ensures Synced(v) ==> Synced(v')
    ensures forall y :: Refs(x.g, v', y) == Refs(x.g, v, y) + One(nb != 0 && y == nb)
    ensures forall y :: TreesRefs(x.g, v', y) == TreesRefs(x.g, v, y)
    ensures forall y :: PlainRefs(x.g, v, y) >= 1 ==> SameAt(v.file, v'.file, y)
  {
    var g := x.g;
    NewBlockRefs(v.rt, v'.rt, nb, 0);
    forall y | PlainRefs(g, v, y) >= 1 ensures SameAt(v.file, v'.file, y) {
      if Owned(g, v'.rt, v'.rtOff, y) {
        OccBlock(v'.rt, y);
        OccBlock(v.rt, y);
        NewBlockRefs(v.rt, v'.rt, nb, y);
        OwnedIsPlain(g, v, y);
      }
    }
    PlainFrame(x, v, v');
    forall y ensures MetaRefs(g, v', y) == MetaRefs(g, v, y) + One(nb != 0 && y == nb) {
      NewBlockRefs(v.rt, v'.rt, nb, y);
    }
  }

  /** Writing clusters nothing refers to. */
  lemma {:induction false} FreshWrite(x: Ctx, v: Vol, v': Vol)
    requires Struct(x.g, v)
    requires v' == v.(file := v'.file)
    requires forall y :: Refs(x.g, v, y) >= 1 ==> SameAt(v.file, v'.file, y)
    ensures Struct(x.g, v') && SameViews(x, v, v') && Roots(x.g, v') == Roots(x.g, v)
    ensures Synced(v) ==> Synced(v')
    ensures forall y :: Refs(x.g, v', y) == Refs(x.g, v, y) && VRC(x.g, v', y) == VRC(x.g, v, y)
    ensures forall y :: TreesRefs(x.g, v', y) == TreesRefs(x.g, v, y)
  {
    var g := x.g;
    assert forall y :: PlainRefs(g, v, y) >= 1 ==> Refs(g, v, y) >= 1;
    PlainFrame(x, v, v');
    forall b | Owned(g, v.rt, v.rtOff, b) ensures SameAt(v.file, v'.file, b) { OccBlock(v.rt, b); }
    ShapeFrame(g, v.file, v'.file, v.rt, v.rtOff);
    forall y ensures MetaRefs(g, v', y) == MetaRefs(g, v, y) {}
  }

  lemma {:induction false} ShapeFrame(g: Geo, f: File, f': File, rt: seq<nat>, rtOff: nat)
    requires TableShape(g, f, rt, rtOff)
    requires forall x :: Owned(g, rt, rtOff, x) ==> SameAt(f, f', x)
    ensures TableShape(g, f', rt, rtOff)
    ensures forall x :: RC(g, f', rt, x) == RC(g, f, rt, x)
  {
    assert forall b :: IsBlock(rt, b) ==> Owned(g, rt, rtOff, b);
    forall x ensures RC(g, f', rt, x) == RC(g, f, rt, x) { RCFrame(g, f, f', rt, x); }
    assert forall b :: InRun(b, rtOff, EntryClusters(g, |rt|)) ==> Owned(g, rt, rtOff, b);
    TableStoredFrame(g, f, f', rt, rtOff);
  }

  /** Flags stay exact where neither the entry nor the count of its cluster changes. */
  lemma {:induction false} FlagsCarry(g: Geo, v: Vol, v': Vol, i: int, p: int, q: int)
    requires g.Valid() && FlagsBut(g, v, i, p, q)
    requires v'.l1 == v.l1
    requires forall k :: 0 <= k < |v.l1| && v.l1[k].cluster != 0 ==> SameAt(v.file, v'.file, v.l1[k].cluster)
    requires forall k :: 0 <= k < |v.l1| && k != i && v.l1[k].cluster != 0 ==>
               VRC(g, v', v.l1[k].cluster) == VRC(g, v, v.l1[k].cluster)
    requires forall k, j :: 0 <= k < |v.l1| && v.l1[k].cluster != 0 && 0 <= j < g.es && !(k == p && j == q) ==>
               var d := EntryAt(v.file, v.l1[k].cluster, j).cluster;
               d != 0 ==> VRC(g, v', d) == VRC(g, v, d)
    ensures FlagsBut(g, v', i, p, q)
  {
    forall k, j | 0 <= k < |v.l1| && v.l1[k].cluster != 0 && 0 <= j < g.es && !(k == p && j == q)
      ensures FlagOk(g, v', EntryAt(v'.file, v.l1[k].cluster, j))
    {
      assert FlagOk(g, v, EntryAt(v.file, v.l1[k].cluster, j));
      assert EntryAt(v'.file, v.l1[k].cluster, j) == EntryAt(v.file, v.l1[k].cluster, j);
    }
  }

  /** Clusters named by active entries are referenced. */
  lemma {:induction false} ActiveRef(g: Geo, v: Vol, k: nat, j: nat)
    requires g.Valid() && k < |v.l1| && v.l1[k].cluster != 0 && j < g.es
    ensures TreeRefs(g, v.file, Erase(v.l1), v.l1[k].cluster) >= 1
    ensures TreesRefs(g, v, v.l1[k].cluster) >= 1
    ensures var d := EntryAt(v.file, v.l1[k].cluster, j).cluster; d != 0 ==> TreeRefs(g, v.file, Erase(v.l1), d) >= 1 && TreesRefs(g, v, d) >= 1
  {
    var l1 := Erase(v.l1);
    var c := v.l1[k].cluster;
    assert l1[k] == c;
    TreeAt(g, v.file, l1, k, c);
    RootsAt(g, v.file, Roots(g, v), 0, c);
    assert L2Ptrs(g, v.file, c)[j] == EntryAt(v.file, c, j).cluster;
    var d := EntryAt(v.file, c, j).cluster;
    if d != 0 {
      TreeData(g, v.file, l1, k, j);
      RootsAt(g, v.file, Roots(g, v), 0, d);
    }
  }

  /** An injective tree names the cluster of L1 slot i nowhere else. */
  lemma {:induction false} OnlyAtL1(g: Geo, v: Vol, i: nat)
    requires g.Valid() && Injective(g, v) && i < |v.l1| && v.l1[i].cluster != 0
    ensures forall k :: 0 <= k < |v.l1| && k != i ==> v.l1[k].cluster != v.l1[i].cluster
    ensures forall k, j :: 0 <= k < |v.l1| && v.l1[k].cluster != 0 && 0 <= j < g.es ==>
              EntryAt(v.file, v.l1[k].cluster, j).cluster != v.l1[i].cluster
  {
    var l1, r := Erase(v.l1), v.l1[i].cluster;
    assert Roots(g, v)[0] == l1;
    assert TreeRefs(g, v.file, l1, r) <= 1;
    forall k | 0 <= k < |v.l1| && k != i ensures v.l1[k].cluster != r {
      if v.l1[k].cluster == r { TreeAtTwo(g, v.file, l1, i, k, r); }
    }
    forall k, j | 0 <= k < |v.l1| && v.l1[k].cluster != 0 && 0 <= j < g.es
      ensures EntryAt(v.file, v.l1[k].cluster, j).cluster != r
    {
      assert L2Ptrs(g, v.file, v.l1[k].cluster)[j] == EntryAt(v.file, v.l1[k].cluster, j).cluster;
      if EntryAt(v.file, v.l1[k].cluster, j).cluster == r {
        OccAt(L2Ptrs(g, v.file, l1[k]), j);
        if k == i {
          TreeAt(g, v.file, l1, i, r);
        } else {
          TreeAtTwo(g, v.file, l1, i, k, r);
        }
      }
    }
  }

  /** An injective tree names the data cluster of slot (p, q) nowhere else. */
  lemma {:induction false} OnlyAtL2(g: Geo, v: Vol, p: nat, q: nat)
    requires g.Valid() && Injective(g, v) && p < |v.l1| && v.l1[p].cluster != 0 && q < g.es
    requires EntryAt(v.file, v.l1[p].cluster, q).cluster != 0
    ensures forall k :: 0 <= k < |v.l1| ==> v.l1[k].cluster != EntryAt(v.file, v.l1[p].cluster, q).cluster
    ensures forall k, j :: 0 <= k < |v.l1| && v.l1[k].cluster != 0 && 0 <= j < g.es && !(k == p && j == q) ==>
              EntryAt(v.file, v.l1[k].cluster, j).cluster != EntryAt(v.file, v.l1[p].cluster, q).cluster
  {
    var l1, r := Erase(v.l1), EntryAt(v.file, v.l1[p].cluster, q).cluster;
    assert Roots(g, v)[0] == l1;
    assert TreeRefs(g, v.file, l1, r) <= 1;
    forall k | 0 <= k < |v.l1| ensures v.l1[k].cluster != r {
      if v.l1[k].cluster == r { OnlyAtL1(g, v, k); }
    }
    assert L2Ptrs(g, v.file, l1[p])[q] == r;
    OccAt(L2Ptrs(g, v.file, l1[p]), q);
    forall k, j | 0 <= k < |v.l1| && v.l1[k].cluster != 0 && 0 <= j < g.es && !(k == p && j == q)
      ensures EntryAt(v.file, v.l1[k].cluster, j).cluster != r
    {
      assert L2Ptrs(g, v.file, l1[k])[j] == EntryAt(v.file, v.l1[k].cluster, j).cluster;
      if EntryAt(v.file, v.l1[k].cluster, j).cluster == r {
        OccAt(L2Ptrs(g, v.file, l1[k]), j);
        if k == p {
          OccTwo(L2Ptrs(g, v.file, l1[p]), q, j);
          TreeAt(g, v.file, l1, p, r);
        } else {
          TreeAtTwo(g, v.file, l1, p, k, r);
        }
      }
    }
  }

  /** Where a release leaves a flag behind: at the slot that named the released cluster. */
  ghost predicate NamedOnlyAt(g: Geo, v: Vol, r: nat, i: int, p: int, q: int)
    requires g.Valid()
  {
    && (forall k :: 0 <= k < |v.l1| && k != i ==> v.l1[k].cluster != r)
    && (forall k, j :: 0 <= k < |v.l1| && v.l1[k].cluster != 0 && 0 <= j < g.es && !(k == p && j == q) ==>
          EntryAt(v.file, v.l1[k].cluster, j).cluster != r)
  }

  /** One reference to r is given up in the counts. */
  lemma {:induction false} Released(x: Ctx, v: Vol, v': Vol, r: nat, i: int, p: int, q: int)
    requires Sound(x.g, v) && r != 0 && NamedOnlyAt(x.g, v, r, i, p, q)
    requires v' == v.(file := v'.file) && TableShape(x.g, v'.file, v'.rt, v'.rtOff)
    requires forall y :: !Owned(x.g, v'.rt, v'.rtOff, y) ==> SameAt(v.file, v'.file, y)
    requires forall y :: VRC(x.g, v', y) + One(y == r) == VRC(x.g, v, y)
    ensures Struct(x.g, v') && SameViews(x, v, v') && Roots(x.g, v') == Roots(x.g, v)
    ensures Synced(v) ==> Synced(v')
    ensures Balanced(x.g, v', 0, 0, r)
    ensures FlagsBut(x.g, v', i, p, q)
    ensures forall y :: TreesRefs(x.g, v', y) == TreesRefs(x.g, v, y)
    ensures forall y :: PlainRefs(x.g, v, y) >= 1 ==> SameAt(v.file, v'.file, y)
  {
    var g := x.g;
    CountsChanged(x, v, v', 0);
    forall k | 0 <= k < |v.l1| && v.l1[k].cluster != 0 ensures SameAt(v.file, v'.file, v.l1[k].cluster) {
      ActiveRef(g, v, k, 0);
    }
    assert FlagsBut(g, v, i, p, q);
    FlagsCarry(g, v, v', i, p, q);
  }

  /** Every referenced cluster is counted, so a cluster with count zero is really free. */
  ghost predicate Covered(g: Geo, v: Vol)
    requires g.Valid()
  {
    forall y :: VRC(g, v, y) == 0 ==> Refs(g, v, y) == 0
  }

  lemma {:induction false} BalancedCovers(g: Geo, v: Vol, a: nat, n: nat, r: nat)
    requires g.Valid() && Balanced(g, v, a, n, r) && (r != 0 ==> Refs(g, v, r) >= 2)
    ensures Covered(g, v)
  {
    forall y | VRC(g, v, y) == 0 ensures Refs(g, v, y) == 0 {
      assert VRC(g, v, y) + One(r != 0 && y == r) == Refs(g, v, y) + One(InRun(y, a, n));
    }
  }

  /** A run a .. a+n of unreferenced clusters is allocated, maybe together with a block nb. */
  lemma {:induction false} Allocated(x: Ctx, v: Vol, v': Vol, a: nat, n: nat, nb: nat, i: int, p: int, q: int)
    requires Struct(x.g, v) && Covered(x.g, v) && FlagsBut(x.g, v, i, p, q)
    requires v' == v.(file := v'.file, rt := v'.rt) && NewTable(v.rt, v'.rt, nb)
    requires TableShape(x.g, v'.file, v'.rt, v'.rtOff)
    requires forall y :: !Owned(x.g, v'.rt, v'.rtOff, y) ==> SameAt(v.file, v'.file, y)
    requires nb != 0 ==> !InRun(nb, a, n)
    requires forall y :: InRun(y, a, n) || (nb != 0 && y == nb) ==> VRC(x.g, v, y) == 0
    requires forall y :: VRC(x.g, v', y) == VRC(x.g, v, y) + One(InRun(y, a, n)) + One(nb != 0 && y == nb)
    ensures Struct(x.g, v') && SameViews(x, v, v') && Roots(x.g, v') == Roots(x.g, v)
    ensures Synced(v) ==> Synced(v')
    ensures forall y :: VRC(x.g, v', y) + Refs(x.g, v, y) == Refs(x.g, v', y) + VRC(x.g, v, y) + One(InRun(y, a, n))
    ensures forall y :: InRun(y, a, n) ==> Refs(x.g, v', y) == 0
    ensures FlagsBut(x.g, v', i, p, q)
    ensures forall y :: TreesRefs(x.g, v', y) == TreesRefs(x.g, v, y)
    ensures forall y :: PlainRefs(x.g, v, y) >= 1 ==> SameAt(v.file, v'.file, y)
    ensures forall y :: Refs(x.g, v', y) >= Refs(x.g, v, y)
  {
    var g := x.g;
    CountsChanged(x, v, v', nb);
    forall k | 0 <= k < |v.l1| && v.l1[k].cluster != 0
      ensures SameAt(v.file, v'.file, v.l1[k].cluster)
      ensures VRC(g, v', v.l1[k].cluster) == VRC(g, v, v.l1[k].cluster)
    {
      ActiveRef(g, v, k, 0);
    }
    forall k, j | 0 <= k < |v.l1| && v.l1[k].cluster != 0 && 0 <= j < g.es
      ensures var d := EntryAt(v.file, v.l1[k].cluster, j).cluster; d != 0 ==> VRC(g, v', d) == VRC(g, v, d)
    {
      ActiveRef(g, v, k, j);
    }
    FlagsCarry(g, v, v', i, p, q);
  }

  // ---------------------------------------------------------------- entering a cluster in an L2 table

  /** The guest cluster that slots i and j stand for. */
  function GuestCluster(g: Geo, i: nat, j: nat): nat
  {
    i * g.es + j
  }

  /** L2 table w is reached by one path only, from slot i of the active image. */
  ghost predicate OwnsL2(g: Geo, v: Vol, i: nat, w: nat)
    requires g.Valid()
  {
    i < |v.l1| && v.l1[i].cluster == w && w != 0 && TreesRefs(g, v, w) == 1
  }

  lemma {:induction false} OtherRootsMiss(g: Geo, v: Vol, w: nat, k: nat)
    requires g.Valid() && TreesRefs(g, v, w) == 1 && TreeRefs(g, v.file, Erase(v.l1), w) >= 1
    requires 1 <= k <= |v.snaps|
    ensures TreeRefs(g, v.file, Roots(g, v)[k], w) == 0
  {
    RootsAtTwo(g, v.file, Roots(g, v), 0, k, w);
  }

  lemma {:induction false} SetL2Basics(g: Geo, v: Vol, v': Vol, i: nat, j: nat, w: nat, d: nat)
    requires Struct(g, v) && OwnsL2(g, v, i, w) && j < g.es && d != 0
    requires v' == v.(file := PutEntry(v.file, w, j, Entry(true, d)))
    ensures Roots(g, v') == Roots(g, v)
    ensures TreeRefs(g, v.file, Erase(v.l1), w) == 1 && MetaRefs(g, v, w) == 0
    ensures IsTable(g, v.file, w) && IsTable(g, v'.file, w)
    ensures L2Ptrs(g, v'.file, w) == L2Ptrs(g, v.file, w)[j := d]
    ensures forall y :: y != w ==> SameAt(v.file, v'.file, y)
  {
    var l1 := Erase(v.l1);
    assert l1[i] == w;
    TreeAt(g, v.file, l1, i, w);
    assert Roots(g, v)[0] == l1;
    RootsAt(g, v.file, Roots(g, v), 0, w);
    assert TreeOk(g, v.file, l1);
    assert L2Ok(g, v.file, w);
    RootsKept(g, v, v'.file);
  }

  /** References after slot j of an unshared table changes from one cluster to another. */
  lemma {:induction false} SetL2Refs(g: Geo, v: Vol, v': Vol, i: nat, j: nat, w: nat, d: nat, y: nat)
    requires Struct(g, v) && OwnsL2(g, v, i, w) && j < g.es && d != 0
    requires v' == v.(file := PutEntry(v.file, w, j, Entry(true, d)))
    ensures forall k :: 1 <= k <= |v.snaps| ==> TreeRefs(g, v'.file, Roots(g, v)[k], y) == TreeRefs(g, v.file, Roots(g, v)[k], y)
    ensures var o := EntryAt(v.file, w, j).cluster;
            TreeRefs(g, v'.file, Erase(v.l1), y) + One(y != 0 && o == y) == TreeRefs(g, v.file, Erase(v.l1), y) + One(d == y)
    ensures var o := EntryAt(v.file, w, j).cluster;
            TreesRefs(g, v', y) + One(y != 0 && o == y) == TreesRefs(g, v, y) + One(d == y)
  {
    var l1, roots := Erase(v.l1), Roots(g, v);
    SetL2Basics(g, v, v', i, j, w, d);
    forall k | 1 <= k <= |v.snaps| ensures TreeRefs(g, v'.file, roots[k], y) == TreeRefs(g, v.file, roots[k], y) {
      OtherRootsMiss(g, v, w, k);
      TreeRefsFrame(g, v.file, v'.file, roots[k], y);
    }
    TreeWriteL2(g, v.file, v'.file, l1, i, y);
    OccUpdate(L2Ptrs(g, v.file, w), j, d, y);
    RootsFirst(g, v.file, v'.file, roots, l1, y);
    assert roots[0 := l1] == roots;
  }

  lemma {:induction false} SetL2Trees(g: Geo, v: Vol, v': Vol, i: nat, j: nat, w: nat, d: nat)
    requires Struct(g, v) && OwnsL2(g, v, i, w) && j < g.es && d != 0
    requires v' == v.(file := PutEntry(v.file, w, j, Entry(true, d)))
    requires IsData(g, v.file, d)
    ensures RootsOk(g, v'.file, Roots(g, v'))
    ensures forall k, u :: 1 <= k <= |v.snaps| ==> Lookup(g, v'.file, Roots(g, v)[k], u) == Lookup(g, v.file, Roots(g, v)[k], u)
  {
    var l1, roots := Erase(v.l1), Roots(g, v);
    SetL2Basics(g, v, v', i, j, w, d);
    forall k | 1 <= k <= |v.snaps|
      ensures TreeOk(g, v'.file, roots[k])
      ensures forall u :: Lookup(g, v'.file, roots[k], u) == Lookup(g, v.file, roots[k], u)
    {
      OtherRootsMiss(g, v, w, k);
      TreeFrame(g, v.file, v'.file, roots[k]);
    }
    assert TreeOk(g, v.file, roots[0]);
    forall k | 0 <= k < |l1| && l1[k] != 0 ensures L2Ok(g, v'.file, l1[k]) {
      assert L2Ok(g, v.file, l1[k]);
      if l1[k] != w {
        AlikePtrs(g, v.file, v'.file, l1[k]);
      }
      forall m | 0 <= m < g.es && L2Ptrs(g, v'.file, l1[k])[m] != 0 ensures IsData(g, v'.file, L2Ptrs(g, v'.file, l1[k])[m]) {
        assert L2Ptrs(g, v'.file, l1[k])[m] == d || L2Ptrs(g, v'.file, l1[k])[m] == L2Ptrs(g, v.file, l1[k])[m];
      }
    }
  }

  lemma {:induction false} SetL2Struct(x: Ctx, v: Vol, v': Vol, i: nat, j: nat, w: nat, d: nat)
    requires Struct(x.g, v) && OwnsL2(x.g, v, i, w) && j < x.g.es && d != 0
    requires v' == v.(file := PutEntry(v.file, w, j, Entry(true, d)))
    requires IsData(x.g, v.file, d) && Refs(x.g, v, d) == 0
    ensures Struct(x.g, v')
  {
    var g := x.g;
    var l1, roots := Erase(v.l1), Roots(g, v);
    SetL2Basics(g, v, v', i, j, w, d);
    SetL2Trees(g, v, v', i, j, w, d);
    SetL2Meta(g, v, v', w);
    forall k, y | 0 <= k <= |v.snaps| ensures TreeRefs(g, v'.file, roots[k], y) <= 1 {
      SetL2Refs(g, v, v', i, j, w, d, y);
      assert TreeRefs(g, v.file, roots[k], y) <= 1;
      if k == 0 && y == d { RootsAt(g, v.file, roots, 0, d); }
    }
    forall y | MetaRefs(g, v', y) >= 1 ensures MetaRefs(g, v', y) == 1 && TreesRefs(g, v', y) == 0 {
      SetL2Refs(g, v, v', i, j, w, d, y);
      assert MetaRefs(g, v', y) == MetaRefs(g, v, y);
    }
  }

  /** Entering the allocated data cluster d in slot (i, j) completes a copy-on-write. */
  lemma {:induction false} SetL2Sound(x: Ctx, v: Vol, v': Vol, i: nat, j: nat, w: nat, d: nat)
    requires Struct(x.g, v) && OwnsL2(x.g, v, i, w) && j < x.g.es && d != 0
    requires v' == v.(file := PutEntry(v.file, w, j, Entry(true, d)))
    requires IsData(x.g, v.file, d) && Refs(x.g, v, d) == 0
    requires Synced(v) && Balanced(x.g, v, d, 1, EntryAt(v.file, w, j).cluster)
    requires FlagsBut(x.g, v, -1, i, j)
    requires EntryAt(v.file, w, j).cluster != d
    ensures Sound(x.g, v')
    ensures forall y :: TreesRefs(x.g, v, y) >= 1 && y != EntryAt(v.file, w, j).cluster ==> TreesRefs(x.g, v', y) >= 1
  {
    var g := x.g;
    var o := EntryAt(v.file, w, j).cluster;
    SetL2Basics(g, v, v', i, j, w, d);
    SetL2Struct(x, v, v', i, j, w, d);
    SetL2Meta(g, v, v', w);
    forall y: nat
      ensures Refs(g, v', y) + One(y != 0 && o == y) == Refs(g, v, y) + One(d == y)
      ensures TreesRefs(g, v', y) + One(y != 0 && o == y) == TreesRefs(g, v, y) + One(d == y)
    {
      SetL2Refs(g, v, v', i, j, w, d, y);
      assert MetaRefs(g, v', y) == MetaRefs(g, v, y);
    }
    assert VRC(g, v, d) == 1;
    SetL2Flags(g, v, v', i, j, w, d);
    SetL2Balanced(g, v, v', o, d);
  }

  lemma {:induction false} SetL2Balanced(g: Geo, v: Vol, v': Vol, o: nat, d: nat)
    requires g.Valid() && Balanced(g, v, d, 1, o)
    requires forall y :: VRC(g, v', y) == VRC(g, v, y)
    requires forall y :: Refs(g, v', y) + One(y != 0 && o == y) == Refs(g, v, y) + One(d == y)
    ensures Balanced(g, v', 0, 0, 0)
  {
    forall y ensures VRC(g, v', y) == Refs(g, v', y) {
      assert InRun(y, d, 1) <==> y == d;
      assert VRC(g, v, y) + One(o != 0 && y == o) == Refs(g, v, y) + One(InRun(y, d, 1));
    }
  }

  /** Changing an unshared table disturbs no metadata. */
  lemma {:induction false} SetL2Meta(g: Geo, v: Vol, v': Vol, w: nat)
    requires Struct(g, v) && MetaRefs(g, v, w) == 0
    requires v' == v.(file := v'.file) && forall y :: y != w ==> SameAt(v.file, v'.file, y)
    ensures TableShape(g, v'.file, v'.rt, v'.rtOff)
    ensures forall y :: VRC(g, v', y) == VRC(g, v, y)
    ensures L1Stored(g, v'.file, v'.l1Off, v'.l1) && SnapsTyped(g, v'.file, v'.snaps) && (Synced(v) ==> Synced(v'))
  {
    OccBlock(v.rt, w);
    ShapeFrame(g, v.file, v'.file, v.rt, v.rtOff);
    L1StoredFrame(g, v.file, v'.file, v.l1Off, v.l1);
    RootsKept(g, v, v'.file);
    assert SameAt(v.file, v'.file, 0);
    if v.snapClusters > 0 { assert SameAt(v.file, v'.file, v.snapOff); }
  }

  lemma {:induction false} SetL2Flags(g: Geo, v: Vol, v': Vol, i: nat, j: nat, w: nat, d: nat)
    requires Struct(g, v) && OwnsL2(g, v, i, w) && j < g.es && d != 0
    requires v' == v.(file := PutEntry(v.file, w, j, Entry(true, d)))
    requires FlagsBut(g, v, -1, i, j) && VRC(g, v, d) == 1
    requires forall y :: VRC(g, v', y) == VRC(g, v, y)
    ensures FlagsExact(g, v')
  {
    SetL2Basics(g, v, v', i, j, w, d);
    OnlyAtL1(g, v, i);
    forall k, m | 0 <= k < |v.l1| && v.l1[k].cluster != 0 && 0 <= m < g.es
      ensures FlagOk(g, v', EntryAt(v'.file, v.l1[k].cluster, m))
    {
      if !(k == i && m == j) {
        assert FlagOk(g, v, EntryAt(v.file, v.l1[k].cluster, m));
      }
    }
  }

  /** Only the guest cluster of slot (i, j) now reads from d. */
  lemma {:induction false} SetL2Views(x: Ctx, v: Vol, v': Vol, i: nat, j: nat, w: nat, d: nat, k: nat, s: nat)
    requires Struct(x.g, v) && OwnsL2(x.g, v, i, w) && j < x.g.es && d != 0
    requires v' == v.(file := PutEntry(v.file, w, j, Entry(true, d)))
    requires IsData(x.g, v.file, d)
    requires k <= |v.snaps|
    ensures View(x, v', k, s) ==
              if k == 0 && Quot(s, x.g.cs) == GuestCluster(x.g, i, j) then x.crypt.dec(s, SectorAt(v.file, d, Rem(s, x.g.cs)))
              else View(x, v, k, s)
  {
    var g, u := x.g, Quot(s, x.g.cs);
    var l1, roots := Erase(v.l1), Roots(g, v);
    SetL2Basics(g, v, v', i, j, w, d);
    SetL2Trees(g, v, v', i, j, w, d);
    assert forall y, m: nat :: y != w ==> SectorAt(v'.file, y, m) == SectorAt(v.file, y, m);
    assert RootsOk(g, v.file, roots);
    var p := Lookup(g, v.file, roots[k], u);
    if p != 0 {
      LookupData(g, v.file, roots[k], u);
    }
    if k == 0 {
      var a, b := Quot(u, g.es), Rem(u, g.es);
      if u == GuestCluster(g, i, j) {
        DivExact(i, g.es, j);
      } else if a == i && b == j {
        QuotRem(u, g.es);
      }
      OnlyAtL1(g, v, i);
    } else {
      assert Lookup(g, v'.file, roots[k], u) == p;
    }
  }

  lemma {:induction false} LookupData(g: Geo, f: File, l1: seq<nat>, u: nat)
    requires g.es > 0 && TreeOk(g, f, l1) && Lookup(g, f, l1, u) != 0
    ensures IsData(g, f, Lookup(g, f, l1, u))
  {
    var i, j := Quot(u, g.es), Rem(u, g.es);
    assert L2Ok(g, f, l1[i]);
    assert L2Ptrs(g, f, l1[i])[j] == EntryAt(f, l1[i], j).cluster;
  }

  // ---------------------------------------------------------------- giving an L1 slot its own table

  /** The contents of a fresh table for slot i: empty, or a copy of the table it replaces. */
  ghost predicate TableFor(g: Geo, v: Vol, i: nat, t: seq<Entry>)
    requires g.Valid() && i < |v.l1|
  {
    |t| == g.es && forall j :: 0 <= j < g.es ==> t[j] == if v.l1[i].cluster == 0 then ZERO else EntryAt(v.file, v.l1[i].cluster, j)
  }

  function SetL1File(g: Geo, f: File, l1Off: nat, i: nat, w: nat, t: seq<Entry>): File
    requires g.es > 0
  {
    PutEntry(f, l1Off + Quot(i, g.es), Rem(i, g.es), Entry(true, w))[w := Table(t)]
  }

  ghost predicate SetL1Pre(g: Geo, v: Vol, v': Vol, i: nat, w: nat, t: seq<Entry>)
  {
    && Struct(g, v) && i < |v.l1| && w != 0 && Refs(g, v, w) == 0 && TableFor(g, v, i, t)
    && v' == v.(file := SetL1File(g, v.file, v.l1Off, i, w, t), l1 := v.l1[i := Entry(true, w)])
  }

  lemma {:induction false} SetL1Basics(g: Geo, v: Vol, v': Vol, i: nat, w: nat, t: seq<Entry>)
    requires SetL1Pre(g, v, v', i, w, t)
    ensures Erase(v'.l1) == Erase(v.l1)[i := w]
    ensures IsTable(g, v'.file, w) && L2Ptrs(g, v'.file, w) == Erase(t)
    ensures v.l1[i].cluster != 0 ==> L2Ptrs(g, v.file, v.l1[i].cluster) == Erase(t)
    ensures L1Stored(g, v'.file, v'.l1Off, v'.l1)
    ensures forall y :: y != w && !InRun(y, v.l1Off, EntryClusters(g, |v.l1|)) ==> SameAt(v.file, v'.file, y)
  {
    assert Erase(v'.l1) == Erase(v.l1)[i := w];
    var c := v.l1Off + Quot(i, g.es);
    SlotInRun(g, i, |v.l1|);
    assert InRun(c, v.l1Off, EntryClusters(g, |v.l1|));
    assert MetaRefs(g, v, c) >= 1;
    assert IsTable(g, v.file, c);
    var l1 := Erase(v.l1);
    if l1[i] != 0 {
      assert Roots(g, v)[0] == l1;
      assert L2Ok(g, v.file, l1[i]);
    }
    forall k | 0 <= k < |v.l1| ensures L1EntryAt(g, v'.file, v.l1Off, k) == v'.l1[k] {
      assert L1EntryAt(g, v.file, v.l1Off, k) == v.l1[k];
      SlotInRun(g, k, |v.l1|);
      var e := v.l1Off + Quot(k, g.es);
      assert InRun(e, v.l1Off, EntryClusters(g, |v.l1|));
      assert MetaRefs(g, v, e) >= 1;
      if e == c && Rem(k, g.es) == Rem(i, g.es) { DivModUnique(k, i, g.es); }
    }
    forall y | InRun(y, v.l1Off, EntryClusters(g, |v.l1|)) ensures IsTable(g, v'.file, y) {
      assert MetaRefs(g, v, y) >= 1;
    }
  }

  /** Clusters the trees reach are untouched. */
  lemma {:induction false} SetL1Frame(g: Geo, v: Vol, v': Vol, i: nat, w: nat, t: seq<Entry>, y: nat)
    requires SetL1Pre(g, v, v', i, w, t)
    requires TreesRefs(g, v, y) >= 1 || SnapTableRefs(g, v.snaps, y) >= 1 || y == 0 || InRun(y, v.snapOff, v.snapClusters) || Owned(g, v.rt, v.rtOff, y)
    ensures SameAt(v.file, v'.file, y)
  {
    SetL1Basics(g, v, v', i, w, t);
    OccBlock(v.rt, y);
  }

  lemma {:induction false} SetL1Refs(g: Geo, v: Vol, v': Vol, i: nat, w: nat, t: seq<Entry>, y: nat)
    requires SetL1Pre(g, v, v', i, w, t)
    ensures Roots(g, v') == Roots(g, v)[0 := Erase(v'.l1)]
    ensures forall k :: 1 <= k <= |v.snaps| ==> TreeRefs(g, v'.file, Roots(g, v)[k], y) == TreeRefs(g, v.file, Roots(g, v)[k], y)
    ensures var o := v.l1[i].cluster;
            TreeRefs(g, v'.file, Erase(v'.l1), y) + One(y != 0 && o == y) == TreeRefs(g, v.file, Erase(v.l1), y) + One(w == y)
    ensures var o := v.l1[i].cluster;
            TreesRefs(g, v', y) + One(y != 0 && o == y) == TreesRefs(g, v, y) + One(w == y)
  {
    var l1, roots, o := Erase(v.l1), Roots(g, v), v.l1[i].cluster;
    SetL1Roots(g, v, v', i, w, t);
    RootsFrame(g, v.file, v'.file, roots);
    SetL1Active(g, v, v', i, w, t, y);
    hide SetL1Pre;
    RootsFirst(g, v.file, v'.file, roots, Erase(v'.l1), y);
  }

  lemma {:induction false} SetL1Roots(g: Geo, v: Vol, v': Vol, i: nat, w: nat, t: seq<Entry>)
    requires SetL1Pre(g, v, v', i, w, t)
    ensures Roots(g, v') == Roots(g, v)[0 := Erase(v'.l1)]
    ensures forall z :: RootsRefs(g, v.file, Roots(g, v), z) >= 1 ==> SameAt(v.file, v'.file, z)
  {
    hide RootsRefs, SnapTableRefs, SameAt, DiskRoot, Erase;
    forall z | TreesRefs(g, v, z) >= 1 || SnapTableRefs(g, v.snaps, z) >= 1 ensures SameAt(v.file, v'.file, z) {
      SetL1Frame(g, v, v', i, w, t, z);
    }
    RootsKept(g, v, v'.file);
    assert SnapRoots(g, v'.file, v.snaps) == Roots(g, v.(file := v'.file))[1..];
    assert Roots(g, v') == Roots(g, v)[0 := Erase(v'.l1)];
  }

  lemma {:induction false} SetL1Active(g: Geo, v: Vol, v': Vol, i: nat, w: nat, t: seq<Entry>, y: nat)
    requires SetL1Pre(g, v, v', i, w, t)
    requires forall z :: RootsRefs(g, v.file, Roots(g, v), z) >= 1 ==> SameAt(v.file, v'.file, z)
    requires forall k, z :: 0 <= k < |Roots(g, v)| ==> TreeRefs(g, v'.file, Roots(g, v)[k], z) == TreeRefs(g, v.file, Roots(g, v)[k], z)
    ensures var o := v.l1[i].cluster;
            TreeRefs(g, v'.file, Erase(v'.l1), y) + One(y != 0 && o == y) == TreeRefs(g, v.file, Erase(v.l1), y) + One(w == y)
  {
    var l1, o := Erase(v.l1), v.l1[i].cluster;
    SetL1Basics(g, v, v', i, w, t);
    assert Roots(g, v)[0] == l1;
    TreeUpdate(g, v'.file, l1, i, w, y);
    if o == 0 {
      OccAllZero(Erase(t), y);
    } else {
      TreeAt(g, v.file, l1, i, o);
      RootsAt(g, v.file, Roots(g, v), 0, o);
      AlikePtrs(g, v.file, v'.file, o);
    }
  }

  lemma {:induction false} SetL1Trees(g: Geo, v: Vol, v': Vol, i: nat, w: nat, t: seq<Entry>)
    requires SetL1Pre(g, v, v', i, w, t)
    ensures RootsOk(g, v'.file, Roots(g, v'))
    ensures forall k, u :: 0 <= k <= |v.snaps| ==> Lookup(g, v'.file, Roots(g, v')[k], u) == Lookup(g, v.file, Roots(g, v)[k], u)
    ensures forall k, u, m :: 0 <= k <= |v.snaps| && Lookup(g, v.file, Roots(g, v)[k], u) != 0 ==>
              SectorAt(v'.file, Lookup(g, v.file, Roots(g, v)[k], u), m) == SectorAt(v.file, Lookup(g, v.file, Roots(g, v)[k], u), m)
  {
    SetL1Roots(g, v, v', i, w, t);
    RootsFrame(g, v.file, v'.file, Roots(g, v));
    SetL1Tree(g, v, v', i, w, t);
  }

  /** The new active tree is in order and resolves every guest cluster as before. */
  lemma {:induction false} SetL1Tree(g: Geo, v: Vol, v': Vol, i: nat, w: nat, t: seq<Entry>)
    requires SetL1Pre(g, v, v', i, w, t)
    requires TreeOk(g, v'.file, Erase(v.l1))
    requires forall u :: Lookup(g, v'.file, Erase(v.l1), u) == Lookup(g, v.file, Erase(v.l1), u)
    requires forall z :: RootsRefs(g, v.file, Roots(g, v), z) >= 1 ==> SameAt(v.file, v'.file, z)
    ensures TreeOk(g, v'.file, Erase(v'.l1))
    ensures forall u :: Lookup(g, v'.file, Erase(v'.l1), u) == Lookup(g, v.file, Erase(v.l1), u)
  {
    var l1, l1', o := Erase(v.l1), Erase(v'.l1), v.l1[i].cluster;
    SetL1Basics(g, v, v', i, w, t);
    if o != 0 {
      TreeAt(g, v.file, l1, i, o);
      RootsAt(g, v.file, Roots(g, v), 0, o);
      AlikePtrs(g, v.file, v'.file, o);
      assert L2Ok(g, v'.file, l1[i]);
    }
    hide SetL1Pre, RootsRefs, TreeRefs;
    forall k | 0 <= k < |l1'| && l1'[k] != 0 ensures L2Ok(g, v'.file, l1'[k]) {
      if k != i { assert l1'[k] == l1[k]; }
    }
    forall u: nat ensures Lookup(g, v'.file, l1', u) == Lookup(g, v.file, l1, u) {
      assert Lookup(g, v'.file, l1, u) == Lookup(g, v.file, l1, u);
      if Quot(u, g.es) == i {
        var m := Rem(u, g.es);
        assert L2Ptrs(g, v'.file, w)[m] == Erase(t)[m];
        if o != 0 { assert L2Ptrs(g, v.file, o)[m] == Erase(t)[m]; }
      }
    }
  }

  lemma {:induction false} SetL1Meta(g: Geo, v: Vol, v': Vol, i: nat, w: nat, t: seq<Entry>)
    requires SetL1Pre(g, v, v', i, w, t)
    ensures TableShape(g, v'.file, v'.rt, v'.rtOff)
    ensures forall y :: VRC(g, v', y) == VRC(g, v, y)
    ensures SnapsTyped(g, v'.file, v'.snaps) && (Synced(v) ==> Synced(v'))
    ensures forall y :: MetaRefs(g, v', y) == MetaRefs(g, v, y)
  {
    forall z | SnapTableRefs(g, v.snaps, z) >= 1 || Owned(g, v.rt, v.rtOff, z) ensures SameAt(v.file, v'.file, z) {
      SetL1Frame(g, v, v', i, w, t, z);
    }
    ShapeFrame(g, v.file, v'.file, v.rt, v.rtOff);
    RootsKept(g, v, v'.file);
    SetL1Frame(g, v, v', i, w, t, 0);
    if v.snapClusters > 0 { SetL1Frame(g, v, v', i, w, t, v.snapOff); }
  }

  lemma {:induction false} SetL1Struct(g: Geo, v: Vol, v': Vol, i: nat, w: nat, t: seq<Entry>)
    requires SetL1Pre(g, v, v', i, w, t)
    ensures Struct(g, v')
  {
    var roots := Roots(g, v);
    SetL1Basics(g, v, v', i, w, t);
    SetL1Trees(g, v, v', i, w, t);
    SetL1Meta(g, v, v', i, w, t);
    forall k, y | 0 <= k <= |v.snaps| ensures TreeRefs(g, v'.file, Roots(g, v')[k], y) <= 1 {
      SetL1Refs(g, v, v', i, w, t, y);
      assert TreeRefs(g, v.file, roots[k], y) <= 1;
      if k == 0 && y == w { RootsAt(g, v.file, roots, 0, w); }
    }
    forall y | MetaRefs(g, v', y) >= 1 ensures MetaRefs(g, v', y) == 1 && TreesRefs(g, v', y) == 0 {
      SetL1Refs(g, v, v', i, w, t, y);
    }
  }

  /** Giving slot i the allocated table w, empty or copied, completes an L2 allocation. */
  lemma {:induction false} SetL1Sound(x: Ctx, v: Vol, v': Vol, i: nat, w: nat, t: seq<Entry>)
    requires SetL1Pre(x.g, v, v', i, w, t)
    requires Synced(v) && Balanced(x.g, v, w, 1, v.l1[i].cluster) && FlagsBut(x.g, v, i, -1, -1) && v.l1[i].cluster != w
    ensures Sound(x.g, v') && SameViews(x, v, v')
    ensures OwnsL2(x.g, v', i, w)
    ensures forall y :: TreesRefs(x.g, v, y) >= 1 && y != v.l1[i].cluster ==> TreesRefs(x.g, v', y) >= 1
    ensures v.l1[i].cluster != 0 && TreesRefs(x.g, v, v.l1[i].cluster) >= 2 ==> TreesRefs(x.g, v', v.l1[i].cluster) >= 1
  {
    var g, o := x.g, v.l1[i].cluster;
    SetL1Basics(g, v, v', i, w, t);
    SetL1Struct(g, v, v', i, w, t);
    SetL1Meta(g, v, v', i, w, t);
    SetL1Trees(g, v, v', i, w, t);
    forall y: nat
      ensures Refs(g, v', y) + One(y != 0 && o == y) == Refs(g, v, y) + One(w == y)
      ensures TreesRefs(g, v', y) + One(y != 0 && o == y) == TreesRefs(g, v, y) + One(w == y)
    {
      SetL1Refs(g, v, v', i, w, t, y);
    }
    SetL2Balanced(g, v, v', o, w);
    assert VRC(g, v', w) == 1 by { assert VRC(g, v', w) == Refs(g, v', w); }
    SetL1Flags(g, v, v', i, w, t);
  }

  lemma {:induction false} SetL1Flags(g: Geo, v: Vol, v': Vol, i: nat, w: nat, t: seq<Entry>)
    requires SetL1Pre(g, v, v', i, w, t)
    requires FlagsBut(g, v, i, -1, -1) && VRC(g, v', w) == 1
    requires forall y :: VRC(g, v', y) == VRC(g, v, y)
    ensures FlagsExact(g, v')
  {
    SetL1Basics(g, v, v', i, w, t);
    forall k, j | 0 <= k < |v.l1| && v'.l1[k].cluster != 0 && 0 <= j < g.es
      ensures FlagOk(g, v', EntryAt(v'.file, v'.l1[k].cluster, j))
    {
      if k == i {
        assert EntryAt(v'.file, w, j) == t[j];
        if v.l1[i].cluster != 0 { assert FlagOk(g, v, EntryAt(v.file, v.l1[i].cluster, j)); }
      } else {
        ActiveRef(g, v, k, j);
        SetL1Frame(g, v, v', i, w, t, v.l1[k].cluster);
        assert FlagOk(g, v, EntryAt(v.file, v.l1[k].cluster, j));
      }
    }
    forall k | 0 <= k < |v.l1| ensures FlagOk(g, v', v'.l1[k]) {
      if k != i { assert FlagOk(g, v, v.l1[k]); }
    }
  }

  // ---------------------------------------------------------------- writing into an unshared data cluster

  /** Data cluster d belongs to guest cluster u of the active image and to nothing else. */
  ghost predicate OwnsData(g: Geo, v: Vol, u: nat, d: nat)
    requires g.Valid()
  {
    d != 0 && Lookup(g, v.file, Erase(v.l1), u) == d && TreesRefs(g, v, d) == 1
  }

  ghost predicate DataWrite(g: Geo, v: Vol, v': Vol, d: nat)
    requires g.Valid()
  {
    && v' == v.(file := v'.file)
    && IsData(g, v'.file, d)
    && forall y :: y != d ==> SameAt(v.file, v'.file, y)
  }

  lemma {:induction false} DataWriteTrees(g: Geo, v: Vol, v': Vol, u: nat, d: nat)
    requires Struct(g, v) && OwnsData(g, v, u, d) && DataWrite(g, v, v', d)
    ensures IsData(g, v.file, d) && MetaRefs(g, v, d) == 0
    ensures Roots(g, v') == Roots(g, v)
    ensures forall y :: IsTable(g, v.file, y) ==> SameAt(v.file, v'.file, y)
    ensures forall k, y :: 0 <= k <= |v.snaps| ==> TreeRefs(g, v'.file, Roots(g, v)[k], y) == TreeRefs(g, v.file, Roots(g, v)[k], y)
    ensures forall y :: TreesRefs(g, v', y) == TreesRefs(g, v, y)
    ensures RootsOk(g, v'.file, Roots(g, v'))
  {
    var roots := Roots(g, v);
    assert roots[0] == Erase(v.l1);
    assert TreeOk(g, v.file, roots[0]);
    LookupData(g, v.file, roots[0], u);
    RootsKept(g, v, v'.file);
    forall k | 0 <= k <= |v.snaps|
      ensures forall y :: TreeRefs(g, v'.file, roots[k], y) == TreeRefs(g, v.file, roots[k], y)
      ensures TreeOk(g, v'.file, roots[k])
    {
      assert TreeOk(g, v.file, roots[k]);
      forall m | 0 <= m < |roots[k]| && roots[k][m] != 0
        ensures L2Ptrs(g, v'.file, roots[k][m]) == L2Ptrs(g, v.file, roots[k][m])
        ensures L2Ok(g, v'.file, roots[k][m])
      {
        assert L2Ok(g, v.file, roots[k][m]);
        assert roots[k][m] != d;
        AlikePtrs(g, v.file, v'.file, roots[k][m]);
        forall j | 0 <= j < g.es && L2Ptrs(g, v.file, roots[k][m])[j] != 0 ensures IsData(g, v'.file, L2Ptrs(g, v.file, roots[k][m])[j]) {
          var e := L2Ptrs(g, v.file, roots[k][m])[j];
          if e != d { assert SameAt(v.file, v'.file, e); }
        }
      }
      forall y ensures TreeRefs(g, v'.file, roots[k], y) == TreeRefs(g, v.file, roots[k], y) {
        TreeRefsSame(g, v.file, v'.file, roots[k], y);
      }
    }
    forall y ensures TreesRefs(g, v', y) == TreesRefs(g, v, y) {
      RootsRefsFrame(g, v.file, v'.file, roots, y);
    }
  }

  /** An in-place write keeps every reference, count and flag. */
  lemma {:induction false} DataWriteSound(x: Ctx, v: Vol, v': Vol, u: nat, d: nat)
    requires Sound(x.g, v) && OwnsData(x.g, v, u, d) && DataWrite(x.g, v, v', d)
    ensures Sound(x.g, v')
    ensures forall y :: TreesRefs(x.g, v', y) == TreesRefs(x.g, v, y)
    ensures OwnsData(x.g, v', u, d)
  {
    var g := x.g;
    DataWriteTrees(g, v, v', u, d);
    SetL2Meta(g, v, v', d);
    forall y ensures MetaRefs(g, v', y) == MetaRefs(g, v, y) {}
    assert Roots(g, v)[0] == Erase(v.l1);
    assert TreeOk(g, v.file, Erase(v.l1));
    forall k | 0 <= k < |v.l1| && v.l1[k].cluster != 0 ensures SameAt(v.file, v'.file, v.l1[k].cluster) {
      assert L2Ok(g, v.file, Erase(v.l1)[k]);
    }
    FlagsCarry(g, v, v', -1, -1, -1);
    var i := Quot(u, g.es);
    assert Erase(v.l1)[i] == v.l1[i].cluster;
  }

  /** Reads of guest cluster u of the active image see the new contents; all other reads are unchanged. */
  lemma {:induction false} DataWriteViews(x: Ctx, v: Vol, v': Vol, u: nat, d: nat, k: nat, s: nat)
    requires Struct(x.g, v) && OwnsData(x.g, v, u, d) && DataWrite(x.g, v, v', d)
    requires k <= |v.snaps|
    ensures View(x, v', k, s) ==
              if k == 0 && Quot(s, x.g.cs) == u then x.crypt.dec(s, SectorAt(v'.file, d, Rem(s, x.g.cs)))
              else View(x, v, k, s)
    ensures View(x, v, 0, s) == if Quot(s, x.g.cs) == u then x.crypt.dec(s, SectorAt(v.file, d, Rem(s, x.g.cs))) else View(x, v, 0, s)
  {
    var g, q := x.g, Quot(s, x.g.cs);
    var roots := Roots(g, v);
    assert roots[0] == Erase(v.l1);
    DataWriteTrees(g, v, v', u, d);
    var p := Lookup(g, v.file, roots[k], q);
    assert TreeOk(g, v.file, roots[k]);
    var i := Quot(q, g.es);
    if i < |roots[k]| && roots[k][i] != 0 {
      assert L2Ok(g, v.file, roots[k][i]);
      assert SameAt(v.file, v'.file, roots[k][i]);
    }
    assert Lookup(g, v'.file, roots[k], q) == p;
    if p == d {
      LookupRef(g, v.file, roots[k], q);
      if k > 0 {
        LookupRef(g, v.file, roots[0], u);
        RootsAtTwo(g, v.file, roots, 0, k, d);
      } else if q != u {
        LookupTwo(g, v.file, roots[0], q, u);
      }
    } else {
      assert SameAt(v.file, v'.file, p);
    }
  }

  // ---------------------------------------------------------------- moving the L1 table

  /** A run that nothing refers to any more is released. */
  lemma {:induction false} RunFreed(x: Ctx, v: Vol, v': Vol, a: nat, n: nat)
    requires Struct(x.g, v) && Balanced(x.g, v, a, n, 0) && FlagsExact(x.g, v) && Synced(v)
    requires forall y :: InRun(y, a, n) ==> Refs(x.g, v, y) == 0
    requires v' == v.(file := v'.file) && TableShape(x.g, v'.file, v'.rt, v'.rtOff)
    requires forall y :: !Owned(x.g, v'.rt, v'.rtOff, y) ==> SameAt(v.file, v'.file, y)
    requires forall y :: VRC(x.g, v', y) + One(InRun(y, a, n)) == VRC(x.g, v, y)
    ensures Sound(x.g, v') && SameViews(x, v, v')
    ensures forall y :: TreesRefs(x.g, v', y) == TreesRefs(x.g, v, y)
    ensures forall y :: PlainRefs(x.g, v, y) >= 1 ==> SameAt(v.file, v'.file, y)
  {
    var g := x.g;
    CountsChanged(x, v, v', 0);
    forall k, j | 0 <= k < |v.l1| && v.l1[k].cluster != 0 && 0 <= j < g.es
      ensures SameAt(v.file, v'.file, v.l1[k].cluster)
      ensures VRC(g, v', v.l1[k].cluster) == VRC(g, v, v.l1[k].cluster)
      ensures var d := EntryAt(v.file, v.l1[k].cluster, j).cluster; d != 0 ==> VRC(g, v', d) == VRC(g, v, d)
    {
      ActiveRef(g, v, k, j);
    }
    forall k | 0 <= k < |v.l1| && v.l1[k].cluster != 0
      ensures SameAt(v.file, v'.file, v.l1[k].cluster)
      ensures VRC(g, v', v.l1[k].cluster) == VRC(g, v, v.l1[k].cluster)
    {
      ActiveRef(g, v, k, 0);
    }
    FlagsCarry(g, v, v', -1, -1, -1);
  }

  /** Unused slots at the end of an L1 table change nothing. */
  lemma {:induction false} TreeExtend(g: Geo, f: File, l1: seq<nat>, l1': seq<nat>, x: nat)
    requires |l1| <= |l1'| && l1'[..|l1|] == l1 && forall i :: |l1| <= i < |l1'| ==> l1'[i] == 0
    ensures TreeRefs(g, f, l1', x) == TreeRefs(g, f, l1, x)
    decreases |l1'|
  {
    if |l1| == |l1'| {
      assert l1' == l1;
    } else {
      TreeExtend(g, f, l1, l1'[..|l1'| - 1], x);
    }
  }

  ghost predicate SwitchPre(g: Geo, v: Vol, v': Vol)
  {
    && Struct(g, v)
    && v' == v.(file := v.file[0 := Header(v'.l1Off, |v'.l1|, v.rtOff, |v.rt|, v.snapOff, |v.snaps|)], l1 := v'.l1, l1Off := v'.l1Off)
    && |v.l1| <= |v'.l1| && v'.l1[..|v.l1|] == v.l1 && (forall i :: |v.l1| <= i < |v'.l1| ==> v'.l1[i] == ZERO)
    && L1Stored(g, v.file, v'.l1Off, v'.l1)
    && v'.l1Off > 0
    && (forall y :: InRun(y, v'.l1Off, EntryClusters(g, |v'.l1|)) ==> Refs(g, v, y) == 0)
  }

  lemma {:induction false} SwitchTrees(g: Geo, v: Vol, v': Vol)
    requires SwitchPre(g, v, v')
    ensures Roots(g, v') == Roots(g, v)[0 := Erase(v'.l1)]
    ensures forall k, y :: 0 <= k <= |v.snaps| ==> TreeRefs(g, v'.file, Roots(g, v')[k], y) == TreeRefs(g, v.file, Roots(g, v)[k], y)
    ensures forall y :: TreesRefs(g, v', y) == TreesRefs(g, v, y)
    ensures RootsOk(g, v'.file, Roots(g, v'))
    ensures forall k, u :: 0 <= k <= |v.snaps| ==> Lookup(g, v'.file, Roots(g, v')[k], u) == Lookup(g, v.file, Roots(g, v)[k], u)
    ensures SnapsTyped(g, v'.file, v'.snaps) && (Synced(v) ==> Synced(v'))
  {
    var roots, l1, l1' := Roots(g, v), Erase(v.l1), Erase(v'.l1);
    SwitchRoots(g, v, v');
    assert roots[0] == l1;
    assert l1'[..|l1|] == l1;
    assert forall y :: RootsRefs(g, v.file, roots, y) == TreesRefs(g, v, y);
    RootsFrame(g, v.file, v'.file, roots);
    TreeExtended(g, v'.file, l1, l1');
    hide SwitchPre, TreesRefs, Struct, Synced;
    forall y ensures TreesRefs(g, v', y) == TreesRefs(g, v, y) {
      SwitchCount(g, v, v', y);
    }
  }

  lemma {:induction false} SwitchCount(g: Geo, v: Vol, v': Vol, y: nat)
    requires g.es > 0 && Roots(g, v') == Roots(g, v)[0 := Erase(v'.l1)]
    requires TreeRefs(g, v'.file, Erase(v'.l1), y) == TreeRefs(g, v.file, Erase(v.l1), y)
    requires forall k :: 0 <= k < |Roots(g, v)| ==> TreeRefs(g, v'.file, Roots(g, v)[k], y) == TreeRefs(g, v.file, Roots(g, v)[k], y)
    ensures TreesRefs(g, v', y) == TreesRefs(g, v, y)
  {
    RootsFirst(g, v.file, v'.file, Roots(g, v), Erase(v'.l1), y);
  }

  lemma {:induction false} SwitchRoots(g: Geo, v: Vol, v': Vol)
    requires SwitchPre(g, v, v')
    ensures Roots(g, v') == Roots(g, v)[0 := Erase(v'.l1)]
    ensures SnapsTyped(g, v'.file, v'.snaps) && (Synced(v) ==> Synced(v'))
    ensures forall y :: TreesRefs(g, v, y) >= 1 ==> SameAt(v.file, v'.file, y)
  {
    assert MetaRefs(g, v, 0) >= 1;
    forall y | SnapTableRefs(g, v.snaps, y) >= 1 || TreesRefs(g, v, y) >= 1 ensures SameAt(v.file, v'.file, y) {
      assert y != 0;
    }
    hide Struct, TreesRefs;
    RootsKept(g, v, v'.file);
    assert SnapRoots(g, v'.file, v.snaps) == Roots(g, v.(file := v'.file))[1..];
    assert Roots(g, v') == Roots(g, v)[0 := Erase(v'.l1)];
    if v.snapClusters > 0 { assert MetaRefs(g, v, v.snapOff) >= 1; }
  }

  /** Zero entries at the end of an L1 table do not matter. */
  lemma {:induction false} TreeExtended(g: Geo, f: File, l1: seq<nat>, l1': seq<nat>)
    requires g.es > 0 && |l1| <= |l1'| && l1'[..|l1|] == l1 && forall i :: |l1| <= i < |l1'| ==> l1'[i] == 0
    ensures forall y :: TreeRefs(g, f, l1', y) == TreeRefs(g, f, l1, y)
    ensures TreeOk(g, f, l1) ==> TreeOk(g, f, l1')
    ensures forall u :: Lookup(g, f, l1', u) == Lookup(g, f, l1, u)
  {
    forall y ensures TreeRefs(g, f, l1', y) == TreeRefs(g, f, l1, y) { TreeExtend(g, f, l1, l1', y); }
    assert forall k :: 0 <= k < |l1| ==> l1'[k] == l1[k];
  }

  lemma {:induction false} SwitchMeta(g: Geo, v: Vol, v': Vol, y: nat)
    requires SwitchPre(g, v, v')
    ensures MetaRefs(g, v', y) + One(InRun(y, v.l1Off, EntryClusters(g, |v.l1|))) ==
              MetaRefs(g, v, y) + One(InRun(y, v'.l1Off, EntryClusters(g, |v'.l1|)))
  {
  }

  /** The header now names the longer table; the old one is no longer referenced but still counted. */
  lemma {:induction false} SwitchL1(x: Ctx, v: Vol, v': Vol)
    requires SwitchPre(x.g, v, v')
    requires Balanced(x.g, v, v'.l1Off, EntryClusters(x.g, |v'.l1|), 0) && FlagsExact(x.g, v)
    ensures Struct(x.g, v') && SameViews(x, v, v') && (Synced(v) ==> Synced(v'))
    ensures Balanced(x.g, v', v.l1Off, EntryClusters(x.g, |v.l1|), 0) && FlagsExact(x.g, v')
    ensures forall y :: TreesRefs(x.g, v', y) == TreesRefs(x.g, v, y)
    ensures forall y :: InRun(y, v.l1Off, EntryClusters(x.g, |v.l1|)) ==> Refs(x.g, v', y) == 0 && y != 0 && !Owned(x.g, v.rt, v.rtOff, y)
  {
    var g := x.g;
    SwitchTrees(g, v, v');
    SwitchShape(g, v, v');
    SwitchBalance(g, v, v');
    SwitchFlags(x, v, v');
    SwitchViews(x, v, v');
  }

  lemma {:induction false} SwitchShape(g: Geo, v: Vol, v': Vol)
    requires SwitchPre(g, v, v')
    ensures TableShape(g, v'.file, v.rt, v.rtOff) && (forall y :: VRC(g, v', y) == VRC(g, v, y))
    ensures L1Stored(g, v'.file, v'.l1Off, v'.l1)
    ensures forall y :: y != 0 ==> SameAt(v.file, v'.file, y)
  {
    assert MetaRefs(g, v, 0) >= 1;
    OccBlock(v.rt, 0);
    assert !Owned(g, v.rt, v.rtOff, 0);
    ShapeFrame(g, v.file, v'.file, v.rt, v.rtOff);
    L1StoredFrame(g, v.file, v'.file, v'.l1Off, v'.l1);
  }

  lemma {:induction false} SwitchViews(x: Ctx, v: Vol, v': Vol)
    requires SwitchPre(x.g, v, v')
    requires forall k, u :: 0 <= k <= |v.snaps| ==> Lookup(x.g, v'.file, Roots(x.g, v')[k], u) == Lookup(x.g, v.file, Roots(x.g, v)[k], u)
    ensures SameViews(x, v, v')
  {
    SwitchShape(x.g, v, v');
    forall k, s | 0 <= k <= |v.snaps| ensures View(x, v', k, s) == View(x, v, k, s) {
      var p := Lookup(x.g, v.file, Roots(x.g, v)[k], Quot(s, x.g.cs));
      if p != 0 { assert SameAt(v.file, v'.file, p); }
    }
  }

  lemma {:induction false} SwitchBalance(g: Geo, v: Vol, v': Vol)
    requires SwitchPre(g, v, v') && Balanced(g, v, v'.l1Off, EntryClusters(g, |v'.l1|), 0)
    requires forall y :: TreesRefs(g, v', y) == TreesRefs(g, v, y) && VRC(g, v', y) == VRC(g, v, y)
    ensures Exclusive(g, v') && Balanced(g, v', v.l1Off, EntryClusters(g, |v.l1|), 0)
    ensures forall y :: InRun(y, v.l1Off, EntryClusters(g, |v.l1|)) ==> Refs(g, v', y) == 0 && y != 0 && !Owned(g, v.rt, v.rtOff, y)
  {
    forall y | InRun(y, v.l1Off, EntryClusters(g, |v.l1|))
      ensures Refs(g, v', y) == 0 && y != 0 && !Owned(g, v.rt, v.rtOff, y)
    {
      SwitchMeta(g, v, v', y);
      OccBlock(v.rt, y);
      assert MetaRefs(g, v, y) == 1;
    }
    forall y | MetaRefs(g, v', y) >= 1 ensures MetaRefs(g, v', y) == 1 && TreesRefs(g, v', y) == 0 {
      SwitchMeta(g, v, v', y);
    }
    forall y ensures VRC(g, v', y) == Refs(g, v', y) + One(InRun(y, v.l1Off, EntryClusters(g, |v.l1|))) {
      SwitchMeta(g, v, v', y);
      assert VRC(g, v, y) == Refs(g, v, y) + One(InRun(y, v'.l1Off, EntryClusters(g, |v'.l1|)));
      assert VRC(g, v', y) == VRC(g, v, y);
    }
  }

  lemma {:induction false} SwitchFlags(x: Ctx, v: Vol, v': Vol)
    requires SwitchPre(x.g, v, v') && FlagsExact(x.g, v)
    requires forall y :: VRC(x.g, v', y) == VRC(x.g, v, y)
    ensures FlagsExact(x.g, v')
  {
    var g := x.g;
    forall k, j | 0 <= k < |v'.l1| && v'.l1[k].cluster != 0 && 0 <= j < g.es
      ensures FlagOk(g, v', EntryAt(v'.file, v'.l1[k].cluster, j))
    {
      assert v'.l1[k] == v.l1[k];
      assert FlagOk(g, v, EntryAt(v.file, v.l1[k].cluster, j));
    }
    forall k | 0 <= k < |v'.l1| ensures FlagOk(g, v', v'.l1[k]) {
      if k < |v.l1| { assert v'.l1[k] == v.l1[k]; assert FlagOk(g, v, v.l1[k]); }
    }
  }
}
