/** The consistency check after whole runs. */
module Qcow2Checked {
  import opened Bytes
  import opened Qcow2Layout
  import opened Qcow2Trees
  import opened Qcow2Counts
  import opened Qcow2Volume
  import opened Qcow2State
  import opened Qcow2Refcount
  import opened Qcow2Image
  import opened Qcow2Open
  import opened Qcow2Check
  import opened Qcow2Run

  /** n clusters hold the whole host file: everything written to it and the snapshot table's run. */
  ghost predicate Holds(v: Vol, n: nat)
  {
    (forall x :: x in v.file ==> x < n) && (v.snapClusters > 0 ==> v.snapOff + v.snapClusters <= n)
  }

  // ---------------------------------------------------------------- what is referenced was written

  lemma {:induction false} TreeInFile(g: Geo, f: File, l1: seq<nat>, x: nat)
    requires TreeOk(g, f, l1) && TreeRefs(g, f, l1, x) >= 1
    ensures x in f
  {
    hide Occ;
    var p := l1[|l1| - 1];
    if TreeRefs(g, f, l1[..|l1| - 1], x) >= 1 {
      TreeInFile(g, f, l1[..|l1| - 1], x);
    } else if p != x {
      var _ := OccWitness(L2Ptrs(g, f, p), x);
    }
  }

  lemma {:induction false} RootsInFile(g: Geo, f: File, roots: seq<seq<nat>>, x: nat)
    requires RootsOk(g, f, roots) && RootsRefs(g, f, roots, x) >= 1
    ensures x in f
  {
    hide TreeOk, TreeRefs;
    var n := |roots| - 1;
    if RootsRefs(g, f, roots[..n], x) >= 1 {
      RootsInFile(g, f, roots[..n], x);
    } else {
      TreeInFile(g, f, roots[n], x);
    }
  }

  lemma {:induction false} SnapL1InFile(g: Geo, f: File, snaps: seq<Snap>, x: nat)
    requires g.Valid() && SnapsTyped(g, f, snaps) && SnapTableRefs(g, snaps, x) >= 1
    ensures x in f
  {
    hide InRun, EntryClusters;
    var n := |snaps| - 1;
    if SnapTableRefs(g, snaps[..n], x) >= 1 { SnapL1InFile(g, f, snaps[..n], x); }
  }

  lemma {:induction false} MetaInFile(g: Geo, v: Vol, x: nat)
    requires Struct(g, v) && Synced(v) && MetaRefs(g, v, x) >= 1
    ensures x in v.file || InRun(x, v.snapOff, v.snapClusters)
  {
    hide RootsOk, Injective, Exclusive, InRun, EntryClusters, TableSlot, L1EntryAt;
    if SnapTableRefs(g, v.snaps, x) >= 1 { SnapL1InFile(g, v.file, v.snaps, x); }
    OccBlock(v.rt, x);
  }

  /** Every counted cluster lies in the file. */
  lemma {:induction false} CountedHeld(g: Geo, v: Vol, n: nat, x: nat)
    requires Sound(g, v) && Holds(v, n) && VRC(g, v, x) >= 1
    ensures x < n
  {
    hide TableShape, Injective, Exclusive, L1Stored, SnapsTyped, RC, MetaRefs, RootsOk, FlagsExact, Roots;
    assert Refs(g, v, x) >= 1 by { assert VRC(g, v, x) + One(0 != 0 && x == 0) == Refs(g, v, x) + One(InRun(x, 0, 0)); }
    if TreesRefs(g, v, x) >= 1 { RootsInFile(g, v.file, Roots(g, v), x); } else { MetaInFile(g, v, x); }
  }

  // ---------------------------------------------------------------- the check is silent

  lemma {:induction false} ValidChecks(s: BDRVQcowState, n: nat)
    requires Valid(s)
    ensures s.g.Valid() && CountState(s) && L1Stored(s.g, s.file, s.l1Off, s.l1)
    ensures Holds(V(s), n) ==> Accepted(s.g, V(s), n)
  {
    hide RC, Refs, FlagsExact, Balanced, OwnedCounted, BlockCacheOk, ScanOk, CacheOk, HitsOk, RootsOk, Injective, Exclusive, SnapsTyped, BlocksOk, BlocksStored, TableStored, Accepted, Holds;
    if Holds(V(s), n) {
      forall x: nat | VRC(s.g, V(s), x) != 0 ensures x < n { CountedHeld(s.g, V(s), n, x); }
      AcceptedIffBalanced(s.g, V(s), n);
    }
  }

  /** The check is silent on every image that is in order, and does not disturb it. */
  method CheckValid(s: BDRVQcowState, n: nat) returns (errors: nat)
    requires Valid(s)
    modifies s`rbCache, s`rbCacheOff
    ensures s.g.Valid() && CountState(s) && (Holds(V(s), n) ==> errors == 0)
  {
    hide Valid, CountState, Accepted, Holds, L1Stored;
    ValidChecks(s, n);
    ghost var v := V(s);
    errors := CheckRefcounts(s, n);
    assert V(s) == v;
  }

  /** After any sequence of operations on a new image the check finds no error. n is the length of the
      host file in clusters. */
  method RunAndCheck(g: Geo, crypt: Cipher, base: seq<Sector>, total: nat, ops: seq<Op>, n: nat) returns (s: BDRVQcowState, outs: seq<Out>, done: nat, errors: nat)
    requires Runnable(g, base, total, ops) && crypt.Invertible()
    ensures L1For(g, total) >= 1 && done <= |ops| && outs == Outputs(g, NewDisk(base, L1For(g, total)), ops[..done])
    ensures s.g.Valid() && Shows(X(s), V(s), After(g, NewDisk(base, L1For(g, total)), ops[..done]))
    ensures done < |ops| ==> !RoomFor(s, Cost(g, After(g, NewDisk(base, L1For(g, total)), ops[..done]), ops[done]))
    ensures Holds(V(s), n) ==> errors == 0
  {
    hide Runnable, Valid, At, Shows, After, Outputs, Holds, CountState, L1For, Room, Cost;
    RunnableValid(g, base, total, ops);
    s, outs, done := RunFromCreate(g, crypt, base, total, ops);
    AtValid(s, After(g, NewDisk(base, L1For(g, total)), ops[..done]), 0);
    ghost var v := V(s);
    errors := CheckValid(s, n);
    assert V(s) == v;
  }

  lemma {:induction false} RunnableValid(g: Geo, base: seq<Sector>, total: nat, ops: seq<Op>)
    requires Runnable(g, base, total, ops)
    ensures g.Valid()
  {
  }

  lemma {:induction false} AtValid(s: BDRVQcowState, f: Flat, room: nat)
    requires At(s, f, room)
    ensures s.g.Valid() && Valid(s) && Shows(X(s), V(s), f)
  {
    hide Sound, TableShape, OwnedCounted, BlockCacheOk, ScanOk, Room, Shows, CacheOk, HitsOk;
  }
}
