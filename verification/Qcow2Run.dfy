/** Whole runs: an image refines a flat disk together with frozen snapshot disks. */
module Qcow2Run {
  import opened Division
  import opened Bytes
  import opened Qcow2Layout
  import opened Qcow2Counts
  import opened Qcow2Volume
  import opened Qcow2State
  import opened Qcow2Refcount
  import opened Qcow2Image
  import opened Qcow2Io
  import opened Qcow2Write
  import opened Qcow2SnapTable
  import opened Qcow2SnapSteps
  import opened Qcow2SnapIds
  import opened Qcow2Snapshot
  import opened Qcow2Goto
  import opened Qcow2Delete
  import opened Qcow2Open

  // ---------------------------------------------------------------- the flat model

  datatype Saved = Saved(info: SnapInfo, l1Size: nat, disk: nat -> Sector)

  /** A disk that can be written and disks that were saved. The L1 sizes matter for space only. */
  datatype Flat = Flat(active: nat -> Sector, l1Size: nat, saved: seq<Saved>)

  datatype Op =
    | Read(sec: nat, n: nat)
    | Write(sec: nat, data: seq<Sector>)
    | Save(info: SnapInfo)
    | Goto(id: string)
    | Delete(id: string)
    | CloseAndOpen

  datatype Out = Sectors(data: seq<Sector>) | Ret(code: int)

  function Snaps(saved: seq<Saved>): (snaps: seq<Snap>)
    ensures |snaps| == |saved|
    ensures forall k :: 0 <= k < |saved| ==> snaps[k] == Snap(saved[k].info, 0, saved[k].l1Size)
  {
    seq(|saved|, k requires 0 <= k < |saved| => Snap(saved[k].info, 0, saved[k].l1Size))
  }

  predicate Known(f: Flat, id: string)
  {
    HasId(Snaps(f.saved), id) || HasName(Snaps(f.saved), id)
  }

  function Overwrite(d: nat -> Sector, sec: nat, data: seq<Sector>): nat -> Sector
  {
    (s: nat) => if sec <= s < sec + |data| then data[s - sec] else d(s)
  }

  /** What an operation does to the flat model. */
  function Step(g: Geo, f: Flat, op: Op): (f': Flat)
    requires g.Valid() && f.l1Size >= 1
    ensures f'.l1Size >= 1
  {
    match op
    case Read(_, _) => f
    case Write(sec, data) => f.(active := Overwrite(f.active, sec, data), l1Size := L1After(g, f.l1Size, sec, |data|))
    case Save(info) =>
      var named := Named(Snaps(f.saved), info);
      if HasId(Snaps(f.saved), named.id) then f else f.(saved := f.saved + [Saved(named, f.l1Size, f.active)])
    case Goto(id) => if Known(f, id) then f.(active := f.saved[Pick(Snaps(f.saved), id)].disk) else f
    case Delete(id) => if Known(f, id) then f.(saved := Without(f.saved, Pick(Snaps(f.saved), id))) else f
    case CloseAndOpen => f
  }

  function Output(f: Flat, op: Op): Out
  {
    match op
    case Read(sec, n) => Sectors(seq<Sector>(n, k requires 0 <= k < n => f.active(sec + k)))
    case Save(info) => Ret(if HasId(Snaps(f.saved), Named(Snaps(f.saved), info).id) then -ENOENT else 0)
    case Goto(id) => Ret(if Known(f, id) then 0 else -ENOENT)
    case Delete(id) => Ret(if Known(f, id) then 0 else -ENOENT)
    case _ => Ret(0)
  }

  /** Clusters of the reference count table's range that an operation may use up. */
  function Cost(g: Geo, f: Flat, op: Op): nat
    requires g.Valid() && f.l1Size >= 1
  {
    match op
    case Write(sec, data) => WriteCost(g, f.l1Size, sec, |data|)
    case Save(info) => CreateCost(g, f.l1Size, Snaps(f.saved), Named(Snaps(f.saved), info))
    case Delete(id) => if Known(f, id) then DeleteCost(g, Snaps(f.saved), Pick(Snaps(f.saved), id)) else 0
    case _ => 0
  }

  /** The hypotheses about one operation: counts stay below 65535, tables are shorter than the
      range of one count block, and goto meets an L1 table of the same size. */
  predicate Allowed(g: Geo, f: Flat, op: Op)
    requires g.Valid() && f.l1Size >= 1
  {
    match op
    case Write(sec, data) => TablesFit(g, f.l1Size, sec, |data|)
    case Save(info) =>
      var named := Named(Snaps(f.saved), info);
      EntryClusters(g, f.l1Size) < g.epb && TableClusters(g, Snaps(f.saved) + [Snap(named, 0, f.l1Size)]) < g.epb && |f.saved| + 1 < MAX_COUNT
    case Goto(id) => |f.saved| + 1 < MAX_COUNT && (Known(f, id) ==> f.saved[Pick(Snaps(f.saved), id)].l1Size == f.l1Size)
    case Delete(id) => Known(f, id) ==> TableClusters(g, Without(Snaps(f.saved), Pick(Snaps(f.saved), id))) < g.epb
    case _ => true
  }

  // ---------------------------------------------------------------- the relation

  ghost predicate Shows(x: Ctx, v: Vol, f: Flat)
    requires x.g.Valid()
  {
    && |v.l1| == f.l1Size >= 1 && |v.snaps| == |f.saved|
    && (forall k :: 0 <= k < |f.saved| ==> v.snaps[k].info == f.saved[k].info && v.snaps[k].l1Size == f.saved[k].l1Size)
    && (forall s: nat :: View(x, v, 0, s) == f.active(s))
    && (forall k: nat, s: nat :: k < |f.saved| ==> View(x, v, k + 1, s) == f.saved[k].disk(s))
  }

  lemma {:induction false} ShowsWrite(x: Ctx, v: Vol, v': Vol, f: Flat, sec: nat, data: seq<Sector>)
    requires x.g.Valid() && Shows(x, v, f) && Wrote(x, v, v', sec, data) && v'.snaps == v.snaps
    requires |v'.l1| == L1After(x.g, f.l1Size, sec, |data|)
    ensures Shows(x, v', Step(x.g, f, Write(sec, data)))
  {
    hide View, L1After;
  }

  lemma {:induction false} ShowsSave(x: Ctx, v: Vol, v': Vol, f: Flat, info: SnapInfo)
    requires x.g.Valid() && Shows(x, v, f) && !HasId(Snaps(f.saved), Named(Snaps(f.saved), info).id)
    requires Taken(x, v, v') && Listed(v.snaps, v'.snaps, Named(Snaps(f.saved), info), |v.l1|) && |v'.l1| == |v.l1|
    ensures Shows(x, v', Step(x.g, f, Save(info)))
  {
    hide View, Named, HasId;
    var f' := Step(x.g, f, Save(info));
    var n := |f.saved|;
    forall k | 0 <= k < |f'.saved| ensures v'.snaps[k].info == f'.saved[k].info && v'.snaps[k].l1Size == f'.saved[k].l1Size {
      if k < n { assert v'.snaps[k] == v'.snaps[..n][k]; }
    }
    forall k: nat, s: nat | k < |f'.saved| ensures View(x, v', k + 1, s) == f'.saved[k].disk(s) {
      if k < n { assert View(x, v', k + 1, s) == View(x, v, k + 1, s); }
    }
  }

  lemma {:induction false} ShowsGoto(x: Ctx, v: Vol, v': Vol, f: Flat, id: string, k: nat)
    requires x.g.Valid() && Shows(x, v, f) && Known(f, id) && k == Pick(Snaps(f.saved), id)
    requires WentTo(x, v, v', k) && v'.snaps == v.snaps && |v'.l1| == |v.l1|
    ensures Shows(x, v', Step(x.g, f, Goto(id)))
  {
    hide View;
    forall m: nat, s: nat | m < |f.saved| ensures View(x, v', m + 1, s) == f.saved[m].disk(s) {
      assert View(x, v', m + 1, s) == View(x, v, m + 1, s);
    }
  }

  lemma {:induction false} ShowsDelete(x: Ctx, v: Vol, v': Vol, f: Flat, id: string, k: nat)
    requires x.g.Valid() && Shows(x, v, f) && Known(f, id) && k == Pick(Snaps(f.saved), id)
    requires Deleted(x, v, v', k) && v'.snaps == Without(v.snaps, k) && |v'.l1| == |v.l1|
    ensures Shows(x, v', Step(x.g, f, Delete(id)))
  {
    hide View;
    var f' := Step(x.g, f, Delete(id));
    forall m: nat, s: nat | m < |f'.saved| ensures View(x, v', m + 1, s) == f'.saved[m].disk(s) {
      var n: nat := if m < k then m else m + 1;
      assert View(x, v', m + 1, s) == View(x, v, n + 1, s);
    }
  }

  lemma {:induction false} ShowsInfos(x: Ctx, v: Vol, f: Flat)
    requires x.g.Valid() && Shows(x, v, f)
    ensures SameInfos(v.snaps, Snaps(f.saved))
  {
  }

  // ---------------------------------------------------------------- runs

  /** The open image s is in order, reads as f, and has room left. */
  ghost predicate At(s: BDRVQcowState, f: Flat, room: nat)
    reads s
  {
    Complete(s) && RoomFor(s, room) && Shows(X(s), V(s), f)
  }

  ghost predicate CanDo(g: Geo, f: Flat, op: Op, room: nat)
  {
    g.Valid() && f.l1Size >= 1 && Cost(g, f, op) <= room && Allowed(g, f, op)
  }

  method DoRead(s: BDRVQcowState, sec: nat, n: nat, ghost f: Flat, ghost room: nat) returns (out: Out)
    requires At(s, f, room)
    modifies s
    ensures At(s, f, room) && out == Output(f, Read(sec, n))
  {
    hide View, Struct, Sound, TableShape, OwnedCounted, BlockCacheOk, ScanOk, Room;
    var buf := QcowRead(s, sec, n);
    out := Sectors(buf);
    assert buf == Output(f, Read(sec, n)).data;
  }

  method DoWrite(s: BDRVQcowState, sec: nat, data: seq<Sector>, ghost f: Flat, ghost room: nat)
    requires At(s, f, room) && CanDo(s.g, f, Write(sec, data), room)
    modifies s
    ensures CanDo(s.g, f, Write(sec, data), room) && At(s, Step(s.g, f, Write(sec, data)), room - Cost(s.g, f, Write(sec, data)))
  {
    hide View, Struct, Sound, Counted, CacheOk, HitsOk, Room, WriteCost, L1After, TablesFit, Wrote;
    ghost var v := V(s);
    QcowWrite(s, sec, data, room);
    ShowsWrite(X(s), v, V(s), f, sec, data);
  }

  method DoSave(s: BDRVQcowState, info: SnapInfo, ghost f: Flat, ghost room: nat) returns (out: Out)
    requires At(s, f, room) && CanDo(s.g, f, Save(info), room)
    modifies s
    ensures CanDo(s.g, f, Save(info), room) && At(s, Step(s.g, f, Save(info)), room - Cost(s.g, f, Save(info)))
    ensures out == Output(f, Save(info))
  {
    hide *;
    SaveFits(s, info, f, room);
    ghost var v := V(s);
    var ret := QcowSnapshotCreate(s, info, room);
    AfterSave(s, v, f, info, room, ret);
    out := Ret(ret);
  }

  lemma {:induction false} AfterSave(s: BDRVQcowState, v: Vol, f: Flat, info: SnapInfo, room: nat, ret: int)
    requires CanDo(s.g, f, Save(info), room) && Shows(X(s), v, f) && Valid(s)
    requires ret == 0 || ret == -ENOENT
    requires ret != 0 <==> HasId(Snaps(f.saved), Named(Snaps(f.saved), info).id)
    requires ret != 0 ==> V(s) == v && s.snapSize == TableBytes(v.snaps) && RoomFor(s, room)
    requires ret == 0 ==> RoomFor(s, room - Cost(s.g, f, Save(info))) && s.snapSize == TableBytes(s.snaps)
    requires ret == 0 ==> Taken(X(s), v, V(s)) && Listed(v.snaps, s.snaps, Named(Snaps(f.saved), info), |v.l1|) && |s.l1| == |v.l1|
    ensures At(s, Step(s.g, f, Save(info)), room - Cost(s.g, f, Save(info))) && Ret(ret) == Output(f, Save(info))
  {
    hide View, Valid, Room, Shows, Taken, Listed, EntryClusters, TableClusters, HasId, Named, TableBytes;
    if ret == 0 {
      ShowsSave(X(s), v, V(s), f, info);
    } else {
      LessRoom(s, room, room - Cost(s.g, f, Save(info)));
    }
  }

  lemma {:induction false} LessRoom(s: BDRVQcowState, k: nat, m: nat)
    requires s.g.Valid() && RoomFor(s, k) && m <= k
    ensures RoomFor(s, m)
  {
  }

  lemma {:induction false} SaveFits(s: BDRVQcowState, info: SnapInfo, f: Flat, room: nat)
    requires At(s, f, room) && CanDo(s.g, f, Save(info), room)
    ensures s.g.Valid() && s.g.es > 0 && Named(s.snaps, info) == Named(Snaps(f.saved), info) && |s.l1| == f.l1Size
    ensures HasId(s.snaps, Named(s.snaps, info).id) == HasId(Snaps(f.saved), Named(s.snaps, info).id)
    ensures CreateCost(s.g, |s.l1|, s.snaps, Named(s.snaps, info)) == Cost(s.g, f, Save(info))
    ensures CreateFits(s, Named(s.snaps, info), room)
    ensures V(s).snaps == s.snaps && V(s).l1 == s.l1 && X(s).g == s.g && Shows(X(s), V(s), f) && s.snapSize == TableBytes(s.snaps)
  {
    ShowsInfos(X(s), V(s), f);
    hide View, Struct, Sound, Counted, CacheOk, HitsOk, Room, EntryClusters;
    InfosDecide(s.snaps, Snaps(f.saved), Named(s.snaps, info).id);
    var sn := Snap(Named(s.snaps, info), 0, |s.l1|);
    InfosDecide(s.snaps + [sn], Snaps(f.saved) + [sn], "");
  }

  method DoGoto(s: BDRVQcowState, id: string, ghost f: Flat, ghost room: nat) returns (out: Out)
    requires At(s, f, room) && CanDo(s.g, f, Goto(id), room)
    modifies s
    ensures At(s, Step(s.g, f, Goto(id)), room) && out == Output(f, Goto(id))
  {
    hide *;
    AtFacts(s, f, room, id);
    GotoSizes(X(s), V(s), f, id, room);
    ghost var v := V(s);
    var ret := QcowSnapshotGoto(s, id, room);
    AfterGoto(s, v, f, id, room, ret);
    out := Ret(ret);
  }

  /** What the flat model says about the lists in memory. */
  lemma {:induction false} AtFacts(s: BDRVQcowState, f: Flat, room: nat, id: string)
    requires At(s, f, room)
    ensures Valid(s) && RoomFor(s, room) && s.g.Valid() && s.g.es > 0 && X(s).g == s.g && Shows(X(s), V(s), f)
    ensures V(s).snaps == s.snaps && V(s).l1 == s.l1 && |s.snaps| == |f.saved| && f.l1Size == |s.l1| >= 1 && s.snapSize == TableBytes(s.snaps)
    ensures SameInfos(s.snaps, Snaps(f.saved))
    ensures Known(f, id) <==> HasId(s.snaps, id) || HasName(s.snaps, id)
    ensures forall k: nat :: Selected(s.snaps, id, k) ==> Known(f, id) && k == Pick(Snaps(f.saved), id)
  {
    ShowsInfos(X(s), V(s), f);
    hide View, Sound, Counted, CacheOk, HitsOk, Room, Pick, Selected;
    InfosDecide(s.snaps, Snaps(f.saved), id);
    PickAgrees(s.snaps, Snaps(f.saved), id);
  }

  lemma {:induction false} AfterGoto(s: BDRVQcowState, v: Vol, f: Flat, id: string, room: nat, ret: int)
    requires s.g.Valid() && Shows(X(s), v, f) && Valid(s) && RoomFor(s, room) && v.snaps == s.snaps && s.snapSize == TableBytes(s.snaps)
    requires |s.l1| == |v.l1| && (ret == 0 || ret == -ENOENT)
    requires ret != 0 <==> !Known(f, id)
    requires ret != 0 ==> V(s) == v
    requires ret == 0 ==> exists k: nat :: Selected(s.snaps, id, k) && WentTo(X(s), v, V(s), k)
    requires forall k: nat :: Selected(s.snaps, id, k) ==> Known(f, id) && k == Pick(Snaps(f.saved), id)
    requires f.l1Size >= 1
    ensures At(s, Step(s.g, f, Goto(id)), room) && Ret(ret) == Output(f, Goto(id))
  {
    hide View, Valid, Room, Shows, WentTo, Selected, Known, TableBytes, Pick;
    if ret == 0 {
      var k: nat :| Selected(s.snaps, id, k) && WentTo(X(s), v, V(s), k);
      ShowsGoto(X(s), v, V(s), f, id, k);
    }
  }

  method DoDelete(s: BDRVQcowState, id: string, ghost f: Flat, ghost room: nat) returns (out: Out)
    requires At(s, f, room) && CanDo(s.g, f, Delete(id), room)
    modifies s
    ensures CanDo(s.g, f, Delete(id), room) && At(s, Step(s.g, f, Delete(id)), room - Cost(s.g, f, Delete(id)))
    ensures out == Output(f, Delete(id))
  {
    hide *;
    AtFacts(s, f, room, id);
    DeleteFits(s.g, s.snaps, f, id, room);
    ghost var v := V(s);
    var ret := QcowSnapshotDelete(s, id, room);
    AfterDelete(s, v, f, id, room, ret);
    out := Ret(ret);
  }

  lemma {:induction false} DeleteFits(g: Geo, snaps: seq<Snap>, f: Flat, id: string, room: nat)
    requires CanDo(g, f, Delete(id), room) && SameInfos(snaps, Snaps(f.saved))
    requires forall k: nat :: Selected(snaps, id, k) ==> Known(f, id) && k == Pick(Snaps(f.saved), id)
    ensures forall k: nat :: Selected(snaps, id, k) ==> k < |snaps| && DeleteCost(g, snaps, k) == Cost(g, f, Delete(id)) <= room && TableClusters(g, Without(snaps, k)) < g.epb
  {
    forall k: nat | Selected(snaps, id, k) ensures k < |snaps| && DeleteCost(g, snaps, k) == Cost(g, f, Delete(id)) <= room && TableClusters(g, Without(snaps, k)) < g.epb {
      hide Pick, Selected;
      InfosDecide(Without(snaps, k), Without(Snaps(f.saved), k), "");
    }
  }

  lemma {:induction false} AfterDelete(s: BDRVQcowState, v: Vol, f: Flat, id: string, room: nat, ret: int)
    requires CanDo(s.g, f, Delete(id), room) && Shows(X(s), v, f) && Valid(s) && |s.l1| == |v.l1|
    requires ret == 0 || ret == -ENOENT
    requires ret != 0 <==> !Known(f, id)
    requires ret != 0 ==> V(s) == v && s.snapSize == TableBytes(v.snaps) && RoomFor(s, room)
    requires ret == 0 ==> exists k: nat :: Selected(v.snaps, id, k) && IsDeleted(s, v, k, room)
    requires forall k: nat :: Selected(v.snaps, id, k) ==> Known(f, id) && k == Pick(Snaps(f.saved), id) && k < |v.snaps| && DeleteCost(s.g, v.snaps, k) == Cost(s.g, f, Delete(id))
    ensures At(s, Step(s.g, f, Delete(id)), room - Cost(s.g, f, Delete(id))) && Ret(ret) == Output(f, Delete(id))
  {
    hide View, Valid, Room, Shows, Deleted, Selected, Known, TableBytes, Pick, DeleteCost;
    if ret == 0 {
      var k: nat :| Selected(v.snaps, id, k) && IsDeleted(s, v, k, room);
      ShowsDelete(X(s), v, V(s), f, id, k);
    } else {
      LessRoom(s, room, room - Cost(s.g, f, Delete(id)));
    }
  }

  lemma {:induction false} PickAgrees(a: seq<Snap>, b: seq<Snap>, id: string)
    requires SameInfos(a, b)
    ensures forall k: nat :: Selected(a, id, k) ==> (HasId(b, id) || HasName(b, id)) && k == Pick(b, id)
  {
    InfosDecide(a, b, id);
    forall k: nat | Selected(a, id, k) ensures (HasId(b, id) || HasName(b, id)) && k == Pick(b, id) {
      assert Selected(b, id, k);
      assert HasId(b, id) || HasName(b, id);
      SelectedOnce(b, id, k, Pick(b, id));
    }
  }

  lemma {:induction false} GotoSizes(x: Ctx, v: Vol, f: Flat, id: string, room: nat)
    requires x.g.Valid() && Shows(x, v, f) && CanDo(x.g, f, Goto(id), room)
    ensures |v.snaps| + 1 < MAX_COUNT
    ensures forall k: nat :: Selected(v.snaps, id, k) ==> v.snaps[k].l1Size == |v.l1|
  {
    ShowsInfos(x, v, f);
    PickAgrees(v.snaps, Snaps(f.saved), id);
  }

  // ---------------------------------------------------------------- the refinement theorem

  /** The flat model after a run. */
  function After(g: Geo, f: Flat, ops: seq<Op>): (f': Flat)
    requires g.Valid() && f.l1Size >= 1
    ensures f'.l1Size >= 1
  {
    if ops == [] then f else Step(g, After(g, f, ops[..|ops| - 1]), ops[|ops| - 1])
  }

  /** The outputs of a run of the flat model. */
  function Outputs(g: Geo, f: Flat, ops: seq<Op>): (outs: seq<Out>)
    requires g.Valid() && f.l1Size >= 1
  {
    if ops == [] then []
    else Outputs(g, f, ops[..|ops| - 1]) + [Output(After(g, f, ops[..|ops| - 1]), ops[|ops| - 1])]
  }

  /** The room a run takes. */
  function Total(g: Geo, f: Flat, ops: seq<Op>): nat
    requires g.Valid() && f.l1Size >= 1
  {
    if ops == [] then 0 else Total(g, f, ops[..|ops| - 1]) + Cost(g, After(g, f, ops[..|ops| - 1]), ops[|ops| - 1])
  }

  /** Every operation of a run meets the hypotheses. */
  predicate AllAllowed(g: Geo, f: Flat, ops: seq<Op>)
    requires g.Valid() && f.l1Size >= 1
  {
    ops == [] || (AllAllowed(g, f, ops[..|ops| - 1]) && Allowed(g, After(g, f, ops[..|ops| - 1]), ops[|ops| - 1]))
  }

  lemma {:induction false} RunPrefix(g: Geo, f: Flat, ops: seq<Op>, i: nat)
    requires g.Valid() && f.l1Size >= 1 && i <= |ops| && AllAllowed(g, f, ops)
    ensures AllAllowed(g, f, ops[..i]) && Total(g, f, ops[..i]) <= Total(g, f, ops)
    decreases |ops|
  {
    if i < |ops| {
      RunPrefix(g, f, ops[..|ops| - 1], i);
      assert ops[..|ops| - 1][..i] == ops[..i];
    } else {
      assert ops[..i] == ops;
    }
  }

  method Perform(s: BDRVQcowState, op: Op, ghost f: Flat, ghost room: nat) returns (s': BDRVQcowState, out: Out)
    requires At(s, f, room) && CanDo(s.g, f, op, room)
    modifies s
    ensures s'.g == s.g && X(s') == X(s) && (s' == s || fresh(s'))
    ensures CanDo(s.g, f, op, room) && At(s', Step(s.g, f, op), room - Cost(s.g, f, op)) && out == Output(f, op)
  {
    hide At, Allowed;
    s', out := s, Ret(0);
    match op
    case Read(sec, n) => out := DoRead(s, sec, n, f, room);
    case Write(sec, data) => DoWrite(s, sec, data, f, room);
    case Save(info) => out := DoSave(s, info, f, room);
    case Goto(id) => out := DoGoto(s, id, f, room);
    case Delete(id) => out := DoDelete(s, id, f, room);
    case CloseAndOpen => s' := DoReopen(s, f, room);
  }

  method DoReopen(s: BDRVQcowState, ghost f: Flat, ghost room: nat) returns (s': BDRVQcowState)
    requires At(s, f, room)
    ensures fresh(s') && s'.g == s.g && X(s') == X(s) && At(s', f, room)
  {
    hide Complete, Shows, Room;
    s' := Reopen(s);
  }

  // ---------------------------------------------------------------- room

  /** What an operation may use up, as the open image tells it. */
  function Price(s: BDRVQcowState, op: Op): nat
    requires s.g.Valid() && |s.l1| >= 1
    reads s
  {
    match op
    case Write(sec, data) => WriteCost(s.g, |s.l1|, sec, |data|)
    case Save(info) => CreateCost(s.g, |s.l1|, s.snaps, Named(s.snaps, info))
    case Delete(id) => if HasId(s.snaps, id) || HasName(s.snaps, id) then DeleteCost(s.g, s.snaps, Pick(s.snaps, id)) else 0
    case _ => 0
  }

  lemma {:induction false} PriceIsCost(s: BDRVQcowState, f: Flat, op: Op, room: nat)
    requires At(s, f, room)
    ensures s.g.Valid() && |s.l1| >= 1 && f.l1Size >= 1 && Price(s, op) == Cost(s.g, f, op)
  {
    hide At, Shows, WriteCost, CreateCost, DeleteCost, Valid, Pick, SameInfos, Known, HasId, HasName, Named;
    AtFacts(s, f, room, if op.Delete? then op.id else "");
    if op.Save? { SavePrice(s.g, s.snaps, f, op.info); }
    if op.Delete? && Known(f, op.id) { DeletePrice(s.g, s.snaps, f, op.id); }
  }

  lemma {:induction false} SavePrice(g: Geo, snaps: seq<Snap>, f: Flat, info: SnapInfo)
    requires g.Valid() && SameInfos(snaps, Snaps(f.saved))
    ensures CreateCost(g, f.l1Size, snaps, Named(snaps, info)) == CreateCost(g, f.l1Size, Snaps(f.saved), Named(Snaps(f.saved), info))
  {
    hide EntryClusters;
    InfosDecide(snaps, Snaps(f.saved), "");
    var sn := Snap(Named(snaps, info), 0, f.l1Size);
    InfosDecide(snaps + [sn], Snaps(f.saved) + [sn], "");
  }

  lemma {:induction false} DeletePrice(g: Geo, snaps: seq<Snap>, f: Flat, id: string)
    requires g.Valid() && SameInfos(snaps, Snaps(f.saved)) && (HasId(snaps, id) || HasName(snaps, id))
    ensures Known(f, id) && Pick(Snaps(f.saved), id) == Pick(snaps, id) < |snaps|
    ensures DeleteCost(g, snaps, Pick(snaps, id)) == DeleteCost(g, Snaps(f.saved), Pick(Snaps(f.saved), id))
  {
    var k := Pick(snaps, id);
    assert k < |snaps|;
    hide Pick, Selected;
    PickAgrees(snaps, Snaps(f.saved), id);
    InfosDecide(Without(snaps, k), Without(Snaps(f.saved), k), "");
  }

  /** Looking for room does not disturb the image. */
  method RoomAt(s: BDRVQcowState, k: nat, ghost f: Flat, ghost room: nat) returns (has: bool)
    requires At(s, f, room)
    modifies s
    ensures At(s, f, room) && s.g.Valid() && (has <==> RoomFor(s, k))
    ensures s.l1 == old(s.l1) && s.snaps == old(s.snaps)
  {
    hide View, Struct, Sound, TableShape, OwnedCounted, BlockCacheOk, ScanOk, Room, CacheOk, HitsOk, Shows, TableBytes;
    has := HasRoom(s, k);
  }

  /** An operation is performed if there is room for it at that moment. */
  method Try(s: BDRVQcowState, op: Op, ghost f: Flat, ghost room: nat) returns (s': BDRVQcowState, out: Out, done: bool)
    requires s.g.Valid() && f.l1Size >= 1 && At(s, f, room) && Allowed(s.g, f, op)
    modifies s
    ensures s'.g == s.g && X(s') == X(s) && (s' == s || fresh(s'))
    ensures done ==> At(s', Step(s.g, f, op), Left(room, Cost(s.g, f, op))) && out == Output(f, op)
    ensures !done ==> s' == s && At(s, f, room) && Cost(s.g, f, op) > room && !RoomFor(s, Cost(s.g, f, op))
  {
    hide At, Allowed, Cost, Price, Room, Step, Output;
    PriceIsCost(s, f, op, room);
    var cost := Price(s, op);
    s', out := s, Ret(0);
    done := RoomAt(s, cost, f, room);
    ghost var k := if cost <= room then room else cost;
    AtRoom(s, f, room, cost, done);
    if done { s', out := Perform(s, op, f, k); }
  }

  lemma {:induction false} AtRoom(s: BDRVQcowState, f: Flat, room: nat, cost: nat, has: bool)
    requires At(s, f, room) && s.g.Valid() && (has <==> RoomFor(s, cost))
    ensures cost <= room ==> has
    ensures has ==> At(s, f, if cost <= room then room else cost)
  {
    hide Complete, Shows, Capacity, RC;
  }

  // ---------------------------------------------------------------- the run

  /** Any run gives the outputs of the flat model and keeps an image that reads as the flat model,
      with all its invariants, up to the first operation that the counts at that moment leave no room
      for. */
  method Run(s0: BDRVQcowState, ops: seq<Op>, ghost f: Flat, ghost room: nat) returns (s: BDRVQcowState, outs: seq<Out>, n: nat)
    requires s0.g.Valid() && f.l1Size >= 1 && At(s0, f, room) && AllAllowed(s0.g, f, ops)
    modifies s0
    ensures X(s) == X(s0) && s.g == s0.g && (s == s0 || fresh(s)) && n <= |ops|
    ensures At(s, After(s0.g, f, ops[..n]), Left(room, Total(s0.g, f, ops[..n]))) && outs == Outputs(s0.g, f, ops[..n])
    ensures n < |ops| ==> !RoomFor(s, Cost(s0.g, After(s0.g, f, ops[..n]), ops[n]))
    ensures Total(s0.g, f, ops) <= room ==> n == |ops|
  {
    hide At, Allowed, Step, Cost, Output, Room;
    s, outs, n := s0, [], 0;
    assert ops[..0] == [];
    while n < |ops|
      invariant n <= |ops| && s.g == s0.g && X(s) == X(s0) && (s == s0 || fresh(s))
      invariant At(s, After(s0.g, f, ops[..n]), Left(room, Total(s0.g, f, ops[..n])))
      invariant outs == Outputs(s0.g, f, ops[..n])
    {
      RunPrefix(s0.g, f, ops, n + 1);
      assert ops[..n + 1][..n] == ops[..n];
      var out, done;
      s, out, done := Try(s, ops[n], After(s0.g, f, ops[..n]), Left(room, Total(s0.g, f, ops[..n])));
      if !done { return; }
      outs := outs + [out];
      n := n + 1;
    }
  }

  /** A new image shows its backing file. */
  function NewDisk(base: seq<Sector>, l1Size: nat): Flat
  {
    Flat((s: nat) => Backing(base, s), l1Size, [])
  }

  /** The disk's L1 table, the count table, its first block and the header fit the range of that
      block, so that the image can be created. */
  ghost predicate Creatable(g: Geo, total: nat)
  {
    g.Valid() && total >= 1 && EntryClusters(g, L1For(g, total)) + 3 <= g.epb
  }

  /** What a new image has to itself above the clusters that creation uses. */
  ghost function NewRoom(g: Geo, total: nat): nat
    requires Creatable(g, total)
  {
    MulMono(1, g.es, g.epb);
    g.es * g.epb - (EntryClusters(g, L1For(g, total)) + 3)
  }

  /** The hypotheses about each operation of a run on a new disk. */
  ghost predicate Runnable(g: Geo, base: seq<Sector>, total: nat, ops: seq<Op>)
  {
    Creatable(g, total) && (L1ForCovers(g, total, 0); AllAllowed(g, NewDisk(base, L1For(g, total)), ops))
  }

  /** From the creation of an image on, any run gives the outputs of the flat model up to the first
      operation without room; there is none if the run takes no more than the new image has. */
  method RunFromCreate(g: Geo, crypt: Cipher, base: seq<Sector>, total: nat, ops: seq<Op>) returns (s: BDRVQcowState, outs: seq<Out>, n: nat)
    requires Runnable(g, base, total, ops) && crypt.Invertible()
    ensures fresh(s) && X(s) == Ctx(g, base, crypt) && n <= |ops| && L1For(g, total) >= 1
    ensures At(s, After(g, NewDisk(base, L1For(g, total)), ops[..n]), 0) && outs == Outputs(g, NewDisk(base, L1For(g, total)), ops[..n])
    ensures n < |ops| ==> s.g.Valid() && !RoomFor(s, Cost(g, After(g, NewDisk(base, L1For(g, total)), ops[..n]), ops[n]))
    ensures Total(g, NewDisk(base, L1For(g, total)), ops) <= NewRoom(g, total) ==> n == |ops|
  {
    L1ForCovers(g, total, 0);
    ghost var f := NewDisk(base, L1For(g, total));
    var s0 := NewImage(g, crypt, base, total);
    hide *;
    s, outs, n := Run(s0, ops, f, NewRoom(g, total));
    AtLess(s, After(g, f, ops[..n]), Left(NewRoom(g, total), Total(g, f, ops[..n])));
  }

  lemma {:induction false} AtLess(s: BDRVQcowState, f: Flat, room: nat)
    requires At(s, f, room)
    ensures s.g.Valid() && At(s, f, 0)
  {
    hide Sound, TableShape, OwnedCounted, BlockCacheOk, ScanOk, RC, Shows, CacheOk, HitsOk;
  }

  method NewImage(g: Geo, crypt: Cipher, base: seq<Sector>, total: nat) returns (s: BDRVQcowState)
    requires Creatable(g, total) && crypt.Invertible()
    ensures fresh(s) && s.g == g && X(s) == Ctx(g, base, crypt) && L1For(g, total) >= 1
    ensures At(s, NewDisk(base, L1For(g, total)), NewRoom(g, total))
  {
    L1ForCovers(g, total, 0);
    var file := QcowCreate(g, total);
    FreshSound(Ctx(g, base, crypt), file, L1For(g, total));
    assert 0 in file && file[0].Header?;
    hide Sound, FreshFile, AllAllowed, Complete, At, EntryClusters;
    s := QcowOpen(g, crypt, base, file);
    FreshAt(s, file, base, L1For(g, total), NewRoom(g, total));
  }

  lemma {:induction false} FreshAt(s: BDRVQcowState, file: File, base: seq<Sector>, l1Size: nat, room: nat)
    requires s.g.Valid() && l1Size >= 1 && FreshFile(s.g, file, l1Size) && EntryClusters(s.g, l1Size) + 3 <= s.g.epb
    requires Complete(s) && V(s) == Found(s.g, file) && s.backing == base && s.fci == 0
    requires room + EntryClusters(s.g, l1Size) + 3 <= s.g.es * s.g.epb
    ensures At(s, NewDisk(base, l1Size), room)
  {
    FreshSound(X(s), file, l1Size);
    FreshRoom(s.g, file, l1Size, room);
    FreshFound(s.g, file, l1Size);
    hide Found, FreshFile, Complete, View, Sound, EntryClusters, Room;
  }

  lemma {:induction false} FreshRoom(g: Geo, f: File, l1Size: nat, room: nat)
    requires g.Valid() && FreshFile(g, f, l1Size) && EntryClusters(g, l1Size) + 3 <= g.epb
    requires room + EntryClusters(g, l1Size) + 3 <= g.es * g.epb
    ensures Room(g, f, Found(g, f).rt, 0, room)
  {
    var n := EntryClusters(g, l1Size);
    FreshFound(g, f, l1Size);
    assert FirstBlock(g, f, n + 2);
    hide Found, FreshFile, FirstBlock, EntryClusters, RC;
    var rt := FirstTable(g, n + 2);
    forall x | x + room >= Capacity(g, rt) ensures RC(g, f, rt, x) == 0 { FreshCounts(g, f, n, x); }
  }

  // ---------------------------------------------------------------- what the flat model says

  /** Operation j saved x: it appended x to the list, with the disk that was active. */
  ghost predicate SavedBy(g: Geo, f: Flat, ops: seq<Op>, j: nat, x: Saved)
    requires g.Valid() && f.l1Size >= 1
  {
    && j < |ops| && ops[j].Save? && After(g, f, ops[..j + 1]).saved == After(g, f, ops[..j]).saved + [x]
    && x.disk == After(g, f, ops[..j]).active
  }

  /** Isolation: whatever happened since, a snapshot still on the list is the one that was appended
      when the active disk was saved, or one from before the run. */
  lemma {:induction false} SavedForever(g: Geo, f: Flat, ops: seq<Op>, k: nat)
    requires g.Valid() && f.l1Size >= 1 && k < |After(g, f, ops).saved|
    ensures After(g, f, ops).saved[k] in f.saved || exists j: nat :: SavedBy(g, f, ops, j, After(g, f, ops).saved[k])
  {
    hide Step;
    if ops != [] {
      var n := |ops| - 1;
      var before, op := After(g, f, ops[..n]), ops[n];
      var x := After(g, f, ops).saved[k];
      if x in before.saved {
        var m :| 0 <= m < |before.saved| && before.saved[m] == x;
        SavedForever(g, f, ops[..n], m);
        if x !in f.saved {
          var j: nat :| SavedBy(g, f, ops[..n], j, x);
          assert ops[..n][..j] == ops[..j] && ops[..n][..j + 1] == ops[..j + 1];
          assert SavedBy(g, f, ops, j, x);
        }
      } else {
        SavedStep(g, before, op, x);
        assert ops[..n + 1] == ops;
        assert SavedBy(g, f, ops, n, x);
      }
    }
  }

  lemma {:induction false} SavedStep(g: Geo, f: Flat, op: Op, x: Saved)
    requires g.Valid() && f.l1Size >= 1 && x in Step(g, f, op).saved && x !in f.saved
    ensures op.Save? && x.disk == f.active && Step(g, f, op).saved == f.saved + [x]
  {
  }

  predicate DistinctIds(saved: seq<Saved>)
  {
    forall i, j :: 0 <= i < j < |saved| ==> saved[i].info.id != saved[j].info.id
  }

  /** No run ever has two snapshots of one id. */
  lemma {:induction false} IdsStayDistinct(g: Geo, f: Flat, ops: seq<Op>)
    requires g.Valid() && f.l1Size >= 1 && DistinctIds(f.saved)
    ensures DistinctIds(After(g, f, ops).saved)
  {
    if ops != [] {
      var n := |ops| - 1;
      IdsStayDistinct(g, f, ops[..n]);
      IdsStep(g, After(g, f, ops[..n]), ops[n]);
    }
  }

  lemma {:induction false} IdsStep(g: Geo, f: Flat, op: Op)
    requires g.Valid() && f.l1Size >= 1 && DistinctIds(f.saved)
    ensures DistinctIds(Step(g, f, op).saved)
  {
    if op.Save? {
      var named := Named(Snaps(f.saved), op.info);
      if !HasId(Snaps(f.saved), named.id) {
        forall i | 0 <= i < |f.saved| ensures f.saved[i].info.id != named.id { assert Snaps(f.saved)[i].info.id == f.saved[i].info.id; }
      }
    }
  }

  /** Going to a snapshot by its id, at any later time, brings back the disk that was active when it
      was saved. */
  lemma {:induction false} GotoRestores(g: Geo, f: Flat, ops: seq<Op>, k: nat)
    requires g.Valid() && f.l1Size >= 1 && DistinctIds(f.saved) && k < |After(g, f, ops).saved|
    ensures var x := After(g, f, ops).saved[k];
            var now := Step(g, After(g, f, ops), Goto(x.info.id));
            && now.active == x.disk
            && (x in f.saved || exists j: nat :: SavedBy(g, f, ops, j, x) && now.active == After(g, f, ops[..j]).active)
  {
    hide After, SavedBy;
    var h := After(g, f, ops);
    var x := h.saved[k];
    IdsStayDistinct(g, f, ops);
    SavedForever(g, f, ops, k);
    PickById(h.saved, k);
    if x !in f.saved {
      var j: nat :| SavedBy(g, f, ops, j, x);
      SavedDisk(g, f, ops, j, x);
    }
  }

  lemma {:induction false} SavedDisk(g: Geo, f: Flat, ops: seq<Op>, j: nat, x: Saved)
    requires g.Valid() && f.l1Size >= 1 && SavedBy(g, f, ops, j, x)
    ensures j < |ops| && x.disk == After(g, f, ops[..j]).active
  {
  }

  lemma {:induction false} PickById(saved: seq<Saved>, k: nat)
    requires DistinctIds(saved) && k < |saved|
    ensures HasId(Snaps(saved), saved[k].info.id) && Pick(Snaps(saved), saved[k].info.id) == k
  {
    var snaps, id := Snaps(saved), saved[k].info.id;
    assert snaps[k].info.id == id;
    SelectedOnce(snaps, id, k, Pick(snaps, id));
  }

  predicate InsideDisk(op: Op, total: nat)
  {
    match op
    case Write(sec, data) => sec + |data| <= total
    case _ => true
  }

  /** Writes inside the disk never grow the L1 table, so a goto always meets a table of its size. */
  lemma {:induction false} SizesStay(g: Geo, f: Flat, ops: seq<Op>, total: nat)
    requires g.Valid() && f.l1Size >= 1 && f.l1Size == L1For(g, total)
    requires forall k :: 0 <= k < |ops| ==> InsideDisk(ops[k], total)
    requires forall k :: 0 <= k < |f.saved| ==> f.saved[k].l1Size == f.l1Size
    ensures After(g, f, ops).l1Size == f.l1Size
    ensures forall k :: 0 <= k < |After(g, f, ops).saved| ==> After(g, f, ops).saved[k].l1Size == f.l1Size
  {
    if ops != [] {
      var n := |ops| - 1;
      SizesStay(g, f, ops[..n], total);
      var op := ops[n];
      if op.Write? { SizeStays(g, f.l1Size, op.sec, |op.data|, total); }
    }
  }

  lemma {:induction false} SizeStays(g: Geo, l1Size: nat, sec: nat, n: nat, total: nat)
    requires g.Valid() && l1Size >= 1 && l1Size == L1For(g, total) && sec + n <= total
    ensures L1After(g, l1Size, sec, n) == l1Size
    ensures EntryClusters(g, l1Size) < g.epb ==> TablesFit(g, l1Size, sec, n)
    decreases n
  {
    if n > 0 {
      var m := InCluster(g, sec, n);
      L1ForCovers(g, total, sec);
      SizeStays(g, l1Size, sec + m, n - m, total);
    }
  }
}
