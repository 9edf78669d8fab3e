/** What the definitions behind the refinement mean: the format's own terms for the guest disk and the
    counts, and laws of the flat model that a user of the image would expect. */
module Qcow2Laws {
  import opened Division
  import opened Bytes
  import opened Qcow2Layout
  import opened Qcow2Trees
  import opened Qcow2Counts
  import opened Qcow2Volume
  import opened Qcow2Write
  import opened Qcow2SnapIds
  import opened Qcow2Snapshot
  import opened Qcow2Run

  // ---------------------------------------------------------------- the format

  /** Where sector k of cluster j of L1 slot i is. */
  lemma {:induction false} Position(g: Geo, i: nat, j: nat, k: nat)
    requires g.Valid() && j < g.es && k < g.cs
    ensures var s := (i * g.es + j) * g.cs + k;
            && Quot(s, g.cs) == i * g.es + j && Rem(s, g.cs) == k
            && Quot(i * g.es + j, g.es) == i && Rem(i * g.es + j, g.es) == j
  {
    hide Quot, Rem;
    DivExact(i * g.es + j, g.cs, k);
    DivExact(i, g.es, j);
  }

  /** Sector k of cluster j of L1 slot i of the active image: slot j of the L2 table that slot i names
      names the data cluster, whose sector k is decrypted under the sector's number; without table or
      cluster it is the backing file's. */
  lemma {:induction false} GuestSector(x: Ctx, v: Vol, i: nat, j: nat, k: nat)
    requires x.g.Valid() && j < x.g.es && k < x.g.cs
    ensures var s := (i * x.g.es + j) * x.g.cs + k;
            var mapped := i < |v.l1| && v.l1[i].cluster != 0;
            && (!mapped && s < |x.base| ==> View(x, v, 0, s) == x.base[s])
            && (!mapped && s >= |x.base| ==> forall b :: 0 <= b < 512 ==> View(x, v, 0, s)[b] == 0)
            && (mapped && v.l1[i].cluster in v.file && v.file[v.l1[i].cluster].Table? && j < |v.file[v.l1[i].cluster].entries| ==>
                  var c := v.file[v.l1[i].cluster].entries[j].cluster;
                  && (c == 0 && s < |x.base| ==> View(x, v, 0, s) == x.base[s])
                  && (c == 0 && s >= |x.base| ==> forall b :: 0 <= b < 512 ==> View(x, v, 0, s)[b] == 0)
                  && (c != 0 && c in v.file && v.file[c].Data? && k < |v.file[c].sectors| ==> View(x, v, 0, s) == x.crypt.dec(s, v.file[c].sectors[k])))
  {
    hide Quot, Rem, SnapRoots, Backing;
    Position(x.g, i, j, k);
    BackingIs(x.base, (i * x.g.es + j) * x.g.cs + k);
  }

  /** Snapshot m has its L1 table in the file: entry b of cluster a is that of slot a * es + b. */
  lemma {:induction false} SnapshotRoot(g: Geo, v: Vol, m: nat, a: nat, b: nat)
    requires g.Valid() && m < |v.snaps| && b < g.es && a * g.es + b < v.snaps[m].l1Size
    requires v.snaps[m].l1Off + a in v.file && v.file[v.snaps[m].l1Off + a].Table? && b < |v.file[v.snaps[m].l1Off + a].entries|
    ensures |Roots(g, v)| == |v.snaps| + 1 && |Roots(g, v)[m + 1]| == v.snaps[m].l1Size
    ensures Roots(g, v)[m + 1][a * g.es + b] == v.file[v.snaps[m].l1Off + a].entries[b].cluster
  {
    hide Quot, Rem;
    DivExact(a, g.es, b);
    assert Roots(g, v)[m + 1] == SnapRoots(g, v.file, v.snaps)[m];
  }

  /** Snapshots are resolved like the active image, through their own L1 table. */
  lemma {:induction false} SnapshotSector(x: Ctx, v: Vol, v': Vol, m: nat, s: nat)
    requires x.g.Valid() && m < |v.snaps| && v'.file == v.file && Erase(v'.l1) == Roots(x.g, v)[m + 1]
    ensures View(x, v, m + 1, s) == View(x, v', 0, s)
  {
    hide Quot, Rem, ViewAt, SnapRoots, Erase;
  }

  /** The count of cluster j of range k is count j of the block in slot k of the table. */
  lemma {:induction false} CountOf(g: Geo, f: File, rt: seq<nat>, k: nat, j: nat)
    requires g.Valid() && j < g.epb
    ensures k >= |rt| || rt[k] == 0 ==> RC(g, f, rt, k * g.epb + j) == 0
    ensures k < |rt| && rt[k] != 0 && rt[k] in f && f[rt[k]].Counts? && j < |f[rt[k]].counts| ==> RC(g, f, rt, k * g.epb + j) == f[rt[k]].counts[j]
  {
    hide Quot, Rem;
    DivExact(k, g.epb, j);
  }

  /** A sound image: every count is the number of references, and an entry of the active image has the
      copied flag if and only if that number is one. */
  lemma {:induction false} SoundMeans(g: Geo, v: Vol, x: nat, i: nat, j: nat)
    requires Sound(g, v) && i < |v.l1| && j < g.es
    ensures RC(g, v.file, v.rt, x) == MetaRefs(g, v, x) + TreesRefs(g, v, x)
    ensures v.l1[i].cluster != 0 ==> (v.l1[i].copied <==> RC(g, v.file, v.rt, v.l1[i].cluster) == 1)
    ensures v.l1[i].cluster != 0 ==>
              var t := v.l1[i].cluster;
              && t in v.file && v.file[t].Table? && |v.file[t].entries| == g.es
              && (v.file[t].entries[j].cluster != 0 ==> (v.file[t].entries[j].copied <==> RC(g, v.file, v.rt, v.file[t].entries[j].cluster) == 1))
  {
    hide RC, MetaRefs, TreesRefs, Injective, Exclusive, TableShape, L1Stored, SnapsTyped, SnapRoots;
    assert VRC(g, v, x) + One(0 != 0 && x == 0) == Refs(g, v, x) + One(InRun(x, 0, 0));
    var l1 := Roots(g, v)[0];
    assert l1[i] == v.l1[i].cluster;
    assert FlagOk(g, v, v.l1[i]);
    if v.l1[i].cluster != 0 { assert FlagOk(g, v, EntryAt(v.file, v.l1[i].cluster, j)); }
  }

  // ---------------------------------------------------------------- the flat model

  /** A new disk reads as the backing file, and zeros past its end. */
  lemma {:induction false} NewDiskReads(base: seq<Sector>, l1Size: nat, sec: nat, n: nat)
    ensures Output(NewDisk(base, l1Size), Read(0, |base|)) == Sectors(base)
    ensures Output(NewDisk(base, l1Size), Read(sec, n)).Sectors? && |Output(NewDisk(base, l1Size), Read(sec, n)).data| == n
    ensures forall k, i :: 0 <= k < n && sec + k >= |base| && 0 <= i < 512 ==> Output(NewDisk(base, l1Size), Read(sec, n)).data[k][i] == 0
  {
    hide Backing;
    forall s: nat | s < |base| ensures Backing(base, s) == base[s] { BackingIs(base, s); }
    var data := Output(NewDisk(base, l1Size), Read(sec, n)).data;
    forall k, i | 0 <= k < n && sec + k >= |base| && 0 <= i < 512 ensures data[k][i] == 0 { BackingIs(base, sec + k); }
  }

  /** What was written is read back, and every other sector as before. */
  lemma {:induction false} ReadBack(g: Geo, f: Flat, sec: nat, data: seq<Sector>, s: nat)
    requires g.Valid() && f.l1Size >= 1
    ensures Output(Step(g, f, Write(sec, data)), Read(sec, |data|)) == Sectors(data)
    ensures s < sec || sec + |data| <= s ==> Output(Step(g, f, Write(sec, data)), Read(s, 1)) == Output(f, Read(s, 1))
  {
    hide L1After;
    assert Output(Step(g, f, Write(sec, data)), Read(sec, |data|)).data == data;
  }

  /** No operation touches what it is not about: reading and reopening change nothing, writing no
      snapshot, saving and deleting not the disk, saving and going not the snapshots there are. */
  lemma {:induction false} Untouched(g: Geo, f: Flat, op: Op)
    requires g.Valid() && f.l1Size >= 1
    ensures op.Read? || op.CloseAndOpen? ==> Step(g, f, op) == f
    ensures op.Write? || op.Goto? ==> Step(g, f, op).saved == f.saved
    ensures op.Save? || op.Delete? ==> Step(g, f, op).active == f.active
    ensures op.Save? ==> f.saved <= Step(g, f, op).saved
    ensures !op.Read? && Output(f, op) != Ret(0) ==> Step(g, f, op) == f && Output(f, op) == Ret(-2)
  {
    hide L1After, HasId, HasName, Pick, Named;
  }

  /** Deleting by an id that one snapshot has removes that one. */
  lemma {:induction false} DeleteRemoves(g: Geo, f: Flat, k: nat)
    requires g.Valid() && f.l1Size >= 1 && DistinctIds(f.saved) && k < |f.saved|
    ensures Output(f, Delete(f.saved[k].info.id)) == Ret(0)
    ensures Step(g, f, Delete(f.saved[k].info.id)).saved == f.saved[..k] + f.saved[k + 1..]
  {
    PickById(f.saved, k);
  }

  /** A save that succeeds lists the disk with the information given, and under the id given; without
      one, under an id that reads as the largest number there is plus one, or as that number wraps. */
  lemma {:induction false} SaveLists(g: Geo, f: Flat, info: SnapInfo)
    requires g.Valid() && f.l1Size >= 1 && Output(f, Save(info)) == Ret(0)
    ensures var f' := Step(g, f, Save(info));
            && |f'.saved| == |f.saved| + 1 && f'.saved[..|f.saved|] == f.saved
            && var x := f'.saved[|f.saved|];
               && x.disk == f.active && x.l1Size == f.l1Size
               && x.info.name == info.name && x.info.vmStateSize == info.vmStateSize && x.info.dateSec == info.dateSec
               && x.info.dateNsec == info.dateNsec && x.info.vmClockNsec == info.vmClockNsec
               && (info.id != "" ==> x.info.id == info.id)
               && (info.id == "" && (exists k :: 0 <= k < |f.saved| && ReadId(f.saved[k].info.id) == 0x7fff_ffff) ==> x.info.id == "-2147483648")
               && (info.id == "" && (forall k :: 0 <= k < |f.saved| ==> ReadId(f.saved[k].info.id) < 0x7fff_ffff) ==>
                     && (forall k :: 0 <= k < |f.saved| ==> ReadId(f.saved[k].info.id) < ReadId(x.info.id))
                     && (ReadId(x.info.id) == 1 || exists k :: 0 <= k < |f.saved| && ReadId(f.saved[k].info.id) == ReadId(x.info.id) - 1))
               && forall k :: 0 <= k < |f.saved| ==> f.saved[k].info.id != x.info.id
  {
    hide NewId, ReadId;
    var snaps := Snaps(f.saved);
    var named := Named(snaps, info);
    forall k | 0 <= k < |f.saved| ensures f.saved[k].info.id != named.id { assert snaps[k].info.id == f.saved[k].info.id; }
    if info.id == "" { NewIdReads(snaps); }
  }

  /** Going to a name that no id equals finds the first snapshot of that name. */
  lemma {:induction false} GotoByName(g: Geo, f: Flat, k: nat)
    requires g.Valid() && f.l1Size >= 1 && k < |f.saved|
    requires forall m :: 0 <= m < |f.saved| ==> f.saved[m].info.id != f.saved[k].info.name
    requires forall m :: 0 <= m < k ==> f.saved[m].info.name != f.saved[k].info.name
    ensures Output(f, Goto(f.saved[k].info.name)) == Ret(0)
    ensures Step(g, f, Goto(f.saved[k].info.name)).active == f.saved[k].disk
  {
    hide FirstMatch;
    var snaps, name := Snaps(f.saved), f.saved[k].info.name;
    assert snaps[k].info.name == name;
    assert Selected(snaps, name, k);
    SelectedOnce(snaps, name, k, Pick(snaps, name));
  }

  /** Save under a name, do anything, and go back by the name: if the snapshot is still there, no id
      equals its name and no earlier snapshot has it, the disk is the one that was saved. */
  lemma {:induction false} SaveGotoName(g: Geo, f: Flat, info: SnapInfo, ops: seq<Op>, k: nat)
    requires g.Valid() && f.l1Size >= 1 && Output(f, Save(info)) == Ret(0)
    requires var h := After(g, Step(g, f, Save(info)), ops);
             && k < |h.saved| && h.saved[k] == Step(g, f, Save(info)).saved[|f.saved|]
             && (forall m :: 0 <= m < |h.saved| ==> h.saved[m].info.id != info.name)
             && (forall m :: 0 <= m < k ==> h.saved[m].info.name != info.name)
    ensures Step(g, After(g, Step(g, f, Save(info)), ops), Goto(info.name)).active == f.active
  {
    SaveLists(g, f, info);
    hide Step, After, Output;
    GotoByName(g, After(g, Step(g, f, Save(info)), ops), k);
  }
}
