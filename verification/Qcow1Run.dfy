/** Whole runs on the first QCOW format against a flat disk. */
module Qcow1Run {
  import opened Division
  import opened Bytes
  import opened Qcow1Disk
  import opened Qcow1Image
  import opened Qcow1Ops

  datatype Op =
    | WriteOp(sector: nat, buf: seq<Sector>)
    | PackOp(sector: nat, buf: seq<Sector>)
    | ReadOp(sector: nat, n: nat)
    | EmptyOp

  /** The disk the guest believes in and the clusters that were written. */
  datatype Flat = Flat(disk: seq<Sector>, used: set<nat>)

  function Update(disk: seq<Sector>, sector: nat, buf: seq<Sector>): (r: seq<Sector>)
    requires sector + |buf| <= |disk|
    ensures |r| == |disk| && forall n: nat :: n < |disk| ==> r[n] == if sector <= n < sector + |buf| then buf[n - sector] else disk[n]
  {
    disk[..sector] + buf + disk[sector + |buf|..]
  }

  /** The first n sectors of the backing file, or zeros. */
  function BaseDisk(x: Ctx, n: nat): (disk: seq<Sector>)
    ensures |disk| == n && forall i: nat :: i < n ==> disk[i] == x.Base(i)
  {
    if n == 0 then [] else BaseDisk(x, n - 1) + [x.Base(n - 1)]
  }

  /** Clusters a range of sectors reaches. */
  ghost function Span(g: Grid, sector: nat, n: nat): (r: set<nat>)
    requires g.Valid()
    ensures forall c: nat :: c in r <==> Reached(g, c, sector, n)
  {
    if n == 0 then {} else set c: nat | c <= Quot(sector + n - 1, g.cs) && Reached(g, c, sector, n)
  }

  /** Ranges lie on the disk; a compressed write is a whole cluster that was not written before. */
  ghost predicate Legal(g: Grid, x: Ctx, f: Flat, op: Op)
    requires g.Valid()
  {
    match op
    case WriteOp(sector, buf) => sector + |buf| <= |f.disk|
    case PackOp(sector, buf) =>
      !x.crypt.Aes? && |buf| == g.cs && sector + |buf| <= |f.disk| && Rem(sector, g.cs) == 0 && Quot(sector, g.cs) !in f.used
    case ReadOp(sector, n) => sector + n <= |f.disk|
    case EmptyOp => true
  }

  ghost function Step(g: Grid, x: Ctx, f: Flat, op: Op): Flat
    requires g.Valid() && Legal(g, x, f, op)
  {
    match op
    case WriteOp(sector, buf) => Flat(Update(f.disk, sector, buf), f.used + Span(g, sector, |buf|))
    case PackOp(sector, buf) => Flat(Update(f.disk, sector, buf), f.used + Span(g, sector, |buf|))
    case ReadOp(_, _) => f
    case EmptyOp => Flat(BaseDisk(x, |f.disk|), {})
  }

  /** What an operation returns. */
  ghost function Answer(f: Flat, op: Op): seq<Sector>
  {
    if op.ReadOp? && op.sector + op.n <= |f.disk| then f.disk[op.sector..op.sector + op.n] else []
  }

  /** What was written, compressed or not, is read back; other sectors as before; an emptied disk reads
      as the backing file. */
  lemma {:induction false} ReadBack(g: Grid, x: Ctx, f: Flat, sector: nat, buf: seq<Sector>, n: nat)
    requires g.Valid() && n < |f.disk|
    ensures Legal(g, x, f, WriteOp(sector, buf)) ==> Answer(Step(g, x, f, WriteOp(sector, buf)), ReadOp(sector, |buf|)) == buf
    ensures Legal(g, x, f, PackOp(sector, buf)) ==> Answer(Step(g, x, f, PackOp(sector, buf)), ReadOp(sector, |buf|)) == buf
    ensures Legal(g, x, f, WriteOp(sector, buf)) && !(sector <= n < sector + |buf|) ==> Answer(Step(g, x, f, WriteOp(sector, buf)), ReadOp(n, 1)) == [f.disk[n]]
    ensures Legal(g, x, f, PackOp(sector, buf)) && !(sector <= n < sector + |buf|) ==> Answer(Step(g, x, f, PackOp(sector, buf)), ReadOp(n, 1)) == [f.disk[n]]
    ensures Answer(Step(g, x, f, EmptyOp), ReadOp(n, 1)) == [x.Base(n)]
  {
    hide Span, Quot, Rem;
    if sector + |buf| <= |f.disk| {
      assert Update(f.disk, sector, buf)[sector..sector + |buf|] == buf;
      assert Update(f.disk, sector, buf)[n..n + 1] == [Update(f.disk, sector, buf)[n]];
    }
    assert BaseDisk(x, |f.disk|)[n..n + 1] == [x.Base(n)];
  }

  ghost predicate LegalRun(g: Grid, x: Ctx, f: Flat, ops: seq<Op>)
    requires g.Valid()
    decreases |ops|
  {
    ops == [] || (Legal(g, x, f, ops[0]) && LegalRun(g, x, Step(g, x, f, ops[0]), ops[1..]))
  }

  ghost function After(g: Grid, x: Ctx, f: Flat, ops: seq<Op>): Flat
    requires g.Valid() && LegalRun(g, x, f, ops)
    decreases |ops|
  {
    if ops == [] then f else After(g, x, Step(g, x, f, ops[0]), ops[1..])
  }

  ghost function Answers(g: Grid, x: Ctx, f: Flat, ops: seq<Op>): seq<seq<Sector>>
    requires g.Valid() && LegalRun(g, x, f, ops)
    decreases |ops|
  {
    if ops == [] then [] else [Answer(f, ops[0])] + Answers(g, x, Step(g, x, f, ops[0]), ops[1..])
  }

  /** The image shows the flat disk. */
  ghost predicate Shows(s: Qcow1State, f: Flat)
    requires s.g.Valid()
    reads s
  {
    && (|f.disk| > 0 ==> InDisk(s, Quot(|f.disk| - 1, s.g.cs)))
    && (forall n: nat :: n < |f.disk| ==> View(s.g, s.x, s.d, n) == f.disk[n])
    && (forall c: nat :: EntryOf(s.g, s.d, c).Unused? <==> c !in f.used)
  }

  lemma {:induction false} RangeFits(s: Qcow1State, f: Flat, sector: nat, n: nat)
    requires s.g.Valid() && Shows(s, f) && sector + n <= |f.disk|
    ensures Fits(s, sector, n)
  {
    hide Quot, View, EntryOf;
    if n > 0 { FitsAt(s, 0, |f.disk|, sector + n - 1); }
  }

  /** The held cluster's chunk, if any, lies in the file after op, if it did before (settled). */
  predicate Settles(op: Op, settled: bool)
  {
    match op
    case WriteOp(_, _) => true
    case EmptyOp => false
    case _ => settled
  }

  /** No compressed write is the first write after the image was emptied. */
  predicate Calm(ops: seq<Op>, settled: bool)
    decreases |ops|
  {
    ops == [] || ((ops[0].PackOp? ==> settled) && Calm(ops[1..], Settles(ops[0], settled)))
  }

  method Perform(s: Qcow1State, op: Op, ghost f: Flat) returns (out: seq<Sector>)
    requires Valid(s) && Shows(s, f) && Legal(s.g, s.x, f, op) && (s.x.backing.None? || s.g.cs == 1)
    requires op.PackOp? ==> Harmless(s, op.sector, op.buf)
    modifies s`d, s`l1, s`keys, s`hits, s`cache, s`packedOff, s`packed
    ensures Valid(s) && Shows(s, Step(s.g, s.x, f, op)) && out == Answer(f, op) && (!op.EmptyOp? ==> Appended(old(s.d), s.d))
    ensures Settles(op, old(s.packedOff < s.d.len)) ==> s.packedOff < s.d.len
  {
    hide View, EntryOf, Quot, Rem, Stored, CacheOk, Qcow2Image.HitsOk, Written, FlatUpdate, PackedOk, Landing, Appended, Harmless;
    StateGives(s);
    out := [];
    match op {
      case WriteOp(sector, buf) =>
        RangeFits(s, f, sector, |buf|);
        Write(s, sector, buf);
        Updated(s.g, s.x, old(s.d), s.d, f, sector, buf);
      case PackOp(sector, buf) =>
        RangeFits(s, f, sector, |buf|);
        var _ := WriteCompressed(s, sector, buf);
        Updated(s.g, s.x, old(s.d), s.d, f, sector, buf);
        AppendedLen(old(s.d), s.d);
      case ReadOp(sector, n) =>
        RangeFits(s, f, sector, n);
        var ret;
        ret, out := AioRead(s, sector, n);
        NothingAppended(s.d);
      case EmptyOp =>
        MakeEmpty(s);
    }
  }

  /** A chunk lands past the end of the file. */
  lemma {:induction false} HarmlessBelow(s: Qcow1State, sector: nat, buf: seq<Sector>)
    requires s.g.Valid() && s.packedOff < s.d.len
    ensures Harmless(s, sector, buf)
  {
    hide EndFor, Quot;
    EndAligned(s.g, s.d.len);
  }

  lemma {:induction false} AppendedLen(d: Disk, d': Disk)
    requires Appended(d, d')
    ensures d.len <= d'.len
  {
  }

  lemma {:induction false} StateGives(s: Qcow1State)
    requires Valid(s)
    ensures s.g.Valid()
  {
  }

  lemma {:induction false} NothingAppended(d: Disk)
    ensures Appended(d, d)
  {
  }

  lemma {:induction false} Updated(g: Grid, x: Ctx, d: Disk, d': Disk, f: Flat, sector: nat, buf: seq<Sector>)
    requires g.Valid() && Written(g, x, d, d', sector, buf) && (x.backing.None? || g.cs == 1) && sector + |buf| <= |f.disk|
    requires forall n: nat :: n < |f.disk| ==> View(g, x, d, n) == f.disk[n]
    requires forall c: nat :: EntryOf(g, d, c).Unused? <==> c !in f.used
    ensures forall n: nat :: n < |f.disk| ==> View(g, x, d', n) == Update(f.disk, sector, buf)[n]
    ensures forall c: nat :: EntryOf(g, d', c).Unused? <==> c !in f.used + Span(g, sector, |buf|)
  {
    hide View, EntryOf, Quot, Rem, Reached;
    AlwaysFlat(g, x, d, d', sector, buf);
  }

  /** A prefix of a legal run, one operation at a time. */
  lemma {:induction false} PrefixNext(g: Grid, x: Ctx, f: Flat, ops: seq<Op>, n: nat)
    requires g.Valid() && n < |ops| && Legal(g, x, f, ops[0]) && LegalRun(g, x, Step(g, x, f, ops[0]), ops[1..][..n])
    ensures LegalRun(g, x, f, ops[..n + 1])
    ensures After(g, x, f, ops[..n + 1]) == After(g, x, Step(g, x, f, ops[0]), ops[1..][..n])
    ensures Answers(g, x, f, ops[..n + 1]) == [Answer(f, ops[0])] + Answers(g, x, Step(g, x, f, ops[0]), ops[1..][..n])
    ensures forall op :: op in ops[..n + 1] <==> op == ops[0] || op in ops[1..][..n]
  {
    hide Step, Legal, Answer;
    assert ops[..n + 1][1..] == ops[1..][..n];
    assert ops[..n + 1] == [ops[0]] + ops[1..][..n];
  }

  /** Any legal run answers as the flat disk does, up to the first compressed write that would leave the
      wrong cluster held; there is none if the run is calm. Until the image is emptied, the file only
      grows at its end. */
  method Run(s: Qcow1State, ops: seq<Op>, ghost f: Flat) returns (outs: seq<seq<Sector>>, n: nat)
    requires Valid(s) && Shows(s, f) && LegalRun(s.g, s.x, f, ops) && (s.x.backing.None? || s.g.cs == 1)
    modifies s`d, s`l1, s`keys, s`hits, s`cache, s`packedOff, s`packed
    ensures n <= |ops| && LegalRun(s.g, s.x, f, ops[..n])
    ensures Valid(s) && Shows(s, After(s.g, s.x, f, ops[..n])) && outs == Answers(s.g, s.x, f, ops[..n])
    ensures n < |ops| ==> ops[n].PackOp? && !Harmless(s, ops[n].sector, ops[n].buf)
    ensures Calm(ops, old(s.packedOff < s.d.len)) ==> n == |ops|
    ensures EmptyOp !in ops[..n] ==> Appended(old(s.d), s.d)
    decreases |ops|
  {
    hide View, EntryOf, Stored, CacheOk, Qcow2Image.HitsOk, Appended, Step, Legal, Shows, Answer, Harmless, Settles;
    StateGives(s);
    NothingAppended(s.d);
    assert ops[..0] == [];
    if ops == [] { return [], 0; }
    if s.packedOff < s.d.len && ops[0].PackOp? { HarmlessBelow(s, ops[0].sector, ops[0].buf); }
    if ops[0].PackOp? && !Harmless(s, ops[0].sector, ops[0].buf) { return [], 0; }
    var out := Perform(s, ops[0], f);
    ghost var d1, settled := s.d, s.packedOff < s.d.len;
    var rest, m := Run(s, ops[1..], Step(s.g, s.x, f, ops[0]));
    PrefixNext(s.g, s.x, f, ops, m);
    if Calm(ops, old(s.packedOff < s.d.len)) { CalmMore(ops[1..], Settles(ops[0], old(s.packedOff < s.d.len)), settled); }
    if EmptyOp !in ops[..m + 1] { AppendedTrans(old(s.d), d1, s.d); }
    outs, n := [out] + rest, m + 1;
  }

  lemma {:induction false} CalmMore(ops: seq<Op>, a: bool, b: bool)
    requires Calm(ops, a) && (a ==> b)
    ensures Calm(ops, b)
    decreases |ops|
  {
    if ops != [] { CalmMore(ops[1..], Settles(ops[0], a), Settles(ops[0], b)); }
  }

  // ---------------------------------------------------------------- new images

  const HEADER_SIZE: nat := 48

  /** Clusters of one sector over a backing file, of eight sectors without one. */
  function GeoFor(x: Ctx): (g: Grid)
    ensures g.Valid() && (x.backing.None? || g.cs == 1)
  {
    if x.backing.Some? then Grid(1, 4096) else Grid(8, 512)
  }

  function L1For(g: Grid, total: nat): nat
    requires g.Valid()
  {
    var shift := g.cs * g.es;
    Quot(total + shift - 1, shift)
  }

  lemma {:induction false} L1Covers(g: Grid, total: nat, n: nat)
    requires g.Valid() && n < total
    ensures Quot(Quot(n, g.cs), g.es) < L1For(g, total)
  {
    hide Quot, Rem;
    var d, q := g.cs * g.es, L1For(g, total);
    QuotBetween(total + d - 1, d);
    assert n < q * d;
    assert q * d == (q * g.es) * g.cs;
    DivBound(n, g.cs, q * g.es);
    DivBound(Quot(n, g.cs), g.es, q);
  }

  /** Creates an image and opens it: it shows the backing file, or zeros. */
  method Create(x: Ctx, total: nat, nameLen: nat) returns (s: Qcow1State)
    requires x.Valid(GeoFor(x).cs)
    ensures fresh(s) && Valid(s) && s.x == x && s.g == GeoFor(x) == if x.backing.Some? then Grid(1, 4096) else Grid(8, 512)
    ensures forall disk: seq<Sector> :: |disk| == total && (forall n: nat :: n < total ==> disk[n] == x.Base(n)) ==> Shows(s, Flat(disk, {}))
    ensures s.d == Disk(s.d.base, s.d.l1, map[], s.d.base) && s.packedOff == -1 && forall i :: 0 <= i < |s.d.l1| ==> s.d.l1[i] == 0
    ensures Fits(s, 0, total) && forall c: nat :: EntryOf(s.g, s.d, c).Unused?
  {
    hide View, EntryOf;
    var g := GeoFor(x);
    var table := seq(L1For(g, total), _ => 0);
    var start := (HEADER_SIZE + nameLen + 7) / 8 * 8;
    var d := Disk(start + 8 * |table|, table, map[], start + 8 * |table|);
    NewDisk(g, x, d);
    s := new Qcow1State.Open(g, x, d);
    if total > 0 { L1Covers(g, total, total - 1); }
  }

  // ---------------------------------------------------------------- a read that is wrong

  /** A new image of one cluster, with or without a backing file: a is written compressed and read, the
      image is emptied, and b is written compressed. The disk has b, and the read gets a. */
  method StaleRun(x: Ctx, nameLen: nat, a: seq<Sector>, b: seq<Sector>) returns (s: Qcow1State, first: seq<Sector>, second: seq<Sector>)
    requires !x.crypt.Aes? && x.Valid(GeoFor(x).cs) && |a| == |b| == GeoFor(x).cs
    requires |x.codec.deflate(a)| < 512 * |a| && |x.codec.deflate(b)| < 512 * |b|
    ensures s.g == GeoFor(x) && s.x == x && first == a && second == a && forall i: nat :: i < |b| ==> View(s.g, s.x, s.d, i) == b[i]
  {
    hide View, EntryOf, Quot, Rem, Stored, CacheOk, Qcow2Image.HitsOk, PackedOk, Written, Landing, EndFor, Got, GeoFor;
    var n := |a|;
    FirstCluster(n);
    s := Create(x, n, nameLen);
    LandingEmptied(s.g, s.d, 0);
    ghost var d0 := s.d;
    var _ := WriteCompressed(s, 0, a);
    ghost var d1 := s.d;
    var ret;
    ret, first := AioRead(s, 0, n);
    forall i: nat | i < n ensures View(s.g, s.x, d1, 0 + i) == a[i] { PackedView(s.g, s.x, d0, d1, -1, [], 0, a, i); }
    assert first == a;
    HeldIs(s, a);
    second := EmptyPackRead(s, 0, b);
    forall i: nat | i < n ensures View(s.g, s.x, s.d, i) == b[i] { assert View(s.g, s.x, s.d, 0 + i) == b[i]; }
  }

  lemma {:induction false} FirstCluster(n: nat)
    requires n > 0
    ensures Quot(0, n) == 0 && Rem(0, n) == 0 && Quot(n - 1, n) == 0
  {
    DivExact(0, n, n - 1);
  }

  /** The held cluster is what the guest reads there. */
  lemma {:induction false} HeldIs(s: Qcow1State, a: seq<Sector>)
    requires Valid(s) && |a| == s.g.cs && EntryOf(s.g, s.d, 0).Packed? && s.packedOff == EntryOf(s.g, s.d, 0).off
    requires forall i: nat :: i < |a| ==> View(s.g, s.x, s.d, 0 + i) == a[i]
    ensures s.packed == a
  {
    hide EntryOf, CacheOk, Qcow2Image.HitsOk, NoneEncrypted, ChunksOk, Struct, Quot, Rem;
    StructGives(s.g, s.d);
    PackedChunk(s.g, s.x, s.d, 0);
    forall i: nat | i < |a| ensures s.packed[i] == a[i] {
      DivExact(0, s.g.cs, i);
      assert View(s.g, s.x, s.d, 0 + i) == a[i];
    }
  }
}
