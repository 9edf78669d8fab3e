/** The snapshot table as bytes: a fixed header per snapshot, aligned to 8 bytes, then its strings. */
module Qcow2SnapTable {
  import opened Buffers
  import opened Bytes
  import opened Qcow2Layout

  const HEADER_SIZE: nat := 40

  function AlignOffset(n: nat): (m: nat)
    ensures n <= m < n + 8 && m % 8 == 0
  {
    (n + 7) / 8 * 8
  }

  /** Bytes of the table of the given snapshots. */
  function TableBytes(snaps: seq<Snap>): nat
  {
    if snaps == [] then 0
    else
      var last := snaps[|snaps| - 1].info;
      AlignOffset(TableBytes(snaps[..|snaps| - 1])) + HEADER_SIZE + |last.id| + |last.name|
  }

  /** The size pass of writing the table. */
  method ComputeSize(snaps: seq<Snap>) returns (size: nat)
    ensures size == TableBytes(snaps)
  {
    size := 0;
    for i := 0 to |snaps|
      invariant size == TableBytes(snaps[..i])
    {
      assert snaps[..i + 1][..i] == snaps[..i];
      size := AlignOffset(size);
      size := size + HEADER_SIZE;
      size := size + |snaps[i].info.id|;
      size := size + |snaps[i].info.name|;
    }
    assert snaps[..|snaps|] == snaps;
  }

  // ---------------------------------------------------------------- numbers and strings

  function Pow256(k: nat): nat
  {
    if k == 0 then 1 else 256 * Pow256(k - 1)
  }

  /** n in k bytes, most significant first. */
  function Be(n: nat, k: nat): (b: seq<Byte>)
    ensures |b| == k
  {
    if k == 0 then [] else Be(n / 256, k - 1) + [(n % 256) as Byte]
  }

  function FromBe(b: seq<Byte>): nat
  {
    if b == [] then 0 else 256 * FromBe(b[..|b| - 1]) + b[|b| - 1] as nat
  }

  lemma {:induction false} BeRoundTrip(n: nat, k: nat)
    requires n < Pow256(k)
    ensures FromBe(Be(n, k)) == n
  {
    if k > 0 {
      BeRoundTrip(n / 256, k - 1);
      assert Be(n, k)[..k - 1] == Be(n / 256, k - 1);
      ByteOf(n % 256);
    }
  }

  lemma {:induction false} FromBeSnoc(p: seq<Byte>, b: Byte)
    ensures FromBe(p + [b]) == 0x100 * FromBe(p) + b as nat
  {
    assert (p + [b])[..|p|] == p;
  }

  /** The most significant byte comes first. */
  lemma {:induction false} FromBe4(a: Byte, b: Byte, c: Byte, d: Byte)
    ensures FromBe([a, b, c, d]) == 0x1000000 * a as nat + 0x10000 * b as nat + 0x100 * c as nat + d as nat
    ensures FromBe([a, b]) == 0x100 * a as nat + b as nat
  {
    assert FromBe([]) == 0;
    hide FromBe;
    FromBeSnoc([], a);
    FromBeSnoc([a], b);
    FromBeSnoc([a, b], c);
    FromBeSnoc([a, b, c], d);
    assert [] + [a] == [a] && [a] + [b] == [a, b] && [a, b] + [c] == [a, b, c] && [a, b, c] + [d] == [a, b, c, d];
  }

  lemma {:induction false} FromBe8(p: seq<Byte>, a: Byte, b: Byte, c: Byte, d: Byte)
    ensures FromBe(p + [a, b, c, d]) == 0x100000000 * FromBe(p) + 0x1000000 * a as nat + 0x10000 * b as nat + 0x100 * c as nat + d as nat
  {
    hide FromBe;
    FromBeSnoc(p, a);
    FromBeSnoc(p + [a], b);
    FromBeSnoc(p + [a, b], c);
    FromBeSnoc(p + [a, b, c], d);
    assert p + [a] + [b] == p + [a, b] && p + [a, b] + [c] == p + [a, b, c] && p + [a, b, c] + [d] == p + [a, b, c, d];
  }

  /** The bytes of a C string without its terminator. */
  function StrBytes(t: string): (b: seq<Byte>)
    requires forall k :: 0 <= k < |t| ==> 0 < t[k] as int < 256
    ensures |b| == |t|
  {
    seq(|t|, k requires 0 <= k < |t| => (t[k] as int) as Byte)
  }

  function FromStr(b: seq<Byte>): (t: string)
    ensures |t| == |b|
  {
    seq(|b|, k requires 0 <= k < |b| => (b[k] as int) as char)
  }

  lemma {:induction false} StrRoundTrip(t: string)
    requires forall k :: 0 <= k < |t| ==> 0 < t[k] as int < 256
    ensures FromStr(StrBytes(t)) == t
  {
    forall k | 0 <= k < |t| ensures FromStr(StrBytes(t))[k] == t[k] { ByteOf(t[k] as int); }
  }

  /** The fields have the widths of the format, and the strings contain no NUL. */
  predicate Storable(sn: Snap)
  {
    && sn.l1Off < Pow256(8) && sn.l1Size < Pow256(4)
    && sn.info.vmStateSize < Pow256(4) && sn.info.dateSec < Pow256(4) && sn.info.dateNsec < Pow256(4) && sn.info.vmClockNsec < Pow256(8)
    && |sn.info.id| < Pow256(2) && |sn.info.name| < Pow256(2)
    && (forall k :: 0 <= k < |sn.info.id| ==> 0 < sn.info.id[k] as int < 256)
    && (forall k :: 0 <= k < |sn.info.name| ==> 0 < sn.info.name[k] as int < 256)
  }

  // ---------------------------------------------------------------- one snapshot

  function HeaderBytes(sn: Snap): (b: seq<Byte>)
    ensures |b| == HEADER_SIZE
  {
    Be(sn.l1Off, 8) + Be(sn.l1Size, 4) + Be(|sn.info.id|, 2) + Be(|sn.info.name|, 2) + Be(sn.info.dateSec, 4) + Be(sn.info.dateNsec, 4) +
    Be(sn.info.vmClockNsec, 8) + Be(sn.info.vmStateSize, 4) + Be(0, 4)
  }

  datatype Head = Head(l1Off: nat, l1Size: nat, idSize: nat, nameSize: nat, dateSec: nat, dateNsec: nat, vmClockNsec: nat, vmStateSize: nat, extra: nat)

  function ParseHeader(b: seq<Byte>): Head
    requires |b| == HEADER_SIZE
  {
    Head(FromBe(b[0..8]), FromBe(b[8..12]), FromBe(b[12..14]), FromBe(b[14..16]), FromBe(b[16..20]), FromBe(b[20..24]),
         FromBe(b[24..32]), FromBe(b[32..36]), FromBe(b[36..40]))
  }

  lemma {:induction false} HeaderRoundTrip(sn: Snap)
    requires Storable(sn)
    ensures ParseHeader(HeaderBytes(sn)) ==
            Head(sn.l1Off, sn.l1Size, |sn.info.id|, |sn.info.name|, sn.info.dateSec, sn.info.dateNsec, sn.info.vmClockNsec, sn.info.vmStateSize, 0)
  {
    hide Be, FromBe, Pow256;
    var b := HeaderBytes(sn);
    HeaderParts(sn, b);
    BeRoundTrip(sn.l1Off, 8);
    BeRoundTrip(sn.l1Size, 4);
    BeRoundTrip(|sn.info.id|, 2);
    BeRoundTrip(|sn.info.name|, 2);
    BeRoundTrip(sn.info.dateSec, 4);
    BeRoundTrip(sn.info.dateNsec, 4);
    BeRoundTrip(sn.info.vmClockNsec, 8);
    BeRoundTrip(sn.info.vmStateSize, 4);
    ZeroFits();
    BeRoundTrip(0, 4);
  }

  lemma {:induction false} ZeroFits()
    ensures 0 < Pow256(4)
  {
    assert Pow256(3) > 0;
  }

  lemma {:induction false} HeaderParts(sn: Snap, b: seq<Byte>)
    requires b == HeaderBytes(sn)
    ensures b[0..8] == Be(sn.l1Off, 8) && b[8..12] == Be(sn.l1Size, 4) && b[12..14] == Be(|sn.info.id|, 2)
    ensures b[14..16] == Be(|sn.info.name|, 2) && b[16..20] == Be(sn.info.dateSec, 4) && b[20..24] == Be(sn.info.dateNsec, 4)
    ensures b[24..32] == Be(sn.info.vmClockNsec, 8) && b[32..36] == Be(sn.info.vmStateSize, 4) && b[36..40] == Be(0, 4)
  {
    hide Be;
  }

  // ---------------------------------------------------------------- the table in a file

  function PutBytes(disk: seq<Byte>, off: nat, b: seq<Byte>): (disk': seq<Byte>)
    requires off + |b| <= |disk|
    ensures |disk'| == |disk|
    ensures forall k :: 0 <= k < |disk| ==> disk'[k] == if off <= k < off + |b| then b[k - off] else disk[k]
  {
    disk[..off] + b + disk[off + |b|..]
  }

  /** Snapshot sn is stored at offset a. */
  ghost predicate StoredAt(disk: seq<Byte>, a: nat, sn: Snap)
  {
    var n, m := |sn.info.id|, |sn.info.name|;
    && Storable(sn) && a + HEADER_SIZE + n + m <= |disk|
    && disk[a..a + HEADER_SIZE] == HeaderBytes(sn)
    && disk[a + HEADER_SIZE..a + HEADER_SIZE + n] == StrBytes(sn.info.id)
    && disk[a + HEADER_SIZE + n..a + HEADER_SIZE + n + m] == StrBytes(sn.info.name)
  }

  /** The table of the given snapshots is stored from offset base. */
  ghost predicate TableAt(disk: seq<Byte>, base: nat, snaps: seq<Snap>)
  {
    forall k :: 0 <= k < |snaps| ==> StoredAt(disk, base + AlignOffset(TableBytes(snaps[..k])), snaps[k])
  }

  /** The layout of an entry: where the fields of the header are, and the strings behind it. */
  lemma {:induction false} StoredMeans(disk: seq<Byte>, a: nat, sn: Snap)
    requires StoredAt(disk, a, sn)
    ensures a + 40 + |sn.info.id| + |sn.info.name| <= |disk|
    ensures FromBe(disk[a..a + 8]) == sn.l1Off && FromBe(disk[a + 8..a + 12]) == sn.l1Size
    ensures FromBe(disk[a + 12..a + 14]) == |sn.info.id| && FromBe(disk[a + 14..a + 16]) == |sn.info.name|
    ensures FromBe(disk[a + 16..a + 20]) == sn.info.dateSec && FromBe(disk[a + 20..a + 24]) == sn.info.dateNsec
    ensures FromBe(disk[a + 24..a + 32]) == sn.info.vmClockNsec && FromBe(disk[a + 32..a + 36]) == sn.info.vmStateSize && FromBe(disk[a + 36..a + 40]) == 0
    ensures forall k :: 0 <= k < |sn.info.id| ==> disk[a + 40 + k] as int == sn.info.id[k] as int
    ensures forall k :: 0 <= k < |sn.info.name| ==> disk[a + 40 + |sn.info.id| + k] as int == sn.info.name[k] as int
  {
    hide HeaderBytes, StrBytes, FromBe, Storable;
    var n, m := |sn.info.id|, |sn.info.name|;
    HeaderRoundTrip(sn);
    var b := disk[a..a + 40];
    Slice(disk, a, 40, 0, 8);
    Slice(disk, a, 40, 8, 12);
    Slice(disk, a, 40, 12, 14);
    Slice(disk, a, 40, 14, 16);
    Slice(disk, a, 40, 16, 20);
    Slice(disk, a, 40, 20, 24);
    Slice(disk, a, 40, 24, 32);
    Slice(disk, a, 40, 32, 36);
    Slice(disk, a, 40, 36, 40);
    StoredStrings(sn);
    StrBytesAre(sn.info.id);
    StrBytesAre(sn.info.name);
    forall k | 0 <= k < n ensures disk[a + 40 + k] as int == sn.info.id[k] as int { assert disk[a + 40 + k] == disk[a + 40..a + 40 + n][k]; }
    forall k | 0 <= k < m ensures disk[a + 40 + n + k] as int == sn.info.name[k] as int { assert disk[a + 40 + n + k] == disk[a + 40 + n..a + 40 + n + m][k]; }
  }

  lemma {:induction false} StrBytesAre(t: string)
    requires forall k :: 0 <= k < |t| ==> 0 < t[k] as int < 256
    ensures forall k :: 0 <= k < |t| ==> StrBytes(t)[k] as int == t[k] as int
  {
    forall k | 0 <= k < |t| ensures StrBytes(t)[k] as int == t[k] as int { ByteOf(t[k] as int); }
  }

  /** Alignment of absolute and of relative offsets agree when the table starts on an aligned offset. */
  lemma {:induction false} AlignBase(base: nat, off: nat)
    requires base % 8 == 0
    ensures AlignOffset(base + off) == base + AlignOffset(off)
  {
  }

  lemma {:induction false} TableBytesMono(snaps: seq<Snap>, k: nat)
    requires k < |snaps|
    ensures AlignOffset(TableBytes(snaps[..k])) + HEADER_SIZE + |snaps[k].info.id| + |snaps[k].info.name| == TableBytes(snaps[..k + 1]) <= TableBytes(snaps)
    decreases |snaps| - k
  {
    assert snaps[..k + 1][..k] == snaps[..k];
    if k + 1 < |snaps| {
      TableBytesMono(snaps, k + 1);
    } else {
      assert snaps[..k + 1] == snaps;
    }
  }

  lemma {:induction false} StoredKept(disk: seq<Byte>, disk': seq<Byte>, a: nat, sn: Snap, from: nat)
    requires StoredAt(disk, a, sn) && |disk'| == |disk| && a + HEADER_SIZE + |sn.info.id| + |sn.info.name| <= from
    requires forall k :: 0 <= k < |disk| && k < from ==> disk'[k] == disk[k]
    ensures StoredAt(disk', a, sn)
  {
    hide HeaderBytes, StrBytes, Storable;
    var n, m := |sn.info.id|, |sn.info.name|;
    assert disk'[a..a + HEADER_SIZE] == disk[a..a + HEADER_SIZE];
    assert disk'[a + HEADER_SIZE..a + HEADER_SIZE + n] == disk[a + HEADER_SIZE..a + HEADER_SIZE + n];
    assert disk'[a + HEADER_SIZE + n..a + HEADER_SIZE + n + m] == disk[a + HEADER_SIZE + n..a + HEADER_SIZE + n + m];
  }

  /** Writes one snapshot at offset a. */
  method WriteOne(disk: seq<Byte>, a: nat, sn: Snap) returns (disk': seq<Byte>)
    requires Storable(sn) && a + HEADER_SIZE + |sn.info.id| + |sn.info.name| <= |disk|
    ensures |disk'| == |disk| && StoredAt(disk', a, sn)
    ensures forall k :: 0 <= k < |disk| && !(a <= k < a + HEADER_SIZE + |sn.info.id| + |sn.info.name|) ==> disk'[k] == disk[k]
  {
    hide HeaderBytes, Storable;
    StoredStrings(sn);
    var off := a;
    disk' := PutBytes(disk, off, HeaderBytes(sn));
    off := off + HEADER_SIZE;
    disk' := PutBytes(disk', off, StrBytes(sn.info.id));
    off := off + |sn.info.id|;
    disk' := PutBytes(disk', off, StrBytes(sn.info.name));
    assert disk'[a..a + HEADER_SIZE] == HeaderBytes(sn);
    assert disk'[a + HEADER_SIZE..off] == StrBytes(sn.info.id);
    assert disk'[off..off + |sn.info.name|] == StrBytes(sn.info.name);
  }

  /** Writes the table at an aligned offset, over whatever the clusters held before. */
  method WriteTable(disk: seq<Byte>, base: nat, snaps: seq<Snap>) returns (disk': seq<Byte>)
    requires base % 8 == 0 && base + TableBytes(snaps) <= |disk|
    requires forall k :: 0 <= k < |snaps| ==> Storable(snaps[k])
    ensures |disk'| == |disk| && TableAt(disk', base, snaps)
    ensures forall k :: 0 <= k < |disk| && !(base <= k < base + TableBytes(snaps)) ==> disk'[k] == disk[k]
  {
    hide StoredAt, Storable, AlignOffset, TableBytes;
    disk' := disk;
    var off := base;
    EmptyBytes();
    assert snaps[..0] == [];
    for i := 0 to |snaps|
      invariant |disk'| == |disk| && off == base + TableBytes(snaps[..i]) && off <= |disk|
      invariant forall k :: 0 <= k < i ==> StoredAt(disk', base + AlignOffset(TableBytes(snaps[..k])), snaps[k])
      invariant forall k :: 0 <= k < |disk| && !(base <= k < off) ==> disk'[k] == disk[k]
    {
      AlignBase(base, TableBytes(snaps[..i]));
      TableBytesMono(snaps, i);
      var at := AlignOffset(off);
      ghost var before := disk';
      disk' := WriteOne(disk', at, snaps[i]);
      off := at + HEADER_SIZE + |snaps[i].info.id| + |snaps[i].info.name|;
      forall k | 0 <= k < i ensures StoredAt(disk', base + AlignOffset(TableBytes(snaps[..k])), snaps[k]) {
        EarlierFits(snaps, k, i);
        StoredKept(before, disk', base + AlignOffset(TableBytes(snaps[..k])), snaps[k], at);
      }
    }
    assert snaps[..|snaps|] == snaps;
  }

  lemma {:induction false} EmptyBytes()
    ensures TableBytes([]) == 0
  {
  }

  lemma {:induction false} EarlierFits(snaps: seq<Snap>, k: nat, i: nat)
    requires k < i < |snaps|
    ensures AlignOffset(TableBytes(snaps[..k])) + HEADER_SIZE + |snaps[k].info.id| + |snaps[k].info.name| <= AlignOffset(TableBytes(snaps[..i]))
  {
    TableBytesMono(snaps[..i], k);
    assert snaps[..i][..k] == snaps[..k] && snaps[..i][..k + 1] == snaps[..k + 1];
  }

  datatype Parsed = Parsed(sn: Snap, next: nat) | Failed

  /** Reads one snapshot; a read past the end of the file fails. Extra data is skipped. */
  function ParseOne(disk: seq<Byte>, a: nat): Parsed
  {
    if a + HEADER_SIZE > |disk| then Failed
    else
      var h := ParseHeader(disk[a..a + HEADER_SIZE]);
      var idAt := a + HEADER_SIZE + h.extra;
      var nameAt := idAt + h.idSize;
      if nameAt + h.nameSize > |disk| then Failed
      else
        var info := SnapInfo(FromStr(disk[idAt..nameAt]), FromStr(disk[nameAt..nameAt + h.nameSize]), h.vmStateSize, h.dateSec, h.dateNsec, h.vmClockNsec);
        Parsed(Snap(info, h.l1Off, h.l1Size), nameAt + h.nameSize)
  }

  lemma {:induction false} ParseStored(disk: seq<Byte>, a: nat, sn: Snap)
    requires StoredAt(disk, a, sn)
    ensures ParseOne(disk, a) == Parsed(sn, a + HEADER_SIZE + |sn.info.id| + |sn.info.name|)
  {
    hide HeaderBytes, ParseHeader, Storable, StrBytes, FromStr;
    HeaderRoundTrip(sn);
    StoredStrings(sn);
  }

  lemma {:induction false} StoredStrings(sn: Snap)
    requires Storable(sn)
    ensures (forall k :: 0 <= k < |sn.info.id| ==> 0 < sn.info.id[k] as int < 256) && FromStr(StrBytes(sn.info.id)) == sn.info.id
    ensures (forall k :: 0 <= k < |sn.info.name| ==> 0 < sn.info.name[k] as int < 256) && FromStr(StrBytes(sn.info.name)) == sn.info.name
  {
    StrRoundTrip(sn.info.id);
    StrRoundTrip(sn.info.name);
  }

  /** Reads nb snapshots and the size of the table, or fails. */
  method ReadTable(disk: seq<Byte>, base: nat, nb: nat) returns (ok: bool, snaps: seq<Snap>, size: nat)
    ensures ok ==> |snaps| == nb
    ensures forall list: seq<Snap> :: base % 8 == 0 && |list| == nb && TableAt(disk, base, list) ==> ok && snaps == list && size == TableBytes(list)
  {
    hide ParseOne, StoredAt, TableBytes, AlignOffset;
    snaps, size := [], 0;
    var off := base;
    EmptyBytes();
    for i := 0 to nb
      invariant |snaps| == i && off >= base
      invariant forall list: seq<Snap> :: base % 8 == 0 && |list| == nb && TableAt(disk, base, list) ==> Prefix(list, snaps, base, off)
    {
      var p := ParseOne(disk, AlignOffset(off));
      ParseNext(disk, base, nb, off, snaps, p);
      if p.Failed? { return false, [], 0; }
      ParsedPast(disk, AlignOffset(off));
      snaps := snaps + [p.sn];
      off := p.next;
    }
    forall list: seq<Snap> | base % 8 == 0 && |list| == nb && TableAt(disk, base, list) ensures snaps == list && off - base == TableBytes(list) {
      assert Prefix(list, snaps, base, off);
      assert list[..nb] == list;
    }
    ok, size := true, off - base;
  }

  /** What was read so far is a prefix of list, and off is where that prefix ends. */
  ghost predicate Prefix(list: seq<Snap>, snaps: seq<Snap>, base: nat, off: nat)
  {
    |snaps| <= |list| && snaps == list[..|snaps|] && off == base + TableBytes(snaps)
  }

  lemma {:induction false} ParsedPast(disk: seq<Byte>, a: nat)
    requires ParseOne(disk, a).Parsed?
    ensures ParseOne(disk, a).next >= a
  {
  }

  lemma {:induction false} ParseNext(disk: seq<Byte>, base: nat, nb: nat, off: nat, snaps: seq<Snap>, p: Parsed)
    requires off >= base && |snaps| < nb && p == ParseOne(disk, AlignOffset(off))
    requires forall list: seq<Snap> :: base % 8 == 0 && |list| == nb && TableAt(disk, base, list) ==> Prefix(list, snaps, base, off)
    ensures forall list: seq<Snap> :: base % 8 == 0 && |list| == nb && TableAt(disk, base, list) ==> p.Parsed? && Prefix(list, snaps + [p.sn], base, p.next)
  {
    hide ParseOne, StoredAt, TableBytes, AlignOffset;
    forall list: seq<Snap> | base % 8 == 0 && |list| == nb && TableAt(disk, base, list) ensures p.Parsed? && Prefix(list, snaps + [p.sn], base, p.next) {
      var i := |snaps|;
      assert Prefix(list, snaps, base, off);
      AlignBase(base, TableBytes(snaps));
      assert StoredAt(disk, base + AlignOffset(TableBytes(list[..i])), list[i]);
      ParseStored(disk, AlignOffset(off), list[i]);
      TableBytesMono(list, i);
      assert list[..i + 1] == snaps + [list[i]];
    }
  }

  /** What was written is read back, with its size, whatever surrounds and pads it. */
  method TableRoundTrip(disk: seq<Byte>, base: nat, snaps: seq<Snap>) returns (ok: bool, list: seq<Snap>, size: nat)
    requires base % 8 == 0 && base + TableBytes(snaps) <= |disk|
    requires forall k :: 0 <= k < |snaps| ==> Storable(snaps[k])
    ensures ok && list == snaps && size == TableBytes(snaps)
  {
    hide TableBytes, Storable;
    var disk' := WriteTable(disk, base, snaps);
    ok, list, size := ReadTable(disk', base, |snaps|);
  }
}
