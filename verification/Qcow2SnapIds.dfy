/** Looking up snapshots by id or name, and making a new id. */
module Qcow2SnapIds {
  import opened Qcow2Layout
  import opened Qcow2SnapTable

  predicate HasId(snaps: seq<Snap>, id: string)
  {
    exists k :: 0 <= k < |snaps| && snaps[k].info.id == id
  }

  predicate HasName(snaps: seq<Snap>, name: string)
  {
    exists k :: 0 <= k < |snaps| && snaps[k].info.name == name
  }

  /** Snapshot k is the one a lookup of `name` means: the first with that id, else the first with that name. */
  predicate Selected(snaps: seq<Snap>, name: string, k: nat)
  {
    && k < |snaps|
    && if HasId(snaps, name) then
         snaps[k].info.id == name && forall m :: 0 <= m < k ==> snaps[m].info.id != name
       else
         snaps[k].info.name == name && forall m :: 0 <= m < k ==> snaps[m].info.name != name
  }

  method FindSnapshotById(snaps: seq<Snap>, id: string) returns (k: int)
    ensures k < 0 <==> !HasId(snaps, id)
    ensures k >= 0 ==> k < |snaps| && snaps[k].info.id == id && forall m :: 0 <= m < k ==> snaps[m].info.id != id
  {
    for i := 0 to |snaps|
      invariant forall m :: 0 <= m < i ==> snaps[m].info.id != id
    {
      if snaps[i].info.id == id { return i; }
    }
    return -1;
  }

  method FindSnapshotByIdOrName(snaps: seq<Snap>, name: string) returns (k: int)
    ensures k < 0 <==> !HasId(snaps, name) && !HasName(snaps, name)
    ensures k >= 0 ==> Selected(snaps, name, k)
  {
    k := FindSnapshotById(snaps, name);
    if k >= 0 { return; }
    for i := 0 to |snaps|
      invariant forall m :: 0 <= m < i ==> snaps[m].info.name != name
    {
      if snaps[i].info.name == name { return i; }
    }
    return -1;
  }

  /** At most one snapshot is selected. */
  lemma {:induction false} SelectedOnce(snaps: seq<Snap>, name: string, k: nat, m: nat)
    requires Selected(snaps, name, k) && Selected(snaps, name, m)
    ensures k == m
  {
  }

  /** The first snapshot whose information matches. */
  function FirstMatch(snaps: seq<Snap>, fits: SnapInfo -> bool): (k: nat)
    ensures k <= |snaps| && (k < |snaps| ==> fits(snaps[k].info))
    ensures forall m :: 0 <= m < k ==> !fits(snaps[m].info)
  {
    if snaps == [] || fits(snaps[0].info) then 0 else 1 + FirstMatch(snaps[1..], fits)
  }

  function Pick(snaps: seq<Snap>, name: string): (k: nat)
    requires HasId(snaps, name) || HasName(snaps, name)
    ensures Selected(snaps, name, k)
  {
    if HasId(snaps, name) then
      assert exists k :: 0 <= k < |snaps| && snaps[k].info.id == name;
      FirstMatch(snaps, (i: SnapInfo) => i.id == name)
    else
      assert exists k :: 0 <= k < |snaps| && snaps[k].info.name == name;
      FirstMatch(snaps, (i: SnapInfo) => i.name == name)
  }

  predicate SameInfos(a: seq<Snap>, b: seq<Snap>)
  {
    |a| == |b| && forall k :: 0 <= k < |a| ==> a[k].info == b[k].info
  }

  /** Lookups and new ids depend on the listed information only. */
  lemma {:induction false} InfosDecide(a: seq<Snap>, b: seq<Snap>, name: string)
    requires SameInfos(a, b)
    ensures HasId(a, name) == HasId(b, name) && HasName(a, name) == HasName(b, name)
    ensures forall k: nat :: Selected(a, name, k) == Selected(b, name, k)
    ensures MaxId(a) == MaxId(b) && TableBytes(a) == TableBytes(b)
  {
    InfosDecideHas(a, b, name);
    if a != [] { InfosDecide(a[..|a| - 1], b[..|b| - 1], name); }
  }

  lemma {:induction false} InfosDecideHas(a: seq<Snap>, b: seq<Snap>, name: string)
    requires SameInfos(a, b)
    ensures HasId(a, name) == HasId(b, name) && HasName(a, name) == HasName(b, name)
    ensures forall k: nat :: Selected(a, name, k) == Selected(b, name, k)
  {
    if HasId(a, name) { var k :| 0 <= k < |a| && a[k].info.id == name; assert b[k].info.id == name; }
    if HasId(b, name) { var k :| 0 <= k < |b| && b[k].info.id == name; assert a[k].info.id == name; }
    if HasName(a, name) { var k :| 0 <= k < |a| && a[k].info.name == name; assert b[k].info.name == name; }
    if HasName(b, name) { var k :| 0 <= k < |b| && b[k].info.name == name; assert a[k].info.name == name; }
  }

  // ---------------------------------------------------------------- numeric ids

  predicate IsDigit(c: char)
  {
    '0' <= c <= '9'
  }

  predicate IsSpace(c: char)
  {
    c == ' ' || '\t' <= c <= '\r'
  }

  /** n continued by the digits at the front of s, in base 10. */
  function ReadDigits(n: nat, s: string): nat
    decreases |s|
  {
    if s == [] || !IsDigit(s[0]) then n else ReadDigits(10 * n + (s[0] - '0') as nat, s[1..])
  }

  const ULONG_END: nat := 0x1_0000_0000_0000_0000
  const UINT_END: nat := 0x1_0000_0000
  const INT_MAX: nat := 0x7fff_ffff

  /** The number strtoul reads in base 10: spaces, a sign, digits; anything else reads as 0. A number
      that does not fit reads as the largest one, and a negative one is negated as unsigned. */
  function StrToUl(s: string): (n: nat)
    ensures n < ULONG_END
  {
    if s == [] then 0
    else if IsSpace(s[0]) then StrToUl(s[1..])
    else
      var m := ReadDigits(0, if s[0] == '-' || s[0] == '+' then s[1..] else s);
      if m >= ULONG_END then ULONG_END - 1
      else if s[0] == '-' && m > 0 then ULONG_END - m
      else m
  }

  /** The low 32 bits as a signed number. */
  function AsInt(n: nat): (i: int)
    ensures 0 - INT_MAX - 1 <= i <= INT_MAX
  {
    if n % UINT_END <= INT_MAX then n % UINT_END else n % UINT_END - UINT_END
  }

  /** The number of an id. */
  function ReadId(s: string): (i: int)
    ensures i <= INT_MAX
  {
    AsInt(StrToUl(s))
  }

  function Decimal(n: nat): (s: string)
    ensures s != []
    ensures forall k :: 0 <= k < |s| ==> IsDigit(s[k])
  {
    if n < 10 then [Digit(n)] else Decimal(n / 10) + [Digit(n % 10)]
  }

  function Digit(d: nat): (c: char)
    requires d < 10
    ensures IsDigit(c) && (c - '0') as nat == d
  {
    '0' + d as char
  }

  lemma {:induction false} ReadDigitsSnoc(n: nat, s: string, c: char)
    requires IsDigit(c) && forall k :: 0 <= k < |s| ==> IsDigit(s[k])
    ensures ReadDigits(n, s + [c]) == 10 * ReadDigits(n, s) + (c - '0') as nat
    decreases |s|
  {
    if s == [] {
      assert s + [c] == [c];
      assert ReadDigits(10 * n + (c - '0') as nat, []) == 10 * n + (c - '0') as nat;
    } else {
      assert (s + [c])[1..] == s[1..] + [c];
      ReadDigitsSnoc(10 * n + (s[0] - '0') as nat, s[1..], c);
    }
  }

  /** Reading back a printed number gives the number. */
  lemma {:induction false} ReadDecimal(n: nat)
    requires n <= INT_MAX
    ensures ReadId(Decimal(n)) == n
  {
    ReadPrinted(n);
    assert IsDigit(Decimal(n)[0]);
  }

  lemma {:induction false} ReadPrinted(n: nat)
    ensures ReadDigits(0, Decimal(n)) == n
  {
    if n < 10 {
      assert ReadDigits(n, []) == n;
    } else {
      ReadPrinted(n / 10);
      ReadDigitsSnoc(0, Decimal(n / 10), Digit(n % 10));
    }
  }

  /** The largest number among the ids, at least 0. */
  function MaxId(snaps: seq<Snap>): (n: nat)
    ensures n <= INT_MAX && forall k :: 0 <= k < |snaps| ==> ReadId(snaps[k].info.id) <= n
  {
    if snaps == [] then 0
    else
      var m, id := MaxId(snaps[..|snaps| - 1]), ReadId(snaps[|snaps| - 1].info.id);
      if id > m then id else m
  }

  const WRAPPED: string := "-2147483648"

  /** A signed 32-bit number plus one, printed; the largest one wraps around. */
  function PrintNext(n: nat): string
    requires n <= INT_MAX
  {
    if n < INT_MAX then Decimal(n + 1) else WRAPPED
  }

  /** The id given to a snapshot that has none. */
  function NewId(snaps: seq<Snap>): string
  {
    PrintNext(MaxId(snaps))
  }

  /** The new id is in use if and only if an id has reached the largest number and another one is what
      that number wraps around to. */
  lemma {:induction false} NewIdIsNew(snaps: seq<Snap>)
    ensures HasId(snaps, NewId(snaps)) <==> MaxId(snaps) == INT_MAX && HasId(snaps, WRAPPED)
  {
    if MaxId(snaps) < INT_MAX {
      ReadDecimal(MaxId(snaps) + 1);
      assert ReadId(NewId(snaps)) == MaxId(snaps) + 1;
    }
  }

  /** Some id reads as the largest number, if that is not 0. */
  lemma {:induction false} MaxIdReached(snaps: seq<Snap>)
    ensures MaxId(snaps) > 0 ==> exists k :: 0 <= k < |snaps| && ReadId(snaps[k].info.id) == MaxId(snaps)
  {
    if MaxId(snaps) > 0 {
      var n := |snaps| - 1;
      MaxIdReached(snaps[..n]);
      if ReadId(snaps[n].info.id) != MaxId(snaps) {
        var k :| 0 <= k < n && ReadId(snaps[..n][k].info.id) == MaxId(snaps[..n]);
        assert ReadId(snaps[k].info.id) == MaxId(snaps);
      }
    }
  }

  /** The new id reads as the largest number plus one, and as 1 if there is none; only the largest
      32-bit number wraps around. */
  lemma {:induction false} NewIdReads(snaps: seq<Snap>)
    ensures (exists k :: 0 <= k < |snaps| && ReadId(snaps[k].info.id) == 0x7fff_ffff) ==> NewId(snaps) == "-2147483648"
    ensures (forall k :: 0 <= k < |snaps| ==> ReadId(snaps[k].info.id) < 0x7fff_ffff) ==>
              && (forall k :: 0 <= k < |snaps| ==> ReadId(snaps[k].info.id) < ReadId(NewId(snaps)))
              && (ReadId(NewId(snaps)) == 1 || exists k :: 0 <= k < |snaps| && ReadId(snaps[k].info.id) == ReadId(NewId(snaps)) - 1)
  {
    hide ReadId, Decimal;
    MaxIdReached(snaps);
    if MaxId(snaps) < INT_MAX { ReadDecimal(MaxId(snaps) + 1); }
  }

  /** With these two snapshots the new id is that of the second one. */
  lemma {:induction false} NewIdTaken(a: Snap, b: Snap)
    requires a.info.id == Decimal(INT_MAX) && b.info.id == WRAPPED
    ensures HasId([a, b], NewId([a, b]))
  {
    ReadDecimal(INT_MAX);
    assert [a, b][0] == a && [a, b][1] == b;
    assert ReadId([a, b][0].info.id) <= MaxId([a, b]);
  }

  method FindNewSnapshotId(snaps: seq<Snap>) returns (id: string)
    ensures id == NewId(snaps) && (HasId(snaps, id) <==> MaxId(snaps) == INT_MAX && HasId(snaps, WRAPPED))
  {
    var idMax := 0;
    for i := 0 to |snaps|
      invariant idMax == MaxId(snaps[..i])
    {
      assert snaps[..i + 1][..i] == snaps[..i];
      var n := ReadId(snaps[i].info.id);
      if n > idMax { idMax := n; }
    }
    assert snaps[..|snaps|] == snaps;
    id := PrintNext(idMax);
    NewIdIsNew(snaps);
  }
}
