/** The two key schedules, filled and reversed in place. */
module AesKey {
  import opened Bytes
  import opened AesRound
  import opened Aes

  const MAX_WORDS: nat := 60

  /** Round constants, one per use, in the top byte. */
  function Rcon(i: nat): Word
    requires i < 10
  {
    match i
    case 0 => 0x01000000
    case 1 => 0x02000000
    case 2 => 0x04000000
    case 3 => 0x08000000
    case 4 => 0x10000000
    case 5 => 0x20000000
    case 6 => 0x40000000
    case 7 => 0x80000000
    case 8 => 0x1b000000
    case _ => 0x36000000
  }

  /** The constants are the powers of 2 in GF(2^8), as section 5.2 of FIPS 197 defines them. */
  lemma {:induction false} RconPowers(i: nat)
    requires i < 10
    ensures Rcon(0) == Pack(1, 0, 0, 0)
    ensures i > 0 ==> Rcon(i) == Pack(Double(Byte3(Rcon(i - 1))), 0, 0, 0)
  {
  }

  function RotWord(w: Word): Word
  {
    Pack(Byte2(w), Byte1(w), Byte0(w), Byte3(w))
  }

  /** What is added to the word nk places back to make word i, by section 5.2 of FIPS 197. */
  function Temp(prev: Word, i: nat, nk: nat): Word
    requires nk > 0 && (i % nk == 0 ==> 1 <= i / nk <= 10)
  {
    if i % nk == 0 then AddWord(Sub(RotWord(prev)), Rcon(i / nk - 1))
    else if nk > 6 && i % nk == 4 then Sub(prev)
    else prev
  }

  function Sub(w: Word): Word
  {
    SubWord(w, w, w, w)
  }

  /** The first n words follow from the first nk ones. */
  predicate Expanded(w: seq<Word>, nk: nat, n: nat)
    requires nk > 0
  {
    n <= |w| && forall i :: nk <= i < n ==> (i % nk == 0 ==> 1 <= i / nk <= 10) && w[i] == AddWord(w[i - nk], Temp(w[i - 1], i, nk))
  }

  predicate KeyWords(w: seq<Word>, key: seq<Byte>, nk: nat)
  {
    nk <= |w| && 4 * nk <= |key| && forall i :: 0 <= i < nk ==> w[i] == Pack(key[4 * i], key[4 * i + 1], key[4 * i + 2], key[4 * i + 3])
  }

  /** The four masked lookups of the schedule: substitution of the rotated word. */
  function SubRot(t: Word): (w: Word)
    ensures w == Sub(RotWord(t))
  {
    PackBytes(Byte2(t), Byte1(t), Byte0(t), Byte3(t));
    MaskedPack(S(Byte2(t)), S(Byte1(t)), S(Byte0(t)), S(Byte3(t)));
    Masked(Te4(Byte2(t)), Te4(Byte1(t)), Te4(Byte0(t)), Te4(Byte3(t)))
  }

  lemma {:induction false} AddWordAssoc(a: Word, b: Word, c: Word)
    ensures AddWord(AddWord(a, b), c) == AddWord(a, AddWord(b, c))
  {
  }

  /** Stores the next word of the schedule. */
  method Put(rk: array<Word>, ghost nk: nat, n: nat, w: Word)
    requires nk > 0 && nk <= n < rk.Length && Expanded(rk[..], nk, n) && (n % nk == 0 ==> 1 <= n / nk <= 10)
    requires w == AddWord(rk[n - nk], Temp(rk[n - 1], n, nk))
    modifies rk
    ensures Expanded(rk[..], nk, n + 1)
    ensures forall j :: 0 <= j < rk.Length && j != n ==> rk[j] == old(rk[j])
  {
    hide AddWord, Temp;
    ghost var was := rk[..];
    rk[n] := w;
    assert rk[..] == was[n := w];
  }

  /** Stores k words that are each the word before plus the word nk places back. */
  method Chain(rk: array<Word>, nk: nat, n: nat, k: nat)
    requires 0 < nk <= n && n + k <= rk.Length && Expanded(rk[..], nk, n)
    requires forall j :: n <= j < n + k ==> j % nk != 0 && !(nk > 6 && j % nk == 4)
    modifies rk
    ensures Expanded(rk[..], nk, n + k)
    ensures forall j :: 0 <= j < n ==> rk[j] == old(rk[j])
  {
    hide AddWord, Rcon, Sub, RotWord, Expanded;
    for i := 0 to k
      invariant Expanded(rk[..], nk, n + i)
      invariant forall j :: 0 <= j < n ==> rk[j] == old(rk[j])
    {
      Put(rk, nk, n + i, AddWord(rk[n + i - nk], rk[n + i - 1]));
    }
  }

  method Expand128(rk: array<Word>)
    requires rk.Length >= 44
    modifies rk
    ensures Expanded(rk[..], 4, 44)
    ensures forall j :: 0 <= j < 4 ==> rk[j] == old(rk[j])
  {
    hide AddWord, Rcon, SubRot, Sub, RotWord, Expanded;
    var i, p := 0, 0;
    FirstWords(rk[..], 4);
    while true
      invariant 0 <= i < 10 && p == 4 * i
      invariant Expanded(rk[..], 4, p + 4)
      invariant forall j :: 0 <= j < 4 ==> rk[j] == old(rk[j])
      decreases 10 - i
    {
      AddWordAssoc(rk[p], SubRot(rk[p + 3]), Rcon(i));
      Put(rk, 4, p + 4, AddWord(AddWord(rk[p], SubRot(rk[p + 3])), Rcon(i)));
      Chain(rk, 4, p + 5, 3);
      i := i + 1;
      if i == 10 { return; }
      p := p + 4;
    }
  }

  method Expand192(rk: array<Word>)
    requires rk.Length >= 52
    modifies rk
    ensures Expanded(rk[..], 6, 52)
    ensures forall j :: 0 <= j < 6 ==> rk[j] == old(rk[j])
  {
    hide AddWord, Rcon, SubRot, Sub, RotWord, Expanded;
    var i, p := 0, 0;
    FirstWords(rk[..], 6);
    while true
      invariant 0 <= i < 8 && p == 6 * i
      invariant Expanded(rk[..], 6, p + 6)
      invariant forall j :: 0 <= j < 6 ==> rk[j] == old(rk[j])
      decreases 8 - i
    {
      AddWordAssoc(rk[p], SubRot(rk[p + 5]), Rcon(i));
      Put(rk, 6, p + 6, AddWord(AddWord(rk[p], SubRot(rk[p + 5])), Rcon(i)));
      Chain(rk, 6, p + 7, 3);
      i := i + 1;
      if i == 8 { return; }
      Chain(rk, 6, p + 10, 2);
      p := p + 6;
    }
  }

  method Expand256(rk: array<Word>)
    requires rk.Length >= 60
    modifies rk
    ensures Expanded(rk[..], 8, 60)
    ensures forall j :: 0 <= j < 8 ==> rk[j] == old(rk[j])
  {
    hide AddWord, Rcon, SubRot, RotWord, Expanded, Te4Word, SubWord;
    var i, p := 0, 0;
    FirstWords(rk[..], 8);
    while true
      invariant 0 <= i < 7 && p == 8 * i
      invariant Expanded(rk[..], 8, p + 8)
      invariant forall j :: 0 <= j < 8 ==> rk[j] == old(rk[j])
      decreases 7 - i
    {
      AddWordAssoc(rk[p], SubRot(rk[p + 7]), Rcon(i));
      Put(rk, 8, p + 8, AddWord(AddWord(rk[p], SubRot(rk[p + 7])), Rcon(i)));
      Chain(rk, 8, p + 9, 3);
      i := i + 1;
      if i == 7 { return; }
      var t := rk[p + 11];
      Put(rk, 8, p + 12, AddWord(rk[p + 4], Te4Word(t, t, t, t)));
      Chain(rk, 8, p + 13, 3);
      p := p + 8;
    }
  }

  lemma {:induction false} FirstWords(w: seq<Word>, nk: nat)
    requires 0 < nk <= |w|
    ensures Expanded(w, nk, nk)
  {
  }

  function Rounds(bits: int): nat
  {
    if bits == 128 then 10 else if bits == 192 then 12 else 14
  }

  /** rk is the schedule of section 5.2 of FIPS 197 for the key. */
  predicate Schedule(rk: seq<Word>, key: seq<Byte>, bits: int)
    requires bits == 128 || bits == 192 || bits == 256
  {
    KeyWords(rk, key, bits / 32) && Expanded(rk, bits / 32, 4 * Rounds(bits) + 4)
  }

  /** Fills the encryption schedule; the length of the key must be 128, 192 or 256 bits. */
  method SetEncryptKey(key: seq<Byte>, bits: int, rk: array<Word>) returns (status: int, rounds: nat)
    requires rk.Length == MAX_WORDS && bits <= 8 * |key|
    modifies rk
    ensures status == 0 <==> bits == 128 || bits == 192 || bits == 256
    ensures status != 0 ==> status == -2 && rk[..] == old(rk[..])
    ensures status == 0 ==> rounds == Rounds(bits) == bits / 32 + 6 && Schedule(rk[..], key, bits)
  {
    if bits != 128 && bits != 192 && bits != 256 { return -2, 0; }
    hide Pack, Expanded;
    status, rounds := 0, Rounds(bits);
    var nk := bits / 32;
    for i := 0 to nk
      invariant forall j :: 0 <= j < i ==> rk[j] == Pack(key[4 * j], key[4 * j + 1], key[4 * j + 2], key[4 * j + 3])
    {
      rk[i] := Pack(key[4 * i], key[4 * i + 1], key[4 * i + 2], key[4 * i + 3]);
    }
    if bits == 128 {
      Expand128(rk);
    } else if bits == 192 {
      Expand192(rk);
    } else {
      Expand256(rk);
    }
  }

  // ---------------------------------------------------------------- decryption schedule

  /** The inverse column mix through the tables: the lookups in Te4 cancel the substitution in Td0 to Td3. */
  function InvMixByTable(w: Word): Word
  {
    AddWord(AddWord(AddWord(Td0(Low(Te4(Byte3(w)))), Td1(Low(Te4(Byte2(w))))), Td2(Low(Te4(Byte1(w))))), Td3(Low(Te4(Byte0(w)))))
  }

  function Low(w: Word): Byte
  {
    (w & 0xff) as Byte
  }

  lemma {:induction false} LowTe4(x: Byte)
    ensures Low(Te4(x)) == S(x)
  {
    hide S;
  }

  lemma {:induction false} InvMixByTableIs(w: Word)
    ensures InvMixByTable(w) == InvMix(w)
  {
    hide AddWord, Td0, Td1, Td2, Td3, Te4, Low, S, Si, Byte0, Byte1, Byte2, Byte3, InvMixColumn, SubWord;
    LowTe4(Byte3(w));
    LowTe4(Byte2(w));
    LowTe4(Byte1(w));
    LowTe4(Byte0(w));
    var v := SubWord(w, w, w, w);
    SubWordBytes(w, w, w, w);
    TdIsInvMix(v, v, v, v);
    SubstInverse(Byte3(w));
    SubstInverse(Byte2(w));
    SubstInverse(Byte1(w));
    SubstInverse(Byte0(w));
  }

  /** Exchanges round keys a and b. */
  method SwapKeys(rk: array<Word>, a: nat, b: nat)
    requires a < b && 4 * b + 4 <= rk.Length
    modifies rk
    ensures Key(rk[..], a) == Key(old(rk[..]), b) && Key(rk[..], b) == Key(old(rk[..]), a)
    ensures forall x :: 0 <= x < rk.Length && !(4 * a <= x < 4 * a + 4) && !(4 * b <= x < 4 * b + 4) ==> rk[x] == old(rk[x])
  {
    var i, j := 4 * a, 4 * b;
    rk[i], rk[j] := rk[j], rk[i];
    rk[i + 1], rk[j + 1] := rk[j + 1], rk[i + 1];
    rk[i + 2], rk[j + 2] := rk[j + 2], rk[i + 2];
    rk[i + 3], rk[j + 3] := rk[j + 3], rk[i + 3];
  }

  method MixKey(rk: array<Word>, a: nat)
    requires 4 * a + 4 <= rk.Length
    modifies rk
    ensures Key(rk[..], a) == InvMixBlock(Key(old(rk[..]), a))
    ensures forall x :: 0 <= x < rk.Length && !(4 * a <= x < 4 * a + 4) ==> rk[x] == old(rk[x])
  {
    hide InvMix, InvMixByTable;
    var i := 4 * a;
    InvMixByTableIs(rk[i]);
    InvMixByTableIs(rk[i + 1]);
    InvMixByTableIs(rk[i + 2]);
    InvMixByTableIs(rk[i + 3]);
    rk[i] := InvMixByTable(rk[i]);
    rk[i + 1] := InvMixByTable(rk[i + 1]);
    rk[i + 2] := InvMixByTable(rk[i + 2]);
    rk[i + 3] := InvMixByTable(rk[i + 3]);
  }

  /** Round keys outside i .. j have changed places with their mirror images. */
  ghost predicate Mirrored(w: seq<Word>, w': seq<Word>, n: nat, i: int, j: int)
  {
    |w'| == |w| && 4 * n + 4 <= |w| && forall m :: 0 <= m <= n ==> Key(w', m) == Key(w, if m < i || m > j then n - m else m)
  }

  lemma {:induction false} MirrorStep(w: seq<Word>, w1: seq<Word>, w2: seq<Word>, n: nat, i: nat, j: nat)
    requires Mirrored(w, w1, n, i, j) && i < j && i + j == n && |w2| == |w1|
    requires Key(w2, i) == Key(w1, j) && Key(w2, j) == Key(w1, i)
    requires forall x :: 0 <= x < |w1| && !(4 * i <= x < 4 * i + 4) && !(4 * j <= x < 4 * j + 4) ==> w2[x] == w1[x]
    ensures Mirrored(w, w2, n, i + 1, j - 1)
  {
    forall m | 0 <= m <= n ensures Key(w2, m) == Key(w, if m < i + 1 || m > j - 1 then n - m else m) {
      if m != i && m != j { assert Key(w2, m) == Key(w1, m); }
    }
  }

  method ReverseKeys(rk: array<Word>, rounds: nat)
    requires 4 * rounds + 4 <= rk.Length
    modifies rk
    ensures forall m :: 0 <= m <= rounds ==> Key(rk[..], m) == Key(old(rk[..]), rounds - m)
  {
    hide Key;
    var i, j := 0, rounds;
    while i < j
      invariant 0 <= i <= j + 1 && i + j == rounds
      invariant Mirrored(old(rk[..]), rk[..], rounds, i, j)
    {
      ghost var w1 := rk[..];
      SwapKeys(rk, i, j);
      MirrorStep(old(rk[..]), w1, rk[..], rounds, i, j);
      i, j := i + 1, j - 1;
    }
  }

  ghost predicate MixedTo(w: seq<Word>, w': seq<Word>, n: nat, k: nat)
  {
    |w'| == |w| && 4 * n + 4 <= |w| && forall m :: 0 <= m <= n ==> Key(w', m) == if 1 <= m < k then InvMixBlock(Key(w, m)) else Key(w, m)
  }

  lemma {:induction false} MixStep(w: seq<Word>, w1: seq<Word>, w2: seq<Word>, n: nat, k: nat)
    requires MixedTo(w, w1, n, k) && 1 <= k < n && |w2| == |w1|
    requires Key(w2, k) == InvMixBlock(Key(w1, k))
    requires forall x :: 0 <= x < |w1| && !(4 * k <= x < 4 * k + 4) ==> w2[x] == w1[x]
    ensures MixedTo(w, w2, n, k + 1)
  {
    forall m | 0 <= m <= n ensures Key(w2, m) == if 1 <= m < k + 1 then InvMixBlock(Key(w, m)) else Key(w, m) {
      hide InvMixBlock;
      if m != k { assert Key(w2, m) == Key(w1, m); }
    }
  }

  method MixKeys(rk: array<Word>, rounds: nat)
    requires 4 * rounds + 4 <= rk.Length && rounds >= 1
    modifies rk
    ensures MixedTo(old(rk[..]), rk[..], rounds, rounds)
  {
    hide Key, InvMixBlock;
    for k := 1 to rounds
      invariant MixedTo(old(rk[..]), rk[..], rounds, k)
    {
      ghost var w1 := rk[..];
      MixKey(rk, k);
      MixStep(old(rk[..]), w1, rk[..], rounds, k);
    }
  }

  /** Turns an encryption schedule into the decryption schedule. */
  method InvertSchedule(rk: array<Word>, rounds: nat)
    requires 4 * rounds + 4 <= rk.Length && rounds >= 1
    modifies rk
    ensures InverseSchedule(old(rk[..]), rk[..], rounds)
  {
    hide Key, InvMixBlock;
    ReverseKeys(rk, rounds);
    ghost var w := rk[..];
    MixKeys(rk, rounds);
    forall i | 0 <= i <= rounds ensures Key(rk[..], i) == if i == 0 || i == rounds then Key(old(rk[..]), rounds - i) else InvMixBlock(Key(old(rk[..]), rounds - i)) {
      assert Key(w, i) == Key(old(rk[..]), rounds - i);
    }
  }

  /** Fills the decryption schedule of a key. */
  method SetDecryptKey(key: seq<Byte>, bits: int, rk: array<Word>) returns (status: int, rounds: nat)
    requires rk.Length == MAX_WORDS && bits <= 8 * |key|
    modifies rk
    ensures status == 0 <==> bits == 128 || bits == 192 || bits == 256
    ensures status != 0 ==> status == -2 && rk[..] == old(rk[..])
    ensures status == 0 ==> rounds == Rounds(bits) && exists ek :: Schedule(ek, key, bits) && InverseSchedule(ek, rk[..], rounds)
  {
    hide Schedule, InverseSchedule;
    status, rounds := SetEncryptKey(key, bits, rk);
    if status < 0 { return; }
    ghost var ek := rk[..];
    InvertSchedule(rk, rounds);
    assert Schedule(ek, key, bits) && InverseSchedule(ek, rk[..], rounds);
  }

  /** A key determines its schedule. */
  lemma {:induction false} ScheduleUnique(a: seq<Word>, b: seq<Word>, key: seq<Byte>, bits: int, i: nat)
    requires bits == 128 || bits == 192 || bits == 256
    requires Schedule(a, key, bits) && Schedule(b, key, bits) && i < 4 * Rounds(bits) + 4
    ensures a[i] == b[i]
  {
    hide AddWord, Temp, Pack;
    var nk := bits / 32;
    if i >= nk {
      ScheduleUnique(a, b, key, bits, i - nk);
      ScheduleUnique(a, b, key, bits, i - 1);
      assert a[i] == AddWord(a[i - nk], Temp(a[i - 1], i, nk));
      assert b[i] == AddWord(b[i - nk], Temp(b[i - 1], i, nk));
    } else {
      assert a[i] == Pack(key[4 * i], key[4 * i + 1], key[4 * i + 2], key[4 * i + 3]);
    }
  }
}
