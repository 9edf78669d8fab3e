/** AES on blocks: key schedules, encryption and decryption, and the inverse law. */
module Aes {
  import opened Bytes
  import opened AesRound

  datatype Block = Block(w0: Word, w1: Word, w2: Word, w3: Word)

  // ---------------------------------------------------------------- the steps of FIPS 197 on blocks

  function AddBlock(b: Block, k: Block): Block
  {
    Block(AddWord(b.w0, k.w0), AddWord(b.w1, k.w1), AddWord(b.w2, k.w2), AddWord(b.w3, k.w3))
  }

  /** Substitution and row shift. */
  function SubShift(b: Block): Block
  {
    Block(SubWord(b.w0, b.w1, b.w2, b.w3), SubWord(b.w1, b.w2, b.w3, b.w0), SubWord(b.w2, b.w3, b.w0, b.w1), SubWord(b.w3, b.w0, b.w1, b.w2))
  }

  function SubWord(a: Word, b: Word, c: Word, d: Word): Word
  {
    Pack(S(Byte3(a)), S(Byte2(b)), S(Byte1(c)), S(Byte0(d)))
  }

  function InvSubShift(b: Block): Block
  {
    Block(InvSubWord(b.w0, b.w3, b.w2, b.w1), InvSubWord(b.w1, b.w0, b.w3, b.w2), InvSubWord(b.w2, b.w1, b.w0, b.w3), InvSubWord(b.w3, b.w2, b.w1, b.w0))
  }

  function InvSubWord(a: Word, b: Word, c: Word, d: Word): Word
  {
    Pack(Si(Byte3(a)), Si(Byte2(b)), Si(Byte1(c)), Si(Byte0(d)))
  }

  function MixBlock(b: Block): Block
  {
    Block(Mix(b.w0), Mix(b.w1), Mix(b.w2), Mix(b.w3))
  }

  function InvMixBlock(b: Block): Block
  {
    Block(InvMix(b.w0), InvMix(b.w1), InvMix(b.w2), InvMix(b.w3))
  }

  lemma {:induction false} SubWordBytes(a: Word, b: Word, c: Word, d: Word)
    ensures Byte3(SubWord(a, b, c, d)) == S(Byte3(a)) && Byte2(SubWord(a, b, c, d)) == S(Byte2(b))
    ensures Byte1(SubWord(a, b, c, d)) == S(Byte1(c)) && Byte0(SubWord(a, b, c, d)) == S(Byte0(d))
  {
    hide Pack, S, Byte0, Byte1, Byte2, Byte3;
    PackBytes(S(Byte3(a)), S(Byte2(b)), S(Byte1(c)), S(Byte0(d)));
  }

  lemma {:induction false} SubstBytes(w: Word)
    ensures Pack(Si(S(Byte3(w))), Si(S(Byte2(w))), Si(S(Byte1(w))), Si(S(Byte0(w)))) == w
  {
    hide *;
    SubstInverse(Byte3(w));
    SubstInverse(Byte2(w));
    SubstInverse(Byte1(w));
    SubstInverse(Byte0(w));
    PackWord(w);
  }

  lemma {:induction false} SubShiftInverse(b: Block)
    ensures InvSubShift(SubShift(b)) == b
  {
    hide Pack, S, Si, SubWord, Byte0, Byte1, Byte2, Byte3;
    SubWordBytes(b.w0, b.w1, b.w2, b.w3);
    SubWordBytes(b.w1, b.w2, b.w3, b.w0);
    SubWordBytes(b.w2, b.w3, b.w0, b.w1);
    SubWordBytes(b.w3, b.w0, b.w1, b.w2);
    SubstBytes(b.w0);
    SubstBytes(b.w1);
    SubstBytes(b.w2);
    SubstBytes(b.w3);
  }

  lemma {:induction false} MixBlockInverse(b: Block)
    ensures InvMixBlock(MixBlock(b)) == b
  {
    hide Mix, InvMix;
    MixInverse(b.w0);
    MixInverse(b.w1);
    MixInverse(b.w2);
    MixInverse(b.w3);
  }

  lemma {:induction false} InvMixBlockLinear(b: Block, k: Block)
    ensures InvMixBlock(AddBlock(b, k)) == AddBlock(InvMixBlock(b), InvMixBlock(k))
  {
    hide InvMix, AddWord;
    InvMixLinear(b.w0, k.w0);
    InvMixLinear(b.w1, k.w1);
    InvMixLinear(b.w2, k.w2);
    InvMixLinear(b.w3, k.w3);
  }

  lemma {:induction false} AddBlockTwice(b: Block, k: Block)
    ensures AddBlock(AddBlock(b, k), k) == b
  {
    hide AddWord;
    AddTwice(b.w0, k.w0);
    AddTwice(b.w1, k.w1);
    AddTwice(b.w2, k.w2);
    AddTwice(b.w3, k.w3);
  }

  // ---------------------------------------------------------------- cipher and equivalent inverse cipher

  /** Round key i. */
  function Key(rk: seq<Word>, i: nat): Block
    requires 4 * i + 4 <= |rk|
  {
    Block(rk[4 * i], rk[4 * i + 1], rk[4 * i + 2], rk[4 * i + 3])
  }

  /** The state after round i of section 5.1 of FIPS 197. */
  function Enc(rk: seq<Word>, i: nat, b: Block): Block
    requires 4 * i + 4 <= |rk|
  {
    if i == 0 then AddBlock(b, Key(rk, 0)) else AddBlock(MixBlock(SubShift(Enc(rk, i - 1, b))), Key(rk, i))
  }

  function Encrypt(rk: seq<Word>, n: nat, b: Block): Block
    requires n >= 1 && 4 * n + 4 <= |rk|
  {
    AddBlock(SubShift(Enc(rk, n - 1, b)), Key(rk, n))
  }

  /** The state after round i of section 5.3.5 of FIPS 197. */
  function Dec(dk: seq<Word>, i: nat, b: Block): Block
    requires 4 * i + 4 <= |dk|
  {
    if i == 0 then AddBlock(b, Key(dk, 0)) else AddBlock(InvMixBlock(InvSubShift(Dec(dk, i - 1, b))), Key(dk, i))
  }

  function Decrypt(dk: seq<Word>, n: nat, b: Block): Block
    requires n >= 1 && 4 * n + 4 <= |dk|
  {
    AddBlock(InvSubShift(Dec(dk, n - 1, b)), Key(dk, n))
  }

  /** dk is the decryption schedule for rk: reversed, and the inner keys inverse-mixed. */
  predicate InverseSchedule(rk: seq<Word>, dk: seq<Word>, n: nat)
  {
    && 4 * n + 4 <= |rk| && 4 * n + 4 <= |dk|
    && forall i :: 0 <= i <= n ==> Key(dk, i) == if i == 0 || i == n then Key(rk, n - i) else InvMixBlock(Key(rk, n - i))
  }

  /** Decryption walks back through the states of encryption. */
  lemma {:induction false} Backwards(rk: seq<Word>, dk: seq<Word>, n: nat, b: Block, i: nat)
    requires InverseSchedule(rk, dk, n) && i < n
    ensures Dec(dk, i, Encrypt(rk, n, b)) == SubShift(Enc(rk, n - 1 - i, b))
  {
    hide SubShift, InvSubShift, MixBlock, InvMixBlock, AddBlock, Key;
    var c := Encrypt(rk, n, b);
    if i == 0 {
      assert Key(dk, 0) == Key(rk, n);
      AddBlockTwice(SubShift(Enc(rk, n - 1, b)), Key(rk, n));
    } else {
      Backwards(rk, dk, n, b, i - 1);
      var x, k := Enc(rk, n - 1 - i, b), Key(rk, n - i);
      assert Key(dk, i) == InvMixBlock(k);
      assert Enc(rk, n - i, b) == AddBlock(MixBlock(SubShift(x)), k);
      SubShiftInverse(Enc(rk, n - i, b));
      InvMixBlockLinear(MixBlock(SubShift(x)), k);
      MixBlockInverse(SubShift(x));
      AddBlockTwice(SubShift(x), InvMixBlock(k));
    }
  }

  /** The inverse law, for every key schedule and every number of rounds. */
  lemma {:induction false} DecryptEncrypt(rk: seq<Word>, dk: seq<Word>, n: nat, b: Block)
    requires n >= 1 && InverseSchedule(rk, dk, n)
    ensures Decrypt(dk, n, Encrypt(rk, n, b)) == b
  {
    hide SubShift, InvSubShift, MixBlock, InvMixBlock, AddBlock, Key;
    Backwards(rk, dk, n, b, n - 1);
    assert Key(dk, n) == Key(rk, 0);
    SubShiftInverse(Enc(rk, 0, b));
    AddBlockTwice(b, Key(rk, 0));
  }

  // ---------------------------------------------------------------- bytes

  function BlockOf(p: seq<Byte>): Block
    requires |p| == 16
  {
    Block(Pack(p[0], p[1], p[2], p[3]), Pack(p[4], p[5], p[6], p[7]), Pack(p[8], p[9], p[10], p[11]), Pack(p[12], p[13], p[14], p[15]))
  }

  function WordBytes(w: Word): (p: seq<Byte>)
    ensures |p| == 4
  {
    [Byte3(w), Byte2(w), Byte1(w), Byte0(w)]
  }

  function BytesOf(b: Block): (p: seq<Byte>)
    ensures |p| == 16
  {
    WordBytes(b.w0) + WordBytes(b.w1) + WordBytes(b.w2) + WordBytes(b.w3)
  }

  lemma {:induction false} BlockOfBytes(b: Block)
    ensures BlockOf(BytesOf(b)) == b
  {
    hide Pack, Byte0, Byte1, Byte2, Byte3;
    PackWord(b.w0);
    PackWord(b.w1);
    PackWord(b.w2);
    PackWord(b.w3);
  }

  lemma {:induction false} BytesOfBlock(p: seq<Byte>)
    requires |p| == 16
    ensures BytesOf(BlockOf(p)) == p
  {
    hide Pack, Byte0, Byte1, Byte2, Byte3;
    PackBytes(p[0], p[1], p[2], p[3]);
    PackBytes(p[4], p[5], p[6], p[7]);
    PackBytes(p[8], p[9], p[10], p[11]);
    PackBytes(p[12], p[13], p[14], p[15]);
  }

  // ---------------------------------------------------------------- rounds by table

  function TeRound(b: Block, k: Block): Block
  {
    Block(AddWord(TeWord(b.w0, b.w1, b.w2, b.w3), k.w0), AddWord(TeWord(b.w1, b.w2, b.w3, b.w0), k.w1),
          AddWord(TeWord(b.w2, b.w3, b.w0, b.w1), k.w2), AddWord(TeWord(b.w3, b.w0, b.w1, b.w2), k.w3))
  }

  function TdRound(b: Block, k: Block): Block
  {
    Block(AddWord(TdWord(b.w0, b.w3, b.w2, b.w1), k.w0), AddWord(TdWord(b.w1, b.w0, b.w3, b.w2), k.w1),
          AddWord(TdWord(b.w2, b.w1, b.w0, b.w3), k.w2), AddWord(TdWord(b.w3, b.w2, b.w1, b.w0), k.w3))
  }

  lemma {:induction false} TeIsMixSub(a: Word, b: Word, c: Word, d: Word)
    ensures TeWord(a, b, c, d) == Mix(SubWord(a, b, c, d))
  {
    hide TeWord, SubWord, S, MixColumn, Byte0, Byte1, Byte2, Byte3;
    TeIsMix(a, b, c, d);
    SubWordBytes(a, b, c, d);
  }

  lemma {:induction false} TdIsInvMixSub(a: Word, b: Word, c: Word, d: Word)
    ensures TdWord(a, b, c, d) == InvMix(InvSubWord(a, b, c, d))
  {
    hide TdWord, Si, InvMixColumn, Byte0, Byte1, Byte2, Byte3, Pack;
    TdIsInvMix(a, b, c, d);
    PackBytes(Si(Byte3(a)), Si(Byte2(b)), Si(Byte1(c)), Si(Byte0(d)));
  }

  lemma {:induction false} TeRoundIsRound(b: Block, k: Block)
    ensures TeRound(b, k) == AddBlock(MixBlock(SubShift(b)), k)
  {
    hide TeWord, SubWord, Mix, AddWord;
    TeIsMixSub(b.w0, b.w1, b.w2, b.w3);
    TeIsMixSub(b.w1, b.w2, b.w3, b.w0);
    TeIsMixSub(b.w2, b.w3, b.w0, b.w1);
    TeIsMixSub(b.w3, b.w0, b.w1, b.w2);
  }

  lemma {:induction false} TdRoundIsRound(b: Block, k: Block)
    ensures TdRound(b, k) == AddBlock(InvMixBlock(InvSubShift(b)), k)
  {
    hide TdWord, InvSubWord, InvMix, AddWord;
    TdIsInvMixSub(b.w0, b.w3, b.w2, b.w1);
    TdIsInvMixSub(b.w1, b.w0, b.w3, b.w2);
    TdIsInvMixSub(b.w2, b.w1, b.w0, b.w3);
    TdIsInvMixSub(b.w3, b.w2, b.w1, b.w0);
  }

  /** A word of the last round, by masks. */
  function Te4Word(a: Word, b: Word, c: Word, d: Word): (w: Word)
    ensures w == SubWord(a, b, c, d)
  {
    MaskedPack(S(Byte3(a)), S(Byte2(b)), S(Byte1(c)), S(Byte0(d)));
    Masked(Te4(Byte3(a)), Te4(Byte2(b)), Te4(Byte1(c)), Te4(Byte0(d)))
  }

  function Td4Word(a: Word, b: Word, c: Word, d: Word): (w: Word)
    ensures w == InvSubWord(a, b, c, d)
  {
    MaskedPack(Si(Byte3(a)), Si(Byte2(b)), Si(Byte1(c)), Si(Byte0(d)));
    Masked(Td4(Byte3(a)), Td4(Byte2(b)), Td4(Byte1(c)), Td4(Byte0(d)))
  }

  function TeLast(b: Block, k: Block): (r: Block)
    ensures r == AddBlock(SubShift(b), k)
  {
    Block(AddWord(Te4Word(b.w0, b.w1, b.w2, b.w3), k.w0), AddWord(Te4Word(b.w1, b.w2, b.w3, b.w0), k.w1),
          AddWord(Te4Word(b.w2, b.w3, b.w0, b.w1), k.w2), AddWord(Te4Word(b.w3, b.w0, b.w1, b.w2), k.w3))
  }

  function TdLast(b: Block, k: Block): (r: Block)
    ensures r == AddBlock(InvSubShift(b), k)
  {
    Block(AddWord(Td4Word(b.w0, b.w3, b.w2, b.w1), k.w0), AddWord(Td4Word(b.w1, b.w0, b.w3, b.w2), k.w1),
          AddWord(Td4Word(b.w2, b.w1, b.w0, b.w3), k.w2), AddWord(Td4Word(b.w3, b.w2, b.w1, b.w0), k.w3))
  }

  /** Encrypts one block, two rounds per turn of the loop. */
  method AesEncrypt(inp: seq<Byte>, rk: seq<Word>, rounds: nat) returns (out: seq<Byte>)
    requires |inp| == 16 && rounds >= 2 && rounds % 2 == 0 && 4 * rounds + 4 <= |rk|
    ensures out == BytesOf(Encrypt(rk, rounds, BlockOf(inp)))
  {
    hide TeRound, MixBlock, SubShift, AddBlock, TeLast, BytesOf, BlockOf, Key;
    var s := AddBlock(BlockOf(inp), Key(rk, 0));
    var t := s;
    var r, p := rounds / 2, 0;
    while true
      invariant 1 <= r && p == rounds - 2 * r
      invariant s == Enc(rk, p, BlockOf(inp))
      decreases r
    {
      TeRoundIsRound(s, Key(rk, p + 1));
      t := TeRound(s, Key(rk, p + 1));
      p := p + 2;
      r := r - 1;
      if r == 0 { break; }
      TeRoundIsRound(t, Key(rk, p));
      s := TeRound(t, Key(rk, p));
    }
    out := BytesOf(TeLast(t, Key(rk, p)));
  }

  method AesDecrypt(inp: seq<Byte>, dk: seq<Word>, rounds: nat) returns (out: seq<Byte>)
    requires |inp| == 16 && rounds >= 2 && rounds % 2 == 0 && 4 * rounds + 4 <= |dk|
    ensures out == BytesOf(Decrypt(dk, rounds, BlockOf(inp)))
  {
    hide TdRound, InvMixBlock, InvSubShift, AddBlock, TdLast, BytesOf, BlockOf, Key;
    var s := AddBlock(BlockOf(inp), Key(dk, 0));
    var t := s;
    var r, p := rounds / 2, 0;
    while true
      invariant 1 <= r && p == rounds - 2 * r
      invariant s == Dec(dk, p, BlockOf(inp))
      decreases r
    {
      TdRoundIsRound(s, Key(dk, p + 1));
      t := TdRound(s, Key(dk, p + 1));
      p := p + 2;
      r := r - 1;
      if r == 0 { break; }
      TdRoundIsRound(t, Key(dk, p));
      s := TdRound(t, Key(dk, p));
    }
    out := BytesOf(TdLast(t, Key(dk, p)));
  }
}
