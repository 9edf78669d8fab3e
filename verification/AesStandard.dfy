/** The tables and steps against FIPS 197 itself: what the substitution is in GF(2^8), and the known
    answers of its appendices. */
module AesStandard {
  import opened Bytes
  import opened AesRound
  import opened Aes
  import opened AesKey
  import opened AesCbc

  // ---------------------------------------------------------------- the substitution

  function Term(x: Byte, y: Byte, bit: Byte): Byte
  {
    if y & bit != 0 then x else 0
  }

  function MulLow(x: Byte, y: Byte): Byte
  {
    Sum4(Term(x, y, 1), Term(Double(x), y, 2), Term(Double2(x), y, 4), Term(Double3(x), y, 8))
  }

  /** The product in GF(2^8), section 4.2 of FIPS 197: the doublings of x that the bits of y name. */
  function Mul(x: Byte, y: Byte): Byte
  {
    Add(MulLow(x, y), MulLow(Double(Double3(x)), y >> 4))
  }

  lemma {:induction false} TermAdd(a: Byte, b: Byte, y: Byte, bit: Byte)
    ensures Term(Add(a, b), y, bit) == Add(Term(a, y, bit), Term(b, y, bit))
    ensures Term(Double(a), y, bit) == Double(Term(a, y, bit))
    ensures Double(0) == 0
  {
  }

  lemma {:induction false} TermsAdd(a: Byte, b: Byte, y: Byte)
    ensures MulLow(Add(a, b), y) == Add(MulLow(a, y), MulLow(b, y))
  {
    hide Term, Add, Sum4, Double, Double2, Double3;
    DoublesLinear(a, b);
    TermAdd(a, b, y, 1);
    TermAdd(Double(a), Double(b), y, 2);
    TermAdd(Double2(a), Double2(b), y, 4);
    TermAdd(Double3(a), Double3(b), y, 8);
    AddPairs(Term(a, y, 1), Term(Double(a), y, 2), Term(Double2(a), y, 4), Term(Double3(a), y, 8),
             Term(b, y, 1), Term(Double(b), y, 2), Term(Double2(b), y, 4), Term(Double3(b), y, 8));
  }

  /** The product is linear in its first factor, */
  lemma {:induction false} MulAdd(a: Byte, b: Byte, y: Byte)
    ensures Mul(Add(a, b), y) == Add(Mul(a, y), Mul(b, y))
  {
    hide MulLow, Add, Double, Double3;
    TermsAdd(a, b, y);
    DoublesLinear(a, b);
    DoubleLinear(Double3(a), Double3(b));
    TermsAdd(Double(Double3(a)), Double(Double3(b)), y >> 4);
    AddSwap(MulLow(a, y), MulLow(b, y), MulLow(Double(Double3(a)), y >> 4), MulLow(Double(Double3(b)), y >> 4));
  }

  lemma {:induction false} TermsDouble(a: Byte, y: Byte)
    ensures MulLow(Double(a), y) == Double(MulLow(a, y))
  {
    hide Term, Add, Double;
    TermAdd(a, a, y, 1);
    TermAdd(Double(a), a, y, 2);
    TermAdd(Double2(a), a, y, 4);
    TermAdd(Double3(a), a, y, 8);
    DoubleLinear(Add(Add(Term(a, y, 1), Term(Double(a), y, 2)), Term(Double2(a), y, 4)), Term(Double3(a), y, 8));
    DoubleLinear(Add(Term(a, y, 1), Term(Double(a), y, 2)), Term(Double2(a), y, 4));
    DoubleLinear(Term(a, y, 1), Term(Double(a), y, 2));
  }

  /** and doubling a factor doubles it. */
  lemma {:induction false} MulDouble(a: Byte, y: Byte)
    ensures Mul(Double(a), y) == Double(Mul(a, y))
  {
    hide MulLow, Add, Double;
    TermsDouble(a, y);
    TermsDouble(Double(Double3(a)), y >> 4);
    DoubleLinear(MulLow(a, y), MulLow(Double(Double3(a)), y >> 4));
  }

  lemma {:induction false} UnitDoubles()
    ensures Double(0) == 0 && Double(1) == 2 && Double(2) == 4 && Double(4) == 8 && Double(8) == 0x10
    ensures Double(0x10) == 0x20 && Double(0x20) == 0x40 && Double(0x40) == 0x80
  {
  }

  lemma {:induction false} MulUnit(y: Byte)
    ensures Mul(0, y) == 0 && Mul(1, y) == y
  {
    hide Double;
    UnitDoubles();
  }

  lemma {:induction false} MulTerm(a: Byte, i: Byte, bit: Byte, y: Byte)
    ensures Mul(Term(a, i, bit), y) == Term(Mul(a, y), i, bit)
  {
    hide Mul;
    MulUnit(y);
  }

  lemma {:induction false} MulTerms(a: Byte, i: Byte, y: Byte)
    ensures Mul(MulLow(a, i), y) == MulLow(Mul(a, y), i)
  {
    hide Mul, Term, Add, Double;
    MulDouble(a, y);
    MulDouble(Double(a), y);
    MulDouble(Double2(a), y);
    MulTerm(a, i, 1, y);
    MulTerm(Double(a), i, 2, y);
    MulTerm(Double2(a), i, 4, y);
    MulTerm(Double3(a), i, 8, y);
    MulAdd(Add(Add(Term(a, i, 1), Term(Double(a), i, 2)), Term(Double2(a), i, 4)), Term(Double3(a), i, 8), y);
    MulAdd(Add(Term(a, i, 1), Term(Double(a), i, 2)), Term(Double2(a), i, 4), y);
    MulAdd(Term(a, i, 1), Term(Double(a), i, 2), y);
  }

  /** Factors can change places. */
  lemma {:induction false} MulMul(a: Byte, i: Byte, y: Byte)
    ensures Mul(Mul(a, i), y) == Mul(Mul(a, y), i)
  {
    assert Mul(a, i) == Add(MulLow(a, i), MulLow(Double(Double3(a)), i >> 4));
    assert Mul(Mul(a, y), i) == Add(MulLow(Mul(a, y), i), MulLow(Double(Double3(Mul(a, y))), i >> 4));
    hide Mul, MulLow, Add, Double;
    MulAdd(MulLow(a, i), MulLow(Double(Double3(a)), i >> 4), y);
    MulTerms(a, i, y);
    MulTerms(Double(Double3(a)), i >> 4, y);
    MulDouble(a, y);
    MulDouble(Double(a), y);
    MulDouble(Double2(a), y);
    MulDouble(Double3(a), y);
  }

  /** There is only one inverse. */
  lemma {:induction false} OneInverse(x: Byte, y: Byte, z: Byte)
    requires Mul(x, y) == 1 && Mul(x, z) == 1
    ensures y == z
  {
    hide Mul;
    MulMul(x, y, z);
    MulUnit(y);
    MulUnit(z);
  }

  /** The inverse of x, found by undoing the affine map on S(x). */
  function Inverted(x: Byte): Byte
  {
    var s := S(x);
    s.RotateLeft(1) ^ s.RotateLeft(3) ^ s.RotateLeft(6) ^ 0x05
  }

  lemma {:induction false} InverseA(x: Byte)
    requires 0 < x < 0x40
    ensures Mul(x, Inverted(x)) == 1
  {
  }

  lemma {:induction false} InverseB(x: Byte)
    requires 0x40 <= x < 0x80
    ensures Mul(x, Inverted(x)) == 1
  {
  }

  lemma {:induction false} InverseC(x: Byte)
    requires 0x80 <= x < 0xc0
    ensures Mul(x, Inverted(x)) == 1
  {
  }

  lemma {:induction false} InverseD(x: Byte)
    requires 0xc0 <= x < 0xe0
    ensures Mul(x, Inverted(x)) == 1
  {
  }

  lemma {:induction false} InverseE(x: Byte)
    requires 0xe0 <= x
    ensures Mul(x, Inverted(x)) == 1
  {
  }

  lemma {:induction false} AffineBack(s: Byte)
    ensures var y := s.RotateLeft(1) ^ s.RotateLeft(3) ^ s.RotateLeft(6) ^ 0x05;
            s == y ^ y.RotateLeft(1) ^ y.RotateLeft(2) ^ y.RotateLeft(3) ^ y.RotateLeft(4) ^ 0x63
  {
  }

  lemma {:induction false} SubstZero()
    ensures S(0) == 0x63 && Inverted(0) == 0
  {
  }

  /** Section 5.1.1 of FIPS 197: every byte but 0 has an inverse, and is replaced by an affine map of
      it; 0 counts as its own inverse. */
  lemma {:induction false} SubstIsAffine(x: Byte)
    ensures x != 0 ==> exists y: Byte :: Mul(x, y) == 1
    ensures forall y: Byte :: Mul(x, y) == 1 || (x == 0 && y == 0) ==>
              S(x) == y ^ y.RotateLeft(1) ^ y.RotateLeft(2) ^ y.RotateLeft(3) ^ y.RotateLeft(4) ^ 0x63
  {
    hide S, Mul;
    AffineBack(S(x));
    SubstZero();
    MulUnit(0);
    if 0 < x < 0x40 { InverseA(x); } else if 0x40 <= x < 0x80 { InverseB(x); } else if 0x80 <= x < 0xc0 { InverseC(x); } else if 0xc0 <= x < 0xe0 { InverseD(x); } else if x != 0 { InverseE(x); }
    forall y: Byte | Mul(x, y) == 1 || (x == 0 && y == 0) ensures y == Inverted(x) {
      hide Inverted;
      if x == 0 { MulUnit(y); } else { OneInverse(x, y, Inverted(x)); }
    }
  }

  // ---------------------------------------------------------------- key expansion

  /** The key of appendices A.1 and B. */
  const KEY: seq<Byte> := [0x2b, 0x7e, 0x15, 0x16, 0x28, 0xae, 0xd2, 0xa6, 0xab, 0xf7, 0x15, 0x88, 0x09, 0xcf, 0x4f, 0x3c]

  /** Round key i of appendix A.1. */
  function KeyAt(i: nat): Block
  {
    match i
    case 0 => Block(0x2b7e1516, 0x28aed2a6, 0xabf71588, 0x09cf4f3c)
    case 1 => Block(0xa0fafe17, 0x88542cb1, 0x23a33939, 0x2a6c7605)
    case 2 => Block(0xf2c295f2, 0x7a96b943, 0x5935807a, 0x7359f67f)
    case 3 => Block(0x3d80477d, 0x4716fe3e, 0x1e237e44, 0x6d7a883b)
    case 4 => Block(0xef44a541, 0xa8525b7f, 0xb671253b, 0xdb0bad00)
    case 5 => Block(0xd4d1c6f8, 0x7c839d87, 0xcaf2b8bc, 0x11f915bc)
    case 6 => Block(0x6d88a37a, 0x110b3efd, 0xdbf98641, 0xca0093fd)
    case 7 => Block(0x4e54f70e, 0x5f5fc9f3, 0x84a64fb2, 0x4ea6dc4f)
    case 8 => Block(0xead27321, 0xb58dbad2, 0x312bf560, 0x7f8d292f)
    case 9 => Block(0xac7766f3, 0x19fadc21, 0x28d12941, 0x575c006e)
    case _ => Block(0xd014f9a8, 0xc9ee2589, 0xe13f0cc8, 0xb6630ca6)
  }

  /** Round key i + 1 follows round key i so. */
  function Following(k: Block, i: nat): Block
    requires i < 10
  {
    var a := AddWord(k.w0, AddWord(Sub(RotWord(k.w3)), Rcon(i)));
    var b := AddWord(k.w1, a);
    var c := AddWord(k.w2, b);
    Block(a, b, c, AddWord(k.w3, c))
  }

  lemma {:induction false} NextKey(w: seq<Word>, i: nat)
    requires Expanded(w, 4, 44) && i < 10
    ensures Key(w, i + 1) == Following(Key(w, i), i)
  {
    hide AddWord, Sub, RotWord, Rcon;
    assert (4 * i + 4) % 4 == 0 && (4 * i + 5) % 4 == 1 && (4 * i + 6) % 4 == 2 && (4 * i + 7) % 4 == 3;
    assert (4 * i + 4) / 4 - 1 == i;
  }

  lemma {:induction false} FirstKey(w: seq<Word>)
    requires KeyWords(w, KEY, 4)
    ensures Key(w, 0) == KeyAt(0)
  {
  }

  /** Appendix A.1: the expansion of that key. */
  lemma {:induction false} KeyExpansion(w: seq<Word>, i: nat)
    requires Schedule(w, KEY, 128) && i <= 10
    ensures 4 * i + 4 <= |w| && Key(w, i) == KeyAt(i)
  {
    hide Key, KeyAt, Following, KeyWords, Expanded;
    ScheduleLength(w, KEY);
    if i == 0 {
      FirstKey(w);
    } else {
      KeyExpansion(w, i - 1);
      NextKey(w, i - 1);
      Round(i - 1);
    }
  }

  /** Its first expanded word and its last one. */
  lemma {:induction false} ScheduleExample(key: seq<Byte>, w: seq<Word>)
    requires key == [0x2b, 0x7e, 0x15, 0x16, 0x28, 0xae, 0xd2, 0xa6, 0xab, 0xf7, 0x15, 0x88, 0x09, 0xcf, 0x4f, 0x3c]
    requires Schedule(w, key, 128)
    ensures |w| >= 44 && w[4] == 0xa0fafe17 && w[43] == 0xb6630ca6
  {
    hide Schedule;
    KeyExpansion(w, 1);
    KeyExpansion(w, 10);
  }

  /** The state of appendix B at the start of round i + 1. */
  function StateAt(i: nat): Block
  {
    match i
    case 0 => Block(0x193de3be, 0xa0f4e22b, 0x9ac68d2a, 0xe9f84808)
    case 1 => Block(0xa49c7ff2, 0x689f352b, 0x6b5bea43, 0x026a5049)
    case 2 => Block(0xaa8f5f03, 0x61dde3ef, 0x82d24ad2, 0x6832469a)
    case 3 => Block(0x486c4eee, 0x671d9d0d, 0x4de3b138, 0xd65f58e7)
    case 4 => Block(0xe0927fe8, 0xc86363c0, 0xd9b13550, 0x85b8be01)
    case 5 => Block(0xf1006f55, 0xc1924cef, 0x7cc88b32, 0x5db5d50c)
    case 6 => Block(0x260e2e17, 0x3d41b77d, 0xe86472a9, 0xfdd28b25)
    case 7 => Block(0x5a4142b1, 0x1949dc1f, 0xa3e01965, 0x7a8c040c)
    case 8 => Block(0xea835cf0, 0x0445332d, 0x655d98ad, 0x8596b0c5)
    case _ => Block(0xeb40f21e, 0x592e3884, 0x8ba113e7, 0x1bc342d2)
  }

  /** The plaintext and the ciphertext of appendix B. */
  const PLAIN: seq<Byte> := [0x32, 0x43, 0xf6, 0xa8, 0x88, 0x5a, 0x30, 0x8d, 0x31, 0x31, 0x98, 0xa2, 0xe0, 0x37, 0x07, 0x34]
  const CIPHER: seq<Byte> := [0x39, 0x25, 0x84, 0x1d, 0x02, 0xdc, 0x09, 0xfb, 0xdc, 0x11, 0x85, 0x97, 0x19, 0x6a, 0x0b, 0x32]

  lemma {:induction false} FirstState(w: seq<Word>)
    requires |w| >= 4 && Key(w, 0) == KeyAt(0)
    ensures Enc(w, 0, BlockOf(PLAIN)) == StateAt(0)
  {
  }

  lemma {:induction false} States(w: seq<Word>, i: nat)
    requires Schedule(w, KEY, 128) && i <= 9
    ensures 4 * i + 4 <= |w| && Enc(w, i, BlockOf(PLAIN)) == StateAt(i)
  {
    hide Key, KeyAt, StateAt, Schedule, BlockOf, AddBlock, MixBlock, SubShift, Following;
    KeyExpansion(w, i);
    if i == 0 {
      FirstState(w);
    } else {
      States(w, i - 1);
      Round(i - 1);
    }
  }

  /** Appendix B: AES on a block, from the bytes of the key to the bytes of the ciphertext. */
  lemma {:induction false} CipherExample(key: seq<Byte>, plain: seq<Byte>, w: seq<Word>)
    requires key == [0x2b, 0x7e, 0x15, 0x16, 0x28, 0xae, 0xd2, 0xa6, 0xab, 0xf7, 0x15, 0x88, 0x09, 0xcf, 0x4f, 0x3c]
    requires plain == [0x32, 0x43, 0xf6, 0xa8, 0x88, 0x5a, 0x30, 0x8d, 0x31, 0x31, 0x98, 0xa2, 0xe0, 0x37, 0x07, 0x34]
    requires Schedule(w, key, 128)
    ensures GoodKey(w, 10)
    ensures AesE(w, 10)(plain) == [0x39, 0x25, 0x84, 0x1d, 0x02, 0xdc, 0x09, 0xfb, 0xdc, 0x11, 0x85, 0x97, 0x19, 0x6a, 0x0b, 0x32]
  {
    hide Key, KeyAt, StateAt, Schedule, BlockOf, AddBlock, SubShift, Enc, Following, BytesOf;
    States(w, 9);
    KeyExpansion(w, 10);
    Round(9);
    LastBytes();
  }

  lemma {:induction false} LastBytes()
    ensures BytesOf(Block(0x3925841d, 0x02dc09fb, 0xdc118597, 0x196a0b32)) == CIPHER
  {
  }

  // ---------------------------------------------------------------- longer keys

  lemma {:induction false} LongBytes()
    ensures S(0x2c) == 0x71 && S(0x52) == 0x00 && S(0x6b) == 0x7f && S(0x7b) == 0x21
    ensures S(0x09) == 0x01 && S(0x14) == 0xfa && S(0xdf) == 0x9e && S(0xf4) == 0xbf
  {
  }

  lemma {:induction false} LongerBytes()
    ensures S(0x20) == 0xb7 && S(0x67) == 0x85 && S(0xde) == 0x1d && S(0xfc) == 0xb0
  {
  }

  lemma {:induction false} NextWord(w: seq<Word>, nk: nat, n: nat, i: nat)
    requires 0 < nk <= i < n && Expanded(w, nk, n)
    ensures |w| >= n && (i % nk == 0 ==> 1 <= i / nk <= 10) && w[i] == AddWord(w[i - nk], Temp(w[i - 1], i, nk))
  {
    hide AddWord, Temp;
  }

  /** The first expanded word of appendix A.2, a key of 192 bits. */
  lemma {:induction false} KeyExpansion192(w: seq<Word>)
    requires Expanded(w, 6, 52) && w[..6] == [0x8e73b0f7, 0xda0e6452, 0xc810f32b, 0x809079e5, 0x62f8ead2, 0x522c6b7b]
    ensures w[6] == 0xfe0c91f7
  {
    hide Expanded, S;
    NextWord(w, 6, 52, 6);
    assert w[0] == w[..6][0] && w[5] == w[..6][5];
    LongBytes();
  }

  lemma {:induction false} LongerTemps(x: Word)
    ensures Temp(0x0914dff4, 8, 8) == 0xfb9ebf01 && Temp(0x2067fcde, 12, 8) == 0xb785b01d
    ensures Temp(x, 9, 8) == x && Temp(x, 10, 8) == x && Temp(x, 11, 8) == x
  {
    hide S;
    LongBytes();
    LongerBytes();
  }

  /** The first expanded words of appendix A.3, a key of 256 bits: words 8 and 12 are substituted, the
      latter without being turned. */
  lemma {:induction false} KeyExpansion256(w: seq<Word>)
    requires Expanded(w, 8, 60) && w[..8] == [0x603deb10, 0x15ca71be, 0x2b73aef0, 0x857d7781, 0x1f352c07, 0x3b6108d7, 0x2d9810a3, 0x0914dff4]
    ensures w[8] == 0x9ba35411 && w[11] == 0x2067fcde && w[12] == 0xa8b09c1a
  {
    hide Expanded, Temp;
    NextWord(w, 8, 60, 8);
    forall i | 0 <= i < 8 ensures w[i] == w[..8][i] {}
    NextWord(w, 8, 60, 9);
    NextWord(w, 8, 60, 10);
    NextWord(w, 8, 60, 11);
    NextWord(w, 8, 60, 12);
    LongerTemps(w[8]);
    LongerTemps(w[9]);
    LongerTemps(w[10]);
  }

  // ---------------------------------------------------------------- the rounds of the example

  lemma {:induction false} Round(i: nat)
    requires i < 10
    ensures Following(KeyAt(i), i) == KeyAt(i + 1)
    ensures i < 9 ==> AddBlock(MixBlock(SubShift(StateAt(i))), KeyAt(i + 1)) == StateAt(i + 1)
    ensures i == 9 ==> AddBlock(SubShift(StateAt(i)), KeyAt(i + 1)) == Block(0x3925841d, 0x02dc09fb, 0xdc118597, 0x196a0b32)
  {
    hide *;
    if i < 3 { FirstRounds(i); } else if i < 6 { MiddleRounds(i); } else if i < 8 { LateRounds(i); } else { LastRounds(i); }
  }

  lemma {:induction false} Bytes0A()
    ensures S(0x08) == 0x30 && S(0x09) == 0x01 && S(0x19) == 0xd4 && S(0x2a) == 0xe5 && S(0x2b) == 0xf1 && S(0x3c) == 0xeb && S(0x3d) == 0x27
  {
  }

  lemma {:induction false} Bytes0B()
    ensures S(0x48) == 0x52 && S(0x4f) == 0x84 && S(0x8d) == 0x5d && S(0x9a) == 0xb8 && S(0xa0) == 0xe0 && S(0xbe) == 0xae && S(0xc6) == 0xb4
  {
  }

  lemma {:induction false} Bytes0C()
    ensures S(0xcf) == 0x8a && S(0xe2) == 0x98 && S(0xe3) == 0x11 && S(0xe9) == 0x1e && S(0xf4) == 0xbf && S(0xf8) == 0x41
  {
  }

  lemma {:induction false} Bytes1A()
    ensures S(0x02) == 0x77 && S(0x05) == 0x6b && S(0x2a) == 0xe5 && S(0x2b) == 0xf1 && S(0x35) == 0x96 && S(0x43) == 0x1a && S(0x49) == 0x3b
  {
  }

  lemma {:induction false} Bytes1B()
    ensures S(0x50) == 0x53 && S(0x5b) == 0x39 && S(0x68) == 0x45 && S(0x6a) == 0x02 && S(0x6b) == 0x7f && S(0x6c) == 0x50 && S(0x76) == 0x38
  {
  }

  lemma {:induction false} Bytes1C()
    ensures S(0x7f) == 0xd2 && S(0x9c) == 0xde && S(0x9f) == 0xdb && S(0xa4) == 0x49 && S(0xea) == 0x87 && S(0xf2) == 0x89
  {
  }

  lemma {:induction false} Bytes2A()
    ensures S(0x03) == 0x7b && S(0x32) == 0x23 && S(0x46) == 0x5a && S(0x4a) == 0xd6 && S(0x59) == 0xcb && S(0x5f) == 0xcf && S(0x61) == 0xef
  {
  }

  lemma {:induction false} Bytes2B()
    ensures S(0x68) == 0x45 && S(0x73) == 0x8f && S(0x7f) == 0xd2 && S(0x82) == 0x13 && S(0x8f) == 0x73 && S(0x9a) == 0xb8 && S(0xaa) == 0xac
  {
  }

  lemma {:induction false} Bytes2C()
    ensures S(0xd2) == 0xb5 && S(0xdd) == 0xc1 && S(0xe3) == 0x11 && S(0xef) == 0xdf && S(0xf6) == 0x42
  {
  }

  lemma {:induction false} Bytes3A()
    ensures S(0x0d) == 0xd7 && S(0x1d) == 0xa4 && S(0x38) == 0x07 && S(0x3b) == 0xe2 && S(0x48) == 0x52 && S(0x4d) == 0xe3 && S(0x4e) == 0x2f
  {
  }

  lemma {:induction false} Bytes3B()
    ensures S(0x58) == 0x6a && S(0x5f) == 0xcf && S(0x67) == 0x85 && S(0x6c) == 0x50 && S(0x6d) == 0x3c && S(0x7a) == 0xda && S(0x88) == 0xc4
  {
  }

  lemma {:induction false} Bytes3C()
    ensures S(0x9d) == 0x5e && S(0xb1) == 0xc8 && S(0xd6) == 0xf6 && S(0xe3) == 0x11 && S(0xe7) == 0x94 && S(0xee) == 0x28
  {
  }

  lemma {:induction false} Bytes4A()
    ensures S(0x00) == 0x63 && S(0x01) == 0x7c && S(0x0b) == 0x2b && S(0x35) == 0x96 && S(0x50) == 0x53 && S(0x63) == 0xfb && S(0x7f) == 0xd2
  {
  }

  lemma {:induction false} Bytes4B()
    ensures S(0x85) == 0x97 && S(0x92) == 0x4f && S(0xad) == 0x95 && S(0xb1) == 0xc8 && S(0xb8) == 0x6c && S(0xbe) == 0xae && S(0xc0) == 0xba
  {
  }

  lemma {:induction false} Bytes4C()
    ensures S(0xc8) == 0xe8 && S(0xd9) == 0x35 && S(0xdb) == 0xb9 && S(0xe0) == 0xe1 && S(0xe8) == 0x9b
  {
  }

  lemma {:induction false} Bytes5A()
    ensures S(0x00) == 0x63 && S(0x0c) == 0xfe && S(0x11) == 0x82 && S(0x15) == 0x59 && S(0x32) == 0x23 && S(0x4c) == 0x29 && S(0x55) == 0xfc
  {
  }

  lemma {:induction false} Bytes5B()
    ensures S(0x5d) == 0x4c && S(0x6f) == 0xa8 && S(0x7c) == 0x10 && S(0x8b) == 0x3d && S(0x92) == 0x4f && S(0xb5) == 0xd5 && S(0xbc) == 0x65
  {
  }

  lemma {:induction false} Bytes5C()
    ensures S(0xc1) == 0x78 && S(0xc8) == 0xe8 && S(0xd5) == 0x03 && S(0xef) == 0xdf && S(0xf1) == 0xa1 && S(0xf9) == 0x99
  {
  }

  lemma {:induction false} Bytes6A()
    ensures S(0x00) == 0x63 && S(0x0e) == 0xab && S(0x17) == 0xf0 && S(0x25) == 0x3f && S(0x26) == 0xf7 && S(0x2e) == 0x31 && S(0x3d) == 0x27
  {
  }

  lemma {:induction false} Bytes6B()
    ensures S(0x41) == 0x83 && S(0x64) == 0x43 && S(0x72) == 0x40 && S(0x7d) == 0xff && S(0x8b) == 0x3d && S(0x93) == 0xdc && S(0xa9) == 0xd3
  {
  }

  lemma {:induction false} Bytes6C()
    ensures S(0xb7) == 0xa9 && S(0xca) == 0x74 && S(0xd2) == 0xb5 && S(0xe8) == 0x9b && S(0xfd) == 0x54
  {
  }

  lemma {:induction false} Bytes7A()
    ensures S(0x04) == 0xf2 && S(0x0c) == 0xfe && S(0x19) == 0xd4 && S(0x1f) == 0xc0 && S(0x41) == 0x83 && S(0x42) == 0x2c && S(0x49) == 0x3b
  {
  }

  lemma {:induction false} Bytes7B()
    ensures S(0x4e) == 0x2f && S(0x4f) == 0x84 && S(0x5a) == 0xbe && S(0x65) == 0x4d && S(0x7a) == 0xda && S(0x8c) == 0x64 && S(0xa3) == 0x0a
  {
  }

  lemma {:induction false} Bytes7C()
    ensures S(0xa6) == 0x24 && S(0xb1) == 0xc8 && S(0xdc) == 0x86 && S(0xe0) == 0xe1
  {
  }

  lemma {:induction false} Bytes8A()
    ensures S(0x04) == 0xf2 && S(0x29) == 0xa5 && S(0x2d) == 0xd8 && S(0x2f) == 0x15 && S(0x33) == 0xc3 && S(0x45) == 0x6e && S(0x5c) == 0x4a
  {
  }

  lemma {:induction false} Bytes8B()
    ensures S(0x5d) == 0x4c && S(0x65) == 0x4d && S(0x7f) == 0xd2 && S(0x83) == 0xec && S(0x85) == 0x97 && S(0x8d) == 0x5d && S(0x96) == 0x90
  {
  }

  lemma {:induction false} Bytes8C()
    ensures S(0x98) == 0x46 && S(0xad) == 0x95 && S(0xb0) == 0xe7 && S(0xc5) == 0xa6 && S(0xea) == 0x87 && S(0xf0) == 0x8c
  {
  }

  lemma {:induction false} Bytes9A()
    ensures S(0x00) == 0x63 && S(0x13) == 0x7d && S(0x1b) == 0xaf && S(0x1e) == 0x72 && S(0x2e) == 0x31 && S(0x38) == 0x07 && S(0x40) == 0x09
  {
  }

  lemma {:induction false} Bytes9B()
    ensures S(0x42) == 0x2c && S(0x57) == 0x5b && S(0x59) == 0xcb && S(0x5c) == 0x4a && S(0x6e) == 0x9f && S(0x84) == 0x5f && S(0x8b) == 0x3d
  {
  }

  lemma {:induction false} Bytes9C()
    ensures S(0xa1) == 0x32 && S(0xc3) == 0x2e && S(0xd2) == 0xb5 && S(0xe7) == 0x94 && S(0xeb) == 0xe9 && S(0xf2) == 0x89
  {
  }

  lemma {:induction false} FirstRounds(i: nat)
    requires i <= 2
    ensures Following(KeyAt(i), i) == KeyAt(i + 1)
    ensures AddBlock(MixBlock(SubShift(StateAt(i))), KeyAt(i + 1)) == StateAt(i + 1)
  {
    hide S;
    match i
    case 0 =>
      Bytes0A();
      Bytes0B();
      Bytes0C();
      assert SubShift(StateAt(0)) == Block(0xd4bf5d30, 0xe0b452ae, 0xb84111f1, 0x1e2798e5);
    case 1 =>
      Bytes1A();
      Bytes1B();
      Bytes1C();
      assert SubShift(StateAt(1)) == Block(0x49db873b, 0x45395389, 0x7f02d2f1, 0x77de961a);
    case _ =>
      Bytes2A();
      Bytes2B();
      Bytes2C();
      assert SubShift(StateAt(2)) == Block(0xacc1d6b8, 0xefb55a7b, 0x1323cfdf, 0x457311b5);
  }

  lemma {:induction false} MiddleRounds(i: nat)
    requires 3 <= i <= 5
    ensures Following(KeyAt(i), i) == KeyAt(i + 1)
    ensures AddBlock(MixBlock(SubShift(StateAt(i))), KeyAt(i + 1)) == StateAt(i + 1)
  {
    hide S;
    match i
    case 3 =>
      Bytes3A();
      Bytes3B();
      Bytes3C();
      assert SubShift(StateAt(3)) == Block(0x52a4c894, 0x85116a28, 0xe3cf2fd7, 0xf6505e07);
    case 4 =>
      Bytes4A();
      Bytes4B();
      Bytes4C();
      assert SubShift(StateAt(4)) == Block(0xe1fb967c, 0xe8c8ae9b, 0x356cd2ba, 0x974ffb53);
    case _ =>
      Bytes5A();
      Bytes5B();
      Bytes5C();
      assert SubShift(StateAt(5)) == Block(0xa14f3dfe, 0x78e803fc, 0x10d5a8df, 0x4c632923);
  }

  lemma {:induction false} LateRounds(i: nat)
    requires 6 <= i <= 7
    ensures Following(KeyAt(i), i) == KeyAt(i + 1)
    ensures AddBlock(MixBlock(SubShift(StateAt(i))), KeyAt(i + 1)) == StateAt(i + 1)
  {
    hide S;
    match i
    case 6 =>
      Bytes6A();
      Bytes6B();
      Bytes6C();
      assert SubShift(StateAt(6)) == Block(0xf783403f, 0x27433df0, 0x9bb531ff, 0x54aba9d3);
    case _ =>
      Bytes7A();
      Bytes7B();
      Bytes7C();
      assert SubShift(StateAt(7)) == Block(0xbe3bd4fe, 0xd4e1f2c8, 0x0a642cc0, 0xda83864d);
  }

  lemma {:induction false} LastRounds(i: nat)
    requires 8 <= i <= 9
    ensures Following(KeyAt(i), i) == KeyAt(i + 1)
    ensures i < 9 ==> AddBlock(MixBlock(SubShift(StateAt(i))), KeyAt(i + 1)) == StateAt(i + 1)
    ensures i == 9 ==> AddBlock(SubShift(StateAt(i)), KeyAt(i + 1)) == Block(0x3925841d, 0x02dc09fb, 0xdc118597, 0x196a0b32)
  {
    hide S;
    match i
    case 8 =>
      Bytes8A();
      Bytes8B();
      Bytes8C();
      assert SubShift(StateAt(8)) == Block(0x876e46a6, 0xf24ce78c, 0x4d904ad8, 0x97ecc395);
    case _ =>
      Bytes9A();
      Bytes9B();
      Bytes9C();
      assert SubShift(StateAt(9)) == Block(0xe9317db5, 0xcb322c72, 0x3d2e895f, 0xaf090794);
  }
}
