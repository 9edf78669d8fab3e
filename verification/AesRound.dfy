/** The cipher of FIPS 197 on one block: tables, rounds and their inverses. */
module AesRound {
  import opened Bytes

  // ---------------------------------------------------------------- substitution

  /** Byte x mod 16 of a row of sixteen. */
  function InRow(row: bv128, x: Byte): Byte
  {
    ((row >> (8 * (15 - (x & 0xf)))) & 0xff) as Byte
  }

  /** The byte repeated in Te4[x]. */
  function S(x: Byte): Byte
  {
    match x >> 4
    case 0 => InRow(0x637c777bf26b6fc53001672bfed7ab76, x)
    case 1 => InRow(0xca82c97dfa5947f0add4a2af9ca472c0, x)
    case 2 => InRow(0xb7fd9326363ff7cc34a5e5f171d83115, x)
    case 3 => InRow(0x04c723c31896059a071280e2eb27b275, x)
    case 4 => InRow(0x09832c1a1b6e5aa0523bd6b329e32f84, x)
    case 5 => InRow(0x53d100ed20fcb15b6acbbe394a4c58cf, x)
    case 6 => InRow(0xd0efaafb434d338545f9027f503c9fa8, x)
    case 7 => InRow(0x51a3408f929d38f5bcb6da2110fff3d2, x)
    case 8 => InRow(0xcd0c13ec5f974417c4a77e3d645d1973, x)
    case 9 => InRow(0x60814fdc222a908846eeb814de5e0bdb, x)
    case 10 => InRow(0xe0323a0a4906245cc2d3ac629195e479, x)
    case 11 => InRow(0xe7c8376d8dd54ea96c56f4ea657aae08, x)
    case 12 => InRow(0xba78252e1ca6b4c6e8dd741f4bbd8b8a, x)
    case 13 => InRow(0x703eb5664803f60e613557b986c11d9e, x)
    case 14 => InRow(0xe1f8981169d98e949b1e87e9ce5528df, x)
    case _ => InRow(0x8ca1890dbfe6426841992d0fb054bb16, x)
  }

  /** The byte repeated in Td4[x]. */
  function Si(x: Byte): Byte
  {
    match x >> 4
    case 0 => InRow(0x52096ad53036a538bf40a39e81f3d7fb, x)
    case 1 => InRow(0x7ce339829b2fff87348e4344c4dee9cb, x)
    case 2 => InRow(0x547b9432a6c2233dee4c950b42fac34e, x)
    case 3 => InRow(0x082ea16628d924b2765ba2496d8bd125, x)
    case 4 => InRow(0x72f8f66486689816d4a45ccc5d65b692, x)
    case 5 => InRow(0x6c704850fdedb9da5e154657a78d9d84, x)
    case 6 => InRow(0x90d8ab008cbcd30af7e45805b8b34506, x)
    case 7 => InRow(0xd02c1e8fca3f0f02c1afbd0301138a6b, x)
    case 8 => InRow(0x3a9111414f67dcea97f2cfcef0b4e673, x)
    case 9 => InRow(0x96ac7422e7ad3585e2f937e81c75df6e, x)
    case 10 => InRow(0x47f11a711d29c5896fb7620eaa18be1b, x)
    case 11 => InRow(0xfc563e4bc6d279209adbc0fe78cd5af4, x)
    case 12 => InRow(0x1fdda8338807c731b11210592780ec5f, x)
    case 13 => InRow(0x60517fa919b54a0d2de57a9f93c99cef, x)
    case 14 => InRow(0xa0e03b4dae2af5b0c8ebbb3c83539961, x)
    case _ => InRow(0x172b047eba77d626e169146355210c7d, x)
  }

  lemma {:induction false} SubstA(x: Byte)
    requires x < 0x40
    ensures Si(S(x)) == x
  {
  }

  lemma {:induction false} SubstB(x: Byte)
    requires 0x40 <= x < 0x80
    ensures Si(S(x)) == x
  {
  }

  lemma {:induction false} SubstC(x: Byte)
    requires 0x80 <= x < 0xc0
    ensures Si(S(x)) == x
  {
  }

  lemma {:induction false} SubstD(x: Byte)
    requires 0xc0 <= x
    ensures Si(S(x)) == x
  {
  }

  /** The second table undoes the first. */
  lemma {:induction false} SubstInverse(x: Byte)
    ensures Si(S(x)) == x
  {
    hide *;
    if x < 0x40 { SubstA(x); } else if x < 0x80 { SubstB(x); } else if x < 0xc0 { SubstC(x); } else { SubstD(x); }
  }

  // ---------------------------------------------------------------- arithmetic in GF(2^8)

  function Add(x: Byte, y: Byte): Byte
  {
    x ^ y
  }

  function Sum3(x: Byte, y: Byte, z: Byte): Byte
  {
    Add(Add(x, y), z)
  }

  function Sum4(x: Byte, y: Byte, z: Byte, t: Byte): Byte
  {
    Add(Add(Add(x, y), z), t)
  }

  function Double(x: Byte): Byte
  {
    Add(x << 1, (x >> 7) * 0x1b)
  }

  function Double2(x: Byte): Byte { Double(Double(x)) }
  function Double3(x: Byte): Byte { Double(Double2(x)) }

  function Mul3(x: Byte): Byte { Add(Double(x), x) }
  function Mul9(x: Byte): Byte { Add(Double3(x), x) }
  function MulB(x: Byte): Byte { Sum3(Double3(x), Double(x), x) }
  function MulD(x: Byte): Byte { Sum3(Double3(x), Double2(x), x) }
  function MulE(x: Byte): Byte { Sum3(Double3(x), Double2(x), Double(x)) }

  lemma {:induction false} DoubleLinear(x: Byte, y: Byte)
    ensures Double(Add(x, y)) == Add(Double(x), Double(y))
  {
  }

  lemma {:induction false} DoublesLinear(x: Byte, y: Byte)
    ensures Double(Add(x, y)) == Add(Double(x), Double(y))
    ensures Double2(Add(x, y)) == Add(Double2(x), Double2(y))
    ensures Double3(Add(x, y)) == Add(Double3(x), Double3(y))
  {
    hide Add, Double;
    DoubleLinear(x, y);
    DoubleLinear(Double(x), Double(y));
    DoubleLinear(Double2(x), Double2(y));
  }

  lemma {:induction false} AddAssoc(a: Byte, b: Byte, c: Byte)
    ensures Add(Add(a, b), c) == Add(a, Add(b, c))
  {
  }

  lemma {:induction false} AddComm(a: Byte, b: Byte)
    ensures Add(a, b) == Add(b, a)
  {
  }

  lemma {:induction false} AddSwap(a: Byte, a': Byte, b: Byte, b': Byte)
    ensures Add(Add(a, a'), Add(b, b')) == Add(Add(a, b), Add(a', b'))
  {
    hide Add;
    AddAssoc(a, a', Add(b, b'));
    AddAssoc(a', b, b');
    AddComm(a', b);
    AddAssoc(b, a', b');
    AddAssoc(a, b, Add(a', b'));
  }

  lemma {:induction false} AddPairs(a: Byte, b: Byte, c: Byte, d: Byte, a': Byte, b': Byte, c': Byte, d': Byte)
    ensures Add(Add(a, a'), Add(b, b')) == Add(Add(a, b), Add(a', b'))
    ensures Sum3(Add(a, a'), Add(b, b'), Add(c, c')) == Add(Sum3(a, b, c), Sum3(a', b', c'))
    ensures Sum4(Add(a, a'), Add(b, b'), Add(c, c'), Add(d, d')) == Add(Sum4(a, b, c, d), Sum4(a', b', c', d'))
  {
    hide Add;
    AddSwap(a, a', b, b');
    AddSwap(Add(a, b), Add(a', b'), c, c');
    AddSwap(Sum3(a, b, c), Sum3(a', b', c'), d, d');
  }

  lemma {:induction false} MulLinear(x: Byte, y: Byte)
    ensures Mul9(Add(x, y)) == Add(Mul9(x), Mul9(y)) && MulB(Add(x, y)) == Add(MulB(x), MulB(y))
    ensures MulD(Add(x, y)) == Add(MulD(x), MulD(y)) && MulE(Add(x, y)) == Add(MulE(x), MulE(y))
  {
    hide Add, Sum3, Sum4, Double, Double2, Double3;
    DoublesLinear(x, y);
    AddPairs(Double3(x), x, x, x, Double3(y), y, y, y);
    AddPairs(Double3(x), Double(x), x, x, Double3(y), Double(y), y, y);
    AddPairs(Double3(x), Double2(x), x, x, Double3(y), Double2(y), y, y);
    AddPairs(Double3(x), Double2(x), Double(x), x, Double3(y), Double2(y), Double(y), y);
  }

  /** Linearity over the four terms of a mixed byte. */
  lemma {:induction false} MulLinear4(p: Byte, q: Byte, r: Byte, t: Byte)
    ensures Mul9(Sum4(p, q, r, t)) == Sum4(Mul9(p), Mul9(q), Mul9(r), Mul9(t))
    ensures MulB(Sum4(p, q, r, t)) == Sum4(MulB(p), MulB(q), MulB(r), MulB(t))
    ensures MulD(Sum4(p, q, r, t)) == Sum4(MulD(p), MulD(q), MulD(r), MulD(t))
    ensures MulE(Sum4(p, q, r, t)) == Sum4(MulE(p), MulE(q), MulE(r), MulE(t))
  {
    hide Add, Mul9, MulB, MulD, MulE;
    MulLinear(Add(Add(p, q), r), t);
    MulLinear(Add(p, q), r);
    MulLinear(p, q);
  }

  /** The products that appear when the inverse column mix follows the column mix. */
  lemma {:induction false} MulSame(x: Byte)
    ensures Sum4(MulE(Double(x)), MulB(x), MulD(x), Mul9(Mul3(x))) == x
  {
  }

  lemma {:induction false} MulOther(x: Byte)
    ensures Sum4(MulE(Mul3(x)), MulB(Double(x)), MulD(x), Mul9(x)) == 0
    ensures Sum4(MulE(x), MulB(Mul3(x)), MulD(Double(x)), Mul9(x)) == 0
    ensures Sum4(MulE(x), MulB(x), MulD(Mul3(x)), Mul9(Double(x))) == 0
  {
  }

  lemma {:induction false} SumRotate(a: Byte, b: Byte, c: Byte, d: Byte)
    ensures Sum4(a, b, c, d) == Sum4(d, a, b, c)
  {
    hide Add;
    AddComm(Add(Add(a, b), c), d);
    AddAssoc(d, Add(a, b), c);
    AddAssoc(d, a, b);
  }

  lemma {:induction false} SumColumns(a: Byte, b: Byte, c: Byte, d: Byte, e: Byte, f: Byte, g: Byte, h: Byte,
                                      i: Byte, j: Byte, k: Byte, l: Byte, m: Byte, n: Byte, o: Byte, p: Byte)
    ensures Sum4(Sum4(a, b, c, d), Sum4(e, f, g, h), Sum4(i, j, k, l), Sum4(m, n, o, p)) ==
            Sum4(Sum4(a, e, i, m), Sum4(b, f, j, n), Sum4(c, g, k, o), Sum4(d, h, l, p))
  {
    hide Add;
    AddPairs(a, b, c, d, e, f, g, h);
    AddPairs(Add(a, e), Add(b, f), Add(c, g), Add(d, h), i, j, k, l);
    AddPairs(Add(Add(a, e), i), Add(Add(b, f), j), Add(Add(c, g), k), Add(Add(d, h), l), m, n, o, p);
  }

  /** The same with row r turned by r places. */
  lemma {:induction false} SumDiagonals(a: Byte, b: Byte, c: Byte, d: Byte, e: Byte, f: Byte, g: Byte, h: Byte,
                                        i: Byte, j: Byte, k: Byte, l: Byte, m: Byte, n: Byte, o: Byte, p: Byte)
    ensures Sum4(Sum4(a, b, c, d), Sum4(e, f, g, h), Sum4(i, j, k, l), Sum4(m, n, o, p)) ==
            Sum4(Sum4(a, h, k, n), Sum4(b, e, l, o), Sum4(c, f, i, p), Sum4(d, g, j, m))
  {
    hide Sum4;
    SumRotate(e, f, g, h);
    SumRotate(i, j, k, l);
    SumRotate(l, i, j, k);
    SumRotate(n, o, p, m);
    SumColumns(a, b, c, d, h, e, f, g, k, l, i, j, n, o, p, m);
  }

  lemma {:induction false} SumZero(a: Byte)
    ensures Sum4(a, 0, 0, 0) == a
  {
  }

  // ---------------------------------------------------------------- words as columns

  function Pack(a: Byte, b: Byte, c: Byte, d: Byte): Word
  {
    (a as Word << 24) ^ (b as Word << 16) ^ (c as Word << 8) ^ (d as Word)
  }

  function Byte3(w: Word): Byte { (w >> 24) as Byte }
  function Byte2(w: Word): Byte { ((w >> 16) & 0xff) as Byte }
  function Byte1(w: Word): Byte { ((w >> 8) & 0xff) as Byte }
  function Byte0(w: Word): Byte { (w & 0xff) as Byte }

  lemma {:induction false} PackBytes(a: Byte, b: Byte, c: Byte, d: Byte)
    ensures Byte3(Pack(a, b, c, d)) == a && Byte2(Pack(a, b, c, d)) == b && Byte1(Pack(a, b, c, d)) == c && Byte0(Pack(a, b, c, d)) == d
  {
  }

  lemma {:induction false} PackWord(w: Word)
    ensures Pack(Byte3(w), Byte2(w), Byte1(w), Byte0(w)) == w
  {
  }

  function AddWord(w: Word, k: Word): Word
  {
    w ^ k
  }

  lemma {:induction false} PackAdd(a: Byte, b: Byte, c: Byte, d: Byte, a': Byte, b': Byte, c': Byte, d': Byte)
    ensures AddWord(Pack(a, b, c, d), Pack(a', b', c', d')) == Pack(Add(a, a'), Add(b, b'), Add(c, c'), Add(d, d'))
  {
  }

  // ---------------------------------------------------------------- column mix

  function MixByte(a: Byte, b: Byte, c: Byte, d: Byte): Byte
  {
    Sum4(Double(a), Mul3(b), c, d)
  }

  function InvMixByte(a: Byte, b: Byte, c: Byte, d: Byte): Byte
  {
    Sum4(MulE(a), MulB(b), MulD(c), Mul9(d))
  }

  /** One row of the product of the two mixing matrices is a row of the unit matrix. */
  lemma {:induction false} MixByteInverse(a: Byte, b: Byte, c: Byte, d: Byte)
    ensures InvMixByte(MixByte(a, b, c, d), MixByte(b, c, d, a), MixByte(c, d, a, b), MixByte(d, a, b, c)) == a
  {
    hide Add, Sum4, Double, Mul3, Mul9, MulB, MulD, MulE;
    MulLinear4(Double(a), Mul3(b), c, d);
    MulLinear4(Double(b), Mul3(c), d, a);
    MulLinear4(Double(c), Mul3(d), a, b);
    MulLinear4(Double(d), Mul3(a), b, c);
    SumDiagonals(MulE(Double(a)), MulE(Mul3(b)), MulE(c), MulE(d), MulB(Double(b)), MulB(Mul3(c)), MulB(d), MulB(a),
                 MulD(Double(c)), MulD(Mul3(d)), MulD(a), MulD(b), Mul9(Double(d)), Mul9(Mul3(a)), Mul9(b), Mul9(c));
    MulSame(a);
    MulOther(b);
    MulOther(c);
    MulOther(d);
    SumZero(a);
  }

  /** The column mix of section 5.1.3 and its inverse of section 5.3.3 of FIPS 197. */
  function MixColumn(a: Byte, b: Byte, c: Byte, d: Byte): Word
  {
    Pack(MixByte(a, b, c, d), MixByte(b, c, d, a), MixByte(c, d, a, b), MixByte(d, a, b, c))
  }

  function InvMixColumn(a: Byte, b: Byte, c: Byte, d: Byte): Word
  {
    Pack(InvMixByte(a, b, c, d), InvMixByte(b, c, d, a), InvMixByte(c, d, a, b), InvMixByte(d, a, b, c))
  }

  function Mix(w: Word): Word
  {
    MixColumn(Byte3(w), Byte2(w), Byte1(w), Byte0(w))
  }

  function InvMix(w: Word): Word
  {
    InvMixColumn(Byte3(w), Byte2(w), Byte1(w), Byte0(w))
  }

  lemma {:induction false} MixInverse(w: Word)
    ensures InvMix(Mix(w)) == w
  {
    hide Pack, Byte0, Byte1, Byte2, Byte3, MixByte, InvMixByte;
    var a, b, c, d := Byte3(w), Byte2(w), Byte1(w), Byte0(w);
    PackBytes(MixByte(a, b, c, d), MixByte(b, c, d, a), MixByte(c, d, a, b), MixByte(d, a, b, c));
    MixByteInverse(a, b, c, d);
    MixByteInverse(b, c, d, a);
    MixByteInverse(c, d, a, b);
    MixByteInverse(d, a, b, c);
    PackWord(w);
  }

  lemma {:induction false} InvMixByteLinear(a: Byte, b: Byte, c: Byte, d: Byte, a': Byte, b': Byte, c': Byte, d': Byte)
    ensures InvMixByte(Add(a, a'), Add(b, b'), Add(c, c'), Add(d, d')) == Add(InvMixByte(a, b, c, d), InvMixByte(a', b', c', d'))
  {
    hide Add, Sum3, Sum4, Mul9, MulB, MulD, MulE;
    MulLinear(a, a');
    MulLinear(b, b');
    MulLinear(c, c');
    MulLinear(d, d');
    AddPairs(MulE(a), MulB(b), MulD(c), Mul9(d), MulE(a'), MulB(b'), MulD(c'), Mul9(d'));
  }

  lemma {:induction false} BytesAdd(w: Word, k: Word)
    ensures Byte3(AddWord(w, k)) == Add(Byte3(w), Byte3(k)) && Byte2(AddWord(w, k)) == Add(Byte2(w), Byte2(k))
    ensures Byte1(AddWord(w, k)) == Add(Byte1(w), Byte1(k)) && Byte0(AddWord(w, k)) == Add(Byte0(w), Byte0(k))
  {
    hide *;
    PackWord(w);
    PackWord(k);
    PackAdd(Byte3(w), Byte2(w), Byte1(w), Byte0(w), Byte3(k), Byte2(k), Byte1(k), Byte0(k));
    PackBytes(Add(Byte3(w), Byte3(k)), Add(Byte2(w), Byte2(k)), Add(Byte1(w), Byte1(k)), Add(Byte0(w), Byte0(k)));
  }

  lemma {:induction false} InvMixLinear(w: Word, k: Word)
    ensures InvMix(AddWord(w, k)) == AddWord(InvMix(w), InvMix(k))
  {
    hide Pack, Byte0, Byte1, Byte2, Byte3, InvMixByte, Add, AddWord;
    var a, b, c, d := Byte3(w), Byte2(w), Byte1(w), Byte0(w);
    var a', b', c', d' := Byte3(k), Byte2(k), Byte1(k), Byte0(k);
    BytesAdd(w, k);
    InvMixByteLinear(a, b, c, d, a', b', c', d');
    InvMixByteLinear(b, c, d, a, b', c', d', a');
    InvMixByteLinear(c, d, a, b, c', d', a', b');
    InvMixByteLinear(d, a, b, c, d', a', b', c');
    PackAdd(InvMixByte(a, b, c, d), InvMixByte(b, c, d, a), InvMixByte(c, d, a, b), InvMixByte(d, a, b, c),
            InvMixByte(a', b', c', d'), InvMixByte(b', c', d', a'), InvMixByte(c', d', a', b'), InvMixByte(d', a', b', c'));
  }

  lemma {:induction false} AddTwice(w: Word, k: Word)
    ensures AddWord(AddWord(w, k), k) == w
  {
  }

  // ---------------------------------------------------------------- the tables

  function Te0(x: Byte): Word { Pack(Double(S(x)), S(x), S(x), Mul3(S(x))) }
  function Te1(x: Byte): Word { Pack(Mul3(S(x)), Double(S(x)), S(x), S(x)) }
  function Te2(x: Byte): Word { Pack(S(x), Mul3(S(x)), Double(S(x)), S(x)) }
  function Te3(x: Byte): Word { Pack(S(x), S(x), Mul3(S(x)), Double(S(x))) }
  function Te4(x: Byte): Word { Pack(S(x), S(x), S(x), S(x)) }

  function Td0(x: Byte): Word { Pack(MulE(Si(x)), Mul9(Si(x)), MulD(Si(x)), MulB(Si(x))) }
  function Td1(x: Byte): Word { Pack(MulB(Si(x)), MulE(Si(x)), Mul9(Si(x)), MulD(Si(x))) }
  function Td2(x: Byte): Word { Pack(MulD(Si(x)), MulB(Si(x)), MulE(Si(x)), Mul9(Si(x))) }
  function Td3(x: Byte): Word { Pack(Mul9(Si(x)), MulD(Si(x)), MulB(Si(x)), MulE(Si(x))) }
  function Td4(x: Byte): Word { Pack(Si(x), Si(x), Si(x), Si(x)) }

  /** One output word of an encryption round before the key is added. */
  function TeWord(a: Word, b: Word, c: Word, d: Word): Word
  {
    AddWord(AddWord(AddWord(Te0(Byte3(a)), Te1(Byte2(b))), Te2(Byte1(c))), Te3(Byte0(d)))
  }

  function TdWord(a: Word, b: Word, c: Word, d: Word): Word
  {
    AddWord(AddWord(AddWord(Td0(Byte3(a)), Td1(Byte2(b))), Td2(Byte1(c))), Td3(Byte0(d)))
  }

  lemma {:induction false} PackSum(a: Byte, b: Byte, c: Byte, d: Byte, e: Byte, f: Byte, g: Byte, h: Byte,
                                   i: Byte, j: Byte, k: Byte, l: Byte, m: Byte, n: Byte, o: Byte, p: Byte)
    ensures AddWord(AddWord(AddWord(Pack(a, b, c, d), Pack(e, f, g, h)), Pack(i, j, k, l)), Pack(m, n, o, p)) ==
            Pack(Sum4(a, e, i, m), Sum4(b, f, j, n), Sum4(c, g, k, o), Sum4(d, h, l, p))
  {
    hide AddWord, Pack, Add;
    PackAdd(a, b, c, d, e, f, g, h);
    PackAdd(Add(a, e), Add(b, f), Add(c, g), Add(d, h), i, j, k, l);
    PackAdd(Add(Add(a, e), i), Add(Add(b, f), j), Add(Add(c, g), k), Add(Add(d, h), l), m, n, o, p);
  }

  /** The lookups of a round are substitution followed by the column mix. */
  lemma {:induction false} TeIsMix(a: Word, b: Word, c: Word, d: Word)
    ensures TeWord(a, b, c, d) == MixColumn(S(Byte3(a)), S(Byte2(b)), S(Byte1(c)), S(Byte0(d)))
  {
    hide AddWord, Pack, Sum4, Double, Mul3, S, Byte0, Byte1, Byte2, Byte3;
    var p, q, r, t := S(Byte3(a)), S(Byte2(b)), S(Byte1(c)), S(Byte0(d));
    PackSum(Double(p), p, p, Mul3(p), Mul3(q), Double(q), q, q, r, Mul3(r), Double(r), r, t, t, Mul3(t), Double(t));
    SumRotate(Double(q), Mul3(r), t, p);
    SumRotate(Double(r), Mul3(t), p, q);
    SumRotate(q, Double(r), Mul3(t), p);
    SumRotate(Mul3(p), q, r, Double(t));
  }

  lemma {:induction false} TdIsInvMix(a: Word, b: Word, c: Word, d: Word)
    ensures TdWord(a, b, c, d) == InvMixColumn(Si(Byte3(a)), Si(Byte2(b)), Si(Byte1(c)), Si(Byte0(d)))
  {
    hide AddWord, Pack, Sum4, Mul9, MulB, MulD, MulE, Si, Byte0, Byte1, Byte2, Byte3;
    var p, q, r, t := Si(Byte3(a)), Si(Byte2(b)), Si(Byte1(c)), Si(Byte0(d));
    PackSum(MulE(p), Mul9(p), MulD(p), MulB(p), MulB(q), MulE(q), Mul9(q), MulD(q), MulD(r), MulB(r), MulE(r), Mul9(r), Mul9(t), MulD(t), MulB(t), MulE(t));
    SumRotate(MulE(q), MulB(r), MulD(t), Mul9(p));
    SumRotate(MulE(r), MulB(t), MulD(p), Mul9(q));
    SumRotate(Mul9(q), MulE(r), MulB(t), MulD(p));
    SumRotate(MulB(p), MulD(q), Mul9(r), MulE(t));
  }

  /** Four bytes of a word taken from four words with masks. */
  function Masked(a: Word, b: Word, c: Word, d: Word): Word
  {
    (a & 0xff000000) ^ (b & 0x00ff0000) ^ (c & 0x0000ff00) ^ (d & 0x000000ff)
  }

  lemma {:induction false} MaskedPack(a: Byte, b: Byte, c: Byte, d: Byte)
    ensures Masked(Pack(a, a, a, a), Pack(b, b, b, b), Pack(c, c, c, c), Pack(d, d, d, d)) == Pack(a, b, c, d)
  {
  }
}
