/** AES in CBC mode on buffers, in place or from one buffer to another, and the encryption of sectors. */
module AesCbc {
  import opened Buffers
  import opened Bytes
  import opened Division
  import opened Aes
  import opened AesKey
  import opened Cbc

  predicate GoodKey(rk: seq<Word>, n: nat)
  {
    n >= 2 && n % 2 == 0 && 4 * n + 4 <= |rk|
  }

  /** AES as a function on 16 bytes. */
  function AesE(rk: seq<Word>, n: nat): Chunk -> Chunk
    requires GoodKey(rk, n)
  {
    (p: Chunk) => BytesOf(Encrypt(rk, n, BlockOf(p)))
  }

  function AesD(dk: seq<Word>, n: nat): Chunk -> Chunk
    requires GoodKey(dk, n)
  {
    (p: Chunk) => BytesOf(Decrypt(dk, n, BlockOf(p)))
  }

  lemma {:induction false} AesInverse(rk: seq<Word>, dk: seq<Word>, n: nat)
    requires GoodKey(rk, n) && GoodKey(dk, n) && InverseSchedule(rk, dk, n)
    ensures Inverse(AesE(rk, n), AesD(dk, n))
  {
    hide Encrypt, Decrypt, BytesOf, BlockOf, InverseSchedule;
    forall p: Chunk ensures AesD(dk, n)(AesE(rk, n)(p)) == p {
      BlockOfBytes(Encrypt(rk, n, BlockOf(p)));
      DecryptEncrypt(rk, dk, n, BlockOf(p));
      BytesOfBlock(p);
    }
  }

  // ---------------------------------------------------------------- buffers

  /** The k bytes at p, filled up with zeros, xored with the chaining value. */
  method MixIn(src: array<Byte>, p: nat, k: nat, iv: Chunk) returns (tmp: Chunk)
    requires k <= BLOCK && p + k <= src.Length
    ensures tmp == XorBytes(Pad(src[p..p + k]), iv)
  {
    var t: seq<Byte> := [];
    for n := 0 to k
      invariant |t| == n && forall i :: 0 <= i < n ==> t[i] == src[p + i] ^ iv[i]
    {
      t := t + [src[p + n] ^ iv[n]];
    }
    for n := k to BLOCK
      invariant |t| == n && forall i :: 0 <= i < n ==> t[i] == if i < k then src[p + i] ^ iv[i] else iv[i]
    {
      t := t + [iv[n]];
    }
    forall i | k <= i < BLOCK ensures iv[i] == 0 ^ iv[i] {}
    tmp := t;
    assert tmp == XorBytes(Pad(src[p..p + k]), iv);
  }

  method Copy(dst: array<Byte>, p: nat, c: seq<Byte>)
    requires p + |c| <= dst.Length
    modifies dst
    ensures Over(old(dst[..]), dst[..], p, c)
  {
    for n := 0 to |c|
      invariant forall i :: 0 <= i < dst.Length ==> dst[i] == if p <= i < p + n then c[i - p] else old(dst[i])
    {
      dst[p + n] := c[n];
    }
    OverAt(old(dst[..]), dst[..], p, c);
  }

  /** Encrypts length bytes at o; a short last block is filled up, so the output is whole blocks.
      src and dst may be the same buffer. */
  method CbcEncrypt(src: array<Byte>, dst: array<Byte>, o: nat, length: nat, rk: seq<Word>, n: nat, iv0: Chunk) returns (iv: Chunk)
    requires GoodKey(rk, n) && o + length <= src.Length && o + Padded(length) <= dst.Length
    modifies dst
    ensures Over(old(dst[..]), dst[..], o, CbcEnc(AesE(rk, n), iv0, old(src[o..o + length])))
    ensures iv == IvAfter(iv0, CbcEnc(AesE(rk, n), iv0, old(src[o..o + length])))
  {
    hide AesE, Padded, CbcEnc, IvAfter, Encrypting, Over, Ahead, GoodKey;
    ghost var data := src[o..o + length];
    ghost var done;
    var p, len, out;
    PaddedRoom(length);
    AheadStart(src[..], o, length);
    iv, p, len, done := EncryptBlocks(src, dst, o, length, rk, n, iv0, data);
    ghost var mid := dst[..];
    iv, out := EncryptTail(src, dst, o, p, rk, n, iv, iv0, data, done, len);
    OverThen(old(dst[..]), mid, dst[..], o, done, out);
  }

  /** The short last block, filled up. */
  method EncryptTail(src: array<Byte>, dst: array<Byte>, ghost o: nat, p: nat, rk: seq<Word>, n: nat, iv: Chunk,
                     ghost iv0: Chunk, ghost data: seq<Byte>, ghost done: seq<Byte>, len: nat) returns (iv': Chunk, out: seq<Byte>)
    requires GoodKey(rk, n) && o <= p && p + len == o + |data| && len < BLOCK && |done| == p - o && o + Padded(|data|) <= dst.Length
    requires Ahead(src[..], data, o, p) && Encrypting(AesE(rk, n), iv0, data, done, iv, data[p - o..])
    modifies dst
    ensures done + out == CbcEnc(AesE(rk, n), iv0, data) && iv' == IvAfter(iv0, done + out)
    ensures Over(old(dst[..]), dst[..], p, out)
  {
    hide AesE, Padded, CbcEnc, XorBytes, Pad, IvAfter, Encrypting, Over, Ahead, GoodKey;
    iv', out := iv, [];
    EncEnd(AesE(rk, n), iv0, data, done, iv, data[p - o..]);
    PaddedRoom(len);
    OverNothing(dst[..], p);
    if len > 0 {
      AheadGives(src[..], data, o, p, len);
      assert src[p..p + len] == src[..][p..p + len] && data[p - o..][..len] == data[p - o..];
      iv' := EncryptAt(src, p, len, rk, n, iv);
      out := iv';
      Copy(dst, p, out);
    }
  }

  lemma {:induction false} AheadStart(src: seq<Byte>, o: nat, k: nat)
    requires o + k <= |src|
    ensures Ahead(src, src[o..o + k], o, o)
  {
    hide *;
    AheadAll(src, o, k);
  }

  lemma {:induction false} AheadAll<T>(src: seq<T>, o: nat, k: nat)
    requires o + k <= |src|
    ensures Ahead(src, src[o..o + k], o, o)
  {
  }

  /** The whole blocks; less than one block is left. */
  /** The blocks of data up to p are encrypted over was, the rest is still in src. */
  ghost predicate EncryptedTo(e: Chunk -> Chunk, iv0: Chunk, src: seq<Byte>, data: seq<Byte>, was: seq<Byte>, now: seq<Byte>, o: nat, p: nat, done: seq<Byte>, iv: Chunk)
  {
    && |done| == p - o && Ahead(src, data, o, p) && Encrypting(e, iv0, data, done, iv, data[p - o..])
    && Over(was, now, o, done)
  }

  method EncryptBlocks(src: array<Byte>, dst: array<Byte>, o: nat, length: nat, rk: seq<Word>, n: nat, iv0: Chunk, ghost data: seq<Byte>)
    returns (iv: Chunk, p: nat, len: nat, ghost done: seq<Byte>)
    requires GoodKey(rk, n) && |data| == length && Ahead(src[..], data, o, o) && o + Padded(length) <= dst.Length
    modifies dst
    ensures len < BLOCK && o <= p && p + len == o + length
    ensures EncryptedTo(AesE(rk, n), iv0, src[..], data, old(dst[..]), dst[..], o, p, done, iv)
  {
    hide AesE, Padded, EncryptedTo, Ahead, GoodKey;
    done, len, p, iv := [], length, o, iv0;
    PaddedRoom(length);
    NoneEncrypted(AesE(rk, n), iv0, src[..], data, dst[..], o);
    while len >= BLOCK
      invariant o <= p && p + len == o + length
      invariant EncryptedTo(AesE(rk, n), iv0, src[..], data, old(dst[..]), dst[..], o, p, done, iv)
    {
      iv, done := EncryptBlock(src, dst, o, p, rk, n, iv, iv0, data, old(dst[..]), done);
      len := len - BLOCK;
      p := p + BLOCK;
    }
  }

  lemma {:induction false} NoneEncrypted(e: Chunk -> Chunk, iv0: Chunk, src: seq<Byte>, data: seq<Byte>, was: seq<Byte>, o: nat)
    requires Ahead(src, data, o, o) && o <= |was|
    ensures EncryptedTo(e, iv0, src, data, was, was, o, o, [], iv0)
  {
    hide CbcEnc, IvAfter, Over, Encrypting;
    EncStart(e, iv0, data);
    assert data[0..] == data;
    OverNothing(was, o);
  }

  method EncryptBlock(src: array<Byte>, dst: array<Byte>, ghost o: nat, p: nat, rk: seq<Word>, n: nat, iv: Chunk,
                      ghost iv0: Chunk, ghost data: seq<Byte>, ghost was: seq<Byte>, ghost done: seq<Byte>) returns (iv': Chunk, ghost done': seq<Byte>)
    requires GoodKey(rk, n) && o <= p && p + BLOCK <= o + |data| && p + BLOCK <= dst.Length
    requires EncryptedTo(AesE(rk, n), iv0, src[..], data, was, dst[..], o, p, done, iv)
    modifies dst
    ensures EncryptedTo(AesE(rk, n), iv0, src[..], data, was, dst[..], o, p + BLOCK, done', iv')
  {
    hide AesE, Padded, CbcEnc, XorBytes, Pad, IvAfter, Encrypting, Over, Ahead, GoodKey;
    ghost var rest, text, mid := data[p - o..], src[..], dst[..];
    AheadGives(text, data, o, p, BLOCK);
    assert src[p..p + BLOCK] == text[p..p + BLOCK];
    iv' := EncryptAt(src, p, BLOCK, rk, n, iv);
    EncStep(AesE(rk, n), iv0, data, done, iv, rest, iv');
    Copy(dst, p, iv');
    done' := done + iv';
    AheadOver(text, src[..], data, o, p, iv', BLOCK);
    assert rest[BLOCK..] == data[p + BLOCK - o..];
    OverThen(was, mid, dst[..], o, done, iv');
  }

  method EncryptAt(src: array<Byte>, p: nat, k: nat, rk: seq<Word>, n: nat, iv: Chunk) returns (c: Chunk)
    requires GoodKey(rk, n) && k <= BLOCK && p + k <= src.Length
    ensures c == AesE(rk, n)(XorBytes(Pad(src[p..p + k]), iv))
  {
    hide Encrypt, BytesOf, BlockOf, XorBytes, Pad;
    var tmp := MixIn(src, p, k, iv);
    c := AesEncrypt(tmp, rk, n);
  }

  /** The first part of data is encrypted as done; iv chains to the rest. */
  ghost predicate Encrypting(e: Chunk -> Chunk, iv0: Chunk, data: seq<Byte>, done: seq<Byte>, iv: Chunk, rest: seq<Byte>)
  {
    && |done| % BLOCK == 0 && |done| + |rest| == |data|
    && CbcEnc(e, iv0, data) == done + CbcEnc(e, iv, rest) && iv == IvAfter(iv0, done)
  }

  lemma {:induction false} PaddedRoom(len: nat)
    ensures Padded(len) >= len && (len >= BLOCK ==> Padded(len) == BLOCK + Padded(len - BLOCK))
    ensures 0 < len < BLOCK ==> Padded(len) == BLOCK
    ensures Padded(0) == 0
  {
  }

  lemma {:induction false} PaddedSplit(a: nat, len: nat)
    requires a % BLOCK == 0
    ensures Padded(a + len) == a + Padded(len)
  {
  }

  lemma {:induction false} EncStart(e: Chunk -> Chunk, iv: Chunk, data: seq<Byte>)
    ensures Encrypting(e, iv, data, [], iv, data)
  {
  }

  lemma {:induction false} EncStep(e: Chunk -> Chunk, iv0: Chunk, data: seq<Byte>, done: seq<Byte>, iv: Chunk, rest: seq<Byte>, c: Chunk)
    requires Encrypting(e, iv0, data, done, iv, rest) && |rest| >= BLOCK && c == e(XorBytes(Pad(rest[..BLOCK]), iv))
    ensures Encrypting(e, iv0, data, done + c, c, rest[BLOCK..])
  {
    hide CbcEnc, XorBytes;
    EncOne(e, iv, rest);
    assert Pad(rest[..BLOCK]) == rest[..BLOCK];
    LastChunk(iv0, done + c, c);
  }

  lemma {:induction false} EncEnd(e: Chunk -> Chunk, iv0: Chunk, data: seq<Byte>, done: seq<Byte>, iv: Chunk, rest: seq<Byte>)
    requires Encrypting(e, iv0, data, done, iv, rest) && |rest| < BLOCK
    ensures rest == [] ==> CbcEnc(e, iv0, data) == done && iv == IvAfter(iv0, done)
    ensures rest != [] ==> CbcEnc(e, iv0, data) == done + e(XorBytes(Pad(rest), iv)) && IvAfter(iv0, CbcEnc(e, iv0, data)) == e(XorBytes(Pad(rest), iv))
    ensures Padded(|data|) == |done| + Padded(|rest|)
  {
    PaddedSplit(|done|, |rest|);
    if rest != [] {
      var c := e(XorBytes(Pad(rest), iv));
      assert (done + c)[|done + c| - BLOCK..] == c;
    }
  }

  // ---------------------------------------------------------------- decryption

  /** The first part of ciphertext c is decrypted as done; iv chains to the rest, which stands for len bytes. */
  ghost predicate Decrypting(d: Chunk -> Chunk, iv0: Chunk, c: seq<Byte>, len0: nat, done: seq<Byte>, iv: Chunk, rest: seq<Byte>, len: nat)
  {
    && |done| % BLOCK == 0 && |done| + len == len0 && |c| == Padded(len0) && |rest| == Padded(len) && |done| + |rest| == |c|
    && CbcDec(d, iv0, c, len0) == done + CbcDec(d, iv, rest, len) && rest == c[|done|..] && iv == IvAfter(iv0, c[..|done|])
  }

  lemma {:induction false} DecStart(d: Chunk -> Chunk, iv: Chunk, c: seq<Byte>, len: nat)
    requires |c| == Padded(len)
    ensures Decrypting(d, iv, c, len, [], iv, c, len)
  {
  }

  lemma {:induction false} DecUnfold(d: Chunk -> Chunk, iv: Chunk, rest: seq<Byte>, len: nat)
    requires |rest| == Padded(len) && len >= BLOCK
    ensures |rest| >= BLOCK && |rest[BLOCK..]| == Padded(len - BLOCK)
    ensures CbcDec(d, iv, rest, len) == XorBytes(d(rest[..BLOCK]), iv) + CbcDec(d, rest[..BLOCK], rest[BLOCK..], len - BLOCK)
  {
    hide XorBytes;
    PaddedRoom(len);
  }

  lemma {:induction false} NextChunk(iv: Chunk, c: seq<Byte>, k: nat)
    requires k + BLOCK <= |c|
    ensures IvAfter(iv, c[..k + BLOCK]) == c[k..][..BLOCK] && c[k..][BLOCK..] == c[k + BLOCK..]
  {
    assert c[..k + BLOCK][k..] == c[k..][..BLOCK];
  }

  lemma {:induction false} DecStep(d: Chunk -> Chunk, iv0: Chunk, c: seq<Byte>, len0: nat, done: seq<Byte>, iv: Chunk, rest: seq<Byte>, len: nat)
    requires Decrypting(d, iv0, c, len0, done, iv, rest, len) && len >= BLOCK && |rest| >= BLOCK
    ensures Decrypting(d, iv0, c, len0, done + XorBytes(d(rest[..BLOCK]), iv), rest[..BLOCK], rest[BLOCK..], len - BLOCK)
  {
    hide CbcDec, IvAfter, Padded;
    DecUnfold(d, iv, rest, len);
    NextChunk(iv0, c, |done|);
  }

  lemma {:induction false} DecEnd(d: Chunk -> Chunk, iv0: Chunk, c: seq<Byte>, len0: nat, done: seq<Byte>, iv: Chunk, rest: seq<Byte>, len: nat)
    requires Decrypting(d, iv0, c, len0, done, iv, rest, len) && len < BLOCK
    ensures |c| == Padded(len0)
    ensures len == 0 ==> CbcDec(d, iv0, c, len0) == done && iv == IvAfter(iv0, c)
    ensures len != 0 ==> |rest| == BLOCK && CbcDec(d, iv0, c, len0) == done + XorBytes(d(rest), iv)[..len]
  {
    PaddedRoom(len);
    if len == 0 {
      assert c[..|done|] == c;
    } else {
      assert rest[..BLOCK] == rest;
    }
  }

  method XorInto(a: seq<Byte>, iv: Chunk, k: nat) returns (out: seq<Byte>)
    requires |a| == BLOCK && k <= BLOCK
    ensures out == XorBytes(a, iv)[..k]
  {
    out := [];
    for n := 0 to k
      invariant |out| == n && forall i :: 0 <= i < n ==> out[i] == a[i] ^ iv[i]
    {
      out := out + [a[n] ^ iv[n]];
    }
  }

  method DecryptAt(src: array<Byte>, p: nat, dk: seq<Word>, n: nat) returns (b: Chunk, out: Chunk)
    requires GoodKey(dk, n) && p + BLOCK <= src.Length
    ensures b == src[p..p + BLOCK] && out == AesD(dk, n)(b)
  {
    hide Decrypt, BytesOf, BlockOf;
    b := src[p..p + BLOCK];
    out := AesDecrypt(b, dk, n);
  }

  /** Decrypts length bytes at o from whole blocks of ciphertext. src and dst may be the same
      buffer. After a short last block the chaining value left behind is the decrypted block and
      not the ciphertext, so decryption cannot be continued from there. */
  method CbcDecrypt(src: array<Byte>, dst: array<Byte>, o: nat, length: nat, dk: seq<Word>, n: nat, iv0: Chunk) returns (iv: Chunk)
    requires GoodKey(dk, n) && o + Padded(length) <= src.Length && o + length <= dst.Length
    modifies dst
    ensures |old(src[o..o + Padded(length)])| == Padded(length)
    ensures Over(old(dst[..]), dst[..], o, CbcDec(AesD(dk, n), iv0, old(src[o..o + Padded(length)]), length))
    ensures length % BLOCK == 0 ==> iv == IvAfter(iv0, old(src[o..o + Padded(length)]))
    ensures length % BLOCK != 0 ==> iv == AesD(dk, n)(IvAfter(iv0, old(src[o..o + Padded(length)])))
  {
    hide AesD, Padded, CbcDec, XorBytes, IvAfter, Decrypting, Over, Ahead, GoodKey;
    PaddedRoom(length);
    ghost var c := src[o..o + Padded(length)];
    ghost var done;
    var p, len, out;
    AheadStart(src[..], o, Padded(length));
    iv, p, len, done := DecryptBlocks(src, dst, o, length, dk, n, iv0, c);
    ghost var mid := dst[..];
    iv, out := DecryptTail(src, dst, o, p, length, dk, n, iv, iv0, c, done, len);
    OverThen(old(dst[..]), mid, dst[..], o, done, out);
  }

  /** The whole blocks; less than one block is left. */
  method DecryptBlocks(src: array<Byte>, dst: array<Byte>, o: nat, length: nat, dk: seq<Word>, n: nat, iv0: Chunk, ghost c: seq<Byte>)
    returns (iv: Chunk, p: nat, len: nat, ghost done: seq<Byte>)
    requires GoodKey(dk, n) && |c| == Padded(length) && Ahead(src[..], c, o, o) && o + length <= dst.Length
    modifies dst
    ensures len < BLOCK && o <= p && p + len == o + length && |done| == p - o && length % BLOCK == len % BLOCK
    ensures |c| == p - o + Padded(len) && Ahead(src[..], c, o, p)
    ensures Decrypting(AesD(dk, n), iv0, c, length, done, iv, c[p - o..], len)
    ensures Over(old(dst[..]), dst[..], o, done)
  {
    hide AesD, Padded, CbcDec, XorBytes, IvAfter, Decrypting, Over, Ahead, GoodKey;
    done, len, p, iv := [], length, o, iv0;
    PaddedRoom(length);
    DecStart(AesD(dk, n), iv0, c, length);
    assert c[0..] == c;
    OverNothing(dst[..], o);
    while len >= BLOCK
      invariant o <= p && p + len == o + length && |done| == p - o && length % BLOCK == len % BLOCK
      invariant |c| == p - o + Padded(len) && Ahead(src[..], c, o, p)
      invariant Decrypting(AesD(dk, n), iv0, c, length, done, iv, c[p - o..], len)
      invariant Over(old(dst[..]), dst[..], o, done)
    {
      PaddedRoom(len);
      var out;
      ghost var mid, was := dst[..], done;
      iv, out, done := DecryptBlock(src, dst, o, p, length, dk, n, iv, iv0, c, done, len);
      OverThen(old(dst[..]), mid, dst[..], o, was, out);
      len := len - BLOCK;
      p := p + BLOCK;
    }
  }

  method DecryptTail(src: array<Byte>, dst: array<Byte>, ghost o: nat, p: nat, ghost length: nat, dk: seq<Word>, n: nat, iv: Chunk,
                     ghost iv0: Chunk, ghost c: seq<Byte>, ghost done: seq<Byte>, len: nat) returns (iv': Chunk, out: seq<Byte>)
    requires GoodKey(dk, n) && o <= p && p + len <= dst.Length && |done| == p - o && len < BLOCK
    requires |c| == p - o + Padded(len) && Ahead(src[..], c, o, p)
    requires Decrypting(AesD(dk, n), iv0, c, length, done, iv, c[p - o..], len)
    modifies dst
    ensures |c| == Padded(length) && |out| == len && done + out == CbcDec(AesD(dk, n), iv0, c, length)
    ensures Over(old(dst[..]), dst[..], p, out)
    ensures len == 0 ==> iv' == IvAfter(iv0, c)
    ensures len != 0 ==> iv' == AesD(dk, n)(IvAfter(iv0, c))
  {
    hide AesD, Padded, CbcDec, XorBytes, IvAfter, Over, Ahead, Decrypting, GoodKey;
    iv', out := iv, [];
    DecEnd(AesD(dk, n), iv0, c, length, done, iv, c[p - o..], len);
    PaddedRoom(len);
    OverNothing(dst[..], p);
    if len > 0 {
      AheadGives(src[..], c, o, p, BLOCK);
      assert src[p..p + BLOCK] == src[..][p..p + BLOCK] && c[p - o..][..BLOCK] == c[p - o..];
      var b, tmp := DecryptAt(src, p, dk, n);
      out := XorInto(tmp, iv, len);
      Copy(dst, p, out);
      iv' := tmp;
      LastChunk(iv0, c, b);
    }
  }

  lemma {:induction false} LastChunk(iv: Chunk, c: seq<Byte>, b: Chunk)
    requires |c| >= BLOCK && b == c[|c| - BLOCK..]
    ensures IvAfter(iv, c) == b
  {
  }

  method DecryptBlock(src: array<Byte>, dst: array<Byte>, ghost o: nat, p: nat, ghost length: nat, dk: seq<Word>, n: nat, iv: Chunk,
                      ghost iv0: Chunk, ghost c: seq<Byte>, ghost done: seq<Byte>, ghost len: nat) returns (iv': Chunk, out: seq<Byte>, ghost done': seq<Byte>)
    requires GoodKey(dk, n) && o <= p && p + BLOCK <= o + |c| && p + BLOCK <= dst.Length && |done| == p - o && len >= BLOCK
    requires Ahead(src[..], c, o, p) && Decrypting(AesD(dk, n), iv0, c, length, done, iv, c[p - o..], len)
    modifies dst
    ensures |out| == BLOCK && done' == done + out
    ensures Decrypting(AesD(dk, n), iv0, c, length, done', iv', c[p + BLOCK - o..], len - BLOCK)
    ensures Ahead(src[..], c, o, p + BLOCK) && Over(old(dst[..]), dst[..], p, out)
  {
    hide AesD, Padded, CbcDec, XorBytes, IvAfter, Decrypting, Over, Ahead, GoodKey;
    ghost var rest, was := c[p - o..], src[..];
    AheadGives(was, c, o, p, BLOCK);
    assert src[p..p + BLOCK] == was[p..p + BLOCK];
    var b, raw := DecryptAt(src, p, dk, n);
    out := XorInto(raw, iv, BLOCK);
    assert XorBytes(raw, iv)[..BLOCK] == XorBytes(raw, iv);
    DecStep(AesD(dk, n), iv0, c, length, done, iv, rest, len);
    Copy(dst, p, out);
    iv', done' := b, done + out;
    AheadOver(was, src[..], c, o, p, out, BLOCK);
    assert rest[BLOCK..] == c[p + BLOCK - o..];
  }

  // ---------------------------------------------------------------- sectors

  function LeByte(n: nat, k: nat): Byte
  {
    if k == 0 then (n % 256) as Byte else LeByte(n / 256, k - 1)
  }

  /** The low 64 bits of the sector number, least significant byte first, and eight zero bytes. */
  function SectorIv(num: nat): Chunk
  {
    seq(BLOCK, k requires 0 <= k < BLOCK => if k < 8 then LeByte(num, k) else 0)
  }

  lemma {:induction false} LeByteIs(n: nat)
    ensures LeByte(n, 0) as nat == n % 0x100 && forall k: nat :: k > 0 ==> LeByte(n, k) == LeByte(n / 0x100, k - 1)
  {
    ByteOf(n % 0x100);
  }

  lemma {:induction false} LeBytes(n: nat)
    ensures LeByte(n, 0) as nat == n % 0x100 && LeByte(n, 1) as nat == n / 0x100 % 0x100
    ensures LeByte(n, 2) as nat == n / 0x100 / 0x100 % 0x100 && LeByte(n, 3) as nat == n / 0x100 / 0x100 / 0x100 % 0x100
    ensures forall k: nat :: k >= 4 ==> LeByte(n, k) == LeByte(n / 0x100 / 0x100 / 0x100 / 0x100, k - 4)
  {
    hide LeByte;
    LeByteIs(n);
    LeByteIs(n / 0x100);
    LeByteIs(n / 0x100 / 0x100);
    LeByteIs(n / 0x100 / 0x100 / 0x100);
  }

  lemma {:induction false} FourBytes(n: nat, a: nat, b: nat, c: nat, d: nat)
    requires a == LeByte(n, 0) as nat && b == LeByte(n, 1) as nat && c == LeByte(n, 2) as nat && d == LeByte(n, 3) as nat
    ensures a + 0x100 * b + 0x10000 * c + 0x1000000 * d == n % 0x100000000
    ensures n / 0x100 / 0x100 / 0x100 / 0x100 == n / 0x100000000
  {
    hide LeByte;
    LeBytes(n);
    Digits4(n);
  }

  /** The first eight bytes put together, least significant first, are the sector number modulo 2^64;
      the others are zero. */
  lemma {:induction false} SectorIvNumber(num: nat)
    ensures var iv := SectorIv(num);
            iv[0] as nat + 0x100 * iv[1] as nat + 0x10000 * iv[2] as nat + 0x1000000 * iv[3] as nat + 0x100000000 * iv[4] as nat
            + 0x10000000000 * iv[5] as nat + 0x1000000000000 * iv[6] as nat + 0x100000000000000 * iv[7] as nat == num % 0x10000000000000000
    ensures forall k :: 8 <= k < 16 ==> SectorIv(num)[k] == 0
  {
    hide LeByte;
    var iv, high := SectorIv(num), num / 0x100000000;
    LeBytes(num);
    FourBytes(num, iv[0] as nat, iv[1] as nat, iv[2] as nat, iv[3] as nat);
    FourBytes(high, iv[4] as nat, iv[5] as nat, iv[6] as nat, iv[7] as nat);
    Halves(num);
  }

  lemma {:induction false} XorBack(p: Chunk, a: Chunk)
    ensures XorBytes(p, XorBytes(p, a)) == a
  {
    forall i | 0 <= i < BLOCK ensures p[i] ^ (p[i] ^ a[i]) == a[i] {}
  }

  /** Four bytes as a number. */
  ghost function Quad(a: Byte, b: Byte, c: Byte, d: Byte): nat
  {
    a as nat + 0x100 * b as nat + 0x10000 * c as nat + 0x1000000 * d as nat
  }

  lemma {:induction false} QuadIs(n: nat)
    ensures Quad(LeByte(n, 0), LeByte(n, 1), LeByte(n, 2), LeByte(n, 3)) == n % 0x100000000
  {
    hide LeByte;
    FourBytes(n, LeByte(n, 0) as nat, LeByte(n, 1) as nat, LeByte(n, 2) as nat, LeByte(n, 3) as nat);
  }

  lemma {:induction false} QuadsOf(num: nat)
    ensures var iv := SectorIv(num);
            && Quad(iv[0], iv[1], iv[2], iv[3]) == num % 0x100000000
            && Quad(iv[4], iv[5], iv[6], iv[7]) == num / 0x100000000 % 0x100000000
  {
    hide LeByte, Quad;
    QuadIs(num);
    QuadIs(num / 0x100000000);
    LeBytes(num);
    FourTimes(num);
  }

  lemma {:induction false} IvsDiffer(a: nat, b: nat)
    requires a != b && a < 0x10000000000000000 && b < 0x10000000000000000
    ensures SectorIv(a) != SectorIv(b)
  {
    hide SectorIv, Quad;
    QuadsOf(a);
    QuadsOf(b);
    Halves(a);
    Halves(b);
  }

  lemma {:induction false} SectorStart(e: Chunk -> Chunk, iv: Chunk, s: Sector)
    ensures CbcEnc(e, iv, s)[..BLOCK] == e(XorBytes(s[..BLOCK], iv))
  {
    hide CbcEnc, XorBytes;
    EncOne(e, iv, s);
    Leading(e(XorBytes(s[..BLOCK], iv)), CbcEnc(e, e(XorBytes(s[..BLOCK], iv)), s[BLOCK..]));
  }

  /** Equal sectors at different places are stored differently. */
  lemma {:induction false} SectorsDiffer(e: Chunk -> Chunk, a: nat, b: nat, s: Sector)
    requires forall p: Chunk, q: Chunk :: e(p) == e(q) ==> p == q
    requires a != b && a < 0x10000000000000000 && b < 0x10000000000000000
    ensures EncryptSector(e, a, s) != EncryptSector(e, b, s)
  {
    hide CbcEnc, SectorIv, XorBytes;
    IvsDiffer(a, b);
    SectorStart(e, SectorIv(a), s);
    SectorStart(e, SectorIv(b), s);
    XorBack(s[..BLOCK], SectorIv(a));
    XorBack(s[..BLOCK], SectorIv(b));
  }

  lemma {:induction false} Leading(c: Chunk, rest: seq<Byte>)
    ensures (c + rest)[..BLOCK] == c
  {
  }

  function EncryptSector(e: Chunk -> Chunk, num: nat, s: Sector): Sector
  {
    CbcEnc(e, SectorIv(num), s)
  }

  function DecryptSector(d: Chunk -> Chunk, num: nat, s: Sector): Sector
  {
    CbcDec(d, SectorIv(num), s, 512)
  }

  /** A sector is chained from its number on. */
  lemma {:induction false} SectorBlock(e: Chunk -> Chunk, num: nat, s: Sector, i: nat) returns (x: Chunk)
    requires i < 32
    ensures EncryptSector(e, num, s)[16 * i..16 * i + 16] == e(x)
    ensures forall j :: 0 <= j < 16 ==> x[j] == s[16 * i + j] ^ (if i == 0 then SectorIv(num)[j] else EncryptSector(e, num, s)[16 * i - 16 + j])
  {
    hide CbcEnc, SectorIv;
    x := CbcBlock(e, SectorIv(num), s, i);
  }

  lemma {:induction false} SectorRoundTrip(e: Chunk -> Chunk, d: Chunk -> Chunk, num: nat, s: Sector)
    requires Inverse(e, d)
    ensures DecryptSector(d, num, EncryptSector(e, num, s)) == s
  {
    CbcRoundTrip(e, d, SectorIv(num), s);
  }

  /** The cipher of an encrypted image. */
  function SectorCipher(e: Chunk -> Chunk, d: Chunk -> Chunk): Cipher
  {
    Cipher((num, s) => EncryptSector(e, num, s), (num, s) => DecryptSector(d, num, s))
  }

  lemma {:induction false} SectorCipherInvertible(e: Chunk -> Chunk, d: Chunk -> Chunk)
    requires Inverse(e, d)
    ensures SectorCipher(e, d).Invertible()
    ensures forall num: nat, s: Sector :: SectorCipher(e, d).enc(num, s) == EncryptSector(e, num, s) && SectorCipher(e, d).dec(num, s) == DecryptSector(d, num, s)
  {
    hide EncryptSector, DecryptSector;
    forall num: nat, s: Sector ensures SectorCipher(e, d).dec(num, SectorCipher(e, d).enc(num, s)) == s { SectorRoundTrip(e, d, num, s); }
  }

  /** What becomes of one sector. */
  ghost function Crypted(key: seq<Word>, n: nat, enc: bool, num: nat, s: Sector): Sector
    requires GoodKey(key, n)
  {
    if enc then EncryptSector(AesE(key, n), num, s) else DecryptSector(AesD(key, n), num, s)
  }

  ghost function SectorOf(buf: seq<Byte>, k: nat): Sector
    requires 512 * k + 512 <= |buf|
  {
    buf[512 * k..512 * k + 512]
  }

  /** Sector k of a buffer is its bytes from 512 k on. */
  lemma {:induction false} SectorsMean(buf: seq<Byte>, k: nat, i: nat, key: seq<Word>, n: nat, num: nat, s: Sector)
    requires GoodKey(key, n) && 512 * k + 512 <= |buf| && i < 512
    ensures SectorOf(buf, k)[i] == buf[512 * k + i]
    ensures Crypted(key, n, true, num, s) == EncryptSector(AesE(key, n), num, s) && Crypted(key, n, false, num, s) == DecryptSector(AesD(key, n), num, s)
  {
    hide AesE, AesD, EncryptSector, DecryptSector;
  }

  /** Encrypts or decrypts nb sectors, each on its own: the chaining value starts again from the
      sector number. in_buf and out_buf may be the same buffer. */
  method EncryptSectors(num: nat, outBuf: array<Byte>, inBuf: array<Byte>, nb: nat, enc: bool, key: seq<Word>, n: nat)
    requires GoodKey(key, n) && 512 * nb <= inBuf.Length && 512 * nb <= outBuf.Length
    modifies outBuf
    ensures forall k :: 0 <= k < nb ==> SectorOf(outBuf[..], k) == Crypted(key, n, enc, num + k, SectorOf(old(inBuf[..]), k))
    ensures forall j :: 512 * nb <= j < outBuf.Length ==> outBuf[j] == old(outBuf[j])
  {
    hide AesE, AesD, CbcEnc, CbcDec, SectorIv, IvAfter, EncryptSector, DecryptSector;
    for i := 0 to nb
      invariant forall k :: 0 <= k < i ==> SectorOf(outBuf[..], k) == Crypted(key, n, enc, num + k, SectorOf(old(inBuf[..]), k))
      invariant forall j :: 512 * i <= j < inBuf.Length ==> inBuf[j] == old(inBuf[j])
      invariant forall j :: 512 * i <= j < outBuf.Length ==> outBuf[j] == old(outBuf[j])
    {
      ghost var before := outBuf[..];
      assert SectorOf(inBuf[..], i) == SectorOf(old(inBuf[..]), i);
      CryptSector(num + i, outBuf, inBuf, i, enc, key, n);
      forall k | 0 <= k < i ensures SectorOf(outBuf[..], k) == SectorOf(before, k) {}
    }
  }

  method CryptSector(num: nat, outBuf: array<Byte>, inBuf: array<Byte>, i: nat, enc: bool, key: seq<Word>, n: nat)
    requires GoodKey(key, n) && 512 * i + 512 <= inBuf.Length && 512 * i + 512 <= outBuf.Length
    modifies outBuf
    ensures SectorOf(outBuf[..], i) == Crypted(key, n, enc, num, SectorOf(old(inBuf[..]), i))
    ensures forall j :: 0 <= j < outBuf.Length && !(512 * i <= j < 512 * i + 512) ==> outBuf[j] == old(outBuf[j])
  {
    hide AesE, AesD, CbcEnc, CbcDec, SectorIv, IvAfter, Over;
    assert inBuf[..][512 * i..512 * i + 512] == inBuf[512 * i..512 * i + 512];
    if enc {
      var _ := CbcEncrypt(inBuf, outBuf, 512 * i, 512, key, n, SectorIv(num));
      OverGives(old(outBuf[..]), outBuf[..], 512 * i, CbcEnc(AesE(key, n), SectorIv(num), old(inBuf[512 * i..512 * i + 512])));
    } else {
      var _ := CbcDecrypt(inBuf, outBuf, 512 * i, 512, key, n, SectorIv(num));
      OverGives(old(outBuf[..]), outBuf[..], 512 * i, CbcDec(AesD(key, n), SectorIv(num), old(inBuf[512 * i..512 * i + 512]), 512));
    }
  }

  /** The key of an image: up to 16 bytes of the password, filled up with zeros, scheduled both ways. */
  method SetKey(password: seq<Byte>) returns (ek: seq<Word>, dk: seq<Word>, crypt: Cipher)
    ensures GoodKey(ek, 10) && GoodKey(dk, 10) && crypt == SectorCipher(AesE(ek, 10), AesD(dk, 10)) && crypt.Invertible()
    ensures |Pad(if |password| > 16 then password[..16] else password)| == 16
    ensures forall i :: 0 <= i < 16 ==> Pad(if |password| > 16 then password[..16] else password)[i] == if i < |password| then password[i] else 0
    ensures Schedule(ek, Pad(if |password| > 16 then password[..16] else password), 128)
  {
    hide AesE, AesD, Schedule, InverseSchedule, SectorCipher, Inverse;
    var key := Pad(if |password| > 16 then password[..16] else password);
    var e := new Word[MAX_WORDS](_ => 0);
    var d := new Word[MAX_WORDS](_ => 0);
    var status, rounds := SetEncryptKey(key, 128, e);
    var status', rounds' := SetDecryptKey(key, 128, d);
    ek, dk := e[..], d[..];
    forall i | 0 <= i < 16 ensures key[i] == if i < |password| then password[i] else 0 { PadAt(if |password| > 16 then password[..16] else password, i); }
    ghost var w :| Schedule(w, key, 128) && InverseSchedule(w, dk, 10);
    SameSchedule(w, ek, dk, key);
    AesInverse(ek, dk, 10);
    crypt := SectorCipher(AesE(ek, 10), AesD(dk, 10));
    SectorCipherInvertible(AesE(ek, 10), AesD(dk, 10));
  }

  lemma {:induction false} SameSchedule(w: seq<Word>, ek: seq<Word>, dk: seq<Word>, key: seq<Byte>)
    requires Schedule(w, key, 128) && Schedule(ek, key, 128) && InverseSchedule(w, dk, 10)
    ensures InverseSchedule(ek, dk, 10)
  {
    hide Schedule, InverseSchedule, Expanded, KeyWords;
    ScheduleLength(w, key);
    ScheduleLength(ek, key);
    forall i | 0 <= i < 44 ensures w[i] == ek[i] { ScheduleUnique(w, ek, key, 128, i); }
    SameWords(w, ek, dk);
  }

  lemma {:induction false} ScheduleLength(w: seq<Word>, key: seq<Byte>)
    requires Schedule(w, key, 128)
    ensures |w| >= 44
  {
    hide KeyWords;
  }

  lemma {:induction false} SameWords(w: seq<Word>, ek: seq<Word>, dk: seq<Word>)
    requires |w| >= 44 && |ek| >= 44 && (forall i :: 0 <= i < 44 ==> w[i] == ek[i]) && InverseSchedule(w, dk, 10)
    ensures InverseSchedule(ek, dk, 10)
  {
    hide InvMixBlock;
    forall i | 0 <= i <= 10 ensures Key(w, i) == Key(ek, i) {}
  }
}
