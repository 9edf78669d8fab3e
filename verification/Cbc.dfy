/** Cipher block chaining, section 6.2 of NIST SP 800-38A, over any block cipher, with a short last block. */
module Cbc {
  import opened Bytes

  const BLOCK: nat := 16

  function ZeroChunk(): (c: seq<Byte>)
    ensures |c| == BLOCK
  {
    seq(BLOCK, _ => 0)
  }

  type Chunk = c: seq<Byte> | |c| == BLOCK witness ZeroChunk()

  function XorBytes(a: seq<Byte>, b: seq<Byte>): (c: seq<Byte>)
    requires |a| == |b|
    ensures |c| == |a|
  {
    seq(|a|, i requires 0 <= i < |a| => a[i] ^ b[i])
  }

  lemma {:induction false} XorTwice(a: seq<Byte>, b: seq<Byte>)
    requires |a| == |b|
    ensures XorBytes(XorBytes(a, b), b) == a
  {
    forall i | 0 <= i < |a| ensures (a[i] ^ b[i]) ^ b[i] == a[i] {}
  }

  function Padded(len: nat): nat
  {
    (len + 15) / 16 * 16
  }

  function Pad(data: seq<Byte>): (p: Chunk)
    requires |data| <= BLOCK
    ensures p[..|data|] == data
  {
    data + seq(BLOCK - |data|, _ => 0)
  }

  // ---------------------------------------------------------------- the specification

  function CbcEnc(e: Chunk -> Chunk, iv: Chunk, data: seq<Byte>): (c: seq<Byte>)
    ensures |c| == Padded(|data|)
    decreases |data|
  {
    if data == [] then []
    else if |data| < BLOCK then e(XorBytes(Pad(data), iv))
    else
      var c := e(XorBytes(data[..BLOCK], iv));
      c + CbcEnc(e, c, data[BLOCK..])
  }

  function CbcDec(d: Chunk -> Chunk, iv: Chunk, c: seq<Byte>, len: nat): (data: seq<Byte>)
    requires |c| == Padded(len)
    ensures |data| == len
    decreases len
  {
    if len == 0 then []
    else if len < BLOCK then XorBytes(d(c[..BLOCK]), iv)[..len]
    else XorBytes(d(c[..BLOCK]), iv) + CbcDec(d, c[..BLOCK], c[BLOCK..], len - BLOCK)
  }

  ghost predicate Inverse(e: Chunk -> Chunk, d: Chunk -> Chunk)
  {
    forall p: Chunk :: d(e(p)) == p
  }

  /** Decryption undoes encryption for every length. */
  lemma {:induction false} CbcRoundTrip(e: Chunk -> Chunk, d: Chunk -> Chunk, iv: Chunk, data: seq<Byte>)
    requires Inverse(e, d)
    ensures CbcDec(d, iv, CbcEnc(e, iv, data), |data|) == data
    decreases |data|
  {
    if data != [] {
      var p: Chunk := if |data| < BLOCK then Pad(data) else data[..BLOCK];
      var c := e(XorBytes(p, iv));
      assert d(c) == XorBytes(p, iv);
      XorTwice(p, iv);
      var all := CbcEnc(e, iv, data);
      assert all[..BLOCK] == c;
      if |data| >= BLOCK {
        assert all[BLOCK..] == CbcEnc(e, c, data[BLOCK..]);
        CbcRoundTrip(e, d, c, data[BLOCK..]);
        assert data == data[..BLOCK] + data[BLOCK..];
      }
    }
  }

  lemma {:induction false} XorAt(a: seq<Byte>, b: seq<Byte>, i: nat)
    requires |a| == |b| && i < |a|
    ensures XorBytes(a, b)[i] == a[i] ^ b[i]
  {
  }

  lemma {:induction false} PadAt(data: seq<Byte>, i: nat)
    requires |data| <= BLOCK && i < BLOCK
    ensures Pad(data)[i] == if i < |data| then data[i] else 0
  {
  }

  /** Section 6.2 of NIST SP 800-38A: block i of the ciphertext is the cipher of the plaintext block,
      zeros past its end, combined with the ciphertext block before it, the first with the
      initialisation vector. */
  lemma {:induction false} CbcBlock(e: Chunk -> Chunk, iv: Chunk, data: seq<Byte>, i: nat) returns (x: Chunk)
    requires 16 * i < |data|
    ensures |CbcEnc(e, iv, data)| >= 16 * i + 16 && CbcEnc(e, iv, data)[16 * i..16 * i + 16] == e(x)
    ensures forall j :: 0 <= j < 16 ==> x[j] == (if 16 * i + j < |data| then data[16 * i + j] else 0) ^ (if i == 0 then iv[j] else CbcEnc(e, iv, data)[16 * i - 16 + j])
    decreases i
  {
    hide XorBytes, CbcEnc;
    if i == 0 {
      x := FirstBlock(e, iv, data);
    } else {
      var c0 := e(XorBytes(data[..BLOCK], iv));
      EncOne(e, iv, data);
      x := CbcBlock(e, c0, data[BLOCK..], i - 1);
      var c := CbcEnc(e, iv, data);
      assert c[16 * i..16 * i + 16] == c[16..][16 * (i - 1)..16 * (i - 1) + 16];
      assert c[16..] == CbcEnc(e, c0, data[BLOCK..]);
    }
  }

  lemma {:induction false} FirstBlock(e: Chunk -> Chunk, iv: Chunk, data: seq<Byte>) returns (x: Chunk)
    requires data != []
    ensures |CbcEnc(e, iv, data)| >= 16 && CbcEnc(e, iv, data)[0..16] == e(x)
    ensures forall j :: 0 <= j < 16 ==> x[j] == (if j < |data| then data[j] else 0) ^ iv[j]
  {
    hide XorBytes, Pad;
    var p: Chunk := if |data| < BLOCK then Pad(data) else data[..BLOCK];
    x := XorBytes(p, iv);
    assert CbcEnc(e, iv, data)[..16] == e(x);
    forall j | 0 <= j < 16 ensures x[j] == (if j < |data| then data[j] else 0) ^ iv[j] {
      XorAt(p, iv, j);
      if |data| < BLOCK { PadAt(data, j); }
    }
  }

  /** The chaining value for what follows: the last block of ciphertext. */
  function IvAfter(iv: Chunk, c: seq<Byte>): Chunk
  {
    if |c| >= BLOCK then c[|c| - BLOCK..] else iv
  }

  /** Whole blocks can be encrypted in pieces, passing the chaining value on. */
  lemma {:induction false} CbcPieces(e: Chunk -> Chunk, iv: Chunk, a: seq<Byte>, b: seq<Byte>)
    requires |a| % BLOCK == 0
    ensures CbcEnc(e, iv, a + b) == CbcEnc(e, iv, a) + CbcEnc(e, IvAfter(iv, CbcEnc(e, iv, a)), b)
    decreases |a|
  {
    hide CbcEnc, XorBytes, IvAfter;
    if a == [] {
      assert a + b == b;
      EncNothing(e, iv);
    } else {
      var c := e(XorBytes(a[..BLOCK], iv));
      assert (a + b)[..BLOCK] == a[..BLOCK] && (a + b)[BLOCK..] == a[BLOCK..] + b;
      EncOne(e, iv, a);
      EncOne(e, iv, a + b);
      CbcPieces(e, c, a[BLOCK..], b);
      IvChain(iv, c, CbcEnc(e, c, a[BLOCK..]));
    }
  }

  lemma {:induction false} EncNothing(e: Chunk -> Chunk, iv: Chunk)
    ensures CbcEnc(e, iv, []) == [] && IvAfter(iv, []) == iv
  {
  }

  lemma {:induction false} EncOne(e: Chunk -> Chunk, iv: Chunk, data: seq<Byte>)
    requires |data| >= BLOCK
    ensures var c := e(XorBytes(data[..BLOCK], iv)); CbcEnc(e, iv, data) == c + CbcEnc(e, c, data[BLOCK..])
  {
    hide XorBytes;
  }

  lemma {:induction false} IvChain(iv: Chunk, c: Chunk, rest: seq<Byte>)
    requires |rest| % BLOCK == 0
    ensures IvAfter(iv, c + rest) == IvAfter(c, rest)
  {
  }
}
