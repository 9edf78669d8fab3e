/** Bytes, 512-byte sectors and the cipher interface the disk formats are written against. */
module Bytes {
  type Byte = bv8

  type Word = bv32

  /** A number below 256 survives the conversion to a byte. */
  lemma {:induction false} ByteOf(x: int)
    requires 0 <= x < 256
    ensures (x as Byte) as int == x
  {
    if x < 32 { Below32(x); }
    else if x < 64 { Below64(x); }
    else if x < 96 { Below96(x); }
    else if x < 128 { Below128(x); }
    else if x < 160 { Below160(x); }
    else if x < 192 { Below192(x); }
    else if x < 224 { Below224(x); }
    else { Below256(x); }
  }

  lemma {:induction false} Below32(x: int)
    requires 0 <= x < 32
    ensures (x as Byte) as int == x
  {
  }

  lemma {:induction false} Below64(x: int)
    requires 32 <= x < 64
    ensures (x as Byte) as int == x
  {
  }

  lemma {:induction false} Below96(x: int)
    requires 64 <= x < 96
    ensures (x as Byte) as int == x
  {
  }

  lemma {:induction false} Below128(x: int)
    requires 96 <= x < 128
    ensures (x as Byte) as int == x
  {
  }

  lemma {:induction false} Below160(x: int)
    requires 128 <= x < 160
    ensures (x as Byte) as int == x
  {
  }

  lemma {:induction false} Below192(x: int)
    requires 160 <= x < 192
    ensures (x as Byte) as int == x
  {
  }

  lemma {:induction false} Below224(x: int)
    requires 192 <= x < 224
    ensures (x as Byte) as int == x
  {
  }

  lemma {:induction false} Below256(x: int)
    requires 224 <= x < 256
    ensures (x as Byte) as int == x
  {
  }

  /** The unit of every block-layer transfer. */
  type Sector = s: seq<Byte> | |s| == 512 witness seq(512, _ => 0)

  function Fill(b: Byte): (s: Sector)
    ensures forall i :: 0 <= i < 512 ==> s[i] == b
  {
    seq(512, _ => b)
  }

  const ZERO_SECTOR: Sector := Fill(0)

  lemma {:induction false} ZeroBytes(i: nat)
    requires i < 512
    ensures ZERO_SECTOR[i] == 0
  {
  }

  /** What a read of a sector that nobody has written since the space was handed out returns.
      It differs from every value the formats promise for unwritten space. */
  const STALE_SECTOR: Sector := Fill(0xA5)

  /** A sector cipher: both directions take the guest sector number, which selects the
      initialisation vector. */
  datatype Cipher = Cipher(enc: (nat, Sector) -> Sector, dec: (nat, Sector) -> Sector)
  {
    ghost predicate Invertible()
    {
      forall n: nat, s: Sector :: dec(n, enc(n, s)) == s
    }
  }

  /** Encrypts or decrypts a run of sectors, each on its own, under its own number. */
  method EncryptSectors(crypt: (nat, Sector) -> Sector, sector: nat, data: seq<Sector>) returns (r: seq<Sector>)
    ensures |r| == |data| && forall k :: 0 <= k < |data| ==> r[k] == crypt(sector + k, data[k])
  {
    r := [];
    for k := 0 to |data|
      invariant |r| == k && forall i :: 0 <= i < k ==> r[i] == crypt(sector + i, data[i])
    {
      r := r + [crypt(sector + k, data[k])];
    }
  }
}
