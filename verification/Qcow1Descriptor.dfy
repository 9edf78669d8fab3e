/** The packed entry of a compressed cluster in the first QCOW format: byte offset, byte count, flag. */
module Qcow1Descriptor {
  import opened Division
  import opened Bits

  /** Bits of the offset field; the size field of cb bits and the flag, bit 63, follow. */
  function OffsetBits(cb: nat): nat
    requires 9 <= cb < 63
  {
    63 - cb
  }

  function Flag(cb: nat): nat
    requires 9 <= cb < 63
  {
    Pow2(cb + OffsetBits(cb))
  }

  function Pack(cb: nat, off: nat, len: nat): nat
    requires 9 <= cb < 63
  {
    Or(off, Or(Flag(cb), Shl(len, OffsetBits(cb))))
  }

  function OffsetOf(cb: nat, v: nat): nat
    requires 9 <= cb < 63
  {
    And(v, Pow2(OffsetBits(cb)) - 1)
  }

  function SizeOf(cb: nat, v: nat): nat
    requires 9 <= cb < 63
  {
    And(Quot(v, Pow2(OffsetBits(cb))), Pow2(cb) - 1)
  }

  lemma {:induction false} PackSum(cb: nat, off: nat, len: nat)
    requires 9 <= cb < 63 && len < Pow2(cb) && off < Pow2(OffsetBits(cb))
    ensures Pack(cb, off, len) == off + (Pow2(cb) + len) * Pow2(OffsetBits(cb))
    ensures Flag(cb) <= Pack(cb, off, len) < 2 * Flag(cb)
  {
    hide Pow2, Or;
    var p, m := Pow2(OffsetBits(cb)), Pow2(cb);
    Pow2Add(cb, OffsetBits(cb));
    MulMono(len + 1, m, p);
    Distrib(len, 1, p);
    OrComm(Flag(cb), len * p);
    OrSum(len * p, 1, cb + OffsetBits(cb));
    Distrib(m, len, p);
    OrSum(off, m + len, OffsetBits(cb));
  }

  /** The entry as a number: the byte offset, the byte count from bit 63 - cluster_bits on, and bit 63. */
  lemma {:induction false} EntryIs(cb: nat, off: nat, len: nat)
    requires 9 <= cb < 63 && len < Pow2(cb) && off < Pow2(63 - cb)
    ensures Pack(cb, off, len) == off + len * Pow2(63 - cb) + 0x8000_0000_0000_0000
  {
    hide Pow2, Or, Pack;
    PackSum(cb, off, len);
    Pow2Is();
    Pow2Add(cb, 63 - cb);
    Distrib(Pow2(cb), len, Pow2(63 - cb));
  }

  /** Offset and size come back, for every chunk smaller than a cluster in a file the field can address. */
  lemma {:induction false} DescriptorRoundTrip(cb: nat, off: nat, len: nat)
    requires 9 <= cb < 63 && len < Pow2(cb) && off < Pow2(OffsetBits(cb))
    ensures OffsetOf(cb, Pack(cb, off, len)) == off && SizeOf(cb, Pack(cb, off, len)) == len
    ensures Flag(cb) <= Pack(cb, off, len) < 2 * Flag(cb)
  {
    hide Pow2, And, Or, Quot, Rem, Pack, Flag;
    var p, m := Pow2(OffsetBits(cb)), Pow2(cb);
    PackSum(cb, off, len);
    AndMask(Pack(cb, off, len), OffsetBits(cb));
    DivExact(m + len, p, off);
    AndMask(m + len, cb);
    QuotIs(m + len, m, 1, m);
  }
}
