/** Encrypted images: the refinement with the cipher that a password gives. */
module Qcow2Encrypted {
  import opened Bytes
  import opened AesKey
  import opened Cbc
  import opened AesCbc
  import opened Qcow2Layout
  import opened Qcow2Volume
  import opened Qcow2State
  import opened Qcow2Image
  import opened Qcow2Open
  import opened Qcow2Run

  /** From the password on: the key is expanded as FIPS 197 says, what is stored is the CBC encryption
      under it, and any run on the new image answers as the flat disk. */
  method EncryptedRun(password: seq<Byte>, g: Geo, base: seq<Sector>, total: nat, ops: seq<Op>)
    returns (s: BDRVQcowState, outs: seq<Out>, n: nat, ek: seq<Word>, dk: seq<Word>)
    requires Runnable(g, base, total, ops)
    ensures |Pad(if |password| > 16 then password[..16] else password)| == 16
    ensures Schedule(ek, Pad(if |password| > 16 then password[..16] else password), 128)
    ensures GoodKey(ek, 10) && GoodKey(dk, 10) && X(s) == Ctx(g, base, SectorCipher(AesE(ek, 10), AesD(dk, 10)))
    ensures L1For(g, total) >= 1 && n <= |ops|
    ensures At(s, After(g, NewDisk(base, L1For(g, total)), ops[..n]), 0) && outs == Outputs(g, NewDisk(base, L1For(g, total)), ops[..n])
    ensures n < |ops| ==> s.g.Valid() && !RoomFor(s, Cost(g, After(g, NewDisk(base, L1For(g, total)), ops[..n]), ops[n]))
  {
    hide Runnable, At, After, Outputs, Schedule, SectorCipher, AesE, AesD, L1For, Cost, RoomFor, Cipher.Invertible;
    var crypt;
    ek, dk, crypt := SetKey(password);
    s, outs, n := RunFromCreate(g, crypt, base, total, ops);
  }
}
