/** Bitwise operators on unsigned numbers, as the packed descriptors use them. */
module Bits {
  import opened Division

  function Pow2(n: nat): (p: nat)
    ensures p >= 1
  {
    if n == 0 then 1 else 2 * Pow2(n - 1)
  }

  function Shl(x: nat, n: nat): nat
  {
    Times(x, Pow2(n))
  }

  function Times(a: nat, b: nat): nat
  {
    a * b
  }

  function Or(a: nat, b: nat): nat
  {
    if a == 0 then b else if b == 0 then a
    else (if a % 2 == 1 || b % 2 == 1 then 1 else 0) + 2 * Or(a / 2, b / 2)
  }

  function And(a: nat, b: nat): nat
  {
    if a == 0 || b == 0 then 0
    else (if a % 2 == 1 && b % 2 == 1 then 1 else 0) + 2 * And(a / 2, b / 2)
  }

  lemma {:induction false} Pow2Add(a: nat, b: nat)
    ensures Pow2(a + b) == Pow2(a) * Pow2(b)
  {
    if a > 0 {
      Pow2Add(a - 1, b);
      Doubled(Pow2(a - 1), Pow2(b));
    }
  }

  lemma {:induction false} Doubled(a: nat, b: nat)
    ensures (2 * a) * b == 2 * (a * b)
  {
  }

  lemma {:induction false} Pow2Is()
    ensures Pow2(62) == 0x4000_0000_0000_0000 && Pow2(63) == 0x8000_0000_0000_0000
  {
    assert Pow2(8) == 0x100;
    Pow2Add(8, 8);
    Pow2Add(16, 16);
    Pow2Add(16, 8);
    Pow2Add(24, 6);
    assert Pow2(6) == 0x40;
    Pow2Add(32, 30);
  }

  /** Fields that do not overlap: the bitwise or is the sum. */
  lemma {:induction false} OrSum(a: nat, b: nat, k: nat)
    requires a < Pow2(k)
    ensures Or(a, b * Pow2(k)) == a + b * Pow2(k)
  {
    if k == 0 || a == 0 {
      assert a == 0;
    } else {
      var h := b * Pow2(k - 1);
      assert b * Pow2(k) == 2 * h by { Doubled(Pow2(k - 1), b); }
      OrSum(a / 2, b, k - 1);
    }
  }

  lemma {:induction false} OrComm(a: nat, b: nat)
    ensures Or(a, b) == Or(b, a)
  {
    if a != 0 && b != 0 { OrComm(a / 2, b / 2); }
  }

  /** Masking with k ones keeps the remainder modulo 2^k. */
  lemma {:induction false} AndMask(a: nat, k: nat)
    ensures And(a, Pow2(k) - 1) == Rem(a, Pow2(k))
  {
    if k == 0 {
      assert Rem(a, 1) == 0;
    } else {
      var p := Pow2(k - 1);
      if a == 0 {
        QuotIs(0, Pow2(k), 0, 0);
      } else {
        if p > 1 { assert (2 * p - 1) / 2 == p - 1; }
        AndMask(a / 2, k - 1);
        var q, r := Quot(a / 2, p), Rem(a / 2, p);
        QuotRem(a / 2, p);
        assert q * (2 * p) == 2 * (q * p) by { Doubled(p, q); }
        QuotIs(a, 2 * p, q, q * (2 * p));
      }
    }
  }

  /** Dividing twice is dividing by the product. */
  lemma {:induction false} QuotQuot(x: nat, d: nat, e: nat)
    requires d > 0 && e > 0
    ensures d * e > 0 && Quot(x, d * e) == Quot(Quot(x, d), e)
  {
    hide Quot, Rem;
    var q := Quot(x, d);
    var t, r := Quot(q, e), Rem(q, e);
    QuotRem(x, d);
    QuotRem(q, e);
    assert q * d == (t * e) * d + r * d by { Distrib(t * e, r, d); }
    assert r * d + d <= d * e by { MulMono(r + 1, e, d); Distrib(r, 1, d); }
    assert (t * e) * d == t * (d * e) by { Regroup(t, e, d); }
    QuotIs(x, d * e, t, t * (d * e));
  }

  lemma {:induction false} Distrib(a: nat, b: nat, d: nat)
    ensures (a + b) * d == a * d + b * d
  {
  }

  lemma {:induction false} Regroup(t: nat, e: nat, d: nat)
    ensures (t * e) * d == t * (d * e)
  {
  }
}
