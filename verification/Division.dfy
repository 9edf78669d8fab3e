/** Quotient and remainder by repeated subtraction. The formats divide by powers of two fixed when
    an image is opened; this definition keeps such a divisor out of nonlinear arithmetic. */
module Division {
  function Quot(x: nat, d: nat): nat
    requires d > 0
    decreases x
  {
    if x < d then 0 else 1 + Quot(x - d, d)
  }

  function Rem(x: nat, d: nat): (r: nat)
    requires d > 0
    ensures r < d
    decreases x
  {
    if x < d then x else Rem(x - d, d)
  }

  lemma {:induction false} QuotRem(x: nat, d: nat)
    requires d > 0
    ensures x == Quot(x, d) * d + Rem(x, d)
    decreases x
  {
    if x >= d { QuotRem(x - d, d); }
  }

  lemma {:induction false} DivExact(k: nat, d: nat, j: nat)
    requires j < d
    ensures Quot(k * d + j, d) == k && Rem(k * d + j, d) == j
  {
    if k > 0 {
      DivExact(k - 1, d, j);
      assert k * d + j - d == (k - 1) * d + j;
      assert (k - 1) * d >= 0;
    }
  }

  lemma {:induction false} MulMono(a: nat, b: nat, d: nat)
    requires a <= b
    ensures a * d <= b * d
  {
  }

  lemma {:induction false} DivBound(x: nat, d: nat, n: nat)
    requires d > 0
    ensures Quot(x, d) < n <==> x < n * d
  {
    QuotRem(x, d);
    var q := Quot(x, d);
    hide Quot, Rem;
    if q < n { MulMono(q + 1, n, d); } else { MulMono(n, q, d); }
  }

  lemma {:induction false} QuotIs(x: nat, d: nat, q: nat, e: nat)
    requires e == q * d && e <= x < e + d
    ensures Quot(x, d) == q && Rem(x, d) == x - e
  {
    DivExact(q, d, x - e);
  }

  lemma {:induction false} QuotBetween(x: nat, d: nat)
    requires d > 0
    ensures Quot(x, d) * d <= x < Quot(x, d) * d + d
  {
    QuotRem(x, d);
  }

  lemma {:induction false} DivMono(x: nat, y: nat, d: nat)
    requires d > 0 && x <= y
    ensures Quot(x, d) <= Quot(y, d)
  {
    DivBound(x, d, Quot(y, d) + 1);
    DivBound(y, d, Quot(y, d) + 1);
  }

  lemma {:induction false} DivModUnique(x: nat, y: nat, d: nat)
    requires d > 0 && Quot(x, d) == Quot(y, d) && Rem(x, d) == Rem(y, d)
    ensures x == y
  {
    QuotRem(x, d);
    QuotRem(y, d);
  }

  lemma {:induction false} DivShift(k: nat, d: nat)
    requires d > 0
    ensures Quot(k + d, d) == Quot(k, d) + 1
  {
  }

  /** Four digits to base 256. */
  lemma {:induction false} Digits4(n: nat)
    ensures n % 0x100 + 0x100 * (n / 0x100 % 0x100) + 0x10000 * (n / 0x100 / 0x100 % 0x100) + 0x1000000 * (n / 0x100 / 0x100 / 0x100 % 0x100) == n % 0x100000000
  {
  }

  lemma {:induction false} FourTimes(n: nat)
    ensures n / 0x100 / 0x100 / 0x100 / 0x100 == n / 0x100000000
  {
  }

  lemma {:induction false} Halves(n: nat)
    ensures n % 0x100000000 + 0x100000000 * (n / 0x100000000 % 0x100000000) == n % 0x10000000000000000
  {
  }
}
