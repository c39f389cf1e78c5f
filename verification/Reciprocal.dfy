/**
 Division by a constant as multiplication and shift: the search for the magic
 numbers, and the proof that they divide.
 */
module Reciprocal {
  import opened Words

  datatype Magic = NotFound | Magic(m: nat, p: nat)

  /** `len(bin(n)) - 2` */
  function BitLength(n: nat): nat { if n < 2 then 1 else 1 + BitLength(n / 2) }

  lemma {:induction false} BitLengthBound(n: nat)
    ensures n < Pow2(BitLength(n))
  {
    if n >= 2 { BitLengthBound(n / 2); }
  }

  /** The largest n up to nmax whose remainder is d - 1; -1 if there is none. */
  function Nc(nmax: nat, d: nat): int
    requires d > 0
  {
    ((nmax + 1) / d) * d - 1
  }

  /** How far 2^p falls short of the next multiple of d. */
  function Excess(p: nat, d: nat): nat
    requires d > 0
  {
    d - 1 - (Pow2(p) - 1) % d
  }

  predicate Enough(nmax: nat, d: nat, p: nat)
    requires d > 0
  {
    Pow2(p) > Nc(nmax, d) * Excess(p, d)
  }

  function Multiplier(p: nat, d: nat): nat
    requires d > 0
  {
    DivNonNegative(Pow2(p) + Excess(p, d), d);
    (Pow2(p) + Excess(p, d)) / d
  }

  /** `do_div` with no increment. */
  function DoDiv(n: nat, m: nat, p: nat): nat {
    MulNonNegative(n, m);
    Shr(n * m, p)
  }

  ghost predicate Divides(nmax: nat, d: nat, m: nat, p: nat)
    requires d > 0
  {
    forall n: nat :: n <= nmax ==> DoDiv(n, m, p) == n / d
  }

  /** The magic multiplier times d is 2^p plus the excess. */
  lemma {:induction false} MultiplierTimesD(p: nat, d: nat)
    requires d > 0
    ensures Multiplier(p, d) * d == Pow2(p) + Excess(p, d)
  {
    hide Pow2;
    RoundUp(Pow2(p), d);
  }

  lemma {:induction false} RoundUp(P: nat, d: nat)
    requires P > 0 && d > 0
    ensures var e := d - 1 - (P - 1) % d; ((P + e) / d) * d == P + e
  {
    var k, r := (P - 1) / d, (P - 1) % d;
    var e := d - 1 - r;
    assert P + e == d * (k + 1) by {
      assert P - 1 == d * k + r;
      MulDistributes(d, k, 1);
    }
    DivModUnique(P + e, d, k + 1, 0);
  }

  /** n*e < (d - n mod d) * 2^p whenever the search condition holds. */
  lemma {:induction false} ErrorIsSmall(nmax: nat, d: nat, n: nat, e: nat, P: nat)
    requires 1 <= d <= nmax + 1 && n <= nmax && P > Nc(nmax, d) * e
    requires e <= d - 1
    ensures n * e < (d - n % d) * P
  {
    var nc, k, t := Nc(nmax, d), (nmax + 1) / d, n % d;
    assert k >= 1;
    assert nmax + 1 == d * k + (nmax + 1) % d;
    MulMonotonic(1, k, d);
    assert nc == k * d - 1 && nc >= d - 1;
    if n <= nc {
      MulMonotonic(n, nc, e);
      MulMonotonic(1, d - t, P);
    } else {
      // n = k*d + t, and t + 1 <= (nmax + 1) % d < d
      DivModUnique(n, d, k, n - k * d);
      assert t == n - (nc + 1) && t + 2 <= d;
      assert n * e == nc * e + (1 + t) * e by { MulDistributes(e, nc, 1 + t); }
      MulMonotonic(1 + t, nc, e);
      MulMonotonic(2, d - t, P);
    }
  }

  /** Between q*2^p and (q+1)*2^p. */
  lemma {:induction false} QuotientBounds(n: nat, d: nat, m: nat, P: nat, e: nat)
    requires d > 0 && m * d == P + e
    requires n * e < (d - n % d) * P
    ensures (n / d) * P <= n * m < (n / d + 1) * P
  {
    var q, t := n / d, n % d;
    assert d * (n * m) == n * P + n * e by {
      MulAssociative(n, m, d);
      MulDistributes(n, P, e);
    }
    assert n * P == d * (q * P) + t * P by {
      assert n == d * q + t;
      MulDistributes(P, d * q, t);
      MulAssociative(d, q, P);
    }
    assert (d - t) * P + t * P == d * P by { MulDistributes(P, d - t, t); }
    assert 0 <= t * P && 0 <= n * e by { MulMonotonic(0, t, P); MulMonotonic(0, n, e); }
    assert d * ((q + 1) * P) == d * (q * P) + d * P by {
      MulDistributes(P, q, 1);
      MulDistributes(d, q * P, P);
    }
    Between(d * (n * m), n * P, n * e, d * (q * P), t * P, (d - t) * P, d * P, d * ((q + 1) * P));
    Cancel(d, q * P, n * m);
    CancelStrict(d, n * m, (q + 1) * P);
  }

  lemma {:induction false} Between(nmd: int, nP: int, ne: int, dqP: int, tP: int, dtP: int, dP: int, dq1P: int)
    requires nmd == nP + ne && nP == dqP + tP && dtP + tP == dP && dq1P == dqP + dP
    requires 0 <= tP && 0 <= ne < dtP
    ensures dqP <= nmd < dq1P
  {
  }

  lemma {:induction false} Cancel(d: nat, a: int, b: int)
    requires d > 0 && d * a <= d * b
    ensures a <= b
  {
    if a > b {
      MulDistributes(d, a, -b);
      MulZero(d, a - b);
      assert false;
    }
  }

  lemma {:induction false} CancelStrict(d: nat, a: int, b: int)
    requires d > 0 && d * a < d * b
    ensures a < b
  {
    if a >= b {
      Cancel(d, b, a);
      MulMonotonic2(d, b, a);
      assert false;
    }
  }

  lemma {:induction false} MulMonotonic2(d: nat, a: int, b: int)
    requires a <= b
    ensures d * a <= d * b
  {
    MulDistributes(d, a, b - a);
    MulNonNegative(d, b - a);
  }

  /** Any p that passes the test gives exact division up to nmax. */
  lemma {:induction false} MagicDivides(nmax: nat, d: nat, p: nat)
    requires 1 <= d <= nmax + 1 && Enough(nmax, d, p)
    ensures Divides(nmax, d, Multiplier(p, d), p)
  {
    hide Pow2;
    var m, e, P := Multiplier(p, d), Excess(p, d), Pow2(p);
    MultiplierTimesD(p, d);
    forall n: nat | n <= nmax ensures DoDiv(n, m, p) == n / d {
      ErrorIsSmall(nmax, d, n, e, P);
      QuotientBounds(n, d, m, P, e);
      MulNonNegative(n, m);
      FloorIs(n * m, P, n / d);
    }
  }

  lemma {:induction false} FloorIs(x: nat, P: nat, q: int)
    requires P > 0 && q * P <= x < (q + 1) * P
    ensures x / P == q
  {
    MulDistributes(P, q, 1);
    DivModUnique(x, P, q, x - q * P);
  }

  lemma {:induction false} NcBound(nmax: nat, d: nat)
    requires d > 0
    ensures Nc(nmax, d) <= nmax
  {
    var k := (nmax + 1) / d;
    assert nmax + 1 == d * k + (nmax + 1) % d;
    assert k * d == d * k;
  }

  /** The largest shift tried always passes. */
  lemma {:induction false} LastShiftIsEnough(nmax: nat, d: nat)
    requires 1 <= d <= nmax + 1
    ensures Enough(nmax, d, 2 * BitLength(nmax))
  {
    hide Pow2;
    var b := BitLength(nmax);
    var nc, e := Nc(nmax, d), Excess(2 * b, d);
    BitLengthBound(nmax);
    Pow2Add(b, b);
    assert b + b == 2 * b;
    NcBound(nmax, d);
    if nc >= 0 {
      MulMonotonic(nc, nmax, e);
      MulMonotonic(e, nmax, nmax);
      SquareBound(nmax, Pow2(b));
    } else {
      MulMonotonic2(e, nc, 0);
    }
  }

  lemma {:induction false} SquareBound(a: nat, b: nat)
    requires a < b
    ensures a * a < b * b
  {
    MulMonotonic(a + 1, b, a + 1);
    MulMonotonic(a + 1, b, b);
    MulDistributes(a + 1, a, 1);
  }

  /** Beyond d = nmax + 1 the first shift tried passes and the numbers are wrong
      for every n from 1 on; so the divisors served are exactly those up to
      nmax + 1, unless nmax is 0. */
  lemma {:induction false} DivisorsServed(nmax: nat, d: nat)
    requires d >= 1
    ensures d > nmax + 1 ==> Enough(nmax, d, 0) && Multiplier(0, d) == 1
    ensures d > nmax + 1 ==> (Divides(nmax, d, Multiplier(0, d), 0) <==> nmax == 0)
  {
    if d > nmax + 1 {
      DivModUnique(nmax + 1, d, 0, nmax + 1);
      assert Pow2(0) == 1;
      DivModUnique(0, d, 0, 0);
      MulNonNegative(1, d - 1);
      DivModUnique(d, d, 1, 0);
      if nmax > 0 {
        assert DoDiv(1, 1, 0) == 1;
        DivModUnique(1, d, 0, 1);
      } else {
        assert DoDiv(0, 1, 0) == 0;
      }
    }
  }

  /** `magicgu`: the search succeeds, with the least shift that passes, and the
      numbers it finds divide every n up to nmax exactly if d is at most
      nmax + 1 (or there is no n but 0). */
  method Magicgu(nmax: nat, d: nat) returns (r: Magic)
    requires d >= 1
    ensures r.Magic? && r.p <= 2 * BitLength(nmax)
    ensures Divides(nmax, d, r.m, r.p) <==> d <= nmax + 1 || nmax == 0
    ensures r.m * d == Pow2(r.p) + Excess(r.p, d)
    ensures forall p: nat :: p < r.p ==> !Enough(nmax, d, p)
  {
    hide Divides;
    var nc := ((nmax + 1) / d) * d - 1;
    var nbits := BitLength(nmax);
    DivisorsServed(nmax, d);
    for p := 0 to 2 * nbits + 1
      invariant forall k: nat :: k < p ==> !Enough(nmax, d, k)
    {
      if Pow2(p) > nc * (d - 1 - (Pow2(p) - 1) % d) {
        if d <= nmax + 1 {
          MagicDivides(nmax, d, p);
        }
        MultiplierTimesD(p, d);
        return Magic(Multiplier(p, d), p);
      }
    }
    if d <= nmax + 1 {
      LastShiftIsEnough(nmax, d);
    }
    return NotFound;
  }
}
