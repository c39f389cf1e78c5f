/** Bit operations on words as natural numbers. */
module Bits {
  import opened Words

  predicate Bit(x: nat, i: nat) {
    if i == 0 then x % 2 == 1 else Bit(x / 2, i - 1)
  }

  /** `x | y` */
  function Or(x: nat, y: nat): nat
    decreases x + y
  {
    if x == 0 then y else if y == 0 then x
    else 2 * Or(x / 2, y / 2) + (if x % 2 == 1 || y % 2 == 1 then 1 else 0)
  }

  /** `x & ~y` */
  function AndNot(x: nat, y: nat): nat {
    if x == 0 then 0 else 2 * AndNot(x / 2, y / 2) + (if x % 2 == 1 && y % 2 == 0 then 1 else 0)
  }

  /** `x & y` */
  function And(x: nat, y: nat): nat {
    if x == 0 then 0 else 2 * And(x / 2, y / 2) + (if x % 2 == 1 && y % 2 == 1 then 1 else 0)
  }

  lemma {:induction false} ZeroBits(i: nat)
    ensures !Bit(0, i)
  {
    if i > 0 { ZeroBits(i - 1); }
  }

  lemma {:induction false} OrStep(x: nat, y: nat)
    requires x != 0 && y != 0
    ensures Or(x, y) / 2 == Or(x / 2, y / 2)
    ensures Or(x, y) % 2 == 1 <==> x % 2 == 1 || y % 2 == 1
  {
  }

  lemma {:induction false} OrZero(x: nat)
    ensures Or(x, 0) == x && Or(0, x) == x
  {
  }

  lemma {:induction false} OrBit(x: nat, y: nat, i: nat)
    ensures Bit(Or(x, y), i) <==> Bit(x, i) || Bit(y, i)
    decreases i
  {
    hide Or;
    if x == 0 || y == 0 {
      ZeroBits(i);
      OrZero(if x == 0 then y else x);
    } else {
      OrStep(x, y);
      if i > 0 { OrBit(x / 2, y / 2, i - 1); }
    }
  }

  lemma {:induction false} AndNotBit(x: nat, y: nat, i: nat)
    ensures Bit(AndNot(x, y), i) <==> Bit(x, i) && !Bit(y, i)
    decreases i
  {
    if x == 0 {
      ZeroBits(i);
    } else if i > 0 {
      assert AndNot(x, y) / 2 == AndNot(x / 2, y / 2);
      AndNotBit(x / 2, y / 2, i - 1);
    }
  }

  lemma {:induction false} Pow2Bit(k: nat, i: nat)
    ensures Bit(Pow2(k), i) <==> i == k
  {
    if k == 0 {
      if i > 0 { ZeroBits(i - 1); }
    } else if i > 0 {
      assert Pow2(k) / 2 == Pow2(k - 1);
      Pow2Bit(k - 1, i - 1);
    }
  }

  lemma {:induction false} OrBelow(x: nat, y: nat, n: nat)
    requires x < Pow2(n) && y < Pow2(n)
    ensures Or(x, y) < Pow2(n)
    decreases n
  {
    if n > 0 && x != 0 && y != 0 { OrBelow(x / 2, y / 2, n - 1); }
  }

  lemma {:induction false} AndNotBelow(x: nat, y: nat)
    ensures AndNot(x, y) <= x
  {
    if x != 0 { AndNotBelow(x / 2, y / 2); }
  }

  /** The highest bit of a number between two powers of two. */
  lemma {:induction false} TopBit(x: nat, k: nat)
    requires Pow2(k) <= x < Pow2(k + 1)
    ensures Bit(x, k)
    ensures forall j :: j > k ==> !Bit(x, j)
  {
    if k > 0 {
      TopBit(x / 2, k - 1);
      forall j | j > k ensures !Bit(x, j) {
        assert j - 1 > k - 1 && !Bit(x / 2, j - 1);
      }
    } else {
      forall j | j > 0 ensures !Bit(x, j) {
        ZeroBits(j - 1);
      }
    }
  }

  /** `(l << k) | b` is a sum when `b` fits below. */
  lemma {:induction false} OrIsSum(l: nat, k: nat, b: nat)
    requires b < Pow2(k)
    ensures Or(l * Pow2(k), b) == l * Pow2(k) + b
    decreases k
  {
    if k > 0 && l != 0 && b != 0 {
      OrIsSum(l, k - 1, b / 2);
      var p := l * Pow2(k - 1);
      assert l * Pow2(k) == 2 * p by { MulAssociative(l, 2, Pow2(k - 1)); MulAssociative(2, l, Pow2(k - 1)); }
      MulMonotonic(1, l, Pow2(k - 1));
      assert (2 * p) / 2 == p;
    }
  }

  /** `x | BIT(k)` in an n-bit word. */
  lemma {:induction false} OrPow2(x: nat, k: nat, n: nat)
    requires x < Pow2(n) && k < n
    ensures Or(x, Pow2(k)) < Pow2(n)
    ensures forall i: nat :: Bit(Or(x, Pow2(k)), i) <==> Bit(x, i) || i == k
  {
    hide Or, Pow2, Bit;
    Pow2Below(k, n);
    OrBelow(x, Pow2(k), n);
    forall i: nat ensures Bit(Or(x, Pow2(k)), i) <==> Bit(x, i) || i == k {
      OrBit(x, Pow2(k), i);
      Pow2Bit(k, i);
    }
  }

  lemma {:induction false} Pow2Below(k: nat, n: nat)
    requires k < n
    ensures Pow2(k) < Pow2(n)
  {
    Pow2Monotonic(k + 1, n);
  }

  /** `x & ~BIT(k)` */
  lemma {:induction false} AndNotPow2(x: nat, k: nat)
    ensures AndNot(x, Pow2(k)) <= x && (AndNot(x, Pow2(k)) != 0 ==> x != 0)
    ensures forall i: nat :: Bit(AndNot(x, Pow2(k)), i) <==> Bit(x, i) && i != k
  {
    hide AndNot, Pow2, Bit;
    AndNotBelow(x, Pow2(k));
    forall i: nat ensures Bit(AndNot(x, Pow2(k)), i) <==> Bit(x, i) && i != k {
      AndNotBit(x, Pow2(k), i);
      Pow2Bit(k, i);
    }
  }

  lemma {:induction false} OnesBits(k: nat, i: nat)
    ensures Bit(Pow2(k) - 1, i) <==> i < k
  {
    if k > 0 {
      assert (Pow2(k) - 1) / 2 == Pow2(k - 1) - 1 && (Pow2(k) - 1) % 2 == 1;
      if i > 0 { OnesBits(k - 1, i - 1); }
    } else {
      ZeroBits(i);
    }
  }

  /** Words with the same bits are the same word. */
  lemma {:induction false} SameBits(x: nat, y: nat, n: nat)
    requires x < Pow2(n) && y < Pow2(n)
    requires forall i: nat :: i < n ==> Bit(x, i) == Bit(y, i)
    ensures x == y
  {
    if n > 0 {
      assert Bit(x, 0) == Bit(y, 0);
      forall i: nat | i < n - 1 ensures Bit(x / 2, i) == Bit(y / 2, i) {
        assert Bit(x, i + 1) == Bit(y, i + 1);
      }
      SameBits(x / 2, y / 2, n - 1);
    }
  }

  lemma {:induction false} AndBit(x: nat, y: nat, i: nat)
    ensures Bit(And(x, y), i) <==> Bit(x, i) && Bit(y, i)
    decreases i
  {
    if x == 0 {
      ZeroBits(i);
    } else if i > 0 {
      assert And(x, y) / 2 == And(x / 2, y / 2);
      AndBit(x / 2, y / 2, i - 1);
    }
  }

  lemma {:induction false} BelowPow2(x: nat)
    ensures x < Pow2(x)
  {
    if x > 0 { BelowPow2(x - 1); }
  }

  /** Numbers with the same bits are the same number. */
  lemma {:induction false} BitsDecide(x: nat, y: nat)
    requires forall i: nat :: Bit(x, i) == Bit(y, i)
    ensures x == y
  {
    hide Bit, Pow2;
    var n := if x < y then y else x;
    BelowPow2(x);
    BelowPow2(y);
    Pow2Monotonic(x, n);
    Pow2Monotonic(y, n);
    SameBits(x, y, n);
  }

  /** `(x & m) == m` */
  lemma {:induction false} AndIsMask(x: nat, m: nat)
    ensures And(x, m) == m <==> forall i: nat :: Bit(m, i) ==> Bit(x, i)
  {
    hide Bit, And;
    forall i: nat ensures Bit(And(x, m), i) <==> Bit(x, i) && Bit(m, i) { AndBit(x, m, i); }
    if forall i: nat :: Bit(m, i) ==> Bit(x, i) {
      BitsDecide(And(x, m), m);
    } else {
      var i: nat :| Bit(m, i) && !Bit(x, i);
      AndBit(x, m, i);
    }
  }

  /** `(x | m) == m` */
  lemma {:induction false} OrIsMask(x: nat, m: nat)
    ensures Or(x, m) == m <==> forall i: nat :: Bit(x, i) ==> Bit(m, i)
  {
    hide Bit, Or;
    forall i: nat ensures Bit(Or(x, m), i) <==> Bit(x, i) || Bit(m, i) { OrBit(x, m, i); }
    if forall i: nat :: Bit(x, i) ==> Bit(m, i) {
      BitsDecide(Or(x, m), m);
    } else {
      var i: nat :| Bit(x, i) && !Bit(m, i);
      OrBit(x, m, i);
    }
  }

  /** `x << k` */
  lemma {:induction false} ShiftBit(x: nat, k: nat, i: nat)
    ensures Bit(x * Pow2(k), i) <==> i >= k && Bit(x, i - k)
    decreases k
  {
    if k > 0 {
      var p := x * Pow2(k - 1);
      assert x * Pow2(k) == 2 * p by { MulAssociative(x, 2, Pow2(k - 1)); MulAssociative(2, x, Pow2(k - 1)); }
      if i > 0 {
        ShiftBit(x, k - 1, i - 1);
        assert (2 * p) / 2 == p;
      }
    }
  }

  /** `x >> k` */
  lemma {:induction false} UnshiftBit(x: nat, k: nat, i: nat)
    ensures Bit(Shr(x, k), i) <==> Bit(x, i + k)
    decreases k
  {
    if k > 0 {
      UnshiftBit(x / 2, k - 1, i);
      ShrShr(x, 1, k - 1);
      assert Pow2(1) == 2;
    }
  }

  /** `x & (2^k - 1)` */
  lemma {:induction false} LowBit(x: nat, k: nat, i: nat)
    ensures Bit(Low(x, k), i) <==> i < k && Bit(x, i)
    decreases k
  {
    if k == 0 {
      ZeroBits(i);
    } else {
      Digits(x, 2, Pow2(k - 1));
      assert x % Pow2(k) == 2 * ((x / 2) % Pow2(k - 1)) + x % 2;
      if i > 0 { LowBit(x / 2, k - 1, i - 1); }
    }
  }
}
