/** Machine words as natural numbers, with shifts and masks as arithmetic. */
module Words {

  const WORD_BITS: nat := 64

  function Pow2(n: nat): (r: nat)
    ensures r > 0
  {
    if n == 0 then 1 else 2 * Pow2(n - 1)
  }

  /** `x << k` in a word. */
  function Shl(x: nat, k: nat): nat { (x * Pow2(k)) % Pow2(WORD_BITS) }

  /** `x >> k` */
  function Shr(x: nat, k: nat): nat {
    DivNonNegative(x, Pow2(k));
    x / Pow2(k)
  }

  /** `x & MASK(k)` */
  function Low(x: nat, k: nat): nat { x % Pow2(k) }

  /** `(hi << k) | lo`, for `lo` below 2^k. */
  function Join(hi: nat, k: nat, lo: nat): nat {
    MulNonNegative(hi, Pow2(k));
    hi * Pow2(k) + lo
  }

  lemma {:induction false} MulNonNegative(a: nat, b: nat)
    ensures 0 <= a * b
  {
  }

  lemma {:induction false} JoinBound(hi: nat, a: nat, k: nat, lo: nat)
    requires hi < Pow2(a) && lo < Pow2(k)
    ensures Join(hi, k, lo) < Pow2(a + k)
  {
    Pow2Add(a, k);
    JoinBoundArith(hi, Pow2(a), Pow2(k), lo);
  }

  lemma {:induction false} JoinBoundArith(hi: nat, A: nat, K: nat, lo: nat)
    requires hi < A && lo < K
    ensures hi * K + lo < A * K
  {
    MulMonotonic(hi + 1, A, K);
    MulDistributes(K, hi, 1);
  }

  lemma {:induction false} Pow2Add(a: nat, b: nat)
    ensures Pow2(a + b) == Pow2(a) * Pow2(b)
  {
    if a > 0 {
      Pow2Add(a - 1, b);
      MulAssociative(2, Pow2(a - 1), Pow2(b));
    }
  }

  lemma {:induction false} Pow2Monotonic(a: nat, b: nat)
    requires a <= b
    ensures Pow2(a) <= Pow2(b)
  {
    if a < b { Pow2Monotonic(a, b - 1); }
  }

  lemma {:induction false} DivNonNegative(x: nat, d: nat)
    requires d > 0
    ensures 0 <= x / d
  {
  }

  lemma {:induction false} DivBound(x: nat, d: nat, q: nat)
    requires d > 0 && x < d * q
    ensures x / d < q
  {
    var k := x / d;
    assert x == d * k + x % d;
    if k >= q {
      MulMonotonic(q, k, d);
      assert false;
    }
  }

  lemma {:induction false} MulAssociative(a: int, b: int, c: int)
    ensures (a * b) * c == a * (b * c)
  {
  }

  lemma {:induction false} MulDistributes(a: int, b: int, c: int)
    ensures a * (b + c) == a * b + a * c
  {
  }

  lemma {:induction false} MulMonotonic(a: nat, b: nat, c: nat)
    requires a <= b
    ensures a * c <= b * c && c * a <= c * b
  {
  }

  lemma {:induction false} MulZero(d: int, k: int)
    requires d > 0 && k != 0
    ensures d * k >= d || d * k <= -d
  {
  }

  lemma {:induction false} DivModUnique(x: nat, d: nat, q: int, r: nat)
    requires d > 0 && x == d * q + r && r < d
    ensures x / d == q && x % d == r
  {
    var k := q - x / d;
    assert x == d * (x / d) + x % d;
    assert d * q == d * (x / d) + d * k by { MulDistributes(d, x / d, k); }
    if k != 0 {
      MulZero(d, k);
      assert false;
    }
  }

  /** `x` by its digits in the mixed base A, B. */
  lemma {:induction false} Digits(x: nat, A: nat, B: nat)
    requires A > 0 && B > 0
    ensures A * B > 0
    ensures x % (A * B) == A * ((x / A) % B) + x % A
  {
    var q, r := x / A, x % A;
    var s, t := q / B, q % B;
    MulMonotonic(1, B, A);
    assert q == B * s + t;
    calc {
      x;
      A * q + r;
      A * (B * s + t) + r;
      { MulDistributes(A, B * s, t); MulAssociative(A, B, s); }
      (A * B) * s + (A * t + r);
    }
    MulMonotonic(t, B - 1, A);
    MulDistributes(A, B, -1);
    MulMonotonic(0, t, A);
    DivModUnique(x, A * B, s, A * t + r);
  }

  /** Low and high parts of the low `a + b` bits. */
  lemma {:induction false} Slice(x: nat, a: nat, b: nat)
    ensures Shr(Low(x, a + b), a) == Low(Shr(x, a), b)
    ensures Low(Low(x, a + b), a) == Low(x, a)
    ensures Low(x, a + b) == Pow2(a) * Low(Shr(x, a), b) + Low(x, a)
  {
    Pow2Add(a, b);
    Digits(x, Pow2(a), Pow2(b));
    DivModUnique(Low(x, a + b), Pow2(a), Low(Shr(x, a), b), Low(x, a));
  }

  /** A shift left then right within a word keeps bits [64-b-g, 64-b). */
  lemma {:induction false} ShlShr(x: nat, b: nat, g: nat)
    requires b + g <= WORD_BITS
    ensures Shr(Shl(x, b), WORD_BITS - g) == Low(Shr(x, WORD_BITS - b - g), g)
  {
    var m := WORD_BITS - b;
    var y := Low(x, m);
    ScaleMod(x, m, b);
    assert Shl(x, b) == y * Pow2(b);
    ScaleDiv(y, m - g, b);
    Slice(x, m - g, g);
  }

  lemma {:induction false} ScaleMod(x: nat, m: nat, b: nat)
    ensures (x * Pow2(b)) % Pow2(m + b) == Low(x, m) * Pow2(b)
  {
    Pow2Add(m, b);
    ScaleDivMod(x, Pow2(m), Pow2(b));
  }

  lemma {:induction false} ScaleDiv(y: nat, k: nat, b: nat)
    ensures (y * Pow2(b)) / Pow2(k + b) == y / Pow2(k)
  {
    Pow2Add(k, b);
    ScaleDivMod(y, Pow2(k), Pow2(b));
  }

  lemma {:induction false} ScaleDivMod(x: nat, M: nat, B: nat)
    requires M > 0 && B > 0
    ensures M * B > 0 && (x * B) / (M * B) == x / M && (x * B) % (M * B) == (x % M) * B
  {
    var q, y := x / M, x % M;
    MulMonotonic(1, B, M);
    assert x == M * q + y;
    calc {
      x * B;
      (M * q + y) * B;
      { MulDistributes(B, M * q, y); }
      (M * q) * B + y * B;
      { MulAssociative(M, q, B); MulAssociative(M, B, q); }
      (M * B) * q + y * B;
    }
    MulMonotonic(0, y, B);
    MulMonotonic(y + 1, M, B);
    MulDistributes(B, y, 1);
    DivModUnique(x * B, M * B, q, y * B);
  }

  /** Two shifts left are one. */
  lemma {:induction false} ShlShl(x: nat, a: nat, b: nat)
    requires a + b <= WORD_BITS
    ensures Shl(Shl(x, a), b) == Shl(x, a + b)
  {
    var W := WORD_BITS;
    ScaleMod(x, W - a, a);
    var y := Low(x, W - a);
    assert Shl(x, a) == y * Pow2(a);
    assert (y * Pow2(a)) * Pow2(b) == y * Pow2(a + b) by {
      Pow2Add(a, b);
      MulAssociative(y, Pow2(a), Pow2(b));
    }
    ScaleMod(y, W - a - b, a + b);
    ScaleMod(x, W - a - b, a + b);
    Slice(x, W - a - b, b);
  }

  lemma {:induction false} ShrShr(x: nat, a: nat, b: nat)
    ensures Shr(Shr(x, a), b) == Shr(x, b + a)
  {
    Pow2Add(a, b);
    DivDiv(x, Pow2(a), Pow2(b));
  }

  lemma {:induction false} DivDiv(x: nat, A: nat, B: nat)
    requires A > 0 && B > 0
    ensures A * B > 0 && (x / A) / B == x / (A * B)
  {
    var q, r := x / A, x % A;
    var s, t := q / B, q % B;
    MulMonotonic(1, B, A);
    Nested(x, A, B, q, r, s, t);
    JoinBoundArith(t, B, A, r);
    MulNonNegative(t, A);
    DivModUnique(x, A * B, s, t * A + r);
  }

  lemma {:induction false} Nested(x: nat, A: nat, B: nat, q: nat, r: nat, s: nat, t: nat)
    requires x == A * q + r && q == B * s + t
    ensures x == (A * B) * s + (t * A + r)
  {
    MulDistributes(A, B * s, t);
    MulAssociative(A, B, s);
  }
}
