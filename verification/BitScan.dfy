/** The kernel's branch-free counts of leading and trailing zeros. */
module BitScan {
  import opened Words

  lemma {:induction false} Pow2Values()
    ensures Pow2(1) == 2 && Pow2(2) == 4 && Pow2(4) == 16 && Pow2(8) == 0x100 && Pow2(16) == 0x1_0000
    ensures Pow2(32) == 0x1_0000_0000 && Pow2(64) == 0x1_0000_0000_0000_0000
  {
    assert Pow2(1) == 2 && Pow2(2) == 4;
    Pow2Add(2, 2);
    Pow2Add(4, 4);
    Pow2Add(8, 8);
    Pow2Add(16, 16);
    hide Pow2;
    assert Pow2(32) == 0x1_0000_0000;
    Pow2Add(32, 32);
  }

  lemma {:induction false} MaskShift(w: nat)
    ensures Pow2(w + w) >= 1 && Shr(Pow2(w + w) - 1, w) == Pow2(w) - 1
  {
    var W := Pow2(w);
    Pow2Add(w, w);
    MulDistributes(W, W, -1);
    DivModUnique(Pow2(w + w) - 1, W, W - 1, W - 1);
  }

  lemma {:induction false} ShrZero(x: nat)
    ensures Shr(x, 0) == x
  {
    assert Pow2(0) == 1;
  }

  lemma {:induction false} ShrBound(x: nat, a: nat, b: nat)
    requires x < Pow2(a + b)
    ensures Shr(x, a) < Pow2(b)
  {
    Pow2Add(a, b);
    DivBound(x, Pow2(a), Pow2(b));
  }

  // ---------------------------------------------------------------------------
  // Leading zeros

  /** One of the unrolled iterations, on a focus of 2w bits. */
  method ClzIteration(x: nat, mask: nat, count: nat, w: nat) returns (x': nat, mask': nat, count': nat)
    requires mask == Pow2(w + w) - 1 && x < Pow2(w + w) && w <= count
    ensures mask' == Pow2(w) - 1 && x' < Pow2(w)
    ensures (count' == count || count' == count - w) && x' == Shr(x, count - count')
    ensures x' == 0 <==> x == 0
    ensures x == 0 ==> count' == count
  {
    hide Shr, Pow2;
    MaskShift(w);
    mask' := Shr(mask, w);
    var bits := if mask' < x then w else 0;
    x' := Shr(x, bits);
    count' := count - bits;
    ShrZero(x);
    if bits != 0 {
      ShrBound(x, w, w);
      ShrNonZero(x, w);
    }
  }

  lemma {:induction false} ShrNonZero(x: nat, w: nat)
    requires Pow2(w) <= x
    ensures Shr(x, w) > 0
  {
    assert x == Pow2(w) * (x / Pow2(w)) + x % Pow2(w);
  }

  /** What is left of `x0` after all iterations tells its highest bit. */
  lemma {:induction false} HighestBit(x0: nat, s: nat)
    requires Shr(x0, s) < 2
    ensures Shr(x0, s) == 1 ==> Pow2(s) <= x0 < Pow2(s + 1)
  {
    assert x0 == Pow2(s) * (x0 / Pow2(s)) + x0 % Pow2(s);
  }

  method Clz64(x0: nat) returns (r: nat)
    requires x0 < 0x1_0000_0000_0000_0000
    ensures x0 == 0 ==> r == 64
    ensures x0 != 0 ==> r < 64 && Pow2(63 - r) <= x0 < Pow2(64 - r)
  {
    hide Shr, Pow2;
    Pow2Values();
    ghost var c5;
    var x, mask, count := ClzIteration(x0, 0xFFFF_FFFF_FFFF_FFFF, 64, 32);
    c5 := count;
    x, mask, count := ClzIteration(x, mask, count, 16);
    ShrShr(x0, 64 - c5, c5 - count); c5 := count;
    x, mask, count := ClzIteration(x, mask, count, 8);
    ShrShr(x0, 64 - c5, c5 - count); c5 := count;
    x, mask, count := ClzIteration(x, mask, count, 4);
    ShrShr(x0, 64 - c5, c5 - count); c5 := count;
    x, mask, count := ClzIteration(x, mask, count, 2);
    ShrShr(x0, 64 - c5, c5 - count); c5 := count;
    x, mask, count := ClzIteration(x, mask, count, 1);
    ShrShr(x0, 64 - c5, c5 - count);
    HighestBit(x0, 64 - count);
    r := count - x;
  }

  method Clz32(x0: nat) returns (r: nat)
    requires x0 < 0x1_0000_0000
    ensures x0 == 0 ==> r == 32
    ensures x0 != 0 ==> r < 32 && Pow2(31 - r) <= x0 < Pow2(32 - r)
  {
    hide Shr, Pow2;
    Pow2Values();
    ghost var c4;
    var x, mask, count := ClzIteration(x0, 0xFFFF_FFFF, 32, 16);
    c4 := count;
    x, mask, count := ClzIteration(x, mask, count, 8);
    ShrShr(x0, 32 - c4, c4 - count); c4 := count;
    x, mask, count := ClzIteration(x, mask, count, 4);
    ShrShr(x0, 32 - c4, c4 - count); c4 := count;
    x, mask, count := ClzIteration(x, mask, count, 2);
    ShrShr(x0, 32 - c4, c4 - count); c4 := count;
    x, mask, count := ClzIteration(x, mask, count, 1);
    ShrShr(x0, 32 - c4, c4 - count);
    HighestBit(x0, 32 - count);
    r := count - x;
  }

  // ---------------------------------------------------------------------------
  // Trailing zeros

  /** `x` is `x0` without its lowest `s` bits, which were all zero; and if `x0`
      is not zero there is a one among the lowest `focus` bits of `x`. */
  ghost predicate Trailing(x0: nat, x: nat, s: nat, focus: nat) {
    && x == Shr(x0, s)
    && Low(x0, s) == 0
    && (x0 != 0 ==> Low(x, focus) != 0)
  }

  method CtzIteration(x: nat, mask: nat, count: nat, w: nat, ghost x0: nat, ghost s: nat)
    returns (x': nat, mask': nat, count': nat, ghost s': nat)
    requires mask == Pow2(w + w) - 1
    requires Trailing(x0, x, s, w + w)
    ensures mask' == Pow2(w) - 1
    ensures Trailing(x0, x', s', w)
    ensures count' - count == s' - s
    ensures s <= s' <= s + w
    ensures x0 == 0 ==> s' == s + w
  {
    hide Shr, Pow2, Low;
    MaskShift(w);
    mask' := Shr(mask, w);
    // x & mask, for a mask of w ones
    var bits := if Low(x, w) == 0 then w else 0;
    x' := Shr(x, bits);
    count' := count + bits;
    s' := s + bits;
    ShrZero(x);
    if bits != 0 {
      SkipZeros(x0, x, s, w);
    }
    if x0 == 0 { ZeroWord(s, w); }
  }

  lemma {:induction false} SkipZeros(x0: nat, x: nat, s: nat, w: nat)
    requires Trailing(x0, x, s, w + w) && Low(x, w) == 0
    ensures Trailing(x0, Shr(x, w), s + w, w)
  {
    hide Shr, Pow2, Low;
    Slice(x, w, w);
    Slice(x0, s, w);
    ShrShr(x0, s, w);
    assert w + s == s + w;
    assert Pow2(s) * 0 == 0 && Pow2(w) * 0 == 0;
  }

  lemma {:induction false} ZeroWord(s: nat, w: nat)
    ensures Shr(0, s) == 0 && Low(0, w) == 0 && Low(Shr(0, s), w) == 0
  {
    DivModUnique(0, Pow2(s), 0, 0);
    DivModUnique(0, Pow2(w), 0, 0);
  }

  method Ctz64(x0: nat) returns (r: nat)
    requires x0 < 0x1_0000_0000_0000_0000
    ensures x0 == 0 ==> r == 64
    ensures x0 != 0 ==> r < 64 && Low(x0, r) == 0 && Shr(x0, r) % 2 == 1
  {
    hide Shr, Pow2, Low, Trailing;
    Pow2Values();
    TrailingStart(x0, 64);
    var count := if x0 == 0 then 1 else 0;
    var x, mask;
    ghost var s;
    x, mask, count, s := CtzIteration(x0, 0xFFFF_FFFF_FFFF_FFFF, count, 32, x0, 0);
    x, mask, count, s := CtzIteration(x, mask, count, 16, x0, s);
    x, mask, count, s := CtzIteration(x, mask, count, 8, x0, s);
    x, mask, count, s := CtzIteration(x, mask, count, 4, x0, s);
    x, mask, count, s := CtzIteration(x, mask, count, 2, x0, s);
    x, mask, count, s := CtzIteration(x, mask, count, 1, x0, s);
    TrailingEnd(x0, x, s);
    r := count;
  }

  method Ctz32(x0: nat) returns (r: nat)
    requires x0 < 0x1_0000_0000
    ensures x0 == 0 ==> r == 32
    ensures x0 != 0 ==> r < 32 && Low(x0, r) == 0 && Shr(x0, r) % 2 == 1
  {
    hide Shr, Pow2, Low, Trailing;
    Pow2Values();
    TrailingStart(x0, 32);
    var count := if x0 == 0 then 1 else 0;
    var x, mask;
    ghost var s;
    x, mask, count, s := CtzIteration(x0, 0xFFFF_FFFF, count, 16, x0, 0);
    x, mask, count, s := CtzIteration(x, mask, count, 8, x0, s);
    x, mask, count, s := CtzIteration(x, mask, count, 4, x0, s);
    x, mask, count, s := CtzIteration(x, mask, count, 2, x0, s);
    x, mask, count, s := CtzIteration(x, mask, count, 1, x0, s);
    TrailingEnd(x0, x, s);
    r := count;
  }

  lemma {:induction false} TrailingEnd(x0: nat, x: nat, s: nat)
    requires Trailing(x0, x, s, 1)
    ensures x0 != 0 ==> Low(x0, s) == 0 && Shr(x0, s) % 2 == 1
  {
    hide Shr;
    assert Pow2(1) == 2;
  }

  lemma {:induction false} TrailingStart(x0: nat, n: nat)
    requires x0 < Pow2(n)
    ensures Trailing(x0, x0, 0, n)
  {
    ShrZero(x0);
    assert Pow2(0) == 1;
    DivModUnique(x0, Pow2(n), 0, x0);
  }
}
