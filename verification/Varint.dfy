/**
 Base-128 varints: the encoder that works on two 32-bit halves, the 64-bit and
 the 32-bit decoder, and the zig-zag map.
 */
module Varints {
  import opened Options
  import Words

  type byte = b: int | 0 <= b < 256

  const TWO_32: int := 0x1_0000_0000
  const TWO_63: int := 0x8000_0000_0000_0000
  const TWO_64: int := 0x1_0000_0000_0000_0000

  /** The canonical form: seven bits a byte, least significant first, the top
      bit set on every byte but the last. */
  function Varint(n: nat): (r: seq<byte>)
    ensures 0 < |r|
  {
    if n < 128 then [n] else [n % 128 + 128] + Varint(n / 128)
  }

  /** Only the last byte ends the number, and no shorter form has the same value. */
  predicate Canonical(r: seq<byte>) {
    && r != [] && r[|r| - 1] < 128
    && (forall i :: 0 <= i < |r| - 1 ==> r[i] >= 128)
    && (|r| > 1 ==> r[|r| - 1] != 0)
  }

  lemma {:induction false} VarintShape(n: nat)
    ensures Canonical(Varint(n))
  {
    if n >= 128 {
      VarintShape(n / 128);
      var t := Varint(n / 128);
      assert Varint(n) == [n % 128 + 128] + t;
      if n / 128 < 128 {
        assert t == [n / 128];
      }
    }
  }

  lemma {:induction false} VarintStep(n: nat)
    requires n >= 128
    ensures Varint(n) == [n % 128 + 128] + Varint(n / 128)
  {
  }

  lemma {:induction false} VarintByte(n: nat)
    requires n < 128
    ensures Varint(n) == [n]
  {
  }

  function Pow128(k: nat): (p: nat)
    ensures p > 0
  {
    if k == 0 then 1 else 128 * Pow128(k - 1)
  }

  /** A varint of k bytes is a number below 128^k. */
  lemma {:induction false} VarintLength(n: nat, k: nat)
    requires n < Pow128(k) && k > 0
    ensures |Varint(n)| <= k
    decreases k
  {
    assert Pow128(1) == 128;
    if n >= 128 {
      VarintLength(n / 128, k - 1);
    }
  }

  lemma {:induction false} VarintLengths(n: nat)
    ensures n < TWO_64 ==> |Varint(n)| <= 10
    ensures n < TWO_32 ==> |Varint(n)| <= 5
  {
    assert Pow128(2) == 0x4000;
    assert Pow128(4) == 0x1000_0000 by { assert Pow128(3) == 128 * Pow128(2); }
    assert Pow128(5) == 0x8_0000_0000;
    assert Pow128(7) == 128 * Pow128(6) && Pow128(6) == 128 * Pow128(5);
    assert Pow128(9) == 128 * Pow128(8) && Pow128(8) == 128 * Pow128(7);
    assert Pow128(10) == 128 * Pow128(9);
    if n < TWO_64 { VarintLength(n, 10); }
    if n < TWO_32 { VarintLength(n, 5); }
  }

  // ---------------------------------------------------------------------------
  // Encoding by halves

  /** After i groups: `rest` is the pending byte b, then `low`, then `high`. */
  ghost predicate LowGroups(i: int, b: int, low: int, high: int, rest: int) {
    && 0 <= i <= 4 && 0 <= b < 128 && 0 <= low && 0 <= high < TWO_32
    && (i == 0 ==> low < 0x200_0000 && rest == b + 128 * low + high * 0x1_0000_0000)
    && (i == 1 ==> low < 0x4_0000 && rest == b + 128 * low + high * 0x200_0000)
    && (i == 2 ==> low < 0x800 && rest == b + 128 * low + high * 0x4_0000)
    && (i == 3 ==> low < 0x10 && rest == b + 128 * low + high * 0x800)
    && (i == 4 ==> low == 0 && b < 16 && rest == b + high * 0x10)
  }

  lemma {:induction false} LowGroupsStart(low: nat, high: nat)
    requires low < TWO_32 && high < TWO_32
    ensures LowGroups(0, low % 128, low / 128, high, high * TWO_32 + low)
  {
  }

  lemma {:induction false} LowGroupsStep(i: int, b: int, low: int, high: int, rest: int)
    requires LowGroups(i, b, low, high, rest) && i < 4 && (low != 0 || high != 0)
    ensures rest >= 128 && rest % 128 == b
    ensures LowGroups(i + 1, low % 128, low / 128, high, rest / 128)
  {
  }

  /** The same for the second loop, which has only `high` left. */
  ghost predicate HighGroups(i: int, b: int, high: int, rest: int) {
    && 4 <= i <= 9 && 0 <= b < 128 && 0 <= high
    && rest == b + 128 * high
    && (i == 4 ==> high < 0x2000_0000)
    && (i == 5 ==> high < 0x40_0000)
    && (i == 6 ==> high < 0x8000)
    && (i == 7 ==> high < 0x100)
    && (i == 8 ==> high < 2)
    && (i == 9 ==> high == 0)
  }

  lemma {:induction false} HighGroupsStep(i: int, b: int, high: int, rest: int)
    requires HighGroups(i, b, high, rest) && high != 0
    ensures rest >= 128 && rest % 128 == b
    ensures i < 9 && HighGroups(i + 1, high % 128, high / 128, rest / 128)
  {
  }

  lemma {:induction false} HalvesMeet(i: int, b: int, low: int, high: int, rest: int)
    requires LowGroups(i, b, low, high, rest) && !(i < 4 && (low != 0 || high != 0))
    ensures high == 0 ==> rest == b < 128
    ensures high != 0 ==> HighGroups(i, b + 16 * (high % 8), high / 8, rest)
  {
  }

  method Put(buffer: array<byte>, i: nat, b: byte)
    requires i < buffer.Length
    modifies buffer
    ensures buffer[..i + 1] == old(buffer[..i]) + [b]
  {
    buffer[i] := b;
  }

  /** First loop of `pb_encode_varint_32`: up to four groups from the low half. */
  method PutLowGroups(buffer: array<byte>, lowHalf: nat, high: nat)
    returns (i: nat, b: nat, ghost low: nat, ghost rest: nat)
    requires lowHalf < TWO_32 && high < TWO_32 && buffer.Length == 10
    modifies buffer
    ensures LowGroups(i, b, low, high, rest) && !(i < 4 && (low != 0 || high != 0)) && i <= 4
    ensures Varint(high * TWO_32 + lowHalf) == buffer[..i] + Varint(rest)
  {
    hide Varint, LowGroups;
    LowGroupsStart(lowHalf, high);
    i, b := 0, lowHalf % 128;
    var l: nat := lowHalf / 128;
    rest := high * TWO_32 + lowHalf;
    while i < 4 && (l != 0 || high != 0)
      invariant i <= 4 && b < 128
      invariant LowGroups(i, b, l, high, rest)
      invariant Varint(high * TWO_32 + lowHalf) == buffer[..i] + Varint(rest)
      decreases 4 - i
    {
      LowGroupsStep(i, b, l, high, rest);
      VarintStep(rest);
      Put(buffer, i, b + 128);
      i := i + 1;
      b := l % 128;
      l := l / 128;
      rest := rest / 128;
    }
    low := l;
  }

  /** Second loop: the groups that are left in the high half. */
  method PutHighGroups(buffer: array<byte>, i0: nat, b0: nat, high0: nat, ghost rest0: nat)
    returns (i: nat, b: nat)
    requires buffer.Length == 10 && HighGroups(i0, b0, high0, rest0) && i0 <= 9
    modifies buffer
    ensures i <= 9 && b < 128
    ensures old(buffer[..i0]) + Varint(rest0) == buffer[..i] + Varint(b)
  {
    hide Varint, HighGroups;
    i, b := i0, b0;
    var high := high0;
    ghost var rest := rest0;
    HighGroupsBounds(i, b, high, rest);
    while high != 0
      invariant i <= 9 && b < 128 && rest == b + 128 * high
      invariant HighGroups(i, b, high, rest)
      invariant old(buffer[..i0]) + Varint(rest0) == buffer[..i] + Varint(rest)
      decreases high
    {
      HighGroupsStep(i, b, high, rest);
      VarintStep(rest);
      Put(buffer, i, b + 128);
      i := i + 1;
      b := high % 128;
      high := high / 128;
      rest := rest / 128;
      HighGroupsBounds(i, b, high, rest);
    }
  }

  /** `pb_encode_varint_32`: canonical, in at most ten bytes, without a 64-bit
      shift. */
  method EncodeVarint32(low: nat, high: nat) returns (out: seq<byte>)
    requires low < TWO_32 && high < TWO_32
    ensures out == Varint(high * TWO_32 + low)
    ensures Canonical(out) && |out| <= 10
  {
    hide Varint, LowGroups, HighGroups, Canonical;
    var buffer := new byte[10](_ => 0);
    var i, b, l, rest := PutLowGroups(buffer, low, high);
    HalvesMeet(i, b, l, high, rest);
    if high != 0 {
      i, b := PutHighGroups(buffer, i, b + 16 * (high % 8), high / 8, rest);
    }
    VarintByte(b);
    Put(buffer, i, b);
    out := buffer[..i + 1];
    VarintShape(high * TWO_32 + low);
  }

  lemma {:induction false} HighGroupsBounds(i: int, b: int, high: int, rest: int)
    requires HighGroups(i, b, high, rest)
    ensures 4 <= i <= 9 && 0 <= b < 128 && 0 <= high && rest == b + 128 * high
  {
  }

  /** `pb_encode_varint` */
  method EncodeVarint(value: nat) returns (out: seq<byte>)
    requires value < TWO_64
    ensures out == Varint(value) && |out| <= 10
  {
    if value <= 0x7F {
      out := [value];
    } else {
      out := EncodeVarint32(value % TWO_32, value / TWO_32);
    }
  }

  // ---------------------------------------------------------------------------
  // Decoding

  /** A decoded number and the bytes after it. */
  datatype Decoded = Decoded(value: nat, rest: seq<byte>)

  /** The number that a group of varint bytes spells, without any width limit. */
  function Spelled(s: seq<byte>): nat {
    if s == [] then 0 else s[0] % 128 + 128 * Spelled(s[1..])
  }

  /** The bytes up to and including the first without a top bit, if that is one
      of the first `limit`. */
  function Group(s: seq<byte>, limit: nat): Option<nat> {
    if s == [] || limit == 0 then None
    else if s[0] < 128 then Some(1)
    else
      var k := Group(s[1..], limit - 1);
      if k == None then None else Some(k.value + 1)
  }

  lemma {:induction false} GroupBound(s: seq<byte>, limit: nat)
    ensures Group(s, limit).Some? ==> 0 < Group(s, limit).value <= |s| && Group(s, limit).value <= limit
  {
    if s != [] && limit > 0 && s[0] >= 128 { GroupBound(s[1..], limit - 1); }
  }

  /** `pb_decode_varint`: at most ten bytes, bits from 64 on lost. */
  function DecodeVarint(s: seq<byte>): (r: Option<Decoded>)
    ensures r.Some? ==> r.value.value < TWO_64 && |r.value.rest| < |s|
  {
    GroupBound(s, 10);
    var k := Group(s, 10);
    if k == None then None else Some(Decoded(Spelled(s[..k.value]) % TWO_64, s[k.value..]))
  }

  lemma {:induction false} GroupOfVarint(n: nat, rest: seq<byte>, limit: nat)
    requires |Varint(n)| <= limit
    ensures Group(Varint(n) + rest, limit) == Some(|Varint(n)|)
    decreases limit
  {
    if n >= 128 {
      assert (Varint(n) + rest)[1..] == Varint(n / 128) + rest;
      GroupOfVarint(n / 128, rest, limit - 1);
    }
  }

  lemma {:induction false} SpelledVarint(n: nat)
    ensures Spelled(Varint(n)) == n
  {
    if n >= 128 {
      assert Varint(n)[1..] == Varint(n / 128);
      SpelledVarint(n / 128);
    } else {
      assert Varint(n)[1..] == [];
    }
  }

  /** Decoding undoes encoding, for every 64-bit value and whatever follows. */
  lemma {:induction false} VarintRoundTrip(n: nat, rest: seq<byte>)
    requires n < TWO_64
    ensures DecodeVarint(Varint(n) + rest) == Some(Decoded(n, rest))
  {
    hide Varint, Spelled, Group;
    VarintLengths(n);
    GroupOfVarint(n, rest, 10);
    SpelledVarint(n);
    var s := Varint(n) + rest;
    assert s[..|Varint(n)|] == Varint(n) && s[|Varint(n)|..] == rest;
  }

  // ---------------------------------------------------------------------------
  // The 32-bit decoder

  /** `(x << 7k)` in 32 bits, for a group of seven bits. */
  function Shift32(x: nat, k: nat): nat
    requires x < 128 && k < 5
  {
    if k == 0 then x
    else if k == 1 then x * 0x80
    else if k == 2 then x * 0x4000
    else if k == 3 then x * 0x20_0000
    else (x % 16) * 0x1000_0000
  }

  /** The loop of `pb_decode_varint32_eof` from byte k on (bit position 7k), with
      the bits gathered so far: groups past bit 32 must be zero, or continue the
      sign of a negative number up to bit 64. */
  function Decode32From(s: seq<byte>, k: nat, result: nat): (r: Option<Decoded>)
    ensures r.Some? ==> |r.value.rest| < |s|
    decreases |s|
  {
    if s == [] then None
    else
      var b := s[0];
      var bitpos := 7 * k;
      var signExtension := if bitpos < 63 then 0xFF else 0x01;
      var validExtension := b % 128 == 0 || (result >= 0x8000_0000 && b == signExtension);
      if bitpos >= 32 && (bitpos >= 64 || !validExtension) then None
      else
        var result' := if bitpos >= 32 then result else result + Shift32(b % 128, k);
        if b >= 128 then Decode32From(s[1..], k + 1, result')
        else if bitpos + 7 == 35 && (b / 16) % 8 != 0 then None
        else Some(Decoded(result', s[1..]))
  }

  /** `pb_decode_varint32` */
  function DecodeVarint32(s: seq<byte>): (r: Option<Decoded>)
    ensures r.Some? ==> |r.value.rest| < |s|
  {
    if s == [] then None
    else if s[0] < 128 then Some(Decoded(s[0], s[1..]))
    else Decode32From(s[1..], 1, s[0] % 128)
  }

  function Weight(k: nat): (w: nat)
    ensures w > 0 && (k >= 5 ==> w % TWO_32 == 0)
  {
    if k == 0 then 1
    else if k == 1 then 0x80
    else if k == 2 then 0x4000
    else if k == 3 then 0x20_0000
    else if k == 4 then 0x1000_0000
    else if k == 5 then 0x8_0000_0000
    else 128 * Weight(k - 1)
  }

  lemma {:induction false} ModAdd(a: nat, b: nat, m: nat)
    requires m > 0
    ensures (a % m + b) % m == (a + b) % m
  {
    var q := a / m;
    assert a == m * q + a % m;
    ModMultiple(a % m + b, q, m);
    assert a + b == (a % m + b) + m * q;
  }

  lemma {:induction false} ModMultiple(a: nat, q: nat, m: nat)
    requires m > 0
    ensures (a + m * q) % m == a % m
  {
    Words.MulDistributes(m, a / m, q);
    Words.DivModUnique(a + m * q, m, a / m + q, a % m);
  }

  lemma {:induction false} Shift32IsModular(x: nat, k: nat)
    requires x < 128 && k < 5
    ensures Shift32(x, k) == (x * Weight(k)) % TWO_32
  {
    if k == 4 {
      assert x == 16 * (x / 16) + x % 16;
      assert x * 0x1000_0000 == TWO_32 * (x / 16) + (x % 16) * 0x1000_0000;
    }
  }

  lemma {:induction false} Shift32Bound(x: nat, k: nat, result: nat)
    requires x < 128 && 1 <= k < 5 && result < Weight(k)
    ensures result + Shift32(x, k) < TWO_32 && (k < 4 ==> result + Shift32(x, k) < Weight(k + 1))
  {
  }

  /** The 32-bit value of a number whose groups below k are `result` and whose
      groups from k on spell n. */
  ghost function Low32(k: nat, result: nat, n: nat): nat {
    (result + Weight(k) * n) % TWO_32
  }

  /** Moving one group from the spelled part to the gathered part. */
  lemma {:induction false} NextGroup(k: nat, result: nat, x: nat, n: nat)
    requires 1 <= k && x < 128 && result < TWO_32
    ensures k < 5 ==> Low32(k + 1, result + Shift32(x, k), n) == Low32(k, result, x + 128 * n)
    ensures k >= 5 ==> Low32(k + 1, result, n) == Low32(k, result, x + 128 * n)
  {
    var w := Weight(k);
    var z := (128 * w) * n;
    assert Weight(k + 1) == 128 * w;
    assert w * (x + 128 * n) == x * w + z by {
      Words.MulDistributes(w, x, 128 * n);
      Words.MulAssociative(w, 128, n);
    }
    if k < 5 {
      Shift32IsModular(x, k);
      ModAdd(x * w, result + z, TWO_32);
    } else {
      HighGroupsVanish(k, result, x, n);
    }
  }

  lemma {:induction false} HighGroupsVanish(k: nat, result: nat, x: nat, n: nat)
    requires k >= 5
    ensures Low32(k, result, n) == result % TWO_32
    ensures Low32(k + 1, result, n) == result % TWO_32
    ensures Low32(k, result, x + 128 * n) == result % TWO_32
  {
    WeightVanishes(Weight(k), result, n);
    WeightVanishes(Weight(k + 1), result, n);
    WeightVanishes(Weight(k), result, x + 128 * n);
  }

  lemma {:induction false} WeightVanishes(w: nat, result: nat, n: nat)
    requires w % TWO_32 == 0
    ensures (result + w * n) % TWO_32 == result % TWO_32
  {
    var q := w / TWO_32;
    assert w == TWO_32 * q;
    Words.MulAssociative(TWO_32, q, n);
    Words.MulNonNegative(q, n);
    ModMultiple(result, q * n, TWO_32);
  }

  function Gathered(k: nat, result: nat, b: byte): nat {
    if k >= 5 then result else result + Shift32(b % 128, k)
  }

  lemma {:induction false} Decode32Unfold(s: seq<byte>, k: nat, result: nat)
    requires 1 <= k && Decode32From(s, k, result).Some?
    ensures s != [] && k < 10
    ensures s[0] >= 128 ==> Decode32From(s, k, result) == Decode32From(s[1..], k + 1, Gathered(k, result, s[0]))
    ensures s[0] < 128 ==> Decode32From(s, k, result) == Some(Decoded(Gathered(k, result, s[0]), s[1..]))
  {
    hide Shift32;
  }

  lemma {:induction false} SpelledStep(s: seq<byte>, g: nat)
    requires 0 < g <= |s|
    ensures Spelled(s[..g]) == s[0] % 128 + 128 * Spelled(s[1..][..g - 1])
  {
    assert s[..g][1..] == s[1..][..g - 1];
  }

  /** Whenever the 32-bit decoder accepts, the bytes it takes are one varint
      group of at most ten bytes and its result is that number modulo 2^32. */
  lemma {:induction false} Decode32Agrees(s: seq<byte>, k: nat, result: nat)
    requires 1 <= k <= 10 && result < TWO_32 && (k < 5 ==> result < Weight(k))
    requires Decode32From(s, k, result).Some?
    ensures Group(s, 10 - k).Some?
    ensures var g, d := Group(s, 10 - k).value, Decode32From(s, k, result).value;
            && 0 < g <= |s| && d.rest == s[g..]
            && d.value == Low32(k, result, Spelled(s[..g]))
    decreases |s|
  {
    hide *;
    Decode32Unfold(s, k, result);
    GroupStep(s, 10 - k);
    GatheredBound(k, result, s[0]);
    if s[0] >= 128 {
      Decode32Agrees(s[1..], k + 1, Gathered(k, result, s[0]));
      var g := Group(s[1..], 9 - k).value;
      SpelledStep(s, g + 1);
      assert s[1..][g..] == s[g + 1..];
      NextGathered(k, result, s[0], Spelled(s[1..][..g]));
    } else {
      SpelledStep(s, 1);
      SpelledNothing(s[1..]);
      NextGathered(k, result, s[0], 0);
      NothingLeft(k + 1, Gathered(k, result, s[0]));
    }
  }

  lemma {:induction false} GroupStep(s: seq<byte>, limit: nat)
    requires s != [] && limit > 0
    ensures s[0] < 128 ==> Group(s, limit) == Some(1)
    ensures s[0] >= 128 && Group(s[1..], limit - 1).Some? ==>
              Group(s, limit) == Some(Group(s[1..], limit - 1).value + 1)
  {
  }

  lemma {:induction false} GatheredBound(k: nat, result: nat, b: byte)
    requires 1 <= k <= 10 && result < TWO_32 && (k < 5 ==> result < Weight(k))
    ensures Gathered(k, result, b) < TWO_32 && (k + 1 < 5 ==> Gathered(k, result, b) < Weight(k + 1))
  {
    hide Weight, Shift32;
    if k < 5 { Shift32Bound(b % 128, k, result); }
  }

  lemma {:induction false} NextGathered(k: nat, result: nat, b: byte, n: nat)
    requires 1 <= k && result < TWO_32
    ensures Low32(k + 1, Gathered(k, result, b), n) == Low32(k, result, b % 128 + 128 * n)
  {
    hide Low32, Shift32;
    NextGroup(k, result, b % 128, n);
  }

  lemma {:induction false} SpelledNothing(s: seq<byte>)
    ensures Spelled(s[..0]) == 0
  {
  }

  lemma {:induction false} NothingLeft(k: nat, result: nat)
    requires result < TWO_32
    ensures Low32(k, result, 0) == result
  {
  }

  /** The 32-bit decoder accepts only what the 64-bit decoder accepts, takes the
      same bytes, and agrees with it modulo 2^32. */
  lemma {:induction false} Varint32RefinesVarint(s: seq<byte>)
    requires DecodeVarint32(s).Some?
    ensures DecodeVarint(s).Some?
    ensures DecodeVarint32(s).value.rest == DecodeVarint(s).value.rest
    ensures DecodeVarint32(s).value.value == DecodeVarint(s).value.value % TWO_32
  {
    if s[0] < 128 {
      assert s[..1][1..] == [];
      assert Spelled(s[..1]) == s[0];
    } else {
      Decode32Agrees(s[1..], 1, s[0] % 128);
      var g := Group(s[1..], 9).value;
      assert s[1..][g..] == s[g + 1..];
      assert s[..g + 1][1..] == s[1..][..g];
      assert Spelled(s[..g + 1]) == s[0] % 128 + 128 * Spelled(s[1..][..g]);
      ModOfMod(Spelled(s[..g + 1]));
    }
  }

  lemma {:induction false} ModOfMod(x: nat)
    ensures (x % TWO_64) % TWO_32 == x % TWO_32
  {
    var h, l := x / TWO_64, x % TWO_64;
    assert x == TWO_32 * (TWO_32 * h + l / TWO_32) + l % TWO_32;
    Words.DivModUnique(x, TWO_32, TWO_32 * h + l / TWO_32, l % TWO_32);
  }

  /** Taking one group off a number that still fits. */
  lemma {:induction false} TakeGroup(r: nat, k: nat, result: nat)
    requires 1 <= k <= 4 && result < Weight(k) && result + Weight(k) * r < TWO_32
    ensures r < 128 ==> result + Shift32(r, k) == result + Weight(k) * r && (k == 4 ==> r < 16)
    ensures r >= 128 ==> k < 4
    ensures r >= 128 ==> result + Shift32(r % 128, k) < Weight(k + 1)
    ensures r >= 128 ==> result + Shift32(r % 128, k) + Weight(k + 1) * (r / 128) == result + Weight(k) * r
  {
    if r >= 128 {
      assert r == 128 * (r / 128) + r % 128;
    }
  }

  /** One byte below bit 32. */
  lemma {:induction false} Decode32Byte(s: seq<byte>, k: nat, result: nat)
    requires s != [] && k < 5
    ensures Decode32From(s, k, result) ==
            if s[0] >= 128 then Decode32From(s[1..], k + 1, result + Shift32(s[0] % 128, k))
            else if k == 4 && (s[0] / 16) % 8 != 0 then None
            else Some(Decoded(result + Shift32(s[0] % 128, k), s[1..]))
  {
    hide Shift32;
  }

  lemma {:induction false} Decode32OfVarint(r: nat, k: nat, result: nat, rest: seq<byte>)
    requires 1 <= k <= 4 && result < Weight(k) && result + Weight(k) * r < TWO_32
    ensures Decode32From(Varint(r) + rest, k, result) == Some(Decoded(result + Weight(k) * r, rest))
    decreases r
  {
    hide Varint, Weight, Shift32, Decode32From;
    var s := Varint(r) + rest;
    TakeGroup(r, k, result);
    Decode32Byte(s, k, result);
    if r >= 128 {
      VarintStep(r);
      assert s[1..] == Varint(r / 128) + rest;
      Decode32OfVarint(r / 128, k + 1, result + Shift32(r % 128, k), rest);
    } else {
      VarintByte(r);
      assert s[1..] == rest;
    }
  }

  /** The 32-bit decoder undoes the encoder on every 32-bit value. */
  lemma {:induction false} Varint32RoundTrip(n: nat, rest: seq<byte>)
    requires n < TWO_32
    ensures DecodeVarint32(Varint(n) + rest) == Some(Decoded(n, rest))
  {
    hide Varint, Decode32From;
    var s := Varint(n) + rest;
    if n >= 128 {
      VarintStep(n);
      assert s[1..] == Varint(n / 128) + rest;
      Decode32OfVarint(n / 128, 1, n % 128, rest);
    } else {
      VarintByte(n);
      assert s[1..] == rest;
    }
  }

  // ---------------------------------------------------------------------------
  // Zig-zag

  /** `pb_encode_svarint`'s map from signed to unsigned: `~(value << 1)` for a
      negative value, with 64-bit words. */
  function ZigZag(value: int): nat
    requires -TWO_63 <= value < TWO_63
  {
    var doubled := (2 * value) % TWO_64;
    if value < 0 then TWO_64 - 1 - doubled else doubled
  }

  /** `pb_decode_svarint`: `~(value >> 1)` for an odd value, read as signed. */
  function UnZigZag(value: nat): int
    requires value < TWO_64
  {
    var half := value / 2;
    if value % 2 == 1 then Signed64(TWO_64 - 1 - half) else Signed64(half)
  }

  function Signed64(x: nat): int
    requires x < TWO_64
  {
    if x < TWO_63 then x else x - TWO_64
  }

  /** The zig-zag map is a bijection between the two 64-bit ranges that keeps
      numbers near zero small. */
  lemma {:induction false} ZigZagRoundTrip(value: int)
    requires -TWO_63 <= value < TWO_63
    ensures ZigZag(value) < TWO_64 && UnZigZag(ZigZag(value)) == value
    ensures ZigZag(value) == if value < 0 then -2 * value - 1 else 2 * value
  {
    if value < 0 {
      assert (2 * value) % TWO_64 == 2 * value + TWO_64;
    }
  }

  lemma {:induction false} UnZigZagRoundTrip(n: nat)
    requires n < TWO_64
    ensures -TWO_63 <= UnZigZag(n) < TWO_63 && ZigZag(UnZigZag(n)) == n
  {
    if n % 2 == 1 {
      assert UnZigZag(n) == -(n / 2) - 1;
      ZigZagRoundTrip(UnZigZag(n));
    }
  }
}
