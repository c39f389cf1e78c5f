/**
 The bytes that the encoder writes, told without the encoder: what a reader of the
 wire format finds in them.
 */
module WireForm {
  import opened Options
  import opened Varints
  import opened Proto
  import opened ProtoRoundTrip
  import opened ProtoSafety
  import opened ProtoMeaning
  import Words

  // ---------------------------------------------------------------------------
  // Integers

  /** The 64-bit word of a signed number. */
  function TwosComplement(i: int): int { if i < 0 then TWO_64 + i else i }

  lemma {:induction false} LongEnough(n: nat, k: nat)
    requires n >= Pow128(k)
    ensures |Varint(n)| > k
    decreases k
  {
    if k > 0 {
      assert Pow128(k) == 128 * Pow128(k - 1) >= 128;
      LongEnough(n / 128, k - 1);
    }
  }

  lemma {:induction false} TenBytes(n: nat)
    requires TWO_63 <= n < TWO_64
    ensures |Varint(n)| == 10
  {
    hide Varint;
    VarintLengths(n);
    assert Pow128(9) == TWO_63 by { assert Pow128(5) == 128 * Pow128(4) && Pow128(7) == 128 * Pow128(6); }
    LongEnough(n, 9);
  }

  /** Signed numbers of every size are written as 64 bits: negative ones take ten
      bytes, and a reader of 64-bit numbers finds the same value. */
  lemma {:induction false} SignedWire(size: nat, i: int, rest: seq<byte>)
    requires IntSize(size) && InSigned(i, size)
    ensures DecodeVarint(EncValue(LVarint(size), VInt(i)) + rest) == Some(Decoded(TwosComplement(i), rest))
    ensures i < 0 ==> |EncValue(LVarint(size), VInt(i))| == 10
  {
    hide DecodeVarint, Varint;
    assert i % TWO_64 == TwosComplement(i);
    VarintRoundTrip(i % TWO_64, rest);
    if i < 0 { TenBytes(i % TWO_64); }
  }

  lemma {:induction false} UnsignedWire(lt: LType, i: int, rest: seq<byte>)
    requires (lt.LBool? || lt.LUvarint?) && LTypeOk(lt) && Typed(lt, VInt(i))
    ensures DecodeVarint(EncValue(lt, VInt(i)) + rest) == Some(Decoded(i, rest))
  {
    hide DecodeVarint, Varint;
    assert i % TWO_64 == i;
    VarintRoundTrip(i, rest);
  }

  /** Zig-zag: 0, -1, 1, -2, ... as 0, 1, 2, 3, ... */
  lemma {:induction false} ZigZagWire(size: nat, i: int, rest: seq<byte>)
    requires IntSize(size) && InSigned(i, size)
    ensures DecodeVarint(EncValue(LSvarint(size), VInt(i)) + rest)
         == Some(Decoded(if i < 0 then -2 * i - 1 else 2 * i, rest))
  {
    hide DecodeVarint, Varint, ZigZag;
    ZigZagRoundTrip(i);
    ZigZagIs(i);
    VarintRoundTrip(ZigZag(i), rest);
  }

  lemma {:induction false} ZigZagIs(i: int)
    requires -TWO_63 <= i < TWO_63
    ensures ZigZag(i) == if i < 0 then -2 * i - 1 else 2 * i
  {
  }

  lemma {:induction false} DigitAt(n: nat, k: nat, j: nat)
    requires j < k
    ensures LittleEndian(n, k)[j] == (n / Pow256(j)) % 256
    decreases k
  {
    if j == 0 {
      assert n / 1 == n;
    } else {
      DigitAt(n / 256, k - 1, j - 1);
      Words.DivDiv(n, 256, Pow256(j - 1));
    }
  }

  /** Fixed-width numbers: four or eight bytes, the lowest first. */
  lemma {:induction false} FixedWire(lt: LType, i: int, j: nat)
    requires (lt.LFixed32? && 0 <= i < TWO_32 && j < 4) || (lt.LFixed64? && 0 <= i < TWO_64 && j < 8)
    ensures |EncValue(lt, VInt(i))| == (if lt.LFixed32? then 4 else 8)
    ensures EncValue(lt, VInt(i))[j] == (i / Pow256(j)) % 256
  {
    hide LittleEndian;
    var k := if lt.LFixed32? then 4 else 8;
    assert EncValue(lt, VInt(i)) == LittleEndian(i, k);
    DigitAt(i, k, j);
  }

  /** Bytes, strings and submessages: their length, and then themselves. */
  lemma {:induction false} LengthWire(lt: LType, v: Value, rest: seq<byte>)
    requires LTypeOk(lt) && Typed(lt, v) && Fits(lt, v) && Short(lt, v) && !Packable(lt)
    ensures var body := if lt.LSubmsg? then EncMsg(lt.fields, v.slots) else v.bytes;
            && DecodeVarint(EncValue(lt, v) + rest) == Some(Decoded(|body|, body + rest))
            && |EncValue(lt, v)| == |Varint(|body|)| + |body|
  {
    hide DecodeVarint, Varint, EncMsg;
    var body := if lt.LSubmsg? then EncMsg(lt.fields, v.slots) else v.bytes;
    assert EncValue(lt, v) == Varint(|body|) + body;
    assert EncValue(lt, v) + rest == Varint(|body|) + (body + rest);
    VarintRoundTrip(|body|, body + rest);
  }

  // ---------------------------------------------------------------------------
  // Keys

  /** Wire types as the format numbers them. */
  function WireNumber(lt: LType): nat {
    match lt
    case LFixed64 => 1
    case LFixed32 => 5
    case LBytes(_) => 2
    case LString(_) => 2
    case LFixedBytes(_) => 2
    case LSubmsg(_) => 2
    case _ => 0
  }

  /** A value on its own: the key, and then the value. */
  lemma {:induction false} KeyWire(f: Field, v: Value, rest: seq<byte>)
    requires FieldOk(f)
    ensures DecodeVarint(EncTagged(f, v) + rest)
         == Some(Decoded(8 * f.tag + WireNumber(f.ltype), EncValue(f.ltype, v) + rest))
    ensures f.tag < 16 ==> EncTagged(f, v) == [8 * f.tag + WireNumber(f.ltype)] + EncValue(f.ltype, v)
  {
    hide DecodeVarint, EncValue;
    TagInRange(f);
    var key, body := 8 * f.tag + WireNumber(f.ltype), EncValue(f.ltype, v) + rest;
    assert Tag(WireType(f.ltype), f.tag) == Varint(key);
    assert EncTagged(f, v) + rest == Varint(key) + body;
    VarintRoundTrip(key, body);
  }

  /** A packed array: the key with wire type 2, the length, and the values. */
  lemma {:induction false} PackedWire(f: Field, vs: seq<Value>, rest: seq<byte>)
    requires FieldOk(f) && Packable(f.ltype) && vs != [] && |EncValues(f.ltype, vs)| < TWO_64
    ensures var body := EncValues(f.ltype, vs);
            && DecodeVarint(EncSlot(f, Many(vs)) + rest)
               == Some(Decoded(8 * f.tag + 2, Varint(|body|) + body + rest))
            && DecodeVarint(Varint(|body|) + body + rest) == Some(Decoded(|body|, body + rest))
  {
    hide DecodeVarint, EncValues, Varint;
    TagInRange(f);
    var body := EncValues(f.ltype, vs);
    assert EncSlot(f, Many(vs)) + rest == Varint(8 * f.tag + 2) + (Varint(|body|) + body + rest);
    VarintRoundTrip(8 * f.tag + 2, Varint(|body|) + body + rest);
    assert Varint(|body|) + body + rest == Varint(|body|) + (body + rest);
    VarintRoundTrip(|body|, body + rest);
  }

  // ---------------------------------------------------------------------------
  // The records of a message

  /** The key of a record. */
  datatype Key = Key(tag: nat, wireType: nat)

  function Copies(key: Key, n: nat): seq<Key> { seq(n, _ => key) }

  /** One record for a value, one for a packed array, one for each element of any
      other array. */
  function SlotKeys(f: Field, slot: Slot): seq<Key> {
    if !Written(f, slot) then []
    else
      match slot
      case Many(vs) =>
        if Packable(f.ltype) then [Key(f.tag, 2)] else Copies(Key(f.tag, WireNumber(f.ltype)), |vs|)
      case _ => [Key(f.tag, WireNumber(f.ltype))]
  }

  /** Field by field, in the order of the descriptor. */
  function MsgKeys(fs: seq<Field>, m: seq<Slot>): seq<Key> {
    if fs == [] || m == [] then [] else SlotKeys(fs[0], m[0]) + MsgKeys(fs[1..], m[1..])
  }

  function KeysOf(recs: seq<Rec>): seq<Key> {
    if recs == [] then [] else [Key(recs[0].tag, recs[0].wireType)] + KeysOf(recs[1..])
  }

  /** The bytes start with records of these keys, and go on with the rest. */
  ghost predicate Starts(s: seq<byte>, keys: seq<Key>, rest: seq<byte>) {
    Records(rest).Some? ==> Records(s).Some? && KeysOf(Records(s).value) == keys + KeysOf(Records(rest).value)
  }

  lemma {:induction false} StartsOne(tag: nat, wireType: nat, body: seq<byte>, rest: seq<byte>)
    requires 0 < tag < MAX_TAG && wireType < 8 && Skip(wireType, body) == Some(rest)
    ensures Starts(Tag(wireType, tag) + body, [Key(tag, wireType)], rest)
  {
    hide Tag, Skip, DecodeVarint32;
    TagRoundTrip(wireType, tag, body);
    TagNotEmpty(wireType, tag);
    assert (tag * 8 + wireType) / 8 == tag && (tag * 8 + wireType) % 8 == wireType;
    if Records(rest).Some? {
      var r := Rec(tag, wireType, body);
      assert Records(Tag(wireType, tag) + body) == Some([r] + Records(rest).value);
      assert ([r] + Records(rest).value)[1..] == Records(rest).value;
    }
  }

  lemma {:induction false} StartsThen(s: seq<byte>, a: seq<Key>, t: seq<byte>, b: seq<Key>, rest: seq<byte>)
    requires Starts(s, a, t) && Starts(t, b, rest)
    ensures Starts(s, a + b, rest)
  {
    hide Records, KeysOf;
    if Records(rest).Some? {
      assert a + (b + KeysOf(Records(rest).value)) == (a + b) + KeysOf(Records(rest).value);
    }
  }

  lemma {:induction false} WireNumberIs(lt: LType)
    ensures WireType(lt) == WireNumber(lt) < 8
  {
  }

  lemma {:induction false} ValueRecord(f: Field, v: Value, rest: seq<byte>)
    requires FieldOk(f) && Typed(f.ltype, v) && Fits(f.ltype, v) && Short(f.ltype, v)
    ensures Starts(EncTagged(f, v) + rest, [Key(f.tag, WireNumber(f.ltype))], rest)
  {
    hide EncValue, Tag, Skip, Typed, Fits, Short, Starts;
    WireNumberIs(f.ltype);
    TagInRange(f);
    SkipsValue(f.ltype, v, rest);
    assert EncTagged(f, v) + rest == Tag(WireType(f.ltype), f.tag) + (EncValue(f.ltype, v) + rest);
    StartsOne(f.tag, WireNumber(f.ltype), EncValue(f.ltype, v) + rest, rest);
  }

  lemma {:induction false} EachRecord(f: Field, vs: seq<Value>, rest: seq<byte>)
    requires FieldOk(f)
    requires forall i :: 0 <= i < |vs| ==> Typed(f.ltype, vs[i]) && Fits(f.ltype, vs[i]) && Short(f.ltype, vs[i])
    ensures Starts(EncEach(f, vs) + rest, Copies(Key(f.tag, WireNumber(f.ltype)), |vs|), rest)
    decreases |vs|
  {
    hide EncTagged, Starts, Typed, Fits, Short, FieldOk;
    var key := Key(f.tag, WireNumber(f.ltype));
    if vs == [] {
      assert [] + rest == rest && Copies(key, 0) == [];
      NoKeys(rest);
    } else {
      var left := EncEach(f, vs[1..]) + rest;
      assert EncEach(f, vs) + rest == EncTagged(f, vs[0]) + left;
      ValueRecord(f, vs[0], left);
      EachRecord(f, vs[1..], rest);
      StartsThen(EncTagged(f, vs[0]) + left, [key], left, Copies(key, |vs| - 1), rest);
      assert [key] + Copies(key, |vs| - 1) == Copies(key, |vs|);
    }
  }

  lemma {:induction false} NoKeys(rest: seq<byte>)
    ensures Starts(rest, [], rest)
  {
    hide Records, KeysOf;
    if Records(rest).Some? { assert [] + KeysOf(Records(rest).value) == KeysOf(Records(rest).value); }
  }

  lemma {:induction false} SlotRecords(f: Field, slot: Slot, rest: seq<byte>)
    requires FieldOk(f) && TypedSlot(f, slot) && FitsSlot(f, slot) && ShortSlot(f, slot)
    ensures Starts(EncSlot(f, slot) + rest, SlotKeys(f, slot), rest)
  {
    hide EncTagged, EncEach, EncValues, Starts, Typed, Fits, Short, DefaultValue, Tag, Prefixed, Copies, WireNumber;
    NoKeys(rest);
    assert [] + rest == rest;
    match slot {
      case Absent =>
      case Single(v) => ValueRecord(f, v, rest);
      case Many(vs) =>
        if Packable(f.ltype) {
          PackedLength(f.ltype, vs);
          PackedRecord(f, EncValues(f.ltype, vs), rest);
        } else {
          EachRecord(f, vs, rest);
        }
    }
  }

  lemma {:induction false} PackedRecord(f: Field, body: seq<byte>, rest: seq<byte>)
    requires FieldOk(f) && |body| < TWO_32
    ensures Starts(Tag(WT_STRING, f.tag) + Prefixed(body) + rest, [Key(f.tag, 2)], rest)
  {
    hide Tag, Prefixed, TakePrefixed, Starts, FieldOk, DecodeVarint32;
    TagInRange(f);
    PrefixedRoundTrip(body, rest);
    assert Tag(WT_STRING, f.tag) + Prefixed(body) + rest == Tag(WT_STRING, f.tag) + (Prefixed(body) + rest);
    StartsOne(f.tag, 2, Prefixed(body) + rest, rest);
  }

  lemma {:induction false} MsgRecords(fs: seq<Field>, m: seq<Slot>)
    requires |m| == |fs|
    requires forall k :: 0 <= k < |fs| ==>
               FieldOk(fs[k]) && TypedSlot(fs[k], m[k]) && FitsSlot(fs[k], m[k]) && ShortSlot(fs[k], m[k])
    ensures Starts(EncMsg(fs, m), MsgKeys(fs, m), [])
    decreases |fs|
  {
    hide EncSlot, SlotKeys, Starts, FieldOk, TypedSlot, FitsSlot, ShortSlot;
    if fs == [] {
      NoKeys([]);
    } else {
      var rest := EncMsg(fs[1..], m[1..]);
      SlotRecords(fs[0], m[0], rest);
      MsgRecords(fs[1..], m[1..]);
      StartsThen(EncSlot(fs[0], m[0]) + rest, SlotKeys(fs[0], m[0]), rest, MsgKeys(fs[1..], m[1..]), []);
    }
  }

  /** An encoded message is made of exactly these records, in this order. */
  lemma {:induction false} EncodedKeys(fs: seq<Field>, m: seq<Slot>)
    requires Sound(fs, m)
    ensures Records(EncMsg(fs, m)).Some? && KeysOf(Records(EncMsg(fs, m)).value) == MsgKeys(fs, m)
  {
    hide EncMsg, MsgKeys;
    MsgRecords(fs, m);
    assert MsgKeys(fs, m) + [] == MsgKeys(fs, m);
  }

  // ---------------------------------------------------------------------------
  // What is left out

  /** Types whose initial value is recognised as one that need not be written. */
  ghost predicate Omittable(lt: LType)
    decreases lt, 1
  {
    match lt
    case LFixedBytes(_) => false
    case LSubmsg(fields) => OmittableMsg(fields)
    case _ => true
  }

  ghost predicate OmittableField(f: Field)
    decreases f, 2
  {
    match f.htype
    case Required => false
    case Singular(kept) => !kept && Omittable(f.ltype)
    case FixArray(_) => false
    case _ => true
  }

  ghost predicate OmittableMsg(fs: seq<Field>)
    decreases fs, 3
  {
    forall i :: 0 <= i < |fs| ==> OmittableField(fs[i])
  }

  lemma {:induction false} DefaultIff(lt: LType, v: Value)
    requires LTypeOk(lt) && Typed(lt, v)
    ensures DefaultValue(lt, v) <==> v == ZeroValue(lt) && Omittable(lt)
    decreases lt, 1
  {
    if lt.LSubmsg? { DefaultMsgIff(lt.fields, v.slots); }
  }

  lemma {:induction false} DefaultSlotIff(f: Field, slot: Slot)
    requires FieldOk(f) && TypedSlot(f, slot)
    ensures DefaultSlot(f, slot) <==> slot == InitSlot(f) && OmittableField(f)
    decreases f, 2
  {
    if f.htype.Singular? { DefaultIff(f.ltype, slot.v); }
  }

  lemma {:induction false} DefaultMsgIff(fs: seq<Field>, m: seq<Slot>)
    requires |m| == |fs| && forall i :: 0 <= i < |fs| ==> FieldOk(fs[i]) && TypedSlot(fs[i], m[i])
    ensures DefaultMsg(fs, m) <==> m == InitMsg(fs) && OmittableMsg(fs)
    decreases fs, 3
  {
    hide DefaultSlot, InitSlot, OmittableField, FieldOk, TypedSlot;
    if fs != [] {
      DefaultSlotIff(fs[0], m[0]);
      DefaultMsgIff(fs[1..], m[1..]);
      FirstAndRest(m, InitMsg(fs));
      assert InitMsg(fs)[1..] == InitMsg(fs[1..]);
      assert OmittableMsg(fs) <==> OmittableField(fs[0]) && OmittableMsg(fs[1..]) by {
        assert forall i :: 0 < i < |fs| ==> fs[i] == fs[1..][i - 1];
      }
    }
  }

  /** Nothing is written for a field exactly when it is absent, an empty array, or a
      singular field of a type without defaults that holds its initial value. */
  lemma {:induction false} OmittedIff(f: Field, slot: Slot)
    requires FieldOk(f) && TypedSlot(f, slot)
    ensures EncSlot(f, slot) == [] <==>
            slot == Absent || slot == Many([])
            || (f.htype == Singular(false) && slot == Single(ZeroValue(f.ltype)) && Omittable(f.ltype))
  {
    hide EncValue, EncValues, DefaultValue, Omittable, Typed;
    if slot.Single? {
      DefaultIff(f.ltype, slot.v);
      TagNotEmpty(WireType(f.ltype), f.tag);
    } else if slot.Many? && slot.vs != [] {
      TagNotEmpty(WT_STRING, f.tag);
      TagNotEmpty(WireType(f.ltype), f.tag);
      assert EncEach(f, slot.vs) == EncTagged(f, slot.vs[0]) + EncEach(f, slot.vs[1..]);
    }
  }

  // ---------------------------------------------------------------------------
  // Integers of other encoders

  /** A signed field takes any varint whose low bits are the two's complement of a
      number in its range: 64 bits for the largest size, 32 for the others. */
  lemma {:induction false} SignedMeans(size: nat, s: seq<byte>)
    requires IntSize(size) && DecodeVarint(s).Some?
    ensures var d, modulus := DecodeVarint(s).value, if size == 8 then TWO_64 else TWO_32;
            && (forall i :: DecInt(LVarint(size), s) == Some(Parsed(VInt(i), d.rest)) <==>
                            InSigned(i, size) && i % modulus == d.value % modulus)
            && (DecInt(LVarint(size), s).Some? ==>
                  exists i :: DecInt(LVarint(size), s) == Some(Parsed(VInt(i), d.rest)))
  {
    hide DecodeVarint;
    var d := DecodeVarint(s).value;
    if size == 8 { SignedUnique(d.value, TWO_64); } else { SignedUnique(d.value % TWO_32, TWO_32); }
  }

  lemma {:induction false} SignedUnique(n: nat, modulus: int)
    requires (modulus == TWO_64 || modulus == TWO_32) && n < modulus
    ensures var j := if n < modulus / 2 then n else n - modulus;
            forall i :: -(modulus / 2) <= i < modulus / 2 ==> (i % modulus == n <==> i == j)
  {
    forall i | -(modulus / 2) <= i < modulus / 2 ensures i % modulus == if i < 0 then i + modulus else i { }
  }

  /** Unsigned fields take any varint in their range, zig-zag fields any that stands
      for a number in theirs. */
  lemma {:induction false} UnsignedMeans(size: nat, s: seq<byte>)
    requires IntSize(size) && DecodeVarint(s).Some?
    ensures var d := DecodeVarint(s).value;
            && DecInt(LUvarint(size), s)
               == (if d.value < Bound(size) then Some(Parsed(VInt(d.value), d.rest)) else None)
            && (DecInt(LSvarint(size), s).Some? <==> d.value < Bound(size))
            && (d.value < Bound(size) ==>
                  DecInt(LSvarint(size), s)
                    == Some(Parsed(VInt(if d.value % 2 == 0 then d.value / 2 else -(d.value / 2) - 1), d.rest)))
  {
    hide DecodeVarint;
  }

  /** The number that the low seven bits of the first k bytes make, lowest first. */
  function Digits(b: seq<byte>, k: nat): nat
    requires k <= |b|
  {
    if k == 0 then 0
    else
      Words.MulNonNegative(b[k - 1] % 128, Pow128(k - 1));
      Digits(b, k - 1) + (b[k - 1] % 128) * Pow128(k - 1)
  }

  lemma {:induction false} SpelledLast(s: seq<byte>, x: byte)
    ensures Spelled(s + [x]) == Spelled(s) + (x % 128) * Pow128(|s|)
  {
    if s == [] {
      assert [] + [x] == [x] && [x][1..] == [];
    } else {
      assert (s + [x])[1..] == s[1..] + [x];
      SpelledLast(s[1..], x);
      Scale128(x % 128, Pow128(|s| - 1));
    }
  }

  lemma {:induction false} Scale128(x: nat, p: nat)
    ensures 128 * (x * p) == x * (128 * p)
  {
  }

  lemma {:induction false} SpelledIsDigits(b: seq<byte>, k: nat)
    requires k <= |b|
    ensures Spelled(b[..k]) == Digits(b, k)
    decreases k
  {
    if k > 0 {
      SpelledIsDigits(b, k - 1);
      assert b[..k] == b[..k - 1] + [b[k - 1]];
      SpelledLast(b[..k - 1], b[k - 1]);
    }
  }

  lemma {:induction false} GroupIs(b: seq<byte>, rest: seq<byte>, limit: nat)
    requires 0 < |b| <= limit && b[|b| - 1] < 128 && forall i :: 0 <= i < |b| - 1 ==> b[i] >= 128
    ensures Group(b + rest, limit) == Some(|b|)
    decreases limit
  {
    if |b| > 1 {
      assert (b + rest)[1..] == b[1..] + rest;
      GroupIs(b[1..], rest, limit - 1);
    }
  }

  /** Any varint of up to ten bytes is read as the number that its groups of seven bits
      make, the first lowest, with the bits from 64 on lost; it need not be the
      shortest form. */
  lemma {:induction false} VarintMeans(b: seq<byte>, rest: seq<byte>)
    requires 0 < |b| <= 10 && b[|b| - 1] < 128 && forall i :: 0 <= i < |b| - 1 ==> b[i] >= 128
    ensures DecodeVarint(b + rest) == Some(Decoded(Digits(b, |b|) % TWO_64, rest))
  {
    hide Spelled, Group, Digits;
    GroupIs(b, rest, 10);
    SpelledIsDigits(b, |b|);
    assert b[..|b|] == b && (b + rest)[..|b|] == b && (b + rest)[|b|..] == rest;
  }

  /** A varint that does not end within ten bytes is refused. */
  lemma {:induction false} VarintTooLong(s: seq<byte>)
    requires forall i :: 0 <= i < |s| && i < 10 ==> s[i] >= 128
    ensures DecodeVarint(s) == None
  {
    hide Group;
    NoGroup(s, 10);
  }

  lemma {:induction false} NoGroup(s: seq<byte>, limit: nat)
    requires forall i :: 0 <= i < |s| && i < limit ==> s[i] >= 128
    ensures Group(s, limit) == None
    decreases limit
  {
    if s != [] && limit > 0 { NoGroup(s[1..], limit - 1); }
  }

  /** A string field takes up to its capacity, and ends at the first zero byte. */
  lemma {:induction false} StringMeans(dataSize: nat, b: seq<byte>, rest: seq<byte>)
    requires 0 < dataSize <= PB_SIZE_MAX && |b| < TWO_32 - 1
    ensures var r := DecBytes(LString(dataSize), Prefixed(b) + rest);
            && (r.Some? <==> |b| < dataSize)
            && (r.Some? ==>
                  && r.value.rest == rest && r.value.value.VBytes? && r.value.value.bytes <= b
                  && 0 !in r.value.value.bytes
                  && (r.value.value.bytes != b ==> b[|r.value.value.bytes|] == 0))
  {
    hide DecodeVarint32, Prefixed, UpToNul;
    PrefixedRoundTrip(b, rest);
    TakeBack(b, rest);
    UpToNulIs(b);
  }

  lemma {:induction false} UpToNulIs(s: seq<byte>)
    ensures UpToNul(s) <= s && 0 !in UpToNul(s) && (UpToNul(s) != s ==> s[|UpToNul(s)|] == 0)
  {
    if s != [] && s[0] != 0 { UpToNulIs(s[1..]); }
  }

  /** A bytes field takes up to its capacity; a field of fixed length takes exactly
      that, and an empty record as zeros. */
  lemma {:induction false} BytesMeans(lt: LType, b: seq<byte>, rest: seq<byte>)
    requires LTypeOk(lt) && (lt.LBytes? || lt.LFixedBytes?) && |b| < TWO_32
    ensures var r := DecBytes(lt, Prefixed(b) + rest);
            && (lt.LBytes? ==> r == if |b| <= lt.capacity then Some(Parsed(VBytes(b), rest)) else None)
            && (lt.LFixedBytes? ==>
                  r == if b == [] then Some(Parsed(VBytes(Zeros(lt.length)), rest))
                       else if |b| == lt.length then Some(Parsed(VBytes(b), rest)) else None)
  {
    hide DecodeVarint32, Prefixed;
    PrefixedRoundTrip(b, rest);
    TakeBack(b, rest);
    if b == [] { assert b + rest == rest; }
  }

  /** Any number but zero is true. */
  lemma {:induction false} BoolMeans(s: seq<byte>)
    requires DecodeVarint32(s).Some?
    ensures var d := DecodeVarint32(s).value;
            DecInt(LBool, s) == Some(Parsed(VInt(if d.value == 0 then 0 else 1), d.rest))
  {
    hide DecodeVarint32;
  }

  // ---------------------------------------------------------------------------
  // The 32-bit decoder

  /** A byte after the fifth must not change the number: it holds zeros, or the sign of
      a negative one. */
  predicate Extends(b: byte, k: nat, negative: bool) {
    b % 128 == 0 || (negative && b == if k < 9 then 0xFF else 1)
  }

  lemma {:induction false} ExtensionAccepts(b: seq<byte>, rest: seq<byte>, k: nat, result: nat)
    requires 5 <= k && b != [] && b[|b| - 1] < 128 && forall i :: 0 <= i < |b| - 1 ==> b[i] >= 128
    ensures Decode32From(b + rest, k, result).Some? <==>
            k + |b| <= 10 && forall i :: 0 <= i < |b| ==> Extends(b[i], k + i, result >= 0x8000_0000)
    ensures Decode32From(b + rest, k, result).Some? ==>
              Decode32From(b + rest, k, result) == Some(Decoded(result, rest))
    decreases |b|
  {
    var s, negative := b + rest, result >= 0x8000_0000;
    if k < 10 && Extends(b[0], k, negative) {
      if |b| > 1 {
        assert s[1..] == b[1..] + rest;
        ExtensionAccepts(b[1..], rest, k + 1, result);
        assert forall i :: 0 < i < |b| ==> b[i] == b[1..][i - 1];
      } else {
        assert s[1..] == rest;
      }
    }
  }

  /** Numbers of up to four bytes are taken; of five, if they fit 32 bits; longer ones,
      if the bytes after the fifth extend them. */
  lemma {:induction false} Varint32Accepts(b: seq<byte>, rest: seq<byte>)
    requires b != [] && b[|b| - 1] < 128 && forall i :: 0 <= i < |b| - 1 ==> b[i] >= 128
    ensures DecodeVarint32(b + rest).Some? <==>
            || |b| <= 4
            || (|b| == 5 && b[4] < 16)
            || (5 < |b| <= 10
                && forall i :: 5 <= i < |b| ==> Extends(b[i], i, Digits(b, 5) % TWO_32 >= 0x8000_0000))
  {
    hide Digits, Decode32From, Shift32, Extends;
    var s := b + rest;
    if |b| > 1 {
      assert s[1..] == b[1..] + rest;
      FromByte(b, rest, 1, b[0] % 128);
      if |b| > 5 {
        LowDigits(b);
        var low := Low32(b, 5);
        assert b[5..] + rest == (b + rest)[5..];
        ExtensionAccepts(b[5..], rest, 5, low);
        assert forall i :: 5 <= i < |b| ==> b[i] == b[5..][i - 5];
      }
    }
  }

  /** The low 32 bits of the first k groups. */
  function Low32(b: seq<byte>, k: nat): nat
    requires 1 <= k <= 5 && k <= |b|
  {
    if k == 1 then b[0] % 128 else Low32(b, k - 1) + Shift32(b[k - 1] % 128, k - 1)
  }

  lemma {:induction false} FourGroups(b: seq<byte>)
    requires |b| >= 4
    ensures Low32(b, 4) == Digits(b, 4) < 0x1000_0000
  {
    assert Pow128(0) == 1 && Pow128(1) == 128 && Pow128(2) == 0x4000;
    assert Pow128(3) == 0x20_0000 by { assert Pow128(3) == 128 * Pow128(2); }
    assert Digits(b, 1) == b[0] % 128 by { assert Digits(b, 0) == 0; }
    assert Digits(b, 2) == Low32(b, 2);
    assert Digits(b, 3) == Low32(b, 3);
  }

  lemma {:induction false} LowDigits(b: seq<byte>)
    requires |b| >= 5
    ensures Low32(b, 5) == Digits(b, 5) % TWO_32
  {
    assert Pow128(4) == 0x1000_0000 by {
      assert Pow128(2) == 0x4000 && Pow128(3) == 128 * Pow128(2);
    }
    FourGroups(b);
    var low, x: nat := Digits(b, 4), b[4] % 128;
    assert Digits(b, 5) == low + x * 0x1000_0000 && Low32(b, 5) == low + (x % 16) * 0x1000_0000;
    assert x * 0x1000_0000 == (x % 16) * 0x1000_0000 + TWO_32 * (x / 16);
    assert 0 <= low + (x % 16) * 0x1000_0000 < TWO_32;
  }

  /** The decoder from byte k on, for k up to four. */
  lemma {:induction false} FromByte(b: seq<byte>, rest: seq<byte>, k: nat, result: nat)
    requires 1 <= k <= 4 && k < |b| && b[|b| - 1] < 128 && forall i :: 0 <= i < |b| - 1 ==> b[i] >= 128
    requires result == Low32(b, k)
    ensures Decode32From(b[k..] + rest, k, result).Some? <==>
            || |b| <= 4
            || (|b| == 5 && b[4] < 16)
            || (|b| > 5 && Decode32From(b[5..] + rest, 5, Low32(b, 5)).Some?)
    decreases 5 - k
  {
    hide Shift32;
    var s := b[k..] + rest;
    assert s[0] == b[k];
    var result' := result + Shift32(b[k] % 128, k);
    if b[k] >= 128 {
      assert s[1..] == b[k + 1..] + rest;
      if k < 4 { FromByte(b, rest, k + 1, result'); }
    }
  }
}
