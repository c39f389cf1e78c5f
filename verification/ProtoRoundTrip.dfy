/**
 What decoding an encoded message gives back: the message itself when the tags of
 its descriptor increase, and exactly what is lost when they do not.
 */
module ProtoRoundTrip {
  import opened Options
  import opened Varints
  import opened Proto

  // ---------------------------------------------------------------------------
  // Length prefixes

  /** Every submessage is shorter than 2^32 bytes: the decoder reads lengths as
      32-bit varints.  All other length prefixes are short by their types. */
  ghost predicate Short(lt: LType, v: Value)
    decreases lt, 1
  {
    lt.LSubmsg? && v.VMsg? ==> |EncMsg(lt.fields, v.slots)| < TWO_32 && ShortMsg(lt.fields, v.slots)
  }

  ghost predicate ShortSlot(f: Field, slot: Slot)
    decreases f, 2
  {
    match slot
    case Absent => true
    case Single(v) => Short(f.ltype, v)
    case Many(vs) => forall i :: 0 <= i < |vs| ==> Short(f.ltype, vs[i])
  }

  ghost predicate ShortMsg(fs: seq<Field>, m: seq<Slot>)
    decreases fs, 3
  {
    forall i :: 0 <= i < |fs| && i < |m| ==> ShortSlot(fs[i], m[i])
  }

  // ---------------------------------------------------------------------------
  // Pieces

  lemma {:induction false} TagRoundTrip(wireType: int, tag: nat, rest: seq<byte>)
    requires 0 <= wireType < 8 && tag < MAX_TAG
    ensures DecodeVarint32(Tag(wireType, tag) + rest) == Some(Decoded(tag * 8 + wireType, rest))
  {
    hide DecodeVarint32, Varint;
    Varint32RoundTrip(tag * 8 + wireType, rest);
  }

  lemma {:induction false} PrefixedRoundTrip(b: seq<byte>, rest: seq<byte>)
    requires |b| < TWO_32
    ensures DecodeVarint32(Prefixed(b) + rest) == Some(Decoded(|b|, b + rest))
    ensures TakePrefixed(Prefixed(b) + rest) == Some(Parsed(b, rest))
  {
    hide DecodeVarint32, Varint;
    assert Prefixed(b) + rest == Varint(|b|) + (b + rest);
    Varint32RoundTrip(|b|, b + rest);
    TakeBack(b, rest);
  }

  lemma {:induction false} TakeBack(b: seq<byte>, rest: seq<byte>)
    ensures Take(b + rest, |b|) == Some(Parsed(b, rest))
  {
    assert (b + rest)[..|b|] == b && (b + rest)[|b|..] == rest;
  }

  lemma {:induction false} LittleEndianRoundTrip(n: nat, k: nat)
    ensures FromLittleEndian(LittleEndian(n, k)) < Pow256(k)
    ensures n < Pow256(k) ==> FromLittleEndian(LittleEndian(n, k)) == n
  {
    if k > 0 {
      LittleEndianRoundTrip(n / 256, k - 1);
      assert LittleEndian(n, k)[1..] == LittleEndian(n / 256, k - 1);
    }
  }

  function Pow256(k: nat): (p: nat)
    ensures p > 0
  {
    if k == 0 then 1 else 256 * Pow256(k - 1)
  }

  lemma {:induction false} FixedRoundTrip(n: nat, k: nat, rest: seq<byte>)
    requires (k == 4 && n < TWO_32) || (k == 8 && n < TWO_64)
    ensures DecFixed(LittleEndian(n, k) + rest, k) == Some(Parsed(VInt(n), rest))
  {
    assert Pow256(2) == 0x1_0000;
    assert Pow256(4) == TWO_32 by { assert Pow256(3) == 256 * Pow256(2); }
    assert Pow256(6) == 0x1_0000_0000_0000;
    assert Pow256(8) == TWO_64 by { assert Pow256(7) == 256 * Pow256(6); }
    hide LittleEndian, Pow256, FromLittleEndian;
    LittleEndianRoundTrip(n, k);
    TakeBack(LittleEndian(n, k), rest);
  }

  lemma {:induction false} UpToNulId(s: seq<byte>)
    requires 0 !in s
    ensures UpToNul(s) == s
  {
    if s != [] {
      assert s[0] in s;
      UpToNulId(s[1..]);
      assert s == [s[0]] + s[1..];
    }
  }

  lemma {:induction false} IntRoundTrip(lt: LType, i: int, rest: seq<byte>)
    requires lt.LBool? || lt.LVarint? || lt.LUvarint? || lt.LSvarint?
    requires LTypeOk(lt) && Typed(lt, VInt(i))
    ensures DecInt(lt, EncValue(lt, VInt(i)) + rest) == Some(Parsed(VInt(i), rest))
  {
    hide DecodeVarint, DecodeVarint32, Varint, ZigZag, UnZigZag, Signed64, Signed32;
    match lt
    case LBool => Varint32RoundTrip(i, rest);
    case LUvarint(size) => VarintRoundTrip(i, rest);
    case LSvarint(size) =>
      ZigZagRoundTrip(i);
      VarintRoundTrip(ZigZag(i), rest);
    case LVarint(size) => VarintFieldRoundTrip(i, size, rest);
  }

  lemma {:induction false} VarintFieldRoundTrip(i: int, size: nat, rest: seq<byte>)
    requires IntSize(size) && InSigned(i, size)
    ensures DecInt(LVarint(size), Varint(i % TWO_64) + rest) == Some(Parsed(VInt(i), rest))
  {
    hide DecodeVarint, DecodeVarint32, Varint, Signed64, Signed32, Bound;
    SignedBack(i, size);
    VarintRoundTrip(i % TWO_64, rest);
  }

  /** Sign extension to 64 bits is undone by reading the low 64 or 32 bits as
      signed. */
  lemma {:induction false} SignedBack(i: int, size: nat)
    requires IntSize(size) && InSigned(i, size)
    ensures 0 <= i % TWO_64 < TWO_64
    ensures i == if size == 8 then Signed64(i % TWO_64) else Signed32((i % TWO_64) % TWO_32)
  {
    assert i % TWO_64 == if i < 0 then i + TWO_64 else i;
  }

  lemma {:induction false} BytesRoundTrip(lt: LType, b: seq<byte>, rest: seq<byte>)
    requires lt.LBytes? || lt.LString? || lt.LFixedBytes?
    requires LTypeOk(lt) && Typed(lt, VBytes(b)) && Fits(lt, VBytes(b))
    ensures DecBytes(lt, EncValue(lt, VBytes(b)) + rest) == Some(Parsed(VBytes(b), rest))
  {
    hide DecodeVarint32, Varint, UpToNul;
    PrefixedRoundTrip(b, rest);
    TakeBack(b, rest);
    if lt.LString? { UpToNulId(b); }
  }

  // ---------------------------------------------------------------------------
  // Initial values

  lemma {:induction false} InitMsgAt(fs: seq<Field>, i: nat)
    requires i < |fs|
    ensures InitMsg(fs)[i] == InitSlot(fs[i])
  {
    if i > 0 { InitMsgAt(fs[1..], i - 1); }
  }

  /** A value that the default check leaves out is the one that decoding starts
      from, so leaving it out loses nothing. */
  lemma {:induction false} DefaultIsInit(lt: LType, v: Value)
    requires LTypeOk(lt) && Typed(lt, v) && DefaultValue(lt, v)
    ensures v == ZeroValue(lt)
    decreases lt, 1
  {
    if lt.LSubmsg? { DefaultMsgIsInit(lt.fields, v.slots); }
  }

  lemma {:induction false} DefaultSlotIsInit(f: Field, slot: Slot)
    requires FieldOk(f) && TypedSlot(f, slot) && DefaultSlot(f, slot)
    ensures slot == InitSlot(f)
    decreases f, 2
  {
    if f.htype.Singular? { DefaultIsInit(f.ltype, slot.v); }
  }

  lemma {:induction false} DefaultMsgIsInit(fs: seq<Field>, m: seq<Slot>)
    requires |m| == |fs| && (forall i :: 0 <= i < |fs| ==> FieldOk(fs[i]) && TypedSlot(fs[i], m[i]))
    requires DefaultMsg(fs, m)
    ensures m == InitMsg(fs)
    decreases fs, 3
  {
    if fs != [] {
      DefaultSlotIsInit(fs[0], m[0]);
      assert forall i :: 0 <= i < |fs| - 1 ==> fs[1..][i] == fs[i + 1] && m[1..][i] == m[i + 1];
      DefaultMsgIsInit(fs[1..], m[1..]);
      assert m == [m[0]] + m[1..];
    }
  }

  // ---------------------------------------------------------------------------
  // Finding fields

  predicate TagsIncrease(fs: seq<Field>) { forall i, j :: 0 <= i < j < |fs| ==> fs[i].tag < fs[j].tag }

  /** With tags in order, the position that the search starts from does not
      matter. */
  lemma {:induction false} LocateIsFirstTag(fs: seq<Field>, at: nat, tag: nat)
    requires TagsIncrease(fs) && at < |fs|
    ensures Locate(fs, at, tag) == FirstTag(fs, tag, 0, |fs|)
  {
    hide FirstTag;
    var r := FirstTag(fs, tag, 0, |fs|);
  }

  /** The decoder, on field `at`, comes from there to field k, which is not before
      it: the tag of k is larger, but not larger than that of the last field. */
  predicate Reached(fs: seq<Field>, at: nat, k: nat)
    requires at <= k < |fs|
  {
    k == at || fs[at].tag < fs[k].tag <= fs[|fs| - 1].tag
  }

  lemma {:induction false} LocateLater(fs: seq<Field>, at: nat, k: nat)
    requires at <= k < |fs| && forall i, j :: 0 <= i < j < |fs| ==> fs[i].tag != fs[j].tag
    ensures Locate(fs, at, fs[k].tag) == if Reached(fs, at, k) then Some(k) else None
  {
    hide FirstTag;
    var tag := fs[k].tag;
    assert FirstTag(fs, tag, at + 1, |fs|) == if at < k then Some(k) else None;
    assert at < k ==> FirstTag(fs, tag, 0, at + 1) == None;
  }

  // ---------------------------------------------------------------------------
  // What comes back

  /** The encoder writes something for the slot. */
  predicate Written(f: Field, slot: Slot) {
    match slot
    case Absent => false
    case Single(v) => !(f.htype == Singular(false) && DefaultValue(f.ltype, v))
    case Many(vs) => vs != []
  }

  /** The field that the decoder stands on when the bytes of field k begin. */
  function Position(fs: seq<Field>, m: seq<Slot>, k: nat): (at: nat)
    requires |m| == |fs| && k <= |fs|
    ensures at == 0 || at < k
    decreases k, 0
  {
    if k == 0 then 0 else if Found(fs, m, k - 1) then k - 1 else Position(fs, m, k - 1)
  }

  /** Field k is written, and the decoder recognises it. */
  predicate Found(fs: seq<Field>, m: seq<Slot>, k: nat)
    requires |m| == |fs| && k < |fs|
    decreases k, 1
  {
    Written(fs[k], m[k]) && Reached(fs, Position(fs, m, k), k)
  }

  predicate Tracked(fs: seq<Field>, k: nat)
    requires k < |fs|
  {
    fs[k].htype.Required? && RequiredBefore(fs, k) < PB_MAX_REQUIRED_FIELDS
  }

  predicate RequiredFound(fs: seq<Field>, m: seq<Slot>)
    requires |m| == |fs|
  {
    forall k :: 0 <= k < |fs| && Tracked(fs, k) ==> Found(fs, m, k)
  }

  /** What is read for a value, None if the decoder fails on it. */
  function ReadValue(lt: LType, v: Value): Option<Value>
    decreases lt, 1
  {
    if lt.LSubmsg? && v.VMsg? then
      var r := ReadMsg(lt.fields, v.slots);
      if r == None then None else Some(VMsg(r.value))
    else Some(v)
  }

  function ReadEach(lt: LType, vs: seq<Value>): (r: Option<seq<Value>>)
    ensures r.Some? ==> |r.value| == |vs|
    decreases lt, 2, |vs|
  {
    if vs == [] then Some([])
    else
      var v, rest := ReadValue(lt, vs[0]), ReadEach(lt, vs[1..]);
      if v == None || rest == None then None else Some([v.value] + rest.value)
  }

  function ReadSlot(f: Field, slot: Slot): Option<Slot>
    decreases f, 3
  {
    match slot
    case Absent => Some(Absent)
    case Single(v) =>
      var r := ReadValue(f.ltype, v);
      if r == None then None else Some(Single(r.value))
    case Many(vs) =>
      var r := ReadEach(f.ltype, vs);
      if r == None then None else Some(Many(r.value))
  }

  /** Fields k and on: what is found is read, the rest is as it was initialised. */
  function ReadFrom(fs: seq<Field>, m: seq<Slot>, k: nat): (r: Option<seq<Slot>>)
    requires |m| == |fs| && k <= |fs|
    ensures r.Some? ==> |r.value| == |fs| - k
    decreases fs, 4, |fs| - k
  {
    if k == |fs| then Some([])
    else
      var slot := if Found(fs, m, k) then ReadSlot(fs[k], m[k]) else Some(InitSlot(fs[k]));
      var rest := ReadFrom(fs, m, k + 1);
      if slot == None || rest == None then None else Some([slot.value] + rest.value)
  }

  /** What is read for a message: nothing if a tracked required field is not found. */
  function ReadMsg(fs: seq<Field>, m: seq<Slot>): Option<seq<Slot>>
    decreases fs, 5
  {
    if |m| == |fs| && RequiredFound(fs, m) then ReadFrom(fs, m, 0) else None
  }

  // ---------------------------------------------------------------------------
  // Skipping

  lemma {:induction false} SkipsVarint(n: nat, rest: seq<byte>)
    ensures SkipVarint(Varint(n) + rest) == Some(rest)
    decreases n
  {
    var s := Varint(n) + rest;
    if n >= 128 {
      SkipsVarint(n / 128, rest);
      assert s[1..] == Varint(n / 128) + rest;
    } else {
      assert s[1..] == rest;
    }
  }

  /** A value of any type is skipped, and nothing after it. */
  lemma {:induction false} SkipsValue(lt: LType, v: Value, rest: seq<byte>)
    requires LTypeOk(lt) && Typed(lt, v) && Fits(lt, v) && Short(lt, v)
    ensures Skip(WireType(lt), EncValue(lt, v) + rest) == Some(rest)
  {
    hide Varint, SkipVarint, Prefixed, TakePrefixed, LittleEndian, EncMsg, ZigZag, Take;
    if lt.LSubmsg? {
      PrefixedRoundTrip(EncMsg(lt.fields, v.slots), rest);
    } else if lt.LSvarint? {
      SkipsVarint(ZigZag(v.i), rest);
    } else if lt.LFixed32? {
      TakeBack(LittleEndian(v.i % TWO_32, 4), rest);
    } else if lt.LFixed64? {
      TakeBack(LittleEndian(v.i % TWO_64, 8), rest);
    } else if Packable(lt) {
      SkipsVarint(v.i % TWO_64, rest);
    } else {
      PrefixedRoundTrip(v.bytes, rest);
    }
  }

  /** A record that the search does not find is passed over. */
  lemma {:induction false} LostStep(fs: seq<Field>, m: seq<Slot>, c: Cursor, tag: nat, wireType: int, body: seq<byte>,
                                    rest: seq<byte>)
    requires |m| == |fs| && 0 < tag < MAX_TAG && 0 <= wireType < 8 && Locate(fs, c.at, tag) == None
    requires Skip(wireType, body) == Some(rest)
    ensures DecFields(fs, m, c, Tag(wireType, tag) + body) == DecFields(fs, m, c, rest)
  {
    hide Tag, Skip, Locate, DecodeVarint32, DecSlot;
    TagRoundTrip(wireType, tag, body);
    TagNotEmpty(wireType, tag);
    assert (tag * 8 + wireType) / 8 == tag && (tag * 8 + wireType) % 8 == wireType;
  }

  lemma {:induction false} LostValue(fs: seq<Field>, m: seq<Slot>, c: Cursor, f: Field, v: Value, rest: seq<byte>)
    requires |m| == |fs| && FieldOk(f) && Locate(fs, c.at, f.tag) == None
    requires Typed(f.ltype, v) && Fits(f.ltype, v) && Short(f.ltype, v)
    ensures DecFields(fs, m, c, EncTagged(f, v) + rest) == DecFields(fs, m, c, rest)
  {
    hide EncValue, Tag, Skip, Locate, DecFields, Typed, Fits, Short;
    var wireType, body := WireType(f.ltype), EncValue(f.ltype, v) + rest;
    assert EncTagged(f, v) + rest == Tag(wireType, f.tag) + body;
    SkipsValue(f.ltype, v, rest);
    LostStep(fs, m, c, f.tag, wireType, body, rest);
  }

  lemma {:induction false} LostEach(fs: seq<Field>, m: seq<Slot>, c: Cursor, f: Field, vs: seq<Value>, rest: seq<byte>)
    requires |m| == |fs| && FieldOk(f) && Locate(fs, c.at, f.tag) == None
    requires forall i :: 0 <= i < |vs| ==> Typed(f.ltype, vs[i]) && Fits(f.ltype, vs[i]) && Short(f.ltype, vs[i])
    ensures DecFields(fs, m, c, EncEach(f, vs) + rest) == DecFields(fs, m, c, rest)
    decreases |vs|
  {
    hide EncTagged, Locate, DecFields, FieldOk, Typed, Fits, Short;
    if vs == [] {
      assert [] + rest == rest;
    } else {
      var left := EncEach(f, vs[1..]) + rest;
      assert EncEach(f, vs) + rest == EncTagged(f, vs[0]) + left;
      LostValue(fs, m, c, f, vs[0], left);
      LostEach(fs, m, c, f, vs[1..], rest);
    }
  }

  lemma {:induction false} LostBytes(fs: seq<Field>, m: seq<Slot>, c: Cursor, f: Field, body: seq<byte>,
                                     rest: seq<byte>)
    requires |m| == |fs| && FieldOk(f) && Locate(fs, c.at, f.tag) == None && |body| < TWO_32
    ensures DecFields(fs, m, c, Tag(WT_STRING, f.tag) + Prefixed(body) + rest) == DecFields(fs, m, c, rest)
  {
    hide DecFields, Locate, LTypeOk, Tag, Prefixed, TakePrefixed;
    PrefixedRoundTrip(body, rest);
    assert Tag(WT_STRING, f.tag) + Prefixed(body) + rest == Tag(WT_STRING, f.tag) + (Prefixed(body) + rest);
    LostStep(fs, m, c, f.tag, WT_STRING, Prefixed(body) + rest, rest);
  }

  /** All that is written for a field that the search does not find. */
  lemma {:induction false} LostSlot(fs: seq<Field>, m: seq<Slot>, c: Cursor, f: Field, slot: Slot, rest: seq<byte>)
    requires |m| == |fs| && FieldOk(f) && Locate(fs, c.at, f.tag) == None
    requires TypedSlot(f, slot) && FitsSlot(f, slot) && ShortSlot(f, slot)
    ensures DecFields(fs, m, c, EncSlot(f, slot) + rest) == DecFields(fs, m, c, rest)
  {
    hide DecFields, EncTagged, EncEach, EncValues, Locate, Typed, Fits, Short, DefaultValue, Tag, Prefixed;
    assert [] + rest == rest;
    match slot {
      case Absent =>
      case Single(v) => LostValue(fs, m, c, f, v, rest);
      case Many(vs) =>
        if Packable(f.ltype) {
          PackedLength(f.ltype, vs);
          LostBytes(fs, m, c, f, EncValues(f.ltype, vs), rest);
        } else {
          LostEach(fs, m, c, f, vs, rest);
        }
    }
  }

  // ---------------------------------------------------------------------------
  // Values

  function WithRest(v: Option<Value>, rest: seq<byte>): Option<Parsed<Value>> {
    if v == None then None else Some(Parsed(v.value, rest))
  }

  lemma {:induction false} ValueReadsBack(lt: LType, v: Value, rest: seq<byte>)
    requires LTypeOk(lt) && Typed(lt, v) && Fits(lt, v) && Short(lt, v)
    ensures DecValue(lt, ZeroValue(lt), EncValue(lt, v) + rest) == WithRest(ReadValue(lt, v), rest)
    decreases lt, 1
  {
    hide DecFixed, DecInt, DecBytes, LittleEndian, ZigZag, UnZigZag, Varint, Prefixed, TakePrefixed, DecFields, EncMsg,
         InitMsg, ReadMsg;
    if lt.LSubmsg? {
      PrefixedRoundTrip(EncMsg(lt.fields, v.slots), rest);
      MsgReadsBack(lt.fields, v.slots);
    } else if Packable(lt) {
      ScalarRoundTrip(lt, v, rest);
    } else {
      BytesRoundTrip(lt, v.bytes, rest);
    }
  }

  lemma {:induction false} PackedRoundTrip(lt: LType, vs: seq<Value>, room: nat)
    requires LTypeOk(lt) && Packable(lt) && |vs| <= room
    requires forall i :: 0 <= i < |vs| ==> Typed(lt, vs[i])
    ensures DecPacked(lt, room, EncValues(lt, vs)) == Some(vs)
    decreases |vs|
  {
    hide EncValue, DecValue, Typed;
    if vs != [] {
      ScalarRoundTrip(lt, vs[0], EncValues(lt, vs[1..]));
      PackedRoundTrip(lt, vs[1..], room - 1);
      assert vs == [vs[0]] + vs[1..];
    }
  }

  lemma {:induction false} ScalarRoundTrip(lt: LType, v: Value, rest: seq<byte>)
    requires LTypeOk(lt) && Packable(lt) && Typed(lt, v)
    ensures EncValue(lt, v) != []
    ensures DecValue(lt, VInt(0), EncValue(lt, v) + rest) == Some(Parsed(v, rest))
  {
    hide DecFixed, DecInt, LittleEndian, ZigZag, UnZigZag, Varint;
    if lt.LFixed32? {
      FixedRoundTrip(v.i, 4, rest);
    } else if lt.LFixed64? {
      FixedRoundTrip(v.i, 8, rest);
    } else {
      IntRoundTrip(lt, v.i, rest);
    }
  }

  /** A packed array is small enough for a 32-bit length. */
  lemma {:induction false} PackedLength(lt: LType, vs: seq<Value>)
    requires LTypeOk(lt) && Packable(lt) && forall i :: 0 <= i < |vs| ==> Typed(lt, vs[i])
    ensures |EncValues(lt, vs)| <= 10 * |vs|
    decreases |vs|
  {
    hide EncValue, Typed;
    if vs != [] {
      ScalarLength(lt, vs[0]);
      PackedLength(lt, vs[1..]);
    }
  }

  lemma {:induction false} ScalarLength(lt: LType, v: Value)
    requires LTypeOk(lt) && Packable(lt) && Typed(lt, v)
    ensures |EncValue(lt, v)| <= 10
  {
    hide Varint, ZigZag;
    if lt.LSvarint? {
      ZigZagRoundTrip(v.i);
      VarintLengths(ZigZag(v.i));
    } else {
      VarintLengths(v.i % TWO_64);
    }
  }

  /** A message that the encoder accepts. */
  ghost predicate Sound(fs: seq<Field>, m: seq<Slot>) {
    DescOk(fs) && TypedMsg(fs, m) && FitsMsg(fs, m) && ShortMsg(fs, m)
  }

  /** A slot that the encoder accepts, or a fixed-count array without its elements. */
  ghost predicate SentSlot(f: Field, slot: Slot) {
    (f.htype.FixArray? && slot == Many([])) || (TypedSlot(f, slot) && FitsSlot(f, slot) && ShortSlot(f, slot))
  }

  ghost predicate Sent(fs: seq<Field>, m: seq<Slot>) {
    && DescOk(fs) && |m| == |fs| && (forall k :: 0 <= k < |fs| ==> SentSlot(fs[k], m[k]))
    && (forall i, j :: 0 <= i < j < |fs| && SameOneOf(fs[i], fs[j]) ==> m[i] == Absent || m[j] == Absent)
  }

  lemma {:induction false} SoundIsSent(fs: seq<Field>, m: seq<Slot>)
    requires Sound(fs, m)
    ensures Sent(fs, m)
  {
    hide DescOk, TypedSlot, FitsSlot, ShortSlot;
  }

  // ---------------------------------------------------------------------------
  // The decoding loop on encoded fields

  lemma {:induction false} TagNotEmpty(wireType: int, tag: nat)
    requires 0 <= wireType < 8
    ensures Tag(wireType, tag) != []
  {
  }

  lemma {:induction false} TagInRange(f: Field)
    requires FieldOk(f)
    ensures 0 < f.tag < MAX_TAG && LTypeOk(f.ltype)
  {
  }

  lemma {:induction false} FieldsOk(fs: seq<Field>, k: nat)
    requires DescOk(fs) && k < |fs|
    ensures FieldOk(fs[k])
  {
  }

  lemma {:induction false} StoreAlone(fs: seq<Field>, m: seq<Slot>, k: nat, slot: Slot)
    requires k < |fs| == |m| && Alone(fs, m, k)
    ensures Store(fs, m, k, slot) == m[k := slot]
  {
  }

  /** No other alternative of field k's oneof is set. */
  ghost predicate Alone(fs: seq<Field>, m: seq<Slot>, k: nat)
    requires k < |fs| == |m|
  {
    forall j :: 0 <= j < |fs| && j != k && SameOneOf(fs[k], fs[j]) ==> m[j] == Absent
  }

  /** The decoder after field k with `count` elements, if that is an array. */
  function After(f: Field, k: nat, c: Cursor, count: nat): Cursor {
    var here := c.(at := k, seen := c.seen + {k});
    if f.htype.FixArray? then here.(fixed := Some(k), count := count) else here
  }

  /** The bytes of field k come next, the search finds it, and the field may be
      entered. */
  ghost predicate AtField(fs: seq<Field>, m: seq<Slot>, k: nat, c: Cursor) {
    && k < |fs| == |m| && FieldOk(fs[k]) && Locate(fs, c.at, fs[k].tag) == Some(k)
    && Enter(fs, c, k).Some? && Alone(fs, m, k)
  }

  /** One iteration of the decoding loop, on a field of the descriptor. */
  lemma {:induction false} LoopStep(fs: seq<Field>, m: seq<Slot>, k: nat, wireType: int, c: Cursor, s: seq<byte>,
                                    p: Option<Parsed<Filled>>)
    requires AtField(fs, m, k, c) && 0 <= wireType < 8
    requires DecSlot(fs[k], m[k], CountAt(fs[k], m[k], Enter(fs, c, k).value), wireType, s) == p
    ensures DecFields(fs, m, c, Tag(wireType, fs[k].tag) + s)
         == if p == None then None
            else DecFields(fs, m[k := p.value.value.slot], After(fs[k], k, c, p.value.value.count), p.value.rest)
  {
    hide DecSlot, DecodeVarint32, Tag, Locate, DecFields, Store, FieldOk, CountAt;
    var f := fs[k];
    TagInRange(f);
    TagRoundTrip(wireType, f.tag, s);
    TagNotEmpty(wireType, f.tag);
    if p.Some? { StoreAlone(fs, m, k, p.value.value.slot); }
    FoundStep(fs, m, c, Tag(wireType, f.tag) + s, k, f.tag, wireType, s, p);
  }

  /** The loop body, once the tag is read and the field found. */
  lemma {:induction false} FoundStep(fs: seq<Field>, m: seq<Slot>, c: Cursor, s: seq<byte>, k: nat, tag: nat,
                                     wireType: nat, body: seq<byte>, p: Option<Parsed<Filled>>)
    requires |m| == |fs| && k < |fs| && wireType < 8 && tag > 0 && s != []
    requires DecodeVarint32(s) == Some(Decoded(tag * 8 + wireType, body))
    requires Locate(fs, c.at, tag) == Some(k) && Enter(fs, c, k).Some?
    requires DecSlot(fs[k], m[k], CountAt(fs[k], m[k], Enter(fs, c, k).value), wireType, body) == p
    ensures DecFields(fs, m, c, s)
         == if p == None then None
            else DecFields(fs, Store(fs, m, k, p.value.value.slot),
                           Leave(fs[k], Enter(fs, c, k).value, p.value.value.count), p.value.rest)
  {
    hide DecSlot, DecodeVarint32, Locate, Enter, Leave, Store, CountAt;
    assert (tag * 8 + wireType) / 8 == tag && (tag * 8 + wireType) % 8 == wireType;
  }

  /** Only a submessage is merged into what the field holds, and that has no default
      of its own. */
  lemma {:induction false} FieldValueReadsBack(f: Field, v: Value, init: Value, rest: seq<byte>)
    requires LTypeOk(f.ltype) && Typed(f.ltype, v) && Fits(f.ltype, v) && Short(f.ltype, v)
    requires f.ltype.LSubmsg? ==> init == ZeroValue(f.ltype)
    ensures DecValue(f.ltype, init, EncValue(f.ltype, v) + rest) == WithRest(ReadValue(f.ltype, v), rest)
    decreases f
  {
    ValueReadsBack(f.ltype, v, rest);
    InitIsUnused(f.ltype, init, EncValue(f.ltype, v) + rest);
  }

  lemma {:induction false} InitIsUnused(lt: LType, init: Value, s: seq<byte>)
    requires lt.LSubmsg? ==> init == ZeroValue(lt)
    ensures DecValue(lt, init, s) == DecValue(lt, ZeroValue(lt), s)
  {
  }

  lemma {:induction false} SingleStep(fs: seq<Field>, m: seq<Slot>, k: nat, v: Value, c: Cursor, rest: seq<byte>)
    requires AtField(fs, m, k, c) && m[k] == InitSlot(fs[k]) && !IsArray(fs[k])
    requires Typed(fs[k].ltype, v) && Fits(fs[k].ltype, v) && Short(fs[k].ltype, v)
    ensures var r := ReadValue(fs[k].ltype, v);
            DecFields(fs, m, c, EncTagged(fs[k], v) + rest)
              == if r == None then None else DecFields(fs, m[k := Single(r.value)], After(fs[k], k, c, 0), rest)
    decreases fs, 2
  {
    hide DecFields, DecValue, EncValue, Tag, Locate, Enter, ReadValue;
    var f := fs[k];
    var r, body := ReadValue(f.ltype, v), EncValue(f.ltype, v) + rest;
    FieldValueReadsBack(f, v, InitOf(f, m[k]), rest);
    assert EncTagged(f, v) + rest == Tag(WireType(f.ltype), f.tag) + body;
    var p := if r == None then None else Some(Parsed(Filled(Single(r.value), 0), rest));
    LoopStep(fs, m, k, WireType(f.ltype), c, body, p);
  }

  lemma {:induction false} PackedReadsBack(lt: LType, vs: seq<Value>)
    requires Packable(lt)
    ensures ReadEach(lt, vs) == Some(vs)
    decreases |vs|
  {
    if vs != [] {
      PackedReadsBack(lt, vs[1..]);
      assert vs == [vs[0]] + vs[1..];
    }
  }

  lemma {:induction false} PackedStep(fs: seq<Field>, m: seq<Slot>, k: nat, vs: seq<Value>, c: Cursor, rest: seq<byte>)
    requires AtField(fs, m, k, c) && m[k] == InitSlot(fs[k]) && c.fixed != Some(k)
    requires Packable(fs[k].ltype) && IsArray(fs[k])
    requires TypedSlot(fs[k], Many(vs)) && FitsSlot(fs[k], Many(vs))
    ensures DecFields(fs, m, c, Tag(WT_STRING, fs[k].tag) + Prefixed(EncValues(fs[k].ltype, vs)) + rest)
         == DecFields(fs, m[k := Many(vs)], After(fs[k], k, c, |vs|), rest)
  {
    hide DecFields, DecPacked, EncValues, Tag, Prefixed, TakePrefixed, PutAt, Typed, Fits, Locate;
    var f := fs[k];
    var body := EncValues(f.ltype, vs);
    PackedLength(f.ltype, vs);
    PrefixedRoundTrip(body, rest);
    PackedRoundTrip(f.ltype, vs, f.htype.arraySize);
    PutAll(m[k].vs, vs);
    assert Tag(WT_STRING, f.tag) + Prefixed(body) + rest == Tag(WT_STRING, f.tag) + (Prefixed(body) + rest);
    LoopStep(fs, m, k, WT_STRING, c, Prefixed(body) + rest, Some(Parsed(Filled(Many(vs), |vs|), rest)));
  }

  lemma {:induction false} PutAll(elements: seq<Value>, vs: seq<Value>)
    requires elements == [] || |elements| == |vs|
    ensures PutAt(elements, 0, vs) == vs
  {
  }

  /** What an array holds after the elements so far, once one more is there. */
  function Next(f: Field, tail: seq<Value>): seq<Value> {
    if f.htype.FixArray? && tail != [] then tail[1..] else []
  }

  lemma {:induction false} PutNext(f: Field, done: seq<Value>, tail: seq<Value>, v: Value)
    requires f.htype.FixArray? <==> tail != []
    ensures PutAt(done + tail, |done|, [v]) == (done + [v]) + Next(f, tail)
  {
  }

  /** The decoder has `done` of the elements of array k. */
  ghost predicate Filling(fs: seq<Field>, m: seq<Slot>, k: nat, c: Cursor, done: seq<Value>) {
    && AtField(fs, m, k, c)
    && (fs[k].htype.FixArray? ==> if done == [] then c.fixed != Some(k) else c.fixed == Some(k) && c.count == |done|)
  }

  lemma {:induction false} ElementStep(fs: seq<Field>, m: seq<Slot>, k: nat, done: seq<Value>, tail: seq<Value>,
                                       v: Value, c: Cursor, left: seq<byte>)
    requires Filling(fs, m, k, c, done) && m[k] == Many(done + tail)
    requires IsArray(fs[k]) && !Packable(fs[k].ltype) && |done| < fs[k].htype.arraySize
    requires fs[k].htype.FixArray? <==> tail != []
    requires Typed(fs[k].ltype, v) && Fits(fs[k].ltype, v) && Short(fs[k].ltype, v)
    ensures var r := ReadValue(fs[k].ltype, v);
            DecFields(fs, m, c, EncTagged(fs[k], v) + left)
              == if r == None then None
                 else DecFields(fs, m[k := Many((done + [r.value]) + Next(fs[k], tail))],
                                After(fs[k], k, c, |done| + 1), left)
    decreases fs, 1
  {
    hide DecFields, DecValue, EncValue, Tag, PutAt, Next, Typed, Fits, Short, Locate, ReadValue;
    var f := fs[k];
    var r, body := ReadValue(f.ltype, v), EncValue(f.ltype, v) + left;
    FieldValueReadsBack(f, v, ZeroValue(f.ltype), left);
    assert EncTagged(f, v) + left == Tag(WireType(f.ltype), f.tag) + body;
    var p := if r == None then None
             else Some(Parsed(Filled(Many((done + [r.value]) + Next(f, tail)), |done| + 1), left));
    if r.Some? { PutNext(f, done, tail, r.value); }
    LoopStep(fs, m, k, WireType(f.ltype), c, body, p);
  }

  /** The next element is for the same field. */
  lemma {:induction false} StillFilling(fs: seq<Field>, m: seq<Slot>, k: nat, done: seq<Value>, v: Value, slot: Slot,
                                        c: Cursor)
    requires Filling(fs, m, k, c, done)
    ensures Filling(fs, m[k := slot], k, After(fs[k], k, c, |done| + 1), done + [v])
  {
    hide FieldOk;
  }

  /** Element by element: `done` is there, `tail` is what the array holds after it. */
  lemma {:induction false} EachStep(fs: seq<Field>, m: seq<Slot>, k: nat, done: seq<Value>, tail: seq<Value>,
                                    vs: seq<Value>, c: Cursor, rest: seq<byte>)
    requires k < |fs| == |m| && Filling(fs, m, k, c, done) && m[k] == Many(done + tail) && vs != []
    requires IsArray(fs[k]) && !Packable(fs[k].ltype) && |done| + |vs| <= fs[k].htype.arraySize
    requires |tail| == if fs[k].htype.FixArray? then |vs| else 0
    requires forall i :: 0 <= i < |vs| ==>
               Typed(fs[k].ltype, vs[i]) && Fits(fs[k].ltype, vs[i]) && Short(fs[k].ltype, vs[i])
    ensures var r := ReadEach(fs[k].ltype, vs);
            DecFields(fs, m, c, EncEach(fs[k], vs) + rest)
              == if r == None then None
                 else DecFields(fs, m[k := Many(done + r.value)], After(fs[k], k, c, |done| + |vs|), rest)
    decreases fs, 2, |vs|
  {
    hide DecFields, EncTagged, Typed, Fits, Short, ReadValue, Filling;
    var f, v := fs[k], vs[0];
    var left := EncEach(f, vs[1..]) + rest;
    assert EncEach(f, vs) + rest == EncTagged(f, v) + left;
    ElementStep(fs, m, k, done, tail, v, c, left);
    var first := ReadValue(f.ltype, v);
    if first.Some? {
      var done', tail' := done + [first.value], Next(f, tail);
      var m', c' := m[k := Many(done' + tail')], After(f, k, c, |done| + 1);
      if |vs| > 1 {
        StillFilling(fs, m, k, done, first.value, Many(done' + tail'), c);
        EachStep(fs, m', k, done', tail', vs[1..], c', rest);
        EachOn(f, done, first.value, vs, m, k, tail');
        assert c'.seen + {k} == c'.seen;
      } else {
        assert vs[1..] == [] && left == rest && done' + tail' == done';
        assert ReadEach(f.ltype, vs) == Some([first.value] + []);
        assert [first.value] + [] == [first.value];
      }
    }
  }

  lemma {:induction false} EachOn(f: Field, done: seq<Value>, v: Value, vs: seq<Value>, m: seq<Slot>, k: nat,
                                  tail: seq<Value>)
    requires vs != [] && ReadValue(f.ltype, vs[0]) == Some(v) && k < |m|
    ensures var all, rest := ReadEach(f.ltype, vs), ReadEach(f.ltype, vs[1..]);
            && all.Some? == rest.Some?
            && (all.Some? ==> m[k := Many((done + [v]) + tail)][k := Many((done + [v]) + rest.value)]
                              == m[k := Many(done + all.value)])
  {
    hide ReadValue;
    var rest := ReadEach(f.ltype, vs[1..]);
    if rest.Some? { assert (done + [v]) + rest.value == done + ([v] + rest.value); }
  }

  // ---------------------------------------------------------------------------
  // Slots and messages

  /** Decoding the bytes of a slot that is found stores what is read for it. */
  lemma {:induction false} SlotStep(fs: seq<Field>, m: seq<Slot>, k: nat, slot: Slot, c: Cursor, rest: seq<byte>)
    requires k < |fs| == |m| && AtField(fs, m, k, c) && m[k] == InitSlot(fs[k]) && c.fixed != Some(k)
    requires TypedSlot(fs[k], slot) && FitsSlot(fs[k], slot) && ShortSlot(fs[k], slot) && Written(fs[k], slot)
    ensures var r := ReadSlot(fs[k], slot);
            DecFields(fs, m, c, EncSlot(fs[k], slot) + rest)
              == if r == None then None else DecFields(fs, m[k := r.value], After(fs[k], k, c, Length(slot)), rest)
    decreases fs, 3, 0
  {
    hide DecFields, EncTagged, EncValues, EncEach, Typed, Fits, Short, DefaultValue, InitValue, Tag, Prefixed, AtField,
         ReadEach, ReadValue;
    var f := fs[k];
    match slot {
      case Absent =>
      case Single(v) => SingleStep(fs, m, k, v, c, rest);
      case Many(vs) =>
        if Packable(f.ltype) {
          PackedStep(fs, m, k, vs, c, rest);
          PackedReadsBack(f.ltype, vs);
        } else {
          var tail := if f.htype.FixArray? then Unset(|vs|) else [];
          assert m[k] == Many([] + tail);
          EachStep(fs, m, k, [], tail, vs, c, rest);
          var r := ReadEach(f.ltype, vs);
          if r.Some? { assert [] + r.value == r.value; }
        }
    }
  }

  function Length(slot: Slot): nat { if slot.Many? then |slot.vs| else 0 }

  /** What is not written is what decoding starts from. */
  lemma {:induction false} UnwrittenIsInit(f: Field, slot: Slot)
    requires FieldOk(f) && TypedSlot(f, slot) && !Written(f, slot)
    ensures slot == InitSlot(f)
  {
    hide DefaultValue, Typed, InitValue;
    if slot.Single? { DefaultSlotIsInit(f, slot); }
  }

  lemma {:induction false} UnwrittenIsEmpty(f: Field, slot: Slot)
    ensures !Written(f, slot) ==> EncSlot(f, slot) == []
  {
    hide DefaultValue;
  }

  /** The decoder where the bytes of field k begin: it knows which earlier fields
      were found, and has no array open. */
  ghost predicate Standing(fs: seq<Field>, m: seq<Slot>, c: Cursor, k: nat)
    requires |m| == |fs| && k <= |fs|
  {
    && c.at == Position(fs, m, k) && Complete(fs, c)
    && (c.fixed.Some? ==> c.fixed.value < k)
    && (forall i :: i in c.seen ==> i < k) && (forall i :: 0 <= i < k ==> (i in c.seen <==> Found(fs, m, i)))
  }

  ghost predicate ReadUpTo(fs: seq<Field>, m: seq<Slot>, done: seq<Slot>)
    requires |done| <= |fs| == |m|
  {
    forall i :: 0 <= i < |done| && !Written(fs[i], m[i]) ==> done[i] == InitSlot(fs[i])
  }

  function Joined(done: seq<Slot>, rest: Option<seq<Slot>>): Option<seq<Slot>> {
    if rest == None then None else Some(done + rest.value)
  }

  /** The other alternatives of a oneof that is set are absent on the way. */
  lemma {:induction false} OthersAbsent(fs: seq<Field>, m: seq<Slot>, done: seq<Slot>, k: nat)
    requires |m| == |fs| && k == |done| < |fs| && m[k] != Absent && ReadUpTo(fs, m, done)
    requires forall i, j :: 0 <= i < j < |fs| && SameOneOf(fs[i], fs[j]) ==> m[i] == Absent || m[j] == Absent
    ensures Alone(fs, done + InitMsg(fs)[k..], k)
  {
    var here := done + InitMsg(fs)[k..];
    forall j | 0 <= j < |fs| && j != k && SameOneOf(fs[k], fs[j]) ensures here[j] == Absent {
      InitMsgAt(fs, j);
      assert j < k ==> SameOneOf(fs[j], fs[k]);
      assert InitSlot(fs[j]) == Absent;
    }
  }

  lemma {:induction false} CanEnter(fs: seq<Field>, m: seq<Slot>, here: seq<Slot>, c: Cursor, k: nat)
    requires DescOk(fs) && |m| == |here| == |fs| && k < |fs|
    requires Standing(fs, m, c, k) && Found(fs, m, k) && Alone(fs, here, k)
    ensures AtField(fs, here, k, c) && c.fixed != Some(k)
  {
    hide Locate, FieldOk, Written, Reached;
    LocateLater(fs, c.at, k);
  }

  lemma {:induction false} StandsAfter(fs: seq<Field>, m: seq<Slot>, c: Cursor, k: nat)
    requires |m| == |fs| && k < |fs| && Standing(fs, m, c, k) && Found(fs, m, k) && TypedSlot(fs[k], m[k])
    ensures Standing(fs, m, After(fs[k], k, c, Length(m[k])), k + 1)
  {
    hide Written, Reached, Typed;
  }

  lemma {:induction false} StandsStill(fs: seq<Field>, m: seq<Slot>, c: Cursor, k: nat)
    requires |m| == |fs| && k < |fs| && Standing(fs, m, c, k) && !Found(fs, m, k)
    ensures Standing(fs, m, c, k + 1)
  {
    hide Written, Reached;
  }

  /** A field that is not found leaves the message as it is. */
  lemma {:induction false} LostField(fs: seq<Field>, m: seq<Slot>, here: seq<Slot>, c: Cursor, k: nat, rest: seq<byte>)
    requires DescOk(fs) && |m| == |here| == |fs| && k < |fs| && Standing(fs, m, c, k) && !Found(fs, m, k)
    requires SentSlot(fs[k], m[k])
    ensures DecFields(fs, here, c, EncSlot(fs[k], m[k]) + rest) == DecFields(fs, here, c, rest)
  {
    hide DecFields, Locate, FieldOk, Written, Reached, EncSlot, TypedSlot, FitsSlot, ShortSlot;
    if Written(fs[k], m[k]) {
      LocateLater(fs, c.at, k);
      EmptyUnwritten(fs[k]);
      LostSlot(fs, here, c, fs[k], m[k], rest);
    } else {
      UnwrittenIsEmpty(fs[k], m[k]);
      assert [] + rest == rest;
    }
  }

  lemma {:induction false} EmptyUnwritten(f: Field)
    ensures !Written(f, Many([]))
  {
  }

  lemma {:induction false} EndStep(fs: seq<Field>, m: seq<Slot>, done: seq<Slot>, c: Cursor)
    requires |m| == |done| == |fs| && Standing(fs, m, c, |fs|)
    ensures DecFields(fs, done, c, []) == if RequiredFound(fs, m) then Some(done) else None
  {
    hide Found;
  }

  /** From field k on, with `done` read for the fields before it. */
  lemma {:induction false} FieldsReadBack(fs: seq<Field>, m: seq<Slot>, k: nat, c: Cursor, done: seq<Slot>)
    requires Sent(fs, m) && k == |done| <= |fs| && Standing(fs, m, c, k) && ReadUpTo(fs, m, done)
    ensures DecFields(fs, done + InitMsg(fs)[k..], c, EncMsg(fs[k..], m[k..]))
         == if RequiredFound(fs, m) then Joined(done, ReadFrom(fs, m, k)) else None
    decreases fs, 4, |fs| - k
  {
    hide DecFields, EncSlot, InitSlot, DescOk, SentSlot, Standing, Found, RequiredFound, ReadSlot, Written;
    var z := InitMsg(fs);
    if k == |fs| {
      assert done + z[k..] == done && done + [] == done;
      EndStep(fs, m, done, c);
    } else {
      var rest := EncMsg(fs[k + 1..], m[k + 1..]);
      assert fs[k..][1..] == fs[k + 1..] && m[k..][1..] == m[k + 1..];
      InitMsgAt(fs, k);
      var here := done + z[k..];
      assert here[k] == InitSlot(fs[k]);
      if Found(fs, m, k) {
        FoundField(fs, m, k, c, done, rest);
        var r := ReadSlot(fs[k], m[k]);
        if r.Some? {
          var done' := done + [r.value];
          assert here[k := r.value] == done' + z[k + 1..];
          FieldsReadBack(fs, m, k + 1, After(fs[k], k, c, Length(m[k])), done');
          JoinedOn(done, r.value, ReadFrom(fs, m, k + 1));
        }
      } else {
        LostField(fs, m, here, c, k, rest);
        StandsStill(fs, m, c, k);
        var done' := done + [InitSlot(fs[k])];
        assert here == done' + z[k + 1..];
        FieldsReadBack(fs, m, k + 1, c, done');
        JoinedOn(done, InitSlot(fs[k]), ReadFrom(fs, m, k + 1));
      }
    }
  }

  lemma {:induction false} JoinedOn(done: seq<Slot>, slot: Slot, rest: Option<seq<Slot>>)
    ensures Joined(done + [slot], rest) == Joined(done, if rest == None then None else Some([slot] + rest.value))
  {
    if rest.Some? { assert (done + [slot]) + rest.value == done + ([slot] + rest.value); }
  }

  lemma {:induction false} FoundField(fs: seq<Field>, m: seq<Slot>, k: nat, c: Cursor, done: seq<Slot>, rest: seq<byte>)
    requires Sent(fs, m) && k == |done| < |fs| && Standing(fs, m, c, k) && ReadUpTo(fs, m, done) && Found(fs, m, k)
    ensures Written(fs[k], m[k])
    ensures var r, here := ReadSlot(fs[k], m[k]), done + InitMsg(fs)[k..];
            && DecFields(fs, here, c, EncSlot(fs[k], m[k]) + rest)
               == (if r == None then None
                   else DecFields(fs, here[k := r.value], After(fs[k], k, c, Length(m[k])), rest))
            && Standing(fs, m, After(fs[k], k, c, Length(m[k])), k + 1)
    decreases fs, 3, 1
  {
    hide DecFields, EncSlot, InitSlot, DescOk, TypedSlot, FitsSlot, ShortSlot, Standing, ReadSlot, AtField, Written,
         Reached, ReadUpTo, Alone;
    var here := done + InitMsg(fs)[k..];
    InitMsgAt(fs, k);
    EmptyUnwritten(fs[k]);
    AbsentUnwritten(fs[k]);
    assert SentSlot(fs[k], m[k]);
    OthersAbsent(fs, m, done, k);
    CanEnter(fs, m, here, c, k);
    StandsAfter(fs, m, c, k);
    SlotStep(fs, here, k, m[k], c, rest);
  }

  lemma {:induction false} AbsentUnwritten(f: Field)
    ensures !Written(f, Absent)
  {
  }

  /** Any descriptor, its tags in any order, and any message that the encoder
      accepts, with or without its fixed-count arrays: what the decoder returns. */
  lemma {:induction false} SentReadsBack(fs: seq<Field>, m: seq<Slot>)
    requires Sent(fs, m)
    ensures Decode(fs, EncMsg(fs, m)) == ReadMsg(fs, m)
    decreases fs, 5
  {
    hide DecFields, InitMsg, EncMsg, DescOk, SentSlot, ReadFrom, RequiredFound;
    assert [] + InitMsg(fs)[0..] == InitMsg(fs) && fs[0..] == fs && m[0..] == m;
    FieldsReadBack(fs, m, 0, START, []);
    var r := ReadFrom(fs, m, 0);
    if r.Some? { assert [] + r.value == r.value; }
  }

  lemma {:induction false} MsgReadsBack(fs: seq<Field>, m: seq<Slot>)
    requires Sound(fs, m)
    ensures Decode(fs, EncMsg(fs, m)) == ReadMsg(fs, m)
    decreases fs, 6
  {
    SoundIsSent(fs, m);
    SentReadsBack(fs, m);
  }

  /** What is read for a message, field by field. */
  lemma {:induction false} ReadIs(fs: seq<Field>, m: seq<Slot>, r: seq<Slot>)
    requires |m| == |r| == |fs|
    requires forall k :: 0 <= k < |fs| ==>
               if Found(fs, m, k) then ReadSlot(fs[k], m[k]) == Some(r[k])
               else r[k] == InitSlot(fs[k]) && !Tracked(fs, k)
    ensures ReadMsg(fs, m) == Some(r)
  {
    hide Found, ReadSlot, InitSlot, ReadFrom, Tracked;
    assert r[0..] == r;
    ReadFromIs(fs, m, r, 0);
  }

  lemma {:induction false} ReadFromIs(fs: seq<Field>, m: seq<Slot>, r: seq<Slot>, k: nat)
    requires |m| == |r| == |fs| && k <= |fs|
    requires forall i :: k <= i < |fs| ==>
               if Found(fs, m, i) then ReadSlot(fs[i], m[i]) == Some(r[i]) else r[i] == InitSlot(fs[i])
    ensures ReadFrom(fs, m, k) == Some(r[k..])
    decreases |fs| - k
  {
    hide Found, ReadSlot, InitSlot;
    if k == |fs| {
      assert r[k..] == [];
    } else {
      ReadFromIs(fs, m, r, k + 1);
      assert r[k..] == [r[k]] + r[k + 1..];
    }
  }

  // ---------------------------------------------------------------------------
  // When a message comes back unchanged

  /** Every field that is found has contents that come back, and every other field is
      as decoding starts, and need not be seen. */
  ghost predicate KeptValue(lt: LType, v: Value)
    decreases lt, 1
  {
    lt.LSubmsg? && v.VMsg? ==> KeptMsg(lt.fields, v.slots)
  }

  ghost predicate KeptSlot(f: Field, slot: Slot)
    decreases f, 2
  {
    match slot
    case Absent => true
    case Single(v) => KeptValue(f.ltype, v)
    case Many(vs) => forall i :: 0 <= i < |vs| ==> KeptValue(f.ltype, vs[i])
  }

  ghost predicate KeptMsg(fs: seq<Field>, m: seq<Slot>)
    decreases fs, 3
  {
    |m| == |fs| && forall k :: 0 <= k < |fs| ==>
      if Found(fs, m, k) then KeptSlot(fs[k], m[k]) else m[k] == InitSlot(fs[k]) && !Tracked(fs, k)
  }

  lemma {:induction false} KeptValueIff(lt: LType, v: Value)
    ensures ReadValue(lt, v) == Some(v) <==> KeptValue(lt, v)
    decreases lt, 1
  {
    if lt.LSubmsg? && v.VMsg? { KeptMsgIff(lt.fields, v.slots); }
  }

  lemma {:induction false} KeptEachIff(lt: LType, vs: seq<Value>)
    ensures ReadEach(lt, vs) == Some(vs) <==> forall i :: 0 <= i < |vs| ==> KeptValue(lt, vs[i])
    decreases lt, 2, |vs|
  {
    hide ReadValue, KeptValue;
    if vs != [] {
      KeptValueIff(lt, vs[0]);
      KeptEachIff(lt, vs[1..]);
      var v, rest := ReadValue(lt, vs[0]), ReadEach(lt, vs[1..]);
      if v.Some? && rest.Some? { FirstAndRest([v.value] + rest.value, vs); }
      assert forall i :: 0 < i < |vs| ==> vs[i] == vs[1..][i - 1];
    }
  }

  lemma {:induction false} FirstAndRest<T>(a: seq<T>, b: seq<T>)
    requires a != [] && b != []
    ensures a == b <==> a[0] == b[0] && a[1..] == b[1..]
  {
    assert a == [a[0]] + a[1..] && b == [b[0]] + b[1..];
  }

  lemma {:induction false} KeptSlotIff(f: Field, slot: Slot)
    ensures ReadSlot(f, slot) == Some(slot) <==> KeptSlot(f, slot)
    decreases f, 3
  {
    hide ReadValue, KeptValue, ReadEach;
    match slot
    case Absent =>
    case Single(v) => KeptValueIff(f.ltype, v);
    case Many(vs) => KeptEachIff(f.ltype, vs);
  }

  ghost predicate KeptField(fs: seq<Field>, m: seq<Slot>, k: nat)
    requires |m| == |fs| && k < |fs|
  {
    if Found(fs, m, k) then KeptSlot(fs[k], m[k]) else m[k] == InitSlot(fs[k])
  }

  lemma {:induction false} KeptFromIff(fs: seq<Field>, m: seq<Slot>, k: nat)
    requires |m| == |fs| && k <= |fs|
    ensures ReadFrom(fs, m, k) == Some(m[k..]) <==> forall i :: k <= i < |fs| ==> KeptField(fs, m, i)
    decreases fs, 4, |fs| - k
  {
    hide ReadSlot, KeptSlot, Found, InitSlot;
    if k == |fs| {
      assert m[k..] == [];
    } else {
      KeptSlotIff(fs[k], m[k]);
      KeptFromIff(fs, m, k + 1);
      var slot := if Found(fs, m, k) then ReadSlot(fs[k], m[k]) else Some(InitSlot(fs[k]));
      var rest := ReadFrom(fs, m, k + 1);
      assert m[k..][1..] == m[k + 1..];
      if slot.Some? && rest.Some? {
        FirstAndRest([slot.value] + rest.value, m[k..]);
        assert ([slot.value] + rest.value)[1..] == rest.value;
      }
      assert ReadFrom(fs, m, k) == Some(m[k..]) <==> slot == Some(m[k]) && rest == Some(m[k + 1..]);
      assert slot == Some(m[k]) <==> KeptField(fs, m, k);
    }
  }

  lemma {:induction false} KeptMsgIff(fs: seq<Field>, m: seq<Slot>)
    ensures ReadMsg(fs, m) == Some(m) <==> KeptMsg(fs, m)
    decreases fs, 5
  {
    hide ReadFrom, KeptSlot, Found, InitSlot, Tracked;
    if |m| == |fs| {
      KeptFromIff(fs, m, 0);
      assert m[0..] == m;
      KeptParts(fs, m);
    }
  }

  lemma {:induction false} KeptParts(fs: seq<Field>, m: seq<Slot>)
    requires |m| == |fs|
    ensures (forall k :: 0 <= k < |fs| ==> KeptField(fs, m, k)) && RequiredFound(fs, m) <==> KeptMsg(fs, m)
  {
    hide KeptSlot, Found, InitSlot, Tracked;
    if (forall k :: 0 <= k < |fs| ==> KeptField(fs, m, k)) && RequiredFound(fs, m) {
      forall k | 0 <= k < |fs|
        ensures if Found(fs, m, k) then KeptSlot(fs[k], m[k]) else m[k] == InitSlot(fs[k]) && !Tracked(fs, k)
      {
        assert KeptField(fs, m, k);
      }
    }
  }

  /** With the tags in any order, a message is read back exactly when it is kept. */
  lemma {:induction false} RoundTripIff(fs: seq<Field>, m: seq<Slot>)
    requires Sound(fs, m)
    ensures Decode(fs, EncMsg(fs, m)) == Some(m) <==> KeptMsg(fs, m)
  {
    hide Decode, EncMsg, ReadMsg, KeptMsg, Sound;
    MsgReadsBack(fs, m);
    KeptMsgIff(fs, m);
  }

  // ---------------------------------------------------------------------------
  // Tags in order

  ghost predicate OrderedType(lt: LType)
    decreases lt, 1
  {
    lt.LSubmsg? ==> Ordered(lt.fields)
  }

  ghost predicate OrderedField(f: Field)
    decreases f, 2
  {
    OrderedType(f.ltype)
  }

  /** The tags increase, also in submessages. */
  ghost predicate Ordered(fs: seq<Field>)
    decreases fs, 3
  {
    TagsIncrease(fs) && forall i :: 0 <= i < |fs| ==> OrderedField(fs[i])
  }

  lemma {:induction false} OrderedFound(fs: seq<Field>, m: seq<Slot>, k: nat)
    requires TagsIncrease(fs) && |m| == |fs| && k < |fs|
    ensures Found(fs, m, k) <==> Written(fs[k], m[k])
  {
    hide Written;
  }

  lemma {:induction false} OrderedValueKept(lt: LType, v: Value)
    requires OrderedType(lt) && LTypeOk(lt) && Typed(lt, v)
    ensures KeptValue(lt, v)
    decreases lt, 1
  {
    if lt.LSubmsg? { OrderedKept(lt.fields, v.slots); }
  }

  lemma {:induction false} OrderedSlotKept(f: Field, slot: Slot)
    requires OrderedField(f) && LTypeOk(f.ltype) && TypedSlot(f, slot)
    ensures KeptSlot(f, slot)
    decreases f, 2
  {
    hide KeptValue, Typed, LTypeOk, OrderedType;
    match slot
    case Absent =>
    case Single(v) => OrderedValueKept(f.ltype, v);
    case Many(vs) =>
      forall i | 0 <= i < |vs| ensures KeptValue(f.ltype, vs[i]) { OrderedValueKept(f.ltype, vs[i]); }
  }

  lemma {:induction false} OrderedKept(fs: seq<Field>, m: seq<Slot>)
    requires Ordered(fs) && DescOk(fs) && TypedMsg(fs, m)
    ensures KeptMsg(fs, m)
    decreases fs, 3
  {
    hide Found, KeptSlot, TypedSlot, FieldOk, InitSlot, OrderedField, Written;
    forall k | 0 <= k < |fs|
      ensures if Found(fs, m, k) then KeptSlot(fs[k], m[k]) else m[k] == InitSlot(fs[k]) && !Tracked(fs, k)
    {
      OrderedFound(fs, m, k);
      TagInRange(fs[k]);
      if Found(fs, m, k) {
        OrderedSlotKept(fs[k], m[k]);
      } else {
        UnwrittenIsInit(fs[k], m[k]);
        UnwrittenNotRequired(fs[k], m[k]);
      }
    }
  }

  lemma {:induction false} UnwrittenNotRequired(f: Field, slot: Slot)
    requires TypedSlot(f, slot) && !Written(f, slot)
    ensures !f.htype.Required?
  {
  }

  /** Decoding an encoded message gives the message back. */
  lemma {:induction false} MsgRoundTrip(fs: seq<Field>, m: seq<Slot>)
    requires Sound(fs, m) && Ordered(fs)
    ensures Decode(fs, EncMsg(fs, m)) == Some(m)
  {
    hide Decode, EncMsg, KeptMsg, Ordered, DescOk, FitsMsg, ShortMsg, TypedMsg;
    OrderedKept(fs, m);
    RoundTripIff(fs, m);
  }
}
