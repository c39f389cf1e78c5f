/**
 Message descriptors, messages, and the protobuf wire format that nanopb writes
 and reads, as functions on byte sequences.  `ProtoEncoder.dfy` and
 `ProtoDecoder.dfy` hold the stream code.
 */
module Proto {
  import opened Options
  import opened Varints

  // ---------------------------------------------------------------------------
  // Descriptors

  /** PB_LTYPE, with the field's data_size where it matters. */
  datatype LType =
    | LBool
    | LVarint(size: nat)
    | LUvarint(size: nat)
    | LSvarint(size: nat)
    | LFixed32
    | LFixed64
    | LBytes(capacity: nat)
    | LString(dataSize: nat)
    | LFixedBytes(length: nat)
    | LSubmsg(fields: seq<Field>)

  /** PB_HTYPE; an optional field without a has_ flag is Singular.  `kept` says that
      its descriptor has default values, so that it is written even when zero.  A
      FixArray keeps no count in the message. */
  datatype HType =
    | Required
    | Optional
    | Singular(kept: bool)
    | Repeated(arraySize: nat)
    | FixArray(arraySize: nat)
    | OneOf(group: nat)

  /** A field, with its default value if the descriptor holds one. */
  datatype Field = Field(tag: nat, ltype: LType, htype: HType, def: Option<Value>)

  predicate IsArray(f: Field) { f.htype.Repeated? || f.htype.FixArray? }

  /** The descriptor's `default_value` is not empty. */
  predicate HasDefaults(fs: seq<Field>) { exists i :: 0 <= i < |fs| && fs[i].def.Some? }

  const PB_SIZE_MAX: int := 0xFFFF
  const MAX_TAG: int := 0x2000_0000

  function Bound(size: nat): int {
    if size == 1 then 0x100
    else if size == 2 then 0x1_0000
    else if size == 4 then 0x1_0000_0000
    else 0x1_0000_0000_0000_0000
  }

  predicate IntSize(size: nat) { size == 1 || size == 2 || size == 4 || size == 8 }

  predicate Packable(lt: LType) {
    lt.LBool? || lt.LVarint? || lt.LUvarint? || lt.LSvarint? || lt.LFixed32? || lt.LFixed64?
  }

  /** Descriptors as the generator emits them: known integer sizes, no tag twice,
      array and byte capacities that fit pb_size_t, defaults
      only for plain fields and of the field's type. */
  ghost predicate LTypeOk(lt: LType)
    decreases lt, 1
  {
    match lt
    case LVarint(size) => IntSize(size)
    case LUvarint(size) => IntSize(size)
    case LSvarint(size) => IntSize(size)
    case LBytes(capacity) => capacity <= PB_SIZE_MAX
    case LString(dataSize) => 0 < dataSize <= PB_SIZE_MAX
    case LFixedBytes(length) => 0 < length <= PB_SIZE_MAX
    case LSubmsg(fields) => DescOk(fields)
    case _ => true
  }

  ghost predicate FieldOk(f: Field)
    decreases f, 2
  {
    && 0 < f.tag < MAX_TAG
    && LTypeOk(f.ltype)
    && (f.htype.Repeated? ==> f.htype.arraySize <= PB_SIZE_MAX)
    && (f.htype.FixArray? ==> 0 < f.htype.arraySize <= PB_SIZE_MAX)
    && (f.def.Some? ==>
          && !f.ltype.LSubmsg? && (f.htype.Required? || f.htype.Optional? || f.htype == Singular(true))
          && Typed(f.ltype, f.def.value) && Fits(f.ltype, f.def.value))
  }

  ghost predicate DescOk(fs: seq<Field>)
    decreases fs, 3
  {
    && (forall i :: 0 <= i < |fs| ==> FieldOk(fs[i]))
    && (forall i, j :: 0 <= i < j < |fs| ==> fs[i].tag != fs[j].tag)
    && (forall i :: 0 <= i < |fs| && fs[i].htype.Singular? ==> fs[i].htype.kept == HasDefaults(fs))
  }

  // ---------------------------------------------------------------------------
  // Messages

  /** VUnset stands for memory that decoding has not written. */
  datatype Value = VInt(i: int) | VBytes(bytes: seq<byte>) | VMsg(slots: seq<Slot>) | VUnset

  /** What a message holds for one field: nothing (an optional field or a oneof
      alternative that is not set), a value, or the elements of an array. */
  datatype Slot = Absent | Single(v: Value) | Many(vs: seq<Value>)

  /** Values that the C type of the field can hold.  A string is the bytes before
      its terminator. */
  ghost predicate Typed(lt: LType, v: Value)
    decreases lt, 1
  {
    match lt
    case LBool => v.VInt? && 0 <= v.i < 2
    case LUvarint(size) => v.VInt? && 0 <= v.i < Bound(size)
    case LVarint(size) => v.VInt? && -(Bound(size) / 2) <= v.i < Bound(size) / 2
    case LSvarint(size) => v.VInt? && -(Bound(size) / 2) <= v.i < Bound(size) / 2
    case LFixed32 => v.VInt? && 0 <= v.i < TWO_32
    case LFixed64 => v.VInt? && 0 <= v.i < TWO_64
    case LBytes(_) => v.VBytes? && |v.bytes| <= PB_SIZE_MAX
    case LString(_) => v.VBytes? && 0 !in v.bytes
    case LFixedBytes(length) => v.VBytes? && |v.bytes| == length
    case LSubmsg(fields) => v.VMsg? && TypedMsg(fields, v.slots)
  }

  ghost predicate TypedSlot(f: Field, slot: Slot)
    decreases f, 2
  {
    match f.htype
    case Required => slot.Single? && Typed(f.ltype, slot.v)
    case Singular(_) => slot.Single? && Typed(f.ltype, slot.v)
    case Optional => slot.Absent? || (slot.Single? && Typed(f.ltype, slot.v))
    case OneOf(_) => slot.Absent? || (slot.Single? && Typed(f.ltype, slot.v))
    case Repeated(_) =>
      slot.Many? && |slot.vs| <= PB_SIZE_MAX && forall i :: 0 <= i < |slot.vs| ==> Typed(f.ltype, slot.vs[i])
    case FixArray(n) =>
      slot.Many? && |slot.vs| == n && forall i :: 0 <= i < |slot.vs| ==> Typed(f.ltype, slot.vs[i])
  }

  /** One slot per field; at most one alternative of each oneof is set. */
  ghost predicate TypedMsg(fs: seq<Field>, m: seq<Slot>)
    decreases fs, 3
  {
    && |m| == |fs|
    && (forall i :: 0 <= i < |fs| ==> TypedSlot(fs[i], m[i]))
    && (forall i, j :: 0 <= i < j < |fs| && SameOneOf(fs[i], fs[j]) ==> m[i] == Absent || m[j] == Absent)
  }

  predicate SameOneOf(a: Field, b: Field) { a.htype.OneOf? && a.htype == b.htype }

  /** The dynamic checks of the encoder: counts and lengths within capacity. */
  ghost predicate Fits(lt: LType, v: Value)
    requires Typed(lt, v)
    decreases lt, 1
  {
    match lt
    case LBytes(capacity) => |v.bytes| <= capacity
    case LString(dataSize) => |v.bytes| < dataSize
    case LSubmsg(fields) => FitsMsg(fields, v.slots)
    case _ => true
  }

  ghost predicate FitsSlot(f: Field, slot: Slot)
    requires TypedSlot(f, slot)
    decreases f, 2
  {
    match slot
    case Absent => true
    case Single(v) => Fits(f.ltype, v)
    case Many(vs) => |vs| <= f.htype.arraySize && forall i :: 0 <= i < |vs| ==> Fits(f.ltype, vs[i])
  }

  ghost predicate FitsMsg(fs: seq<Field>, m: seq<Slot>)
    requires TypedMsg(fs, m)
    decreases fs, 3
  {
    forall i :: 0 <= i < |fs| ==> FitsSlot(fs[i], m[i])
  }

  // ---------------------------------------------------------------------------
  // Initial values

  function Zeros(n: nat): seq<byte> { seq(n, _ => 0) }

  function Unset(n: nat): seq<Value> { seq(n, _ => VUnset) }

  function ZeroValue(lt: LType): Value
    decreases lt, 1
  {
    match lt
    case LBytes(_) => VBytes([])
    case LString(_) => VBytes([])
    case LFixedBytes(length) => VBytes(Zeros(length))
    case LSubmsg(fields) => VMsg(InitMsg(fields))
    case _ => VInt(0)
  }

  /** What a field holds before decoding: its default, or zero. */
  function InitValue(f: Field): Value
    decreases f, 1
  {
    if f.def.Some? then f.def.value else ZeroValue(f.ltype)
  }

  function InitSlot(f: Field): Slot
    decreases f, 2
  {
    match f.htype
    case Required => Single(InitValue(f))
    case Singular(_) => Single(InitValue(f))
    case Optional => Absent
    case OneOf(_) => Absent
    case Repeated(_) => Many([])
    case FixArray(n) => Many(Unset(n))
  }

  /** A message as the decoder initialises it. */
  function InitMsg(fs: seq<Field>): (m: seq<Slot>)
    ensures |m| == |fs|
    decreases fs, 3
  {
    if fs == [] then [] else [InitSlot(fs[0])] + InitMsg(fs[1..])
  }

  /** `pb_check_proto3_default_value` for a field of a message, and for a bare
      value. */
  predicate DefaultSlot(f: Field, slot: Slot)
    decreases f, 2
  {
    match f.htype
    case Required => false
    case Singular(kept) => !kept && slot.Single? && DefaultValue(f.ltype, slot.v)
    case Optional => slot == Absent
    case OneOf(_) => slot == Absent
    case Repeated(_) => slot == Many([])
    case FixArray(n) => n == 0
  }

  predicate DefaultValue(lt: LType, v: Value)
    decreases lt, 1
  {
    match lt
    case LBytes(_) => v == VBytes([])
    case LString(_) => v == VBytes([])
    case LFixedBytes(length) => length == 0
    case LSubmsg(fields) => v.VMsg? && DefaultMsg(fields, v.slots)
    case _ => v == VInt(0)
  }

  predicate DefaultMsg(fs: seq<Field>, m: seq<Slot>)
    decreases fs, 3
  {
    fs == [] || m == [] || (DefaultSlot(fs[0], m[0]) && DefaultMsg(fs[1..], m[1..]))
  }

  // ---------------------------------------------------------------------------
  // Encoding

  const WT_VARINT: int := 0
  const WT_64BIT: int := 1
  const WT_STRING: int := 2
  const WT_32BIT: int := 5

  function WireType(lt: LType): int {
    match lt
    case LBool => WT_VARINT
    case LVarint(_) => WT_VARINT
    case LUvarint(_) => WT_VARINT
    case LSvarint(_) => WT_VARINT
    case LFixed32 => WT_32BIT
    case LFixed64 => WT_64BIT
    case _ => WT_STRING
  }

  function Tag(wireType: int, tag: nat): seq<byte>
    requires 0 <= wireType < 8
  {
    Varint(tag * 8 + wireType)
  }

  /** `k` bytes of `n`, least significant first. */
  function LittleEndian(n: nat, k: nat): (r: seq<byte>)
    ensures |r| == k
  {
    if k == 0 then [] else [n % 256] + LittleEndian(n / 256, k - 1)
  }

  /** The 64-bit word that an integer field is written as. */
  function Payload(lt: LType, i: int): nat
    requires !lt.LSvarint? || -TWO_63 <= i < TWO_63
  {
    if lt.LSvarint? then ZigZag(i) else i % TWO_64
  }

  function Prefixed(s: seq<byte>): seq<byte> { Varint(|s|) + s }

  /** A value as it follows its tag. */
  function EncValue(lt: LType, v: Value): seq<byte>
    decreases lt, 1
  {
    match (lt, v)
    case (LFixed32, VInt(i)) => LittleEndian(i % TWO_32, 4)
    case (LFixed64, VInt(i)) => LittleEndian(i % TWO_64, 8)
    case (LSvarint(_), VInt(i)) => if -TWO_63 <= i < TWO_63 then Varint(Payload(lt, i)) else []
    case (_, VInt(i)) => Varint(i % TWO_64)
    case (LSubmsg(fields), VMsg(slots)) => Prefixed(EncMsg(fields, slots))
    case (_, VBytes(bytes)) => Prefixed(bytes)
    case _ => []
  }

  function EncTagged(f: Field, v: Value): seq<byte>
    decreases f, 1
  {
    Tag(WireType(f.ltype), f.tag) + EncValue(f.ltype, v)
  }

  function EncValues(lt: LType, vs: seq<Value>): seq<byte>
    decreases lt, 2, |vs|
  {
    if vs == [] then [] else EncValue(lt, vs[0]) + EncValues(lt, vs[1..])
  }

  function EncEach(f: Field, vs: seq<Value>): seq<byte>
    decreases f, 2, |vs|
  {
    if vs == [] then [] else EncTagged(f, vs[0]) + EncEach(f, vs[1..])
  }

  function EncSlot(f: Field, slot: Slot): seq<byte>
    decreases f, 3
  {
    match slot
    case Absent => []
    case Single(v) => if f.htype == Singular(false) && DefaultValue(f.ltype, v) then [] else EncTagged(f, v)
    case Many(vs) =>
      if vs == [] then []
      else if Packable(f.ltype) then Tag(WT_STRING, f.tag) + Prefixed(EncValues(f.ltype, vs))
      else EncEach(f, vs)
  }

  /** A whole message: its fields in descriptor order. */
  function EncMsg(fs: seq<Field>, m: seq<Slot>): seq<byte>
    decreases fs, 4
  {
    if fs == [] || m == [] then [] else EncSlot(fs[0], m[0]) + EncMsg(fs[1..], m[1..])
  }

  // ---------------------------------------------------------------------------
  // Decoding

  datatype Parsed<T> = Parsed(value: T, rest: seq<byte>)

  function Take(s: seq<byte>, n: nat): (r: Option<Parsed<seq<byte>>>)
    ensures r.Some? ==> |r.value.value| == n && s == r.value.value + r.value.rest
  {
    if n <= |s| then Some(Parsed(s[..n], s[n..])) else None
  }

  /** A 32-bit length and that many bytes. */
  function TakePrefixed(s: seq<byte>): (r: Option<Parsed<seq<byte>>>)
    ensures r.Some? ==> |r.value.rest| < |s|
  {
    var d := DecodeVarint32(s);
    if d == None then None else Take(d.value.rest, d.value.value)
  }

  function FromLittleEndian(s: seq<byte>): nat {
    if s == [] then 0 else s[0] + 256 * FromLittleEndian(s[1..])
  }

  function DecFixed(s: seq<byte>, k: nat): (r: Option<Parsed<Value>>)
    requires k > 0
    ensures r.Some? ==> |r.value.rest| < |s|
  {
    var t := Take(s, k);
    if t == None then None else Some(Parsed(VInt(FromLittleEndian(t.value.value)), t.value.rest))
  }

  function Signed32(x: nat): int
    requires x < TWO_32
  {
    if x < 0x8000_0000 then x else x - TWO_32
  }

  predicate InSigned(i: int, size: nat) { -(Bound(size) / 2) <= i < Bound(size) / 2 }

  /** `pb_dec_bool` and `pb_dec_varint` */
  function DecInt(lt: LType, s: seq<byte>): (r: Option<Parsed<Value>>)
    ensures r.Some? ==> |r.value.rest| < |s|
  {
    if lt.LBool? then
      var d := DecodeVarint32(s);
      if d == None then None else Some(Parsed(VInt(if d.value.value != 0 then 1 else 0), d.value.rest))
    else
      var d := DecodeVarint(s);
      if d == None then None
      else
        var n, rest := d.value.value, d.value.rest;
        match lt
        case LUvarint(size) => if n < Bound(size) then Some(Parsed(VInt(n), rest)) else None
        case LSvarint(size) =>
          if InSigned(UnZigZag(n), size) then Some(Parsed(VInt(UnZigZag(n)), rest)) else None
        case LVarint(size) =>
          var i := if size == 8 then Signed64(n) else Signed32(n % TWO_32);
          if InSigned(i, size) then Some(Parsed(VInt(i), rest)) else None
        case _ => None
  }

  function UpToNul(s: seq<byte>): seq<byte> {
    if s == [] || s[0] == 0 then [] else [s[0]] + UpToNul(s[1..])
  }

  /** `pb_dec_bytes`, `pb_dec_string`, `pb_dec_fixed_length_bytes` */
  function DecBytes(lt: LType, s: seq<byte>): (r: Option<Parsed<Value>>)
    ensures r.Some? ==> |r.value.rest| < |s|
  {
    var d := DecodeVarint32(s);
    if d == None then None
    else
      var size, rest := d.value.value, d.value.rest;
      match lt
      case LBytes(capacity) =>
        if size > PB_SIZE_MAX || size > capacity then None else AsBytes(Take(rest, size))
      case LString(dataSize) =>
        if size == TWO_32 - 1 || size + 1 > dataSize then None
        else
          var t := Take(rest, size);
          if t == None then None else Some(Parsed(VBytes(UpToNul(t.value.value)), t.value.rest))
      case LFixedBytes(length) =>
        if size > PB_SIZE_MAX then None
        else if size == 0 then Some(Parsed(VBytes(Zeros(length)), rest))
        else if size != length then None
        else AsBytes(Take(rest, size))
      case _ => None
  }

  function AsBytes(t: Option<Parsed<seq<byte>>>): Option<Parsed<Value>> {
    if t == None then None else Some(Parsed(VBytes(t.value.value), t.value.rest))
  }

  /** `decode_basic_field` once the wire type is accepted; `init` is what the
      field holds before, which only a submessage is merged into. */
  function DecValue(lt: LType, init: Value, s: seq<byte>): (r: Option<Parsed<Value>>)
    ensures r.Some? ==> |r.value.rest| < |s|
    decreases lt, 0
  {
    match lt
    case LFixed32 => DecFixed(s, 4)
    case LFixed64 => DecFixed(s, 8)
    case LSubmsg(fields) =>
      var t := TakePrefixed(s);
      if t == None then None
      else
        var slots := if init.VMsg? && |init.slots| == |fields| then init.slots else InitMsg(fields);
        var m := DecFields(fields, slots, START, t.value.value);
        if m == None then None else Some(Parsed(VMsg(m.value), t.value.rest))
    case LBytes(_) => DecBytes(lt, s)
    case LString(_) => DecBytes(lt, s)
    case LFixedBytes(_) => DecBytes(lt, s)
    case _ => DecInt(lt, s)
  }

  /** The values of a packed array, up to `room` of them; all bytes must be used. */
  function DecPacked(lt: LType, room: nat, s: seq<byte>): Option<seq<Value>>
    requires Packable(lt)
    decreases lt, 1, |s|
  {
    if s == [] then Some([])
    else if room == 0 then None
    else
      var p := DecValue(lt, VInt(0), s);
      if p == None then None
      else
        var vs := DecPacked(lt, room - 1, p.value.rest);
        if vs == None then None else Some([p.value.value] + vs.value)
  }

  /** What a field is merged into: required, optional and singular submessages keep
      what they hold. */
  function InitOf(f: Field, slot: Slot): Value {
    if f.htype.OneOf? || IsArray(f) then ZeroValue(f.ltype)
    else if slot.Single? then slot.v
    else InitValue(f)
  }

  /** The elements `vs` written from place k on. */
  function PutAt(elements: seq<Value>, k: nat, vs: seq<Value>): seq<Value> {
    if k + |vs| <= |elements| then elements[..k] + vs + elements[k + |vs|..]
    else if k <= |elements| then elements[..k] + vs
    else elements + vs
  }

  /** A field's new contents, and the element count if it is an array. */
  datatype Filled = Filled(slot: Slot, count: nat)

  /** `decode_static_field`, with `count` elements of an array there already: the
      new slot and the bytes after the field. */
  function DecSlot(f: Field, slot: Slot, count: nat, wireType: int, s: seq<byte>): (r: Option<Parsed<Filled>>)
    ensures r.Some? ==> |r.value.rest| < |s|
    decreases f, 2
  {
    if IsArray(f) && wireType == WT_STRING && Packable(f.ltype) then
      var t := TakePrefixed(s);
      if t == None || !slot.Many? then None
      else
        var room := if count <= f.htype.arraySize then f.htype.arraySize - count else 0;
        var vs := DecPacked(f.ltype, room, t.value.value);
        if vs == None then None
        else Some(Parsed(Filled(Many(PutAt(slot.vs, count, vs.value)), count + |vs.value|), t.value.rest))
    else if wireType != WireType(f.ltype) then None
    else if IsArray(f) then
      if !slot.Many? || count >= f.htype.arraySize then None
      else
        var p := DecValue(f.ltype, ZeroValue(f.ltype), s);
        if p == None then None
        else Some(Parsed(Filled(Many(PutAt(slot.vs, count, [p.value.value])), count + 1), p.value.rest))
    else
      var p := DecValue(f.ltype, InitOf(f, slot), s);
      if p == None then None else Some(Parsed(Filled(Single(p.value.value), 0), p.value.rest))
  }

  /** Setting one alternative of a oneof clears the others. */
  function Store(fs: seq<Field>, m: seq<Slot>, i: nat, slot: Slot): (r: seq<Slot>)
    requires i < |fs| == |m|
    ensures |r| == |m|
  {
    seq(|m|, j requires 0 <= j < |m| =>
      if j == i then slot else if SameOneOf(fs[i], fs[j]) then Absent else m[j])
  }

  /** The first field with a tag, among fields lo up to hi. */
  function FirstTag(fs: seq<Field>, tag: nat, lo: nat, hi: nat): (r: Option<nat>)
    requires lo <= hi <= |fs|
    ensures r.Some? ==> lo <= r.value < hi && fs[r.value].tag == tag
    ensures r.None? ==> forall i :: lo <= i < hi ==> fs[i].tag != tag
    decreases hi - lo
  {
    if lo == hi then None else if fs[lo].tag == tag then Some(lo) else FirstTag(fs, tag, lo + 1, hi)
  }

  /** `pb_field_iter_find` from field `at`: it takes the last tag for the largest,
      and looks for smaller tags only before its position. */
  function Locate(fs: seq<Field>, at: nat, tag: nat): (r: Option<nat>)
    ensures r.Some? ==> r.value < |fs| && fs[r.value].tag == tag
  {
    if at >= |fs| then None
    else if fs[at].tag == tag then Some(at)
    else if tag > fs[|fs| - 1].tag then None
    else if tag < fs[at].tag then FirstTag(fs, tag, 0, at + 1)
    else
      var after := FirstTag(fs, tag, at + 1, |fs|);
      if after.Some? then after else FirstTag(fs, tag, 0, at + 1)
  }

  /** `pb_skip_varint` */
  function SkipVarint(s: seq<byte>): (r: Option<seq<byte>>)
    ensures r.Some? ==> |r.value| < |s|
  {
    if s == [] then None else if s[0] < 128 then Some(s[1..]) else SkipVarint(s[1..])
  }

  /** `pb_skip_field` */
  function Skip(wireType: int, s: seq<byte>): (r: Option<seq<byte>>)
    ensures r.Some? ==> |r.value| < |s|
  {
    if wireType == WT_VARINT then SkipVarint(s)
    else if wireType == WT_64BIT then Rest(Take(s, 8))
    else if wireType == WT_STRING then Rest(TakePrefixed(s))
    else if wireType == WT_32BIT then Rest(Take(s, 4))
    else None
  }

  function Rest(t: Option<Parsed<seq<byte>>>): Option<seq<byte>> {
    if t == None then None else Some(t.value.rest)
  }

  const PB_MAX_REQUIRED_FIELDS: int := 64

  /** How many required fields come before field i. */
  function RequiredBefore(fs: seq<Field>, i: nat): nat
    requires i <= |fs|
  {
    if i == 0 then 0 else RequiredBefore(fs, i - 1) + if fs[i - 1].htype.Required? then 1 else 0
  }

  /** Every required field that is tracked was seen. */
  predicate RequiredSeen(fs: seq<Field>, seen: set<nat>) {
    forall i :: 0 <= i < |fs| && fs[i].htype.Required? && RequiredBefore(fs, i) < PB_MAX_REQUIRED_FIELDS ==> i in seen
  }

  /** Where the decoder stands: the field it read last, the fields seen, and the
      fixed-count array that it fills with the elements it has so far. */
  datatype Cursor = Cursor(at: nat, seen: set<nat>, fixed: Option<nat>, count: nat)

  const START := Cursor(0, {}, None, 0)

  /** The last fixed-count array has all its elements. */
  predicate Complete(fs: seq<Field>, c: Cursor) {
    c.fixed.Some? && c.fixed.value < |fs| && fs[c.fixed.value].htype.FixArray? ==>
      c.count == fs[c.fixed.value].htype.arraySize
  }

  /** Going to field i; another fixed-count array must not be left half full. */
  function Enter(fs: seq<Field>, c: Cursor, i: nat): Option<Cursor>
    requires i < |fs|
  {
    var here := c.(at := i, seen := c.seen + {i});
    if !fs[i].htype.FixArray? || c.fixed == Some(i) then Some(here)
    else if !Complete(fs, c) then None
    else Some(here.(fixed := Some(i), count := 0))
  }

  /** How many elements the array at field i has. */
  function CountAt(f: Field, slot: Slot, c: Cursor): nat {
    if f.htype.FixArray? then c.count else if slot.Many? then |slot.vs| else 0
  }

  function Leave(f: Field, c: Cursor, count: nat): Cursor {
    if f.htype.FixArray? then c.(count := count) else c
  }

  /** `pb_decode_inner`: fields in any order into message `m`. */
  function DecFields(fs: seq<Field>, m: seq<Slot>, c: Cursor, s: seq<byte>): Option<seq<Slot>>
    requires |m| == |fs|
    decreases fs, |s|
  {
    if s == [] then
      if Complete(fs, c) && RequiredSeen(fs, c.seen) then Some(m) else None
    else
      var d := DecodeVarint32(s);
      if d == None then None
      else
        var tag, wireType, rest := d.value.value / 8, d.value.value % 8, d.value.rest;
        if tag == 0 then None
        else
          var i := Locate(fs, c.at, tag);
          if i == None then
            var r := Skip(wireType, rest);
            if r == None then None else DecFields(fs, m, c, r.value)
          else
            var f, here := fs[i.value], Enter(fs, c, i.value);
            if here == None then None
            else
              var p := DecSlot(f, m[i.value], CountAt(f, m[i.value], here.value), wireType, rest);
              if p == None then None
              else
                var filled := p.value.value;
                DecFields(fs, Store(fs, m, i.value, filled.slot), Leave(f, here.value, filled.count), p.value.rest)
  }

  /** `pb_decode` */
  function Decode(fs: seq<Field>, s: seq<byte>): Option<seq<Slot>> {
    DecFields(fs, InitMsg(fs), START, s)
  }
}
