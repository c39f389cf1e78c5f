/**
 The message decoder: `pb_decode_inner` and what it calls, with the bit field
 that records which required fields arrived.
 */
module ProtoDecoder {
  import opened Options
  import opened Varints
  import opened Proto
  import opened ProtoStream
  import opened ProtoRoundTrip
  import opened Words
  import opened Bits

  // ---------------------------------------------------------------------------
  // Required fields

  function Tracked(fs: seq<Field>): nat {
    var n := RequiredBefore(fs, |fs|);
    if n > PB_MAX_REQUIRED_FIELDS then PB_MAX_REQUIRED_FIELDS else n
  }

  /** Bit k stands for the k-th required field; `seen` holds field indices. */
  ghost predicate Tracks(fs: seq<Field>, seen: set<nat>, marks: set<nat>) {
    && (forall i :: 0 <= i < |fs| && fs[i].htype.Required? && RequiredBefore(fs, i) < PB_MAX_REQUIRED_FIELDS ==>
          (i in seen <==> RequiredBefore(fs, i) in marks))
    && (forall k :: k in marks ==> k < Tracked(fs))
  }

  lemma {:induction false} RequiredMonotonic(fs: seq<Field>, i: nat, j: nat)
    requires i < j <= |fs|
    ensures RequiredBefore(fs, i) + (if fs[i].htype.Required? then 1 else 0) <= RequiredBefore(fs, j)
    decreases j
  {
    if i < j - 1 { RequiredMonotonic(fs, i, j - 1); }
  }

  /** Some required field has index k among the required ones. */
  lemma {:induction false} RequiredAt(fs: seq<Field>, n: nat, k: nat) returns (i: nat)
    requires n <= |fs| && k < RequiredBefore(fs, n)
    ensures i < n && fs[i].htype.Required? && RequiredBefore(fs, i) == k
  {
    if k < RequiredBefore(fs, n - 1) {
      i := RequiredAt(fs, n - 1, k);
    } else {
      i := n - 1;
    }
  }

  lemma {:induction false} TracksMark(fs: seq<Field>, seen: set<nat>, marks: set<nat>, i: nat)
    requires Tracks(fs, seen, marks) && i < |fs|
    ensures fs[i].htype.Required? && RequiredBefore(fs, i) < PB_MAX_REQUIRED_FIELDS ==>
              Tracks(fs, seen + {i}, marks + {RequiredBefore(fs, i)})
    ensures !(fs[i].htype.Required? && RequiredBefore(fs, i) < PB_MAX_REQUIRED_FIELDS) ==>
              Tracks(fs, seen + {i}, marks)
  {
    if fs[i].htype.Required? && RequiredBefore(fs, i) < PB_MAX_REQUIRED_FIELDS {
      RequiredMonotonic(fs, i, |fs|);
      forall j | 0 <= j < |fs| && fs[j].htype.Required? && j != i
        ensures RequiredBefore(fs, j) != RequiredBefore(fs, i)
      {
        RequiredMonotonic(fs, if i < j then i else j, if i < j then j else i);
      }
    }
  }

  lemma {:induction false} TracksAll(fs: seq<Field>, seen: set<nat>, marks: set<nat>)
    requires Tracks(fs, seen, marks)
    ensures RequiredSeen(fs, seen) <==> forall k: nat :: k < Tracked(fs) ==> k in marks
  {
    if RequiredSeen(fs, seen) {
      forall k: nat | k < Tracked(fs) ensures k in marks {
        var i := RequiredAt(fs, |fs|, k);
      }
    }
    if forall k: nat :: k < Tracked(fs) ==> k in marks {
      forall i | 0 <= i < |fs| && fs[i].htype.Required? && RequiredBefore(fs, i) < PB_MAX_REQUIRED_FIELDS
        ensures i in seen
      {
        RequiredMonotonic(fs, i, |fs|);
      }
    }
  }

  /** Bit i of word w stands for required field base + i. */
  ghost predicate Word(w: nat, base: nat, marks: set<nat>) {
    w < Pow2(32) && forall i: nat :: i < 32 ==> (Bit(w, i) <==> base + i in marks)
  }

  /** A word whose marks all lie below bit k is 2^k - 1 exactly when those fields
      were all seen. */
  lemma {:induction false} WordFull(w: nat, base: nat, marks: set<nat>, k: nat)
    requires Word(w, base, marks) && k <= 32
    requires forall m :: m in marks ==> m < base + k || base + 32 <= m
    ensures w == Pow2(k) - 1 <==> forall m: nat :: base <= m < base + k ==> m in marks
  {
    hide Bit, Pow2;
    var ones: nat := Pow2(k) - 1;
    forall i: nat ensures Bit(ones, i) <==> i < k { OnesBits(k, i); }
    Pow2Monotonic(k, 32);
    if w == ones {
      forall m: nat | base <= m < base + k ensures m in marks { assert Bit(w, m - base); }
    }
    if forall m: nat :: base <= m < base + k ==> m in marks {
      SameBits(w, ones, 32);
    }
  }

  /** `pb_fields_seen_t` */
  class FieldsSeen {
    var bitfield: seq<nat>

    ghost predicate Holds(marks: set<nat>)
      reads this
    {
      |bitfield| == 2 && Word(bitfield[0], 0, marks) && Word(bitfield[1], 32, marks)
    }

    constructor ()
      ensures Holds({})
    {
      bitfield := [0, 0];
      new;
      forall i: nat ensures !Bit(0, i) { ZeroBits(i); }
    }

    /** Records required field k. */
    method Mark(k: nat, ghost marks: set<nat>)
      requires Holds(marks) && k < PB_MAX_REQUIRED_FIELDS
      modifies this
      ensures Holds(marks + {k})
    {
      hide Bit, Or, Pow2;
      OrPow2(bitfield[k / 32], k % 32, 32);
      bitfield := bitfield[k / 32 := Or(bitfield[k / 32], Pow2(k % 32))];
    }

    /** Whether all of the first `count` required fields were recorded. */
    method AllSeen(count: nat, ghost marks: set<nat>) returns (ok: bool)
      requires Holds(marks) && forall k :: k in marks ==> k < count
      ensures ok <==> forall k: nat :: k < count && k < PB_MAX_REQUIRED_FIELDS ==> k in marks
    {
      hide Word, Pow2;
      var n := if count > PB_MAX_REQUIRED_FIELDS then PB_MAX_REQUIRED_FIELDS else count;
      var allBits := Pow2(32) - 1;
      var i := 0;
      ok := true;
      while i < n / 32
        invariant 0 <= i <= n / 32
        invariant forall k: nat :: k < 32 * i ==> k in marks
      {
        WordFull(bitfield[i], 32 * i, marks, 32);
        if bitfield[i] != allBits {
          return false;
        }
        i := i + 1;
      }
      if n % 32 != 0 {
        WordFull(bitfield[n / 32], 32 * i, marks, n % 32);
        ok := bitfield[n / 32] == Pow2(n % 32) - 1;
      }
    }
  }

  // ---------------------------------------------------------------------------
  // Fields

  /** `decode_basic_field` once the wire type is accepted */
  method DecodeBasicField(stream: IStream, lt: LType, init: Value) returns (r: Option<Value>)
    requires LTypeOk(lt)
    modifies stream
    ensures Reads(DecValue(lt, init, old(stream.data)), r, stream.data)
    decreases lt, 1
  {
    hide DecFixed, DecInt, DecBytes, DecFields, TakePrefixed;
    if lt.LFixed32? {
      r := stream.ReadFixed(4);
    } else if lt.LFixed64? {
      r := stream.ReadFixed(8);
    } else if lt.LSubmsg? {
      r := DecodeSubmessage(stream, lt, init);
    } else if lt.LBytes? || lt.LString? || lt.LFixedBytes? {
      r := stream.ReadBytes(lt);
    } else {
      r := stream.ReadInt(lt);
    }
  }

  /** `pb_dec_submessage` */
  method DecodeSubmessage(stream: IStream, lt: LType, init: Value) returns (r: Option<Value>)
    requires lt.LSubmsg? && LTypeOk(lt)
    modifies stream
    ensures Reads(DecValue(lt, init, old(stream.data)), r, stream.data)
    decreases lt, 0
  {
    hide DecFields, TakePrefixed, InitMsg;
    var bytes := stream.MakeSubstream();
    if bytes == None {
      return None;
    }
    var substream := new IStream(bytes.value);
    var slots;
    if init.VMsg? && |init.slots| == |lt.fields| {
      slots := init.slots;
    } else {
      slots := SetToDefaults(lt.fields);
    }
    var m := DecodeInner(substream, lt.fields, slots);
    return if m == None then None else Some(VMsg(m.value));
  }

  lemma {:induction false} PutOneMore(elements: seq<Value>, k: nat, vs: seq<Value>, v: Value)
    ensures PutAt(PutAt(elements, k, vs), k + |vs|, [v]) == PutAt(elements, k, vs + [v])
  {
    var n := k + |vs|;
    if n < |elements| {
      PutBefore(elements[..k], elements[k..n], vs, elements[n], v, elements[n + 1..]);
      assert elements == elements[..k] + elements[k..n] + [elements[n]] + elements[n + 1..];
    } else if k <= |elements| {
      var left := elements[..k] + vs;
      assert PutAt(elements, k, vs) == left && left[..n] == left;
    }
  }

  lemma {:induction false} PutBefore(
      a: seq<Value>, was: seq<Value>, vs: seq<Value>, next: Value, v: Value, z: seq<Value>)
    requires |was| == |vs|
    ensures var elements := a + was + [next] + z;
            PutAt(PutAt(elements, |a|, vs), |a| + |vs|, [v]) == PutAt(elements, |a|, vs + [v]) == a + vs + [v] + z
  {
    var elements := a + was + [next] + z;
    PutIs(elements, a, was, vs, [next] + z);
    var elements1 := a + vs + ([next] + z);
    assert elements1 == (a + vs) + [next] + z;
    PutIs(elements1, a + vs, [next], [v], z);
    assert elements == a + (was + [next]) + z;
    PutIs(elements, a, was + [next], vs + [v], z);
  }

  lemma {:induction false} PutIs(
      elements: seq<Value>, a: seq<Value>, was: seq<Value>, vs: seq<Value>, z: seq<Value>)
    requires elements == a + was + z && |was| == |vs|
    ensures PutAt(elements, |a|, vs) == a + vs + z
  {
    assert elements[..|a|] == a && elements[|a| + |vs|..] == z;
  }

  lemma {:induction false} PutNothing(elements: seq<Value>, k: nat)
    ensures PutAt(elements, k, []) == elements
  {
  }

  function RoomFor(arraySize: nat, count: nat): nat { if count <= arraySize then arraySize - count else 0 }

  /** The packed-array loop of `decode_static_field`: elements go where the count
      says. */
  method DecodePacked(substream: IStream, lt: LType, arraySize: nat, before: seq<Value>, start: nat)
    returns (r: Option<Filled>)
    requires LTypeOk(lt) && Packable(lt)
    modifies substream
    ensures var vs := DecPacked(lt, RoomFor(arraySize, start), old(substream.data));
            r == if vs == None then None else Some(Filled(Many(PutAt(before, start, vs.value)), start + |vs.value|))
    decreases lt, 2
  {
    hide DecValue, PutAt;
    var elements, count := before, start;
    ghost var got: seq<Value> := [];
    ghost var target := DecPacked(lt, RoomFor(arraySize, start), substream.data);
    PutNothing(before, start);
    assert target.Some? ==> [] + target.value == target.value;
    while |substream.data| > 0 && count < arraySize
      invariant count == start + |got|
      invariant elements == PutAt(before, start, got)
      invariant target == PrependTo(got, DecPacked(lt, RoomFor(arraySize, count), substream.data))
      decreases |substream.data|
    {
      var v := DecodeBasicField(substream, lt, VInt(0));
      if v == None {
        return None;
      }
      Regroup(got, v.value, DecPacked(lt, RoomFor(arraySize, count + 1), substream.data));
      PutOneMore(before, start, got, v.value);
      elements, count := PutAt(elements, count, [v.value]), count + 1;
      got := got + [v.value];
    }
    if |substream.data| != 0 {
      return None;
    }
    assert got + [] == got;
    return Some(Filled(Many(elements), count));
  }

  ghost function PrependTo(vs: seq<Value>, r: Option<seq<Value>>): Option<seq<Value>> {
    if r == None then None else Some(vs + r.value)
  }

  lemma {:induction false} Regroup(vs: seq<Value>, v: Value, r: Option<seq<Value>>)
    ensures PrependTo(vs, if r == None then None else Some([v] + r.value)) == PrependTo(vs + [v], r)
  {
    if r.Some? { assert vs + ([v] + r.value) == vs + [v] + r.value; }
  }

  /** `decode_static_field`: the field's new contents.  An array slot that is not one
      does not occur. */
  method DecodeStaticField(stream: IStream, f: Field, slot: Slot, count: nat, wireType: int) returns (r: Option<Filled>)
    requires FieldOk(f)
    modifies stream
    ensures Reads(DecSlot(f, slot, count, wireType, old(stream.data)), r, stream.data)
    decreases f, 2
  {
    hide DecValue, DecPacked, TakePrefixed, PutAt;
    if IsArray(f) && !slot.Many? {
      return None;
    }
    if IsArray(f) && wireType == WT_STRING && Packable(f.ltype) {
      var bytes := stream.MakeSubstream();
      if bytes == None {
        return None;
      }
      var substream := new IStream(bytes.value);
      r := DecodePacked(substream, f.ltype, f.htype.arraySize, slot.vs, count);
      return;
    }
    if wireType != WireType(f.ltype) {
      return None;
    }
    if IsArray(f) {
      if count >= f.htype.arraySize {
        return None;
      }
      var v := DecodeBasicField(stream, f.ltype, ZeroValue(f.ltype));
      return if v == None then None else Some(Filled(Many(PutAt(slot.vs, count, [v.value])), count + 1));
    }
    var v := DecodeBasicField(stream, f.ltype, InitOf(f, slot));
    return if v == None then None else Some(Filled(Single(v.value), 0));
  }

  // ---------------------------------------------------------------------------
  // Default values

  /** The descriptor's `default_value`: the fields that have a default, tagged, in
      order.  A zero byte follows it in memory. */
  function DefaultBytes(fs: seq<Field>): seq<byte> {
    if fs == [] then []
    else (if fs[0].def.Some? then EncTagged(fs[0], fs[0].def.value) else []) + DefaultBytes(fs[1..])
  }

  /** The next tag on the default stream is that of the next field with a default,
      or zero. */
  ghost predicate Ahead(fs: seq<Field>, i: nat, tag: nat, wireType: nat, data: seq<byte>, junk: seq<byte>)
    requires i <= |fs|
  {
    wireType < 8 && DecodeVarint32(DefaultBytes(fs[i..]) + ([0] + junk)) == Some(Decoded(tag * 8 + wireType, data))
  }

  lemma {:induction false} AheadOfDefault(fs: seq<Field>, i: nat, tag: nat, wireType: nat, data: seq<byte>,
                                          junk: seq<byte>)
    requires DescOk(fs) && i < |fs| && fs[i].def.Some? && Ahead(fs, i, tag, wireType, data, junk)
    ensures tag == fs[i].tag && wireType == WireType(fs[i].ltype)
    ensures data == EncValue(fs[i].ltype, fs[i].def.value) + (DefaultBytes(fs[i + 1..]) + ([0] + junk))
  {
    hide EncValue, Tag, DecodeVarint32, FieldOk, Typed, Fits;
    var f := fs[i];
    FieldsOk(fs, i);
    TagInRange(f);
    assert fs[i..][1..] == fs[i + 1..];
    var rest := EncValue(f.ltype, f.def.value) + (DefaultBytes(fs[i + 1..]) + ([0] + junk));
    assert DefaultBytes(fs[i..]) + ([0] + junk) == Tag(WireType(f.ltype), f.tag) + rest;
    TagRoundTrip(WireType(f.ltype), f.tag, rest);
  }

  lemma {:induction false} AheadOfOthers(fs: seq<Field>, i: nat, tag: nat, wireType: nat, data: seq<byte>,
                                         junk: seq<byte>)
    requires DescOk(fs) && i <= |fs| && Ahead(fs, i, tag, wireType, data, junk)
    ensures tag == 0 || exists j :: i <= j < |fs| && fs[j].def.Some? && fs[j].tag == tag
    ensures i < |fs| && fs[i].def == None ==> Ahead(fs, i + 1, tag, wireType, data, junk) && tag != fs[i].tag
    decreases |fs| - i
  {
    hide EncTagged, FieldOk;
    if i == |fs| {
      assert fs[i..] == [] && [] + ([0] + junk) == [0] + junk;
    } else {
      FieldsOk(fs, i);
      TagInRange(fs[i]);
      if fs[i].def.Some? {
        AheadOfDefault(fs, i, tag, wireType, data, junk);
      } else {
        assert fs[i..][1..] == fs[i + 1..];
        assert [] + DefaultBytes(fs[i + 1..]) == DefaultBytes(fs[i + 1..]);
        AheadOfOthers(fs, i + 1, tag, wireType, data, junk);
      }
    }
  }

  /** A submessage has to be initialised field by field. */
  predicate NeedsDefaults(fs: seq<Field>) {
    HasDefaults(fs) || exists i :: 0 <= i < |fs| && fs[i].ltype.LSubmsg?
  }

  /** `memset` to zero; an array's elements count as not written. */
  function Cleared(f: Field): Slot {
    match f.htype
    case Required => Single(ClearedValue(f.ltype))
    case Singular(_) => Single(ClearedValue(f.ltype))
    case Optional => Absent
    case OneOf(_) => Absent
    case Repeated(_) => Many([])
    case FixArray(n) => Many(Unset(n))
  }

  function ClearedValue(lt: LType): Value {
    match lt
    case LBytes(_) => VBytes([])
    case LString(_) => VBytes([])
    case LFixedBytes(length) => VBytes(Zeros(length))
    case LSubmsg(_) => VUnset
    case _ => VInt(0)
  }

  lemma {:induction false} ClearedIsInit(f: Field)
    requires f.def == None && (f.htype.Required? || f.htype.Singular? ==> !f.ltype.LSubmsg?)
    ensures Cleared(f) == InitSlot(f)
  {
    if !f.ltype.LSubmsg? {
      assert InitValue(f) == ZeroValue(f.ltype) == ClearedValue(f.ltype);
    }
  }

  /** `pb_field_set_to_default` */
  method SetFieldToDefault(f: Field) returns (slot: Slot)
    requires FieldOk(f)
    ensures slot == InitSlot(f.(def := None))
    decreases f, 4
  {
    if f.ltype.LSubmsg? && (f.htype.Required? || f.htype.Singular?) {
      var m := InitSubmessage(f.ltype);
      assert InitValue(f.(def := None)) == ZeroValue(f.ltype) == VMsg(InitMsg(f.ltype.fields));
      return Single(VMsg(m));
    }
    ClearedIsInit(f.(def := None));
    return Cleared(f);
  }

  method InitSubmessage(lt: LType) returns (m: seq<Slot>)
    requires lt.LSubmsg? && LTypeOk(lt)
    ensures m == InitMsg(lt.fields)
    decreases lt, 3
  {
    if NeedsDefaults(lt.fields) {
      m := SetToDefaults(lt.fields);
    } else {
      m := [];
      for i := 0 to |lt.fields|
        invariant m == InitMsg(lt.fields)[..i]
      {
        InitMsgAt(lt.fields, i);
        ClearedIsInit(lt.fields[i]);
        m := m + [Cleared(lt.fields[i])];
      }
    }
  }

  lemma {:induction false} NextTagExists(fs: seq<Field>, i: nat, junk: seq<byte>)
    requires DescOk(fs) && i <= |fs|
    ensures DecodeVarint32(DefaultBytes(fs[i..]) + ([0] + junk)).Some?
    ensures DecodeVarint32(DefaultBytes(fs[i..]) + ([0] + junk)).value.value >= 0
    decreases |fs| - i
  {
    hide EncValue, Tag, FieldOk, Typed, Fits;
    if i == |fs| {
      assert fs[i..] == [] && [] + ([0] + junk) == [0] + junk;
    } else {
      assert fs[i..][1..] == fs[i + 1..];
      var f := fs[i];
      FieldsOk(fs, i);
      TagInRange(f);
      if f.def.Some? {
        var rest := EncValue(f.ltype, f.def.value) + (DefaultBytes(fs[i + 1..]) + ([0] + junk));
        assert DefaultBytes(fs[i..]) + ([0] + junk) == Tag(WireType(f.ltype), f.tag) + rest;
        TagRoundTrip(WireType(f.ltype), f.tag, rest);
      } else {
        assert [] + DefaultBytes(fs[i + 1..]) == DefaultBytes(fs[i + 1..]);
        NextTagExists(fs, i + 1, junk);
      }
    }
  }

  lemma {:induction false} NoDefault(f: Field)
    ensures f.def == None ==> f.(def := None) == f
  {
  }

  /** Reads the tag of the next default. */
  method NextDefault(stream: IStream, fs: seq<Field>, i: nat, ghost junk: seq<byte>) returns (tag: nat, wireType: nat)
    requires DescOk(fs) && i <= |fs| && stream.data == DefaultBytes(fs[i..]) + ([0] + junk)
    modifies stream
    ensures Ahead(fs, i, tag, wireType, stream.data, junk)
  {
    hide DecodeVarint32, DefaultBytes, DescOk;
    NextTagExists(fs, i, junk);
    var word := stream.ReadVarint32();
    tag, wireType := word.value / 8, word.value % 8;
  }

  /** Reads the default of field i over its cleared contents; an optional field stays
      absent. */
  method ReadDefault(stream: IStream, fs: seq<Field>, i: nat, cleared: Slot, wireType: nat, ghost tag: nat,
                     ghost junk: seq<byte>)
    returns (slot: Slot)
    requires DescOk(fs) && i < |fs| && fs[i].def.Some? && cleared == InitSlot(fs[i].(def := None))
    requires Ahead(fs, i, tag, wireType, stream.data, junk)
    modifies stream
    ensures slot == InitSlot(fs[i])
    ensures stream.data == DefaultBytes(fs[i + 1..]) + ([0] + junk)
    decreases fs, 4
  {
    hide DecodeVarint32, DefaultBytes, DescOk, Ahead, DecValue, EncValue, Typed, Fits;
    var f := fs[i];
    ghost var rest := DefaultBytes(fs[i + 1..]) + ([0] + junk);
    FieldsOk(fs, i);
    AheadOfDefault(fs, i, tag, wireType, stream.data, junk);
    FieldValueReadsBack(f, f.def.value, InitOf(f, cleared), rest);
    var filled := DecodeStaticField(stream, f, cleared, 0, wireType);
    slot := if f.htype.Optional? then Absent else filled.value.slot;
  }

  /** `pb_message_set_to_defaults`: every field is cleared, and those that have a
      default read it from the default stream. */
  method SetToDefaults(fs: seq<Field>) returns (m: seq<Slot>)
    requires DescOk(fs)
    ensures m == InitMsg(fs)
    decreases fs, 5
  {
    hide DefaultBytes, DecodeVarint32, InitSlot, FieldOk, InitMsg, DecSlot, Ahead;
    var stream := new IStream(DefaultBytes(fs) + ([0] + []));
    var tag, wireType := 0, 0;
    assert fs[0..] == fs;
    if HasDefaults(fs) {
      tag, wireType := NextDefault(stream, fs, 0, []);
    }
    m := [];
    for i := 0 to |fs|
      invariant m == InitMsg(fs)[..i] && tag >= 0
      invariant HasDefaults(fs) ==> Ahead(fs, i, tag, wireType, stream.data, [])
      invariant !HasDefaults(fs) ==> tag == 0
    {
      FieldsOk(fs, i);
      InitMsgAt(fs, i);
      var slot := SetFieldToDefault(fs[i]);
      NoDefault(fs[i]);
      if HasDefaults(fs) {
        AheadOfOthers(fs, i, tag, wireType, stream.data, []);
        if fs[i].def.Some? { AheadOfDefault(fs, i, tag, wireType, stream.data, []); }
      }
      TagInRange(fs[i]);
      if tag != 0 && fs[i].tag == tag {
        slot := ReadDefault(stream, fs, i, slot, wireType, tag, []);
        tag, wireType := NextDefault(stream, fs, i + 1, []);
      }
      m := m + [slot];
    }
  }

  // ---------------------------------------------------------------------------
  // Messages

  /** The three `fixed_count_` variables. */
  ghost predicate Counts(fs: seq<Field>, c: Cursor, field: Option<nat>, size: nat, total: nat) {
    && c.fixed == field && c.count == size
    && (field.Some? ==>
          field.value < |fs| && fs[field.value].htype.FixArray? && total == fs[field.value].htype.arraySize)
  }

  /** The fixed-count bookkeeping on the way to field i. */
  method EnterField(fs: seq<Field>, i: nat, field: Option<nat>, size: nat, total: nat, ghost c: Cursor)
    returns (ok: bool, field': Option<nat>, size': nat, total': nat)
    requires i < |fs| && Counts(fs, c, field, size, total)
    ensures ok == Enter(fs, c, i).Some?
    ensures ok ==> Counts(fs, Enter(fs, c, i).value, field', size', total')
  {
    ok, field', size', total' := true, field, size, total;
    if fs[i].htype.FixArray? && field != Some(i) {
      if field.Some? && size != total {
        ok := false;
      }
      field', size', total' := Some(i), 0, fs[i].htype.arraySize;
    }
  }

  lemma {:induction false} CursorFacts(fs: seq<Field>, c: Cursor, i: nat, count: nat)
    requires i < |fs|
    ensures Enter(fs, c, i).Some? ==>
              && Enter(fs, c, i).value.at == i && Enter(fs, c, i).value.seen == c.seen + {i}
              && var d := Leave(fs[i], Enter(fs, c, i).value, count);
                 && d.at == i && d.seen == c.seen + {i} && d.fixed == Enter(fs, c, i).value.fixed
                 && d.count == if fs[i].htype.FixArray? then count else Enter(fs, c, i).value.count
  {
  }

  lemma {:induction false} CompleteIs(fs: seq<Field>, c: Cursor, field: Option<nat>, size: nat, total: nat)
    requires Counts(fs, c, field, size, total)
    ensures Complete(fs, c) <==> !(field.Some? && size != total)
  {
  }

  /** `pb_decode_inner` with the message initialised */
  method DecodeInner(stream: IStream, fs: seq<Field>, init: seq<Slot>) returns (r: Option<seq<Slot>>)
    requires DescOk(fs) && |init| == |fs|
    modifies stream
    ensures r == DecFields(fs, init, START, old(stream.data))
    ensures r.Some? ==> stream.data == []
    decreases fs, 3
  {
    hide DecodeVarint32, DecSlot, Locate, Skip, Store, RequiredSeen, FieldOk, Enter, Leave, Complete;
    var m, index := init, 0;
    var fixedField: Option<nat>, fixedSize: nat, fixedTotal: nat := None, 0, 0;
    var fieldsSeen := new FieldsSeen();
    ghost var c, marks: set<nat> := START, {};
    ghost var target := DecFields(fs, init, START, stream.data);
    while |stream.data| > 0
      invariant |m| == |fs| && fresh(fieldsSeen)
      invariant c.at == index && Counts(fs, c, fixedField, fixedSize, fixedTotal)
      invariant fieldsSeen.Holds(marks) && Tracks(fs, c.seen, marks)
      invariant target == DecFields(fs, m, c, stream.data)
      decreases |stream.data|
    {
      var word := stream.ReadVarint32();
      if word == None {
        return None;
      }
      var tag, wireType := word.value / 8, word.value % 8;
      if tag == 0 {
        return None;
      }
      var found := Locate(fs, index, tag);
      if found == None {
        var ok := stream.SkipField(wireType);
        if !ok {
          return None;
        }
      } else {
        index := found.value;
        var f := fs[index];
        ghost var here := Enter(fs, c, index);
        var ok;
        ok, fixedField, fixedSize, fixedTotal := EnterField(fs, index, fixedField, fixedSize, fixedTotal, c);
        if !ok {
          return None;
        }
        TracksMark(fs, c.seen, marks, index);
        var k := RequiredBefore(fs, index);
        if f.htype.Required? && k < PB_MAX_REQUIRED_FIELDS {
          fieldsSeen.Mark(k, marks);
          marks := marks + {k};
        }
        FieldsOk(fs, index);
        var count := if f.htype.FixArray? then fixedSize else if m[index].Many? then |m[index].vs| else 0;
        var filled := DecodeStaticField(stream, f, m[index], count, wireType);
        if filled == None {
          return None;
        }
        CursorFacts(fs, c, index, filled.value.count);
        if f.htype.FixArray? {
          fixedSize := filled.value.count;
        }
        m, c := Store(fs, m, index, filled.value.slot), Leave(f, here.value, filled.value.count);
      }
    }
    CompleteIs(fs, c, fixedField, fixedSize, fixedTotal);
    if fixedField.Some? && fixedSize != fixedTotal {
      return None;
    }
    TracksAll(fs, c.seen, marks);
    var all := fieldsSeen.AllSeen(RequiredBefore(fs, |fs|), marks);
    return if all then Some(m) else None;
  }

  /** `pb_decode` */
  method DecodeMessage(stream: IStream, fs: seq<Field>) returns (r: Option<seq<Slot>>)
    requires DescOk(fs)
    modifies stream
    ensures r == Decode(fs, old(stream.data))
    ensures r.Some? ==> stream.data == []
  {
    var m := SetToDefaults(fs);
    r := DecodeInner(stream, fs, m);
  }
}
