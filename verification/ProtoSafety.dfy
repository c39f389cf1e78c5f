/**
 What the decoder leaves in a message, whatever bytes it is given; and what it
 makes of a message from which fixed-count arrays are missing.
 */
module ProtoSafety {
  import opened Options
  import opened Varints
  import opened Proto
  import opened ProtoRoundTrip

  // ---------------------------------------------------------------------------
  // Decoded messages

  /** A value within the C type and within its capacity. */
  ghost predicate Held(lt: LType, v: Value)
    decreases lt, 1
  {
    if lt.LSubmsg? then v.VMsg? && HeldMsg(lt.fields, v.slots) else Typed(lt, v) && Fits(lt, v)
  }

  ghost predicate AllHeld(lt: LType, vs: seq<Value>)
    decreases lt, 2
  {
    forall i :: 0 <= i < |vs| ==> Held(lt, vs[i])
  }

  /** A fixed-count array is complete, or was never written. */
  ghost predicate HeldSlot(f: Field, slot: Slot)
    decreases f, 2
  {
    match f.htype
    case Required => slot.Single? && Held(f.ltype, slot.v)
    case Singular(_) => slot.Single? && Held(f.ltype, slot.v)
    case Optional => slot.Absent? || (slot.Single? && Held(f.ltype, slot.v))
    case OneOf(_) => slot.Absent? || (slot.Single? && Held(f.ltype, slot.v))
    case Repeated(n) => slot.Many? && |slot.vs| <= n && AllHeld(f.ltype, slot.vs)
    case FixArray(n) => slot.Many? && |slot.vs| == n && (AllHeld(f.ltype, slot.vs) || slot.vs == Unset(n))
  }

  /** At most one alternative of each oneof is set. */
  ghost predicate OneAlternative(fs: seq<Field>, m: seq<Slot>)
    requires |m| == |fs|
  {
    forall i, j :: 0 <= i < j < |fs| && SameOneOf(fs[i], fs[j]) ==> m[i] == Absent || m[j] == Absent
  }

  ghost predicate HeldMsg(fs: seq<Field>, m: seq<Slot>)
    decreases fs, 3
  {
    |m| == |fs| && OneAlternative(fs, m) && forall i :: 0 <= i < |fs| ==> HeldSlot(fs[i], m[i])
  }

  // ---------------------------------------------------------------------------
  // Initial values

  lemma {:induction false} ZeroHeld(lt: LType)
    requires LTypeOk(lt)
    ensures Held(lt, ZeroValue(lt))
    decreases lt, 1
  {
    if lt.LSubmsg? { InitHeld(lt.fields); }
  }

  lemma {:induction false} InitHeld(fs: seq<Field>)
    requires DescOk(fs)
    ensures HeldMsg(fs, InitMsg(fs))
    decreases fs, 3
  {
    hide InitMsg, InitSlot, HeldSlot, FieldOk;
    forall i | 0 <= i < |fs| ensures HeldSlot(fs[i], InitMsg(fs)[i]) {
      InitMsgAt(fs, i);
      InitSlotHeld(fs[i]);
    }
    forall i, j | 0 <= i < j < |fs| && SameOneOf(fs[i], fs[j]) ensures InitMsg(fs)[i] == Absent {
      InitMsgAt(fs, i);
      assert InitSlot(fs[i]) == Absent by { OneOfInit(fs[i]); }
    }
  }

  lemma {:induction false} OneOfInit(f: Field)
    requires f.htype.OneOf?
    ensures InitSlot(f) == Absent
  {
  }

  lemma {:induction false} InitSlotHeld(f: Field)
    requires FieldOk(f)
    ensures HeldSlot(f, InitSlot(f))
    decreases f, 2
  {
    ZeroHeld(f.ltype);
  }

  // ---------------------------------------------------------------------------
  // Values

  lemma {:induction false} NoNul(s: seq<byte>)
    ensures 0 !in UpToNul(s) && |UpToNul(s)| <= |s|
  {
    if s != [] && s[0] != 0 { NoNul(s[1..]); }
  }

  lemma {:induction false} LittleEndianBound(s: seq<byte>)
    ensures |s| == 4 ==> FromLittleEndian(s) < TWO_32
    ensures |s| == 8 ==> FromLittleEndian(s) < TWO_64
  {
    if |s| == 4 || |s| == 8 { FourBytes(s); }
    if |s| == 8 {
      FourBytes(s[4..]);
      assert s[1..][1..][1..][1..] == s[4..];
    }
  }

  lemma {:induction false} FourBytes(s: seq<byte>)
    requires |s| >= 4
    ensures FromLittleEndian(s)
         == s[0] + 256 * s[1] + 0x1_0000 * s[2] + 0x100_0000 * s[3] + TWO_32 * FromLittleEndian(s[4..])
  {
    assert FromLittleEndian(s) == s[0] + 256 * FromLittleEndian(s[1..]);
    assert FromLittleEndian(s[1..]) == s[1] + 256 * FromLittleEndian(s[1..][1..]);
    assert FromLittleEndian(s[1..][1..]) == s[2] + 256 * FromLittleEndian(s[1..][1..][1..]);
    assert s[1..][1..][1..][1..] == s[4..];
  }

  lemma {:induction false} IntHeld(lt: LType, s: seq<byte>)
    requires LTypeOk(lt) && DecInt(lt, s).Some?
    ensures Held(lt, DecInt(lt, s).value.value)
  {
  }

  lemma {:induction false} BytesHeld(lt: LType, s: seq<byte>)
    requires LTypeOk(lt) && DecBytes(lt, s).Some?
    ensures Held(lt, DecBytes(lt, s).value.value)
  {
    var d := DecodeVarint32(s);
    if lt.LString? { NoNul(Take(d.value.rest, d.value.value).value.value); }
  }

  lemma {:induction false} FixedHeld(lt: LType, s: seq<byte>, k: nat)
    requires (lt.LFixed32? && k == 4) || (lt.LFixed64? && k == 8)
    requires DecFixed(s, k).Some?
    ensures Held(lt, DecFixed(s, k).value.value)
  {
    LittleEndianBound(s[..k]);
  }

  /** Every value read is held by its field's type; only a submessage is merged into
      what was there. */
  lemma {:induction false} ValueHeld(lt: LType, init: Value, s: seq<byte>)
    requires LTypeOk(lt) && (lt.LSubmsg? ==> Held(lt, init)) && DecValue(lt, init, s).Some?
    ensures Held(lt, DecValue(lt, init, s).value.value)
    decreases lt, 0
  {
    hide DecInt, DecBytes, DecFixed, DecFields, HeldMsg, InitMsg;
    match lt
    case LFixed32 => FixedHeld(lt, s, 4);
    case LFixed64 => FixedHeld(lt, s, 8);
    case LSubmsg(fields) =>
      HeldLength(fields, init.slots);
      FieldsHeld(fields, init.slots, START, TakePrefixed(s).value.value);
    case LBytes(_) => BytesHeld(lt, s);
    case LString(_) => BytesHeld(lt, s);
    case LFixedBytes(_) => BytesHeld(lt, s);
    case _ => IntHeld(lt, s);
  }

  lemma {:induction false} HeldLength(fs: seq<Field>, m: seq<Slot>)
    requires HeldMsg(fs, m)
    ensures |m| == |fs| && PartMsg(fs, m, START)
  {
  }

  lemma {:induction false} PackedHeld(lt: LType, room: nat, s: seq<byte>)
    requires LTypeOk(lt) && Packable(lt) && DecPacked(lt, room, s).Some?
    ensures var vs := DecPacked(lt, room, s).value; |vs| <= room && AllHeld(lt, vs)
    decreases lt, 1, |s|
  {
    hide DecValue, Held;
    if s != [] {
      ValueHeld(lt, VInt(0), s);
      PackedHeld(lt, room - 1, DecValue(lt, VInt(0), s).value.rest);
    }
  }

  // ---------------------------------------------------------------------------
  // Fields

  /** A field on the way: of the open fixed-count array, only the first `count`
      elements are held. */
  ghost predicate PartSlot(f: Field, slot: Slot, count: Option<nat>) {
    if f.htype.FixArray? && count.Some? then
      && slot.Many? && |slot.vs| == f.htype.arraySize && count.value <= |slot.vs|
      && AllHeld(f.ltype, slot.vs[..count.value])
    else HeldSlot(f, slot)
  }

  function CountOf(c: Cursor, i: nat): Option<nat> { if c.fixed == Some(i) then Some(c.count) else None }

  ghost predicate PartMsg(fs: seq<Field>, m: seq<Slot>, c: Cursor) {
    |m| == |fs| && OneAlternative(fs, m) && forall i :: 0 <= i < |fs| ==> PartSlot(fs[i], m[i], CountOf(c, i))
  }

  lemma {:induction false} CompleteHeld(fs: seq<Field>, m: seq<Slot>, c: Cursor, i: nat)
    requires PartMsg(fs, m, c) && Complete(fs, c) && i < |fs|
    ensures HeldSlot(fs[i], m[i])
  {
    hide AllHeld;
    assert PartSlot(fs[i], m[i], CountOf(c, i));
    if c.fixed == Some(i) && fs[i].htype.FixArray? {
      assert m[i].vs[..c.count] == m[i].vs;
    }
  }

  lemma {:induction false} EnterHeld(fs: seq<Field>, m: seq<Slot>, c: Cursor, i: nat)
    requires PartMsg(fs, m, c) && i < |fs| && Enter(fs, c, i).Some?
    ensures PartMsg(fs, m, Enter(fs, c, i).value)
  {
    hide HeldSlot;
    var here := Enter(fs, c, i).value;
    forall j | 0 <= j < |fs| ensures PartSlot(fs[j], m[j], CountOf(here, j)) {
      assert PartSlot(fs[j], m[j], CountOf(c, j));
      if here.fixed != c.fixed {
        CompleteHeld(fs, m, c, j);
        if j == i { OpenHeld(fs[i], m[i]); }
      }
    }
  }

  lemma {:induction false} OpenHeld(f: Field, slot: Slot)
    requires f.htype.FixArray? && HeldSlot(f, slot)
    ensures PartSlot(f, slot, Some(0))
  {
  }

  lemma {:induction false} PutHeld(lt: LType, elements: seq<Value>, k: nat, vs: seq<Value>)
    requires k <= |elements| && AllHeld(lt, elements[..k]) && AllHeld(lt, vs)
    requires k == |elements| || k + |vs| <= |elements|
    ensures var r := PutAt(elements, k, vs);
            && |r| == (if k + |vs| <= |elements| then |elements| else k + |vs|)
            && AllHeld(lt, r[..k + |vs|])
  {
    hide Held;
    var r := PutAt(elements, k, vs);
    assert r[..k + |vs|] == elements[..k] + vs;
  }

  /** Writing `vs` into an array with `count` elements. */
  lemma {:induction false} ArrayHeld(f: Field, slot: Slot, count: nat, vs: seq<Value>)
    requires IsArray(f) && PartSlot(f, slot, Some(count)) && AllHeld(f.ltype, vs)
    requires f.htype.Repeated? ==> count == |slot.vs|
    requires count + |vs| <= f.htype.arraySize
    ensures PartSlot(f, Many(PutAt(slot.vs, count, vs)), Some(count + |vs|))
  {
    hide AllHeld, PutAt;
    assert f.htype.Repeated? ==> slot.vs[..count] == slot.vs;
    PutHeld(f.ltype, slot.vs, count, vs);
    var r := PutAt(slot.vs, count, vs);
    assert f.htype.Repeated? ==> r[..count + |vs|] == r;
  }

  lemma {:induction false} InitOfHeld(f: Field, slot: Slot)
    requires FieldOk(f) && HeldSlot(f, slot) && !IsArray(f) && f.ltype.LSubmsg?
    ensures Held(f.ltype, InitOf(f, slot))
  {
    hide Held;
    ZeroHeld(f.ltype);
    assert InitValue(f) == ZeroValue(f.ltype);
  }

  /** What `decode_static_field` makes of a field. */
  lemma {:induction false} SlotHeld(f: Field, slot: Slot, count: nat, wireType: int, s: seq<byte>)
    requires FieldOk(f) && PartSlot(f, slot, Some(count)) && DecSlot(f, slot, count, wireType, s).Some?
    requires f.htype.Repeated? ==> slot.Many? && count == |slot.vs|
    ensures var filled := DecSlot(f, slot, count, wireType, s).value.value; PartSlot(f, filled.slot, Some(filled.count))
    decreases f, 3
  {
    hide PartSlot, AllHeld, DecValue, DecPacked, PutAt, HeldSlot, Held, TakePrefixed, InitOf;
    if IsArray(f) && wireType == WT_STRING && Packable(f.ltype) {
      CountInRange(f, slot, count);
      var room := f.htype.arraySize - count;
      var body := TakePrefixed(s).value.value;
      PackedHeld(f.ltype, room, body);
      ArrayHeld(f, slot, count, DecPacked(f.ltype, room, body).value);
    } else if IsArray(f) {
      ZeroHeld(f.ltype);
      ValueHeld(f.ltype, ZeroValue(f.ltype), s);
      var v := DecValue(f.ltype, ZeroValue(f.ltype), s).value.value;
      OneHeld(f.ltype, v);
      ArrayHeld(f, slot, count, [v]);
    } else {
      if f.ltype.LSubmsg? {
        PartIsHeld(f, slot, Some(count));
        InitOfHeld(f, slot);
      }
      ValueHeld(f.ltype, InitOf(f, slot), s);
      SingleHeld(f, DecValue(f.ltype, InitOf(f, slot), s).value.value);
    }
  }

  lemma {:induction false} CountInRange(f: Field, slot: Slot, count: nat)
    requires IsArray(f) && PartSlot(f, slot, Some(count)) && (f.htype.Repeated? ==> slot.Many? && count == |slot.vs|)
    ensures count <= f.htype.arraySize
  {
  }

  lemma {:induction false} OneHeld(lt: LType, v: Value)
    requires Held(lt, v)
    ensures AllHeld(lt, [v])
  {
  }

  lemma {:induction false} PartIsHeld(f: Field, slot: Slot, count: Option<nat>)
    requires PartSlot(f, slot, count) && !f.htype.FixArray?
    ensures HeldSlot(f, slot)
  {
  }

  lemma {:induction false} SingleHeld(f: Field, v: Value)
    requires Held(f.ltype, v) && !IsArray(f)
    ensures forall count :: PartSlot(f, Single(v), count)
  {
  }

  /** Storing a field of the message. */
  lemma {:induction false} StoreHeld(fs: seq<Field>, m: seq<Slot>, c: Cursor, i: nat, filled: Filled)
    requires PartMsg(fs, m, c) && i < |fs| && PartSlot(fs[i], filled.slot, Some(filled.count))
    requires fs[i].htype.FixArray? ==> c.fixed == Some(i)
    ensures PartMsg(fs, Store(fs, m, i, filled.slot), Leave(fs[i], c, filled.count))
  {
    hide HeldSlot;
    var m', c' := Store(fs, m, i, filled.slot), Leave(fs[i], c, filled.count);
    forall j | 0 <= j < |fs| ensures PartSlot(fs[j], m'[j], CountOf(c', j)) {
      assert PartSlot(fs[j], m[j], CountOf(c, j));
      if j != i && SameOneOf(fs[i], fs[j]) { AbsentHeld(fs[j]); }
    }
    forall j, k | 0 <= j < k < |fs| && SameOneOf(fs[j], fs[k]) ensures m'[j] == Absent || m'[k] == Absent {
      assert m[j] == Absent || m[k] == Absent;
    }
  }

  lemma {:induction false} AbsentHeld(f: Field)
    requires f.htype.OneOf?
    ensures HeldSlot(f, Absent)
  {
  }

  lemma {:induction false} FieldsHeld(fs: seq<Field>, m: seq<Slot>, c: Cursor, s: seq<byte>)
    requires DescOk(fs) && |m| == |fs| && PartMsg(fs, m, c) && DecFields(fs, m, c, s).Some?
    ensures HeldMsg(fs, DecFields(fs, m, c, s).value)
    decreases fs, |s|
  {
    hide PartMsg, HeldSlot, DecodeVarint32, DecSlot, Locate, Skip, Store, RequiredSeen, FieldOk, Enter, Leave, Complete;
    if s == [] {
      EndHeld(fs, m, c);
    } else {
      var d := DecodeVarint32(s).value;
      var wireType, i := d.value % 8, Locate(fs, c.at, d.value / 8);
      if i == None {
        FieldsHeld(fs, m, c, Skip(wireType, d.rest).value);
      } else {
        var k := i.value;
        var f, here := fs[k], Enter(fs, c, k).value;
        var p := DecSlot(f, m[k], CountAt(f, m[k], here), wireType, d.rest).value;
        StepHeld(fs, m, c, k, wireType, d.rest);
        FieldsHeld(fs, Store(fs, m, k, p.value.slot), Leave(f, here, p.value.count), p.rest);
      }
    }
  }

  lemma {:induction false} EndHeld(fs: seq<Field>, m: seq<Slot>, c: Cursor)
    requires PartMsg(fs, m, c) && Complete(fs, c)
    ensures HeldMsg(fs, m)
  {
    hide HeldSlot;
    forall i | 0 <= i < |fs| ensures HeldSlot(fs[i], m[i]) { CompleteHeld(fs, m, c, i); }
  }

  /** The field that the decoder goes to is the open one, if it has a fixed count. */
  lemma {:induction false} EnterOpens(fs: seq<Field>, m: seq<Slot>, c: Cursor, i: nat)
    requires i < |fs| && Enter(fs, c, i).Some? && PartMsg(fs, m, Enter(fs, c, i).value)
    ensures var here := Enter(fs, c, i).value;
            && (fs[i].htype.FixArray? ==> here.fixed == Some(i))
            && (fs[i].htype.Repeated? ==> m[i].Many?)
            && PartSlot(fs[i], m[i], Some(CountAt(fs[i], m[i], here)))
  {
    hide AllHeld, Held;
    assert PartSlot(fs[i], m[i], CountOf(Enter(fs, c, i).value, i));
  }

  /** Whatever the bytes, a message that the decoder accepts has values of its
      fields' types only, within their capacities, with every array of fixed count
      complete or untouched and at most one alternative of every oneof. */
  lemma {:induction false} DecodedIsHeld(fs: seq<Field>, s: seq<byte>)
    requires DescOk(fs) && Decode(fs, s).Some?
    ensures HeldMsg(fs, Decode(fs, s).value)
  {
    hide DecFields, HeldMsg, PartMsg, DescOk;
    InitHeld(fs);
    HeldLength(fs, InitMsg(fs));
    FieldsHeld(fs, InitMsg(fs), START, s);
  }

  // ---------------------------------------------------------------------------
  // Descriptors without fixed-count arrays

  ghost predicate CountedType(lt: LType)
    decreases lt, 1
  {
    lt.LSubmsg? ==> Counted(lt.fields)
  }

  ghost predicate CountedField(f: Field)
    decreases f, 2
  {
    !f.htype.FixArray? && CountedType(f.ltype)
  }

  ghost predicate Counted(fs: seq<Field>)
    decreases fs, 3
  {
    forall i :: 0 <= i < |fs| ==> CountedField(fs[i])
  }

  lemma {:induction false} HeldValueFits(lt: LType, v: Value)
    requires LTypeOk(lt) && CountedType(lt) && Held(lt, v)
    ensures Typed(lt, v) && Fits(lt, v)
    decreases lt, 1
  {
    if lt.LSubmsg? { HeldFits(lt.fields, v.slots); }
  }

  lemma {:induction false} HeldSlotFits(f: Field, slot: Slot)
    requires FieldOk(f) && CountedField(f) && HeldSlot(f, slot)
    ensures TypedSlot(f, slot) && FitsSlot(f, slot)
    decreases f, 2
  {
    hide Held, Typed, Fits, CountedType;
    match slot
    case Absent =>
    case Single(v) => HeldValueFits(f.ltype, v);
    case Many(vs) =>
      forall i | 0 <= i < |vs| ensures Typed(f.ltype, vs[i]) && Fits(f.ltype, vs[i]) { HeldValueFits(f.ltype, vs[i]); }
  }

  lemma {:induction false} HeldFits(fs: seq<Field>, m: seq<Slot>)
    requires DescOk(fs) && Counted(fs) && HeldMsg(fs, m)
    ensures TypedMsg(fs, m) && FitsMsg(fs, m)
    decreases fs, 3
  {
    hide FieldOk, CountedField, HeldSlot, TypedSlot, FitsSlot;
    forall i | 0 <= i < |fs| ensures TypedSlot(fs[i], m[i]) && FitsSlot(fs[i], m[i]) { HeldSlotFits(fs[i], m[i]); }
  }

  /** A message that was decoded, from any bytes, is encoded again without an error,
      and with tags in order reads back the same. */
  lemma {:induction false} DecodedRoundTrip(fs: seq<Field>, s: seq<byte>)
    requires DescOk(fs) && Counted(fs) && Decode(fs, s).Some? && ShortMsg(fs, Decode(fs, s).value)
    ensures var m := Decode(fs, s).value;
            && TypedMsg(fs, m) && FitsMsg(fs, m)
            && (Decode(fs, EncMsg(fs, m)) == Some(m) <==> KeptMsg(fs, m)) && (Ordered(fs) ==> KeptMsg(fs, m))
  {
    hide Decode, HeldMsg, DescOk, Ordered, Counted, TypedMsg, FitsMsg, ShortMsg, EncMsg, KeptMsg;
    var m := Decode(fs, s).value;
    DecodedIsHeld(fs, s);
    HeldFits(fs, m);
    RoundTripIff(fs, m);
    if Ordered(fs) { OrderedKept(fs, m); }
  }

  // ---------------------------------------------------------------------------
  // Missing fixed-count arrays

  ghost predicate FixedCounts(fs: seq<Field>, gone: set<nat>) {
    forall k :: k in gone ==> k < |fs| && fs[k].htype.FixArray?
  }

  /** The message without the bytes of some arrays, and what is decoded then. */
  function Without(m: seq<Slot>, gone: set<nat>): (r: seq<Slot>)
    ensures |r| == |m|
  {
    seq(|m|, i requires 0 <= i < |m| => if i in gone then Many([]) else m[i])
  }

  function Untouched(fs: seq<Field>, m: seq<Slot>, gone: set<nat>): (r: seq<Slot>)
    requires |m| == |fs|
    ensures |r| == |m|
  {
    seq(|m|, i requires 0 <= i < |m| => if i in gone then InitSlot(fs[i]) else m[i])
  }

  lemma {:induction false} WithoutIsSent(fs: seq<Field>, m: seq<Slot>, gone: set<nat>)
    requires Sound(fs, m) && FixedCounts(fs, gone)
    ensures Sent(fs, Without(m, gone))
  {
    hide DescOk, TypedSlot, FitsSlot, ShortSlot;
  }

  /** The decoder notices an array with too few elements, but not one that is not
      there at all: it accepts the message, and the array keeps whatever its
      memory held before. */
  lemma {:induction false} MissingArrayAccepted(fs: seq<Field>, m: seq<Slot>, gone: set<nat>)
    requires Sound(fs, m) && Ordered(fs) && FixedCounts(fs, gone)
    ensures Decode(fs, EncMsg(fs, Without(m, gone))) == Some(Untouched(fs, m, gone))
    ensures forall k :: k in gone ==> Untouched(fs, m, gone)[k] == Many(Unset(fs[k].htype.arraySize))
  {
    hide Decode, EncMsg, ReadMsg, Found, Written, ReadSlot, FieldOk, TypedSlot, KeptSlot, FitsMsg, ShortMsg, Tracked,
         OrderedField, InitSlot;
    var r, sent := Untouched(fs, m, gone), Without(m, gone);
    WithoutIsSent(fs, m, gone);
    SentReadsBack(fs, sent);
    forall k | 0 <= k < |fs|
      ensures if Found(fs, sent, k) then ReadSlot(fs[k], sent[k]) == Some(r[k])
              else r[k] == InitSlot(fs[k]) && !Tracked(fs, k)
    {
      MissingField(fs, m, gone, k);
    }
    ReadIs(fs, sent, r);
    forall k | k in gone ensures r[k] == Many(Unset(fs[k].htype.arraySize)) { FixedInit(fs[k]); }
  }

  lemma {:induction false} FixedInit(f: Field)
    requires f.htype.FixArray?
    ensures InitSlot(f) == Many(Unset(f.htype.arraySize))
  {
  }

  lemma {:induction false} MissingField(fs: seq<Field>, m: seq<Slot>, gone: set<nat>, k: nat)
    requires Sound(fs, m) && Ordered(fs) && FixedCounts(fs, gone) && k < |fs|
    ensures var r, sent := Untouched(fs, m, gone)[k], Without(m, gone);
            if Found(fs, sent, k) then ReadSlot(fs[k], sent[k]) == Some(r) else r == InitSlot(fs[k]) && !Tracked(fs, k)
  {
    hide Found, Written, ReadSlot, FieldOk, TypedSlot, KeptSlot, FitsMsg, ShortMsg, OrderedField, InitSlot;
    OrderedFound(fs, Without(m, gone), k);
    if k in gone {
      EmptyUnwritten(fs[k]);
    } else {
      TagInRange(fs[k]);
      if Written(fs[k], m[k]) {
        OrderedSlotKept(fs[k], m[k]);
        KeptSlotIff(fs[k], m[k]);
      } else {
        UnwrittenIsInit(fs[k], m[k]);
        UnwrittenNotRequired(fs[k], m[k]);
      }
    }
  }

  // ---------------------------------------------------------------------------
  // The records in a byte string

  /** The tags of the records in a byte string, None if it is not made of records. */
  function Tags(s: seq<byte>): Option<seq<nat>>
    decreases |s|
  {
    if s == [] then Some([])
    else
      var d := DecodeVarint32(s);
      if d == None || d.value.value / 8 == 0 then None
      else
        var next := Skip(d.value.value % 8, d.value.rest);
        if next == None then None
        else
          var tags := Tags(next.value);
          if tags == None then None else Some([d.value.value / 8] + tags.value)
  }

  /** The fields that the search assigns to records with these tags, from field `at`
      on. */
  function Assigned(fs: seq<Field>, at: nat, tags: seq<nat>): set<nat>
    decreases |tags|
  {
    if tags == [] then {}
    else
      var i := Locate(fs, at, tags[0]);
      if i == None then Assigned(fs, at, tags[1..]) else {i.value} + Assigned(fs, i.value, tags[1..])
  }

  /** With tags in order, every record goes to the field with its tag. */
  lemma {:induction false} AssignedByTag(fs: seq<Field>, at: nat, tags: seq<nat>, k: nat)
    requires TagsIncrease(fs) && at < |fs| && k < |fs|
    ensures k in Assigned(fs, at, tags) <==> fs[k].tag in tags
    decreases |tags|
  {
    hide Locate, FirstTag;
    if tags != [] {
      LocateIsFirstTag(fs, at, tags[0]);
      var i := Locate(fs, at, tags[0]);
      AssignedByTag(fs, if i == None then at else i.value, tags[1..], k);
      assert tags == [tags[0]] + tags[1..];
    }
  }

  lemma {:induction false} SkipsGroup(s: seq<byte>, limit: nat)
    requires Group(s, limit).Some?
    ensures Group(s, limit).value <= |s| && SkipVarint(s) == Some(s[Group(s, limit).value..])
    decreases limit
  {
    GroupBound(s, limit);
    if s[0] >= 128 {
      SkipsGroup(s[1..], limit - 1);
      GroupBound(s[1..], limit - 1);
      var k := Group(s[1..], limit - 1).value;
      assert s[1..][k..] == s[k + 1..];
    }
  }

  lemma {:induction false} SkipsDecoded(s: seq<byte>)
    ensures DecodeVarint(s).Some? ==> SkipVarint(s) == Some(DecodeVarint(s).value.rest)
    ensures DecodeVarint32(s).Some? ==> SkipVarint(s) == Some(DecodeVarint32(s).value.rest)
  {
    hide DecodeVarint32, SkipVarint, Group, Spelled;
    if DecodeVarint32(s).Some? { Varint32RefinesVarint(s); }
    if DecodeVarint(s).Some? { SkipsGroup(s, 10); }
  }

  /** Reading a field takes as many bytes as skipping it. */
  lemma {:induction false} ReadsAsSkips(lt: LType, init: Value, s: seq<byte>)
    requires DecValue(lt, init, s).Some?
    ensures Skip(WireType(lt), s) == Some(DecValue(lt, init, s).value.rest)
  {
    hide DecodeVarint, DecodeVarint32, SkipVarint, DecFields, InitMsg, UnZigZag, Signed64, Signed32, UpToNul,
         FromLittleEndian;
    SkipsDecoded(s);
  }

  lemma {:induction false} SlotAsSkip(f: Field, slot: Slot, count: nat, wireType: int, s: seq<byte>)
    requires DecSlot(f, slot, count, wireType, s).Some?
    ensures Skip(wireType, s) == Some(DecSlot(f, slot, count, wireType, s).value.rest)
  {
    hide DecValue, DecPacked, PutAt, SkipVarint, TakePrefixed, Take;
    if !(IsArray(f) && wireType == WT_STRING && Packable(f.ltype)) {
      ReadsAsSkips(f.ltype, if IsArray(f) then ZeroValue(f.ltype) else InitOf(f, slot), s);
    }
  }

  // ---------------------------------------------------------------------------
  // Which fixed-count arrays are written

  /** An array that was assigned a record is complete, or open; the others are as
      initialised. */
  ghost predicate ArrayMarked(f: Field, slot: Slot, seen: bool, open: bool) {
    f.htype.FixArray? ==>
      if seen then open || (slot.Many? && AllHeld(f.ltype, slot.vs)) else !open && slot == InitSlot(f)
  }

  ghost predicate Marked(fs: seq<Field>, m: seq<Slot>, c: Cursor) {
    |m| == |fs| && forall i :: 0 <= i < |fs| ==> ArrayMarked(fs[i], m[i], i in c.seen, c.fixed == Some(i))
  }

  lemma {:induction false} CompleteMarked(fs: seq<Field>, m: seq<Slot>, c: Cursor, i: nat)
    requires PartMsg(fs, m, c) && Marked(fs, m, c) && Complete(fs, c) && i < |fs|
    ensures ArrayMarked(fs[i], m[i], i in c.seen, false)
  {
    hide AllHeld, InitSlot, HeldSlot;
    assert ArrayMarked(fs[i], m[i], i in c.seen, c.fixed == Some(i));
    assert PartSlot(fs[i], m[i], CountOf(c, i));
    if c.fixed == Some(i) && fs[i].htype.FixArray? {
      assert m[i].vs[..c.count] == m[i].vs;
    }
  }

  lemma {:induction false} EnterMarked(fs: seq<Field>, m: seq<Slot>, c: Cursor, i: nat)
    requires PartMsg(fs, m, c) && Marked(fs, m, c) && i < |fs| && Enter(fs, c, i).Some?
    ensures Marked(fs, m, Enter(fs, c, i).value)
  {
    hide AllHeld, InitSlot, PartMsg, ArrayMarked;
    var here := Enter(fs, c, i).value;
    forall j | 0 <= j < |fs| ensures ArrayMarked(fs[j], m[j], j in here.seen, here.fixed == Some(j)) {
      assert ArrayMarked(fs[j], m[j], j in c.seen, c.fixed == Some(j));
      if here.fixed != c.fixed { CompleteMarked(fs, m, c, j); }
      OpenMarked(fs[j], m[j]);
      NotArray(fs[j], m[j]);
    }
  }

  lemma {:induction false} OpenMarked(f: Field, slot: Slot)
    ensures ArrayMarked(f, slot, true, true)
  {
  }

  lemma {:induction false} NotArray(f: Field, slot: Slot)
    ensures !f.htype.FixArray? ==> forall seen, open :: ArrayMarked(f, slot, seen, open)
  {
  }

  lemma {:induction false} StoreMarked(fs: seq<Field>, m: seq<Slot>, c: Cursor, i: nat, filled: Filled)
    requires Marked(fs, m, c) && i < |fs| && (fs[i].htype.FixArray? ==> i in c.seen && c.fixed == Some(i))
    ensures Marked(fs, Store(fs, m, i, filled.slot), Leave(fs[i], c, filled.count))
  {
    hide ArrayMarked;
    var m', c' := Store(fs, m, i, filled.slot), Leave(fs[i], c, filled.count);
    forall j | 0 <= j < |fs| ensures ArrayMarked(fs[j], m'[j], j in c'.seen, c'.fixed == Some(j)) {
      assert ArrayMarked(fs[j], m[j], j in c.seen, c.fixed == Some(j));
      OpenMarked(fs[j], m'[j]);
      NotArray(fs[j], m'[j]);
    }
  }

  /** The arrays that a record is assigned to are complete in the end, and no
      others. */
  lemma {:induction false} FieldsMarked(fs: seq<Field>, m: seq<Slot>, c: Cursor, s: seq<byte>, k: nat)
    requires DescOk(fs) && |m| == |fs| && PartMsg(fs, m, c) && Marked(fs, m, c)
    requires DecFields(fs, m, c, s).Some? && k < |fs|
    ensures Tags(s).Some? && |DecFields(fs, m, c, s).value| == |fs|
    ensures ArrayMarked(fs[k], DecFields(fs, m, c, s).value[k], k in c.seen + Assigned(fs, c.at, Tags(s).value), false)
    decreases |s|
  {
    hide PartMsg, Marked, ArrayMarked, DecodeVarint32, DecSlot, Locate, Skip, Store, RequiredSeen, FieldOk, Enter,
         Leave, Complete;
    if s == [] {
      CompleteMarked(fs, m, c, k);
      assert c.seen + {} == c.seen;
    } else {
      var d := DecodeVarint32(s).value;
      var wireType, i := d.value % 8, Locate(fs, c.at, d.value / 8);
      if i == None {
        FieldsMarked(fs, m, c, Skip(wireType, d.rest).value, k);
        assert Tags(s) == Some([d.value / 8] + Tags(Skip(wireType, d.rest).value).value);
        AssignedFirst(fs, c.at, d.value / 8, Tags(Skip(wireType, d.rest).value).value);
      } else {
        var f, here := fs[i.value], Enter(fs, c, i.value).value;
        var count := CountAt(f, m[i.value], here);
        var p := DecSlot(f, m[i.value], count, wireType, d.rest).value;
        StepHeld(fs, m, c, i.value, wireType, d.rest);
        SlotAsSkip(f, m[i.value], count, wireType, d.rest);
        var c' := Leave(f, here, p.value.count);
        FieldsMarked(fs, Store(fs, m, i.value, p.value.slot), c', p.rest, k);
        assert Tags(s) == Some([d.value / 8] + Tags(p.rest).value);
        AssignedFirst(fs, c.at, d.value / 8, Tags(p.rest).value);
        CursorMoves(fs, c, i.value, p.value.count);
        var later := Assigned(fs, i.value, Tags(p.rest).value);
        assert (c.seen + {i.value}) + later == c.seen + ({i.value} + later);
      }
    }
  }

  lemma {:induction false} AssignedFirst(fs: seq<Field>, at: nat, tag: nat, tags: seq<nat>)
    ensures var i := Locate(fs, at, tag);
            Assigned(fs, at, [tag] + tags)
              == if i == None then Assigned(fs, at, tags) else {i.value} + Assigned(fs, i.value, tags)
  {
    hide Locate;
    assert ([tag] + tags)[1..] == tags;
  }

  lemma {:induction false} CursorMoves(fs: seq<Field>, c: Cursor, i: nat, count: nat)
    requires i < |fs| && Enter(fs, c, i).Some?
    ensures var d := Leave(fs[i], Enter(fs, c, i).value, count); d.at == i && d.seen == c.seen + {i}
    ensures i in Enter(fs, c, i).value.seen
  {
  }

  /** One field of the loop keeps both invariants. */
  lemma {:induction false} StepHeld(fs: seq<Field>, m: seq<Slot>, c: Cursor, k: nat, wireType: int, s: seq<byte>)
    requires DescOk(fs) && |m| == |fs| && k < |fs| && PartMsg(fs, m, c) && Enter(fs, c, k).Some?
    requires DecSlot(fs[k], m[k], CountAt(fs[k], m[k], Enter(fs, c, k).value), wireType, s).Some?
    ensures var here := Enter(fs, c, k).value;
            var filled := DecSlot(fs[k], m[k], CountAt(fs[k], m[k], here), wireType, s).value.value;
            var m', c' := Store(fs, m, k, filled.slot), Leave(fs[k], here, filled.count);
            PartMsg(fs, m', c') && (Marked(fs, m, c) ==> Marked(fs, m', c'))
    decreases fs, 0
  {
    hide PartMsg, Marked, DecSlot, Store, FieldOk, Enter, Leave, Complete, PartSlot;
    var f, here := fs[k], Enter(fs, c, k).value;
    EnterHeld(fs, m, c, k);
    var count := CountAt(f, m[k], here);
    EnterOpens(fs, m, c, k);
    FieldsOk(fs, k);
    SlotHeld(f, m[k], count, wireType, s);
    var filled := DecSlot(f, m[k], count, wireType, s).value.value;
    StoreHeld(fs, m, here, k, filled);
    if Marked(fs, m, c) {
      EnterMarked(fs, m, c, k);
      CursorMoves(fs, c, k, filled.count);
      StoreMarked(fs, m, here, k, filled);
    }
  }

  lemma {:induction false} InitMarked(fs: seq<Field>)
    ensures Marked(fs, InitMsg(fs), START)
  {
    forall i | 0 <= i < |fs| ensures InitMsg(fs)[i] == InitSlot(fs[i]) { InitMsgAt(fs, i); }
  }

  lemma {:induction false} UnsetNotHeld(lt: LType, n: nat)
    requires n > 0
    ensures !AllHeld(lt, Unset(n))
  {
    assert Unset(n)[0] == VUnset;
  }

  /** Whatever the bytes that the decoder accepts: a fixed-count array is written, and
      then complete, exactly when the search assigns it one of the records. */
  lemma {:induction false} ArrayWrittenIff(fs: seq<Field>, s: seq<byte>, k: nat)
    requires DescOk(fs) && Decode(fs, s).Some? && k < |fs| && fs[k].htype.FixArray?
    ensures Tags(s).Some? && |Decode(fs, s).value| == |fs| && Decode(fs, s).value[k].Many?
    ensures var vs := Decode(fs, s).value[k].vs;
            && (k in Assigned(fs, 0, Tags(s).value) <==> AllHeld(fs[k].ltype, vs))
            && (k !in Assigned(fs, 0, Tags(s).value) <==> vs == Unset(fs[k].htype.arraySize))
  {
    hide DecFields, HeldMsg, PartMsg, Marked, DescOk, FieldOk, AllHeld, Assigned, Tags;
    InitHeld(fs);
    HeldLength(fs, InitMsg(fs));
    InitMarked(fs);
    FieldsMarked(fs, InitMsg(fs), START, s, k);
    DecodedIsHeld(fs, s);
    HeldLength(fs, Decode(fs, s).value);
    assert {} + Assigned(fs, 0, Tags(s).value) == Assigned(fs, 0, Tags(s).value);
    FieldsOk(fs, k);
    FixedSize(fs[k]);
    UnsetNotHeld(fs[k].ltype, fs[k].htype.arraySize);
  }

  lemma {:induction false} FixedSize(f: Field)
    requires FieldOk(f) && f.htype.FixArray?
    ensures f.htype.arraySize > 0
  {
  }

  /** With tags in order: exactly when the bytes hold a record with its tag. */
  lemma {:induction false} ArrayWrittenIffTag(fs: seq<Field>, s: seq<byte>, k: nat)
    requires DescOk(fs) && TagsIncrease(fs) && Decode(fs, s).Some? && k < |fs| && fs[k].htype.FixArray?
    ensures Tags(s).Some? && |Decode(fs, s).value| == |fs| && Decode(fs, s).value[k].Many?
    ensures var vs := Decode(fs, s).value[k].vs;
            && (fs[k].tag in Tags(s).value <==> AllHeld(fs[k].ltype, vs))
            && (fs[k].tag !in Tags(s).value <==> vs == Unset(fs[k].htype.arraySize))
  {
    hide Decode, DescOk, AllHeld, Assigned, Tags;
    ArrayWrittenIff(fs, s, k);
    AssignedByTag(fs, 0, Tags(s).value, k);
  }
}
