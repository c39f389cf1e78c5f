/**
 How exact the generator's sizes are: the largest encoding of a message type, a
 message that reaches it, and what the generated size adds to it.
 */
module SizePeak {
  import opened Options
  import opened Varints
  import opened Proto
  import opened SizeBound
  import ProtoRoundTrip
  import WireForm

  // ---------------------------------------------------------------------------
  // Maxima

  /** The size of a oneof is that of its largest alternative. */
  lemma {:induction false} UnionSizeIsMax(fields: seq<GField>)
    ensures forall i :: 0 <= i < |fields| ==> UnionFieldSize(fields[i]) <= UnionSize(fields)
    ensures fields != [] ==> exists i :: 0 <= i < |fields| && UnionFieldSize(fields[i]) == UnionSize(fields)
  {
    hide UnionFieldSize;
    if fields != [] {
      UnionSizeIsMax(fields[1..]);
      assert forall i :: 0 < i < |fields| ==> fields[i] == fields[1..][i - 1];
      if UnionFieldSize(fields[0]) < UnionSize(fields) {
        var i :| 0 <= i < |fields[1..]| && UnionFieldSize(fields[1..][i]) == UnionSize(fields[1..]);
        assert UnionFieldSize(fields[i + 1]) == UnionSize(fields);
      }
    }
  }

  /** The declared value that takes most; one that is not zero, if there is one. */
  function FullEnum(values: seq<int>): (v: int)
    requires values != []
    ensures v in values
  {
    if |values| == 1 then values[0]
    else
      var a, b := values[0], FullEnum(values[1..]);
      if VarintMaxSize(a) > VarintMaxSize(b) || (VarintMaxSize(a) == VarintMaxSize(b) && a != 0) then a else b
  }

  /** The size of an enum is that of its largest value. */
  lemma {:induction false} EnumSizeIsMax(values: seq<int>)
    requires values != []
    ensures VarintMaxSize(FullEnum(values)) == EnumSize(values)
    ensures FullEnum(values) == 0 ==> forall v :: v in values ==> v == 0
    decreases |values|
  {
    hide VarintMaxSize;
    OneByte(values[0]);
    assert values == [values[0]] + values[1..];
    if |values| > 1 {
      OneByte(FullEnum(values[1..]));
      EnumSizeIsMax(values[1..]);
    }
  }

  lemma {:induction false} OneByte(v: int)
    ensures VarintMaxSize(v) >= 1 && VarintMaxSize(0) == 1
  {
  }

  // ---------------------------------------------------------------------------
  // The fullest message

  function FullScalar(lt: LType): Value {
    match lt
    case LBool => VInt(1)
    case LVarint(_) => VInt(-1)
    case LUvarint(size) => VInt(Bound(size) - 1)
    case LSvarint(size) => VInt(-(Bound(size) / 2))
    case LFixed32 => VInt(1)
    case LFixed64 => VInt(1)
    case LBytes(capacity) => VBytes(seq(capacity, _ => 1))
    case LString(dataSize) => VBytes(seq(if dataSize > 0 then dataSize - 1 else 0, _ => 1))
    case LFixedBytes(length) => VBytes(seq(length, _ => 1))
    case LSubmsg(_) => VUnset
  }

  function Full(gt: GType): Value
    decreases gt, 1
  {
    match gt
    case GScalar(ltype) => FullScalar(ltype)
    case GEnum(_, _, values) => VInt(if values == [] then 0 else FullEnum(values))
    case GMessage(items) => VMsg(FullMsg(items))
  }

  function FullOf(f: GField): Value
    decreases f, 2
  {
    Full(f.gtype)
  }

  function Copies(v: Value, n: nat): (vs: seq<Value>)
    ensures |vs| == n && forall i :: 0 <= i < n ==> vs[i] == v
  {
    seq(n, _ => v)
  }

  function FullSlot(f: GField): Slot
    decreases f, 3
  {
    if f.rules.Repeated? || f.rules.FixArray? then Many(Copies(FullOf(f), f.rules.arraySize)) else Single(FullOf(f))
  }

  /** The alternative that takes most. */
  function Widest(fields: seq<GField>): (k: nat)
    requires fields != []
    ensures k < |fields|
    decreases fields, 4
  {
    if |fields| == 1 || PeakTagged(fields[0]) >= PeakUnion(fields[1..]) then 0 else Widest(fields[1..]) + 1
  }

  /** Only alternative k is set. */
  function FullUnion(fields: seq<GField>, k: int): (m: seq<Slot>)
    ensures |m| == |fields|
    decreases fields, 3
  {
    if fields == [] then []
    else [if k == 0 then Single(FullOf(fields[0])) else Absent] + FullUnion(fields[1..], k - 1)
  }

  function FullItem(item: GItem): (m: seq<Slot>)
    ensures |m| == Width(item)
    decreases item, 4
  {
    match item
    case Plain(f) => [FullSlot(f)]
    case Union(fields) => FullUnion(fields, if fields == [] then -1 else Widest(fields))
  }

  function FullMsg(items: seq<GItem>): seq<Slot>
    decreases items, 5
  {
    if items == [] then [] else FullItem(items[0]) + FullMsg(items[1..])
  }

  // ---------------------------------------------------------------------------
  // The largest encoding

  function PeakScalar(lt: LType): nat {
    if lt.LString? && lt.dataSize > 0 then |Varint(lt.dataSize - 1)| + lt.dataSize - 1 else ScalarSize(lt)
  }

  function PeakType(gt: GType): nat
    decreases gt, 1
  {
    match gt
    case GScalar(ltype) => PeakScalar(ltype)
    case GEnum(_, _, values) => EnumSize(values)
    case GMessage(items) => |Varint(PeakMsg(items))| + PeakMsg(items)
  }

  /** One value with its key. */
  function PeakTagged(f: GField): nat
    decreases f, 2
  {
    VarintMaxSize(f.tag * 8) + PeakType(f.gtype)
  }

  /** No value of the field is ever written. */
  predicate NeverWritten(f: GField)
    decreases f, 2
  {
    f.rules == Singular(false) && DefaultValue(LowerType(f.gtype), Full(f.gtype))
  }

  function PeakField(f: GField): nat
    decreases f, 3
  {
    if f.rules.Repeated? || f.rules.FixArray? then
      var n := f.rules.arraySize;
      if n == 0 then 0
      else if Packable(LowerType(f.gtype)) then
        VarintMaxSize(f.tag * 8) + |Varint(Times(PeakType(f.gtype), n))| + Times(PeakType(f.gtype), n)
      else Times(PeakTagged(f), n)
    else if NeverWritten(f) then 0
    else PeakTagged(f)
  }

  function PeakUnion(fields: seq<GField>): nat
    decreases fields, 3
  {
    if fields == [] then 0 else Max(PeakTagged(fields[0]), PeakUnion(fields[1..]))
  }

  function PeakItem(item: GItem): nat
    decreases item, 4
  {
    match item
    case Plain(f) => PeakField(f)
    case Union(fields) => PeakUnion(fields)
  }

  function PeakMsg(items: seq<GItem>): nat
    decreases items, 5
  {
    if items == [] then 0 else PeakItem(items[0]) + PeakMsg(items[1..])
  }

  // ---------------------------------------------------------------------------
  // Types that have values

  /** Every enum declares a value, and all that it declares fit its C type. */
  ghost predicate Inhabited(gt: GType)
    decreases gt, 1
  {
    match gt
    case GScalar(_) => true
    case GEnum(_, _, values) => values != [] && forall v :: v in values ==> Typed(LowerType(gt), VInt(v))
    case GMessage(items) => InhabitedMsg(items)
  }

  ghost predicate InhabitedField(f: GField)
    decreases f, 2
  {
    Inhabited(f.gtype)
  }

  ghost predicate InhabitedItem(item: GItem)
    decreases item, 3
  {
    match item
    case Plain(f) => InhabitedField(f)
    case Union(fields) => forall i :: 0 <= i < |fields| ==> InhabitedField(fields[i])
  }

  ghost predicate InhabitedMsg(items: seq<GItem>)
    decreases items, 4
  {
    forall i :: 0 <= i < |items| ==> InhabitedItem(items[i])
  }

  ghost predicate AllFieldsOk(fs: seq<Field>) {
    forall i :: 0 <= i < |fs| ==> FieldOk(fs[i])
  }

  /** What the generator accepts and some message has. */
  ghost predicate TypeGood(gt: GType) { TypeOk(gt) && Inhabited(gt) && LTypeOk(LowerType(gt)) }

  ghost predicate MsgGood(items: seq<GItem>) { ItemsOk(items) && InhabitedMsg(items) && AllFieldsOk(Lower(items)) }

  lemma {:induction false} SubGood(items: seq<GItem>)
    requires TypeGood(GMessage(items))
    ensures MsgGood(items)
  {
    assert DescOk(Lower(items));
  }

  lemma {:induction false} RestGood(items: seq<GItem>)
    requires MsgGood(items) && items != []
    ensures MsgGood(items[1..]) && ItemOk(items[0]) && InhabitedItem(items[0])
    ensures AllFieldsOk(LowerItem(items[0], |items|))
    ensures Lower(items) == LowerItem(items[0], |items|) + Lower(items[1..])
  {
    hide FieldOk, ItemOk, InhabitedItem;
    var a, b := LowerItem(items[0], |items|), Lower(items[1..]);
    assert Lower(items) == a + b;
    assert forall i :: 0 <= i < |a| ==> a[i] == Lower(items)[i];
    assert forall i :: 0 <= i < |b| ==> b[i] == Lower(items)[|a| + i];
  }

  // ---------------------------------------------------------------------------
  // Values

  lemma {:induction false} UnsignedLengths()
    ensures |Varint(0xFF)| == 2 && |Varint(0xFFFF)| == 3 && |Varint(0xFFFF_FFFF)| == 5
    ensures |Varint(TWO_64 - 1)| == 10 && |Varint(1)| == 1
  {
    hide Varint;
    assert Pow128(1) == 128 && Pow128(2) == 0x4000;
    assert Pow128(4) == 0x1000_0000 by { assert Pow128(3) == 128 * Pow128(2); }
    WireForm.LongEnough(0xFF, 1); WireForm.LongEnough(0xFFFF, 2); WireForm.LongEnough(0xFFFF_FFFF, 4);
    IntSizes(0xFF); IntSizes(0xFFFF); IntSizes(0xFFFF_FFFF); IntSizes(1);
    WireForm.TenBytes(TWO_64 - 1);
  }

  lemma {:induction false} BoundWidth(size: nat)
    requires IntSize(size)
    ensures |Varint(Bound(size) - 1)| == ScalarSize(LUvarint(size)) == ScalarSize(LSvarint(size))
  {
    hide Varint;
    UnsignedLengths();
  }

  lemma {:induction false} IntFull(lt: LType)
    requires LTypeOk(lt) && (lt.LVarint? || lt.LUvarint? || lt.LSvarint?)
    ensures Typed(lt, FullScalar(lt)) && |EncValue(lt, FullScalar(lt))| == ScalarSize(lt)
  {
    hide Varint, ZigZag;
    if lt.LVarint? {
      assert -1 % TWO_64 == TWO_64 - 1;
      WireForm.TenBytes(TWO_64 - 1);
    } else {
      BoundWidth(lt.size);
      if lt.LSvarint? { LeastZigZag(lt.size); }
      assert (Bound(lt.size) - 1) % TWO_64 == Bound(lt.size) - 1;
    }
  }

  lemma {:induction false} LeastZigZag(size: nat)
    requires IntSize(size)
    ensures -TWO_63 <= -(Bound(size) / 2) < TWO_63 && ZigZag(-(Bound(size) / 2)) == Bound(size) - 1
  {
    WireForm.ZigZagIs(-(Bound(size) / 2));
  }

  lemma {:induction false} ScalarFull(lt: LType)
    requires LTypeOk(lt) && !lt.LSubmsg?
    ensures Typed(lt, FullScalar(lt)) && Fits(lt, FullScalar(lt))
    ensures |EncValue(lt, FullScalar(lt))| == PeakScalar(lt)
  {
    hide ZigZag, Bound;
    if lt.LVarint? || lt.LUvarint? || lt.LSvarint? {
      IntFull(lt);
    } else if lt.LBool? {
      assert 1 % TWO_64 == 1;
    }
  }

  lemma {:induction false} ScalarPeak(lt: LType, v: Value)
    requires LTypeOk(lt) && !lt.LSubmsg? && Typed(lt, v) && Fits(lt, v)
    ensures |EncValue(lt, v)| <= PeakScalar(lt)
  {
    hide Varint, ZigZag;
    if lt.LString? { VarintMonotonic(|v.bytes|, lt.dataSize - 1); } else { ScalarBound(lt, v); }
  }

  lemma {:induction false} EnumWidth(unsigned: bool, size: nat, values: seq<int>, v: int)
    requires IntSize(size) && Typed(LowerType(GEnum(unsigned, size, values)), VInt(v))
    ensures |EncValue(LowerType(GEnum(unsigned, size, values)), VInt(v))| == VarintMaxSize(v)
  {
    hide Varint;
    if v < 0 {
      assert v % TWO_64 == TWO_64 + v;
      WireForm.TenBytes(TWO_64 + v);
      assert Pow128(9) == TWO_63 && Pow128(10) == 128 * TWO_63 by {
        assert Pow128(2) == 0x4000 && Pow128(5) == 128 * Pow128(4) && Pow128(7) == 128 * Pow128(6);
      }
      WireForm.LongEnough(TWO_64 - v, 9);
      VarintLength(TWO_64 - v, 10);
    } else {
      assert v % TWO_64 == v;
    }
  }

  /** No accepted value takes more than the peak. */
  lemma {:induction false} ValuePeak(gt: GType, v: Value)
    requires TypeGood(gt) && Typed(LowerType(gt), v) && Fits(LowerType(gt), v) && Declared(gt, v)
    ensures |EncValue(LowerType(gt), v)| <= PeakType(gt)
    decreases gt, 1
  {
    hide Varint, VarintMaxSize, MsgGood;
    match gt
    case GScalar(ltype) => ScalarPeak(ltype, v);
    case GEnum(unsigned, size, values) =>
      EnumWidth(unsigned, size, values, v.i);
      EnumCovers(values, v.i);
    case GMessage(items) =>
      SubGood(items);
      MsgPeak(items, v.slots);
      VarintMonotonic(|EncMsg(Lower(items), v.slots)|, PeakMsg(items));
  }

  /** The fullest value is accepted, and takes exactly the peak. */
  lemma {:induction false} FullAttains(gt: GType)
    requires TypeGood(gt)
    ensures Typed(LowerType(gt), Full(gt)) && Fits(LowerType(gt), Full(gt)) && Declared(gt, Full(gt))
    ensures |EncValue(LowerType(gt), Full(gt))| == PeakType(gt)
    decreases gt, 1
  {
    hide Varint, VarintMaxSize, MsgGood;
    match gt
    case GScalar(ltype) => ScalarFull(ltype);
    case GEnum(unsigned, size, values) =>
      EnumSizeIsMax(values);
      EnumWidth(unsigned, size, values, FullEnum(values));
    case GMessage(items) =>
      SubGood(items);
      MsgAttains(items);
  }

  /** If the fullest value is one that need not be written, so is every value. */
  lemma {:induction false} DefaultOnly(gt: GType, v: Value)
    requires TypeGood(gt) && Typed(LowerType(gt), v) && Fits(LowerType(gt), v) && Declared(gt, v)
    requires DefaultValue(LowerType(gt), Full(gt))
    ensures DefaultValue(LowerType(gt), v)
    decreases gt, 1
  {
    hide MsgGood;
    match gt
    case GScalar(ltype) =>
    case GEnum(unsigned, size, values) => EnumSizeIsMax(values);
    case GMessage(items) =>
      SubGood(items);
      MsgDefaultOnly(items, v.slots);
  }

  // ---------------------------------------------------------------------------
  // Fields

  ghost predicate FieldGood(gf: GField, f: Field) {
    f == LowerField(gf, f.htype) && FieldOk(f) && TypeOk(gf.gtype) && InhabitedField(gf)
  }

  lemma {:induction false} FieldTypeGood(gf: GField, f: Field)
    requires FieldGood(gf, f)
    ensures TypeGood(gf.gtype) && f.ltype == LowerType(gf.gtype) && f.tag == gf.tag
  {
  }

  lemma {:induction false} TaggedSize(f: Field, v: Value)
    ensures |EncTagged(f, v)| == VarintMaxSize(f.tag * 8) + |EncValue(f.ltype, v)|
  {
    hide VarintMaxSize, EncValue;
    TagSize(f.tag, WireType(f.ltype));
  }

  lemma {:induction false} EachPeak(gf: GField, f: Field, vs: seq<Value>)
    requires FieldGood(gf, f)
    requires forall i :: 0 <= i < |vs| ==>
               Typed(f.ltype, vs[i]) && Fits(f.ltype, vs[i]) && Declared(gf.gtype, vs[i])
    ensures |EncEach(f, vs)| <= Times(PeakTagged(gf), |vs|)
    ensures |EncValues(f.ltype, vs)| <= Times(PeakType(gf.gtype), |vs|)
    decreases gf, 2, |vs|
  {
    hide FieldGood, Typed, Fits, Declared, PeakType, EncTagged, EncValue, VarintMaxSize;
    if vs != [] {
      FieldTypeGood(gf, f);
      ValuePeak(gf.gtype, vs[0]);
      TaggedSize(f, vs[0]);
      EachPeak(gf, f, vs[1..]);
    }
  }

  lemma {:induction false} EachAttains(gf: GField, f: Field, n: nat)
    requires FieldGood(gf, f)
    ensures |EncEach(f, Copies(FullOf(gf), n))| == Times(PeakTagged(gf), n)
    ensures |EncValues(f.ltype, Copies(FullOf(gf), n))| == Times(PeakType(gf.gtype), n)
    decreases gf, 2, n
  {
    hide FieldGood, Typed, Fits, Declared, PeakType, EncTagged, EncValue, VarintMaxSize;
    if n > 0 {
      FieldTypeGood(gf, f);
      FullAttains(gf.gtype);
      var vs := Copies(FullOf(gf), n);
      assert vs[1..] == Copies(FullOf(gf), n - 1);
      TaggedSize(f, vs[0]);
      EachAttains(gf, f, n - 1);
    }
  }

  lemma {:induction false} PackedSlotSize(f: Field, vs: seq<Value>)
    requires vs != [] && Packable(f.ltype)
    ensures var body := EncValues(f.ltype, vs);
            |EncSlot(f, Many(vs))| == VarintMaxSize(f.tag * 8) + |Varint(|body|)| + |body|
  {
    hide VarintMaxSize, EncValues, Varint;
    TagSize(f.tag, WT_STRING);
  }

  lemma {:induction false} ArrayPeak(gf: GField, f: Field, vs: seq<Value>, n: nat)
    requires FieldGood(gf, f) && f.htype == gf.rules && IsArray(f) && gf.rules.arraySize == n && |vs| <= n
    requires forall i :: 0 <= i < |vs| ==>
               Typed(f.ltype, vs[i]) && Fits(f.ltype, vs[i]) && Declared(gf.gtype, vs[i])
    ensures |EncSlot(f, Many(vs))| <= PeakField(gf)
    decreases gf, 3
  {
    hide FieldGood, Typed, Fits, Declared, PeakType, PeakTagged, EncEach, EncValues, VarintMaxSize, Varint;
    if vs != [] {
      FieldTypeGood(gf, f);
      EachPeak(gf, f, vs);
      TimesMonotonic(PeakTagged(gf), |vs|, n);
      TimesMonotonic(PeakType(gf.gtype), |vs|, n);
      if Packable(f.ltype) {
        PackedSlotSize(f, vs);
        VarintMonotonic(|EncValues(f.ltype, vs)|, Times(PeakType(gf.gtype), n));
      }
    }
  }

  lemma {:induction false} ArrayAttains(gf: GField, f: Field, n: nat)
    requires FieldGood(gf, f) && f.htype == gf.rules && IsArray(f) && gf.rules.arraySize == n
    ensures |EncSlot(f, FullSlot(gf))| == PeakField(gf)
    decreases gf, 3
  {
    hide FieldGood, PeakType, PeakTagged, EncEach, EncValues, VarintMaxSize, Varint;
    var vs := Copies(FullOf(gf), n);
    if n > 0 {
      FieldTypeGood(gf, f);
      EachAttains(gf, f, n);
      if Packable(f.ltype) { PackedSlotSize(f, vs); }
    }
  }

  lemma {:induction false} SlotPeak(gf: GField, f: Field, slot: Slot)
    requires FieldGood(gf, f) && f.htype == gf.rules && !f.htype.OneOf?
    requires TypedSlot(f, slot) && FitsSlot(f, slot) && DeclaredSlot(gf, slot)
    ensures |EncSlot(f, slot)| <= PeakField(gf)
    decreases gf, 4
  {
    hide FieldGood, Typed, Fits, Declared, PeakType, EncTagged, EncEach, EncValues, VarintMaxSize;
    FieldTypeGood(gf, f);
    match slot {
      case Absent =>
      case Single(v) =>
        if NeverWritten(gf) { DefaultOnly(gf.gtype, v); }
        ValuePeak(gf.gtype, v);
        TaggedSize(f, v);
      case Many(vs) => ArrayPeak(gf, f, vs, gf.rules.arraySize);
    }
  }

  lemma {:induction false} SlotAttains(gf: GField, f: Field)
    requires FieldGood(gf, f) && f.htype == gf.rules && !f.htype.OneOf?
    ensures TypedSlot(f, FullSlot(gf)) && FitsSlot(f, FullSlot(gf)) && DeclaredSlot(gf, FullSlot(gf))
    ensures |EncSlot(f, FullSlot(gf))| == PeakField(gf)
    decreases gf, 4
  {
    hide Typed, Fits, Declared, PeakType, EncTagged, EncEach, EncValues, VarintMaxSize, LTypeOk, TypeOk, Inhabited;
    FieldTypeGood(gf, f);
    FullAttains(gf.gtype);
    if IsArray(f) {
      ArrayAttains(gf, f, gf.rules.arraySize);
    } else {
      TaggedSize(f, FullOf(gf));
    }
  }

  // ---------------------------------------------------------------------------
  // Oneofs

  ghost predicate UnionGood(fields: seq<GField>, group: nat) {
    && AllFieldsOk(LowerUnion(fields, group))
    && forall i :: 0 <= i < |fields| ==> TypeOk(fields[i].gtype) && InhabitedField(fields[i])
  }

  lemma {:induction false} UnionRest(fields: seq<GField>, group: nat)
    requires UnionGood(fields, group) && fields != []
    ensures UnionGood(fields[1..], group)
    ensures LowerUnion(fields, group) == [LowerField(fields[0], OneOf(group))] + LowerUnion(fields[1..], group)
    ensures FieldGood(fields[0], LowerField(fields[0], OneOf(group)))
  {
    hide FieldOk, TypeOk, InhabitedField;
    var fs, rest := LowerUnion(fields, group), LowerUnion(fields[1..], group);
    assert fs == [LowerField(fields[0], OneOf(group))] + rest;
    assert FieldOk(fs[0]);
    assert forall i :: 0 <= i < |rest| ==> rest[i] == fs[i + 1];
  }

  lemma {:induction false} UnionPeakBound(fields: seq<GField>, group: nat, m: seq<Slot>)
    requires UnionGood(fields, group) && |m| == |fields|
    requires forall i :: 0 <= i < |fields| ==> DeclaredSlot(fields[i], m[i])
    requires TypedMsg(LowerUnion(fields, group), m) && FitsMsg(LowerUnion(fields, group), m)
    ensures |EncMsg(LowerUnion(fields, group), m)| <= PeakUnion(fields)
    ensures (forall i :: 0 <= i < |m| ==> m[i].Absent?) ==> EncMsg(LowerUnion(fields, group), m) == []
    decreases fields, 5
  {
    hide UnionGood, DeclaredSlot, TypedSlot, FitsSlot, EncSlot, PeakTagged, LowerField;
    if fields != [] {
      var fs := LowerUnion(fields, group);
      UnionRest(fields, group);
      assert fs[1..] == LowerUnion(fields[1..], group);
      TailTyped(fs, m, 1);
      assert TypedSlot(fs[0], m[0]) && FitsSlot(fs[0], m[0]);
      AlternativePeak(fields[0], fs[0], group, m[0]);
      forall j | 0 < j < |fs| ensures m[0].Absent? || m[j].Absent? {
        UnionGroup(fields, group, j);
        UnionGroup(fields, group, 0);
        assert SameOneOf(fs[0], fs[j]);
      }
      UnionPeakBound(fields[1..], group, m[1..]);
    }
  }

  lemma {:induction false} AlternativePeak(gf: GField, f: Field, group: nat, slot: Slot)
    requires FieldGood(gf, f) && f == LowerField(gf, OneOf(group))
    requires TypedSlot(f, slot) && FitsSlot(f, slot) && DeclaredSlot(gf, slot)
    ensures |EncSlot(f, slot)| <= PeakTagged(gf) && (slot.Absent? ==> EncSlot(f, slot) == [])
    decreases gf, 4
  {
    hide Typed, Fits, Declared, PeakType, EncTagged, VarintMaxSize;
    if slot.Single? {
      FieldTypeGood(gf, f);
      ValuePeak(gf.gtype, slot.v);
      TaggedSize(f, slot.v);
    }
  }

  ghost predicate Accepted(gf: GField, f: Field, slot: Slot) {
    TypedSlot(f, slot) && FitsSlot(f, slot) && DeclaredSlot(gf, slot)
  }

  /** Alternative k alone is accepted, and takes its own peak. */
  lemma {:induction false} UnionAttains(fields: seq<GField>, group: nat, k: int)
    requires UnionGood(fields, group)
    ensures |EncMsg(LowerUnion(fields, group), FullUnion(fields, k))|
         == if 0 <= k < |fields| then PeakTagged(fields[k]) else 0
    decreases fields, 5
  {
    hide UnionGood, PeakTagged, LowerField, EncSlot, Accepted, FieldGood, FullOf;
    if fields != [] {
      var m, fs := FullUnion(fields, k), LowerUnion(fields, group);
      UnionRest(fields, group);
      UnionAttains(fields[1..], group, k - 1);
      assert m[1..] == FullUnion(fields[1..], k - 1) && fs[1..] == LowerUnion(fields[1..], group);
      AlternativeAttains(fields[0], fs[0], group, m[0]);
    }
  }

  lemma {:induction false} UnionAccepted(fields: seq<GField>, group: nat, k: int, i: nat)
    requires UnionGood(fields, group) && i < |fields|
    ensures Accepted(fields[i], LowerUnion(fields, group)[i], FullUnion(fields, k)[i])
    decreases fields, 5
  {
    hide UnionGood, LowerField, Accepted, FieldGood, FullOf;
    UnionRest(fields, group);
    if i == 0 {
      AlternativeAttains(fields[0], LowerUnion(fields, group)[0], group, FullUnion(fields, k)[0]);
    } else {
      UnionAccepted(fields[1..], group, k - 1, i - 1);
    }
  }

  lemma {:induction false} UnionTyped(fields: seq<GField>, group: nat, k: int)
    requires UnionGood(fields, group)
    ensures var m, fs := FullUnion(fields, k), LowerUnion(fields, group);
            && TypedMsg(fs, m) && FitsMsg(fs, m) && (forall i :: 0 <= i < |fields| ==> DeclaredSlot(fields[i], m[i]))
    decreases fields, 6
  {
    hide UnionGood, TypedSlot, FitsSlot, DeclaredSlot, LowerUnion, FullUnion;
    var m, fs := FullUnion(fields, k), LowerUnion(fields, group);
    forall i | 0 <= i < |fields|
      ensures TypedSlot(fs[i], m[i]) && FitsSlot(fs[i], m[i]) && DeclaredSlot(fields[i], m[i])
      ensures i != k ==> m[i] == Absent
    {
      UnionAccepted(fields, group, k, i);
      FullAt(fields, k, i);
    }
  }

  lemma {:induction false} AlternativeAttains(gf: GField, f: Field, group: nat, slot: Slot)
    requires FieldGood(gf, f) && f == LowerField(gf, OneOf(group)) && (slot == Absent || slot == Single(FullOf(gf)))
    ensures Accepted(gf, f, slot)
    ensures |EncSlot(f, slot)| == if slot == Absent then 0 else PeakTagged(gf)
    decreases gf, 4
  {
    hide Typed, Fits, Declared, PeakType, EncTagged, VarintMaxSize, LTypeOk, TypeOk, Inhabited;
    FieldTypeGood(gf, f);
    FullAttains(gf.gtype);
    TaggedSize(f, FullOf(gf));
  }

  lemma {:induction false} WidestIsPeak(fields: seq<GField>)
    requires fields != []
    ensures PeakTagged(fields[Widest(fields)]) == PeakUnion(fields)
    decreases |fields|
  {
    hide PeakTagged;
    if |fields| > 1 { WidestIsPeak(fields[1..]); } else { assert fields[1..] == []; }
  }

  // ---------------------------------------------------------------------------
  // Messages

  ghost predicate ItemGood(item: GItem, group: nat) {
    ItemOk(item) && InhabitedItem(item) && AllFieldsOk(LowerItem(item, group))
  }

  lemma {:induction false} ItemPeakBound(item: GItem, group: nat, m: seq<Slot>)
    requires ItemGood(item, group) && DeclaredItem(item, m)
    requires TypedMsg(LowerItem(item, group), m) && FitsMsg(LowerItem(item, group), m)
    ensures |EncMsg(LowerItem(item, group), m)| <= PeakItem(item)
    decreases item, 6
  {
    hide FieldOk, TypeOk, InhabitedField, DeclaredSlot, TypedSlot, FitsSlot, EncSlot, PeakField, PeakUnion, LowerField;
    match item
    case Plain(gf) =>
      var f := LowerField(gf, gf.rules);
      PlainGood(gf, f, group);
      assert TypedSlot(f, m[0]) && FitsSlot(f, m[0]);
      SlotPeak(gf, f, m[0]);
      assert EncMsg([f], m) == EncSlot(f, m[0]);
    case Union(fields) =>
      UnionPeakBound(fields, group, m);
  }

  lemma {:induction false} PlainGood(gf: GField, f: Field, group: nat)
    requires ItemGood(Plain(gf), group) && f == LowerField(gf, gf.rules)
    ensures FieldGood(gf, f) && f.htype == gf.rules && !f.htype.OneOf? && LowerItem(Plain(gf), group) == [f]
  {
    assert LowerItem(Plain(gf), group)[0] == f;
  }

  lemma {:induction false} ItemAttains(item: GItem, group: nat)
    requires ItemGood(item, group)
    ensures var m, fs := FullItem(item), LowerItem(item, group);
            && TypedMsg(fs, m) && FitsMsg(fs, m) && DeclaredItem(item, m)
            && |EncMsg(fs, m)| == PeakItem(item)
    decreases item, 6
  {
    hide FieldOk, TypeOk, InhabitedField, DeclaredSlot, TypedSlot, FitsSlot, EncSlot, PeakField, PeakTagged, LowerField,
         FullSlot;
    match item
    case Plain(gf) =>
      var f := LowerField(gf, gf.rules);
      PlainGood(gf, f, group);
      SlotAttains(gf, f);
      assert EncMsg([f], [FullSlot(gf)]) == EncSlot(f, FullSlot(gf));
    case Union(fields) =>
      UnionAttains(fields, group, if fields == [] then -1 else Widest(fields));
      UnionTyped(fields, group, if fields == [] then -1 else Widest(fields));
      if fields != [] { WidestIsPeak(fields); }
  }

  lemma {:induction false} MsgPeak(items: seq<GItem>, m: seq<Slot>)
    requires MsgGood(items) && TypedMsg(Lower(items), m) && FitsMsg(Lower(items), m) && DeclaredMsg(items, m)
    ensures |EncMsg(Lower(items), m)| <= PeakMsg(items)
    decreases items, 7
  {
    hide MsgGood, ItemOk, InhabitedItem, FieldOk, TypedSlot, FitsSlot, DeclaredItem, PeakItem, LowerItem;
    if items != [] {
      var fs, k := Lower(items), Width(items[0]);
      RestGood(items);
      LowerWidth(items[0], |items|);
      assert fs[..k] == LowerItem(items[0], |items|) && fs[k..] == Lower(items[1..]);
      TailTyped(fs, m, k);
      ItemPeakBound(items[0], |items|, m[..k]);
      MsgPeak(items[1..], m[k..]);
      EncMsgSplit(fs, m, k);
    }
  }

  lemma {:induction false} LowerWidth(item: GItem, group: nat)
    ensures |LowerItem(item, group)| == Width(item)
  {
  }

  /** A oneof is numbered by the items that are left, so no two items share one. */
  lemma {:induction false} GroupsBelow(items: seq<GItem>, i: nat)
    requires ItemsOk(items) && i < |Lower(items)| && Lower(items)[i].htype.OneOf?
    ensures Lower(items)[i].htype.group <= |items|
    decreases |items|
  {
    hide TypeOk, FieldOk;
    var a := LowerItem(items[0], |items|);
    assert Lower(items) == a + Lower(items[1..]) && ItemOk(items[0]);
    if i < |a| {
      ItemGroup(items[0], |items|, i);
    } else {
      assert forall j :: 0 <= j < |items[1..]| ==> items[1..][j] == items[j + 1];
      GroupsBelow(items[1..], i - |a|);
    }
  }

  lemma {:induction false} ItemGroup(item: GItem, group: nat, i: nat)
    requires ItemOk(item) && i < |LowerItem(item, group)| && LowerItem(item, group)[i].htype.OneOf?
    ensures LowerItem(item, group)[i].htype.group == group
  {
    if item.Union? { UnionGroup(item.fields, group, i); }
  }

  lemma {:induction false} JoinTyped(a: seq<Field>, m: seq<Slot>, b: seq<Field>, n: seq<Slot>)
    requires TypedMsg(a, m) && FitsMsg(a, m) && TypedMsg(b, n) && FitsMsg(b, n)
    requires forall i, j :: 0 <= i < |a| && 0 <= j < |b| ==> !SameOneOf(a[i], b[j])
    ensures TypedMsg(a + b, m + n) && FitsMsg(a + b, m + n)
  {
    hide TypedSlot, FitsSlot;
    var fs, s := a + b, m + n;
    forall i | 0 <= i < |fs| ensures TypedSlot(fs[i], s[i]) && FitsSlot(fs[i], s[i]) {
      if i < |a| { assert TypedSlot(a[i], m[i]) && FitsSlot(a[i], m[i]); }
      else { assert TypedSlot(b[i - |a|], n[i - |a|]) && FitsSlot(b[i - |a|], n[i - |a|]); }
    }
    forall i, j | 0 <= i < j < |fs| && SameOneOf(fs[i], fs[j]) ensures s[i] == Absent || s[j] == Absent {
      if i >= |a| { assert SameOneOf(b[i - |a|], b[j - |a|]); }
      else if j < |a| { assert SameOneOf(a[i], a[j]); }
    }
  }

  lemma {:induction false} FullLength(items: seq<GItem>)
    ensures |FullMsg(items)| == |Lower(items)|
  {
    hide FullItem, LowerItem;
    if items != [] {
      LowerWidth(items[0], |items|);
      FullLength(items[1..]);
    }
  }

  lemma {:induction false} MsgAttains(items: seq<GItem>)
    requires MsgGood(items)
    ensures TypedMsg(Lower(items), FullMsg(items)) && FitsMsg(Lower(items), FullMsg(items))
    ensures DeclaredMsg(items, FullMsg(items))
    ensures |EncMsg(Lower(items), FullMsg(items))| == PeakMsg(items)
    decreases items, 7
  {
    hide MsgGood, ItemOk, InhabitedItem, FieldOk, TypedSlot, FitsSlot, DeclaredItem, PeakItem, LowerItem, FullItem,
         TypedMsg, FitsMsg;
    if items == [] {
      NoItems();
    } else {
      var k := Width(items[0]);
      var a, b := LowerItem(items[0], |items|), Lower(items[1..]);
      var m, n := FullItem(items[0]), FullMsg(items[1..]);
      RestGood(items);
      LowerWidth(items[0], |items|);
      ItemAttains(items[0], |items|);
      MsgAttains(items[1..]);
      SeparateGroups(items);
      JoinTyped(a, m, b, n);
      FullLength(items[1..]);
      assert (m + n)[..k] == m && (m + n)[k..] == n && (a + b)[..k] == a && (a + b)[k..] == b;
      EncMsgSplit(a + b, m + n, k);
    }
  }

  lemma {:induction false} NoItems()
    ensures TypedMsg(Lower([]), FullMsg([])) && FitsMsg(Lower([]), FullMsg([]))
  {
  }

  lemma {:induction false} SeparateGroups(items: seq<GItem>)
    requires MsgGood(items) && items != []
    ensures var a, b := LowerItem(items[0], |items|), Lower(items[1..]);
            forall i, j :: 0 <= i < |a| && 0 <= j < |b| ==> !SameOneOf(a[i], b[j])
  {
    hide TypeOk, FieldOk, InhabitedItem, ItemOk;
    var a, b := LowerItem(items[0], |items|), Lower(items[1..]);
    RestGood(items);
    forall i, j | 0 <= i < |a| && 0 <= j < |b| ensures !SameOneOf(a[i], b[j]) {
      if a[i].htype.OneOf? && b[j].htype.OneOf? {
        ItemGroup(items[0], |items|, i);
        GroupsBelow(items[1..], j);
      }
    }
  }

  // ---------------------------------------------------------------------------
  // Messages that are never written

  lemma {:induction false} DefaultMsgAt(fs: seq<Field>, m: seq<Slot>)
    requires |m| == |fs|
    ensures DefaultMsg(fs, m) <==> forall i :: 0 <= i < |fs| ==> DefaultSlot(fs[i], m[i])
    decreases |fs|
  {
    hide DefaultSlot;
    if fs != [] {
      DefaultMsgAt(fs[1..], m[1..]);
      assert forall i :: 0 < i < |fs| ==> fs[i] == fs[1..][i - 1] && m[i] == m[1..][i - 1];
    }
  }

  lemma {:induction false} DefaultSplit(a: seq<Field>, m: seq<Slot>, b: seq<Field>, n: seq<Slot>)
    requires |m| == |a| && |n| == |b|
    ensures DefaultMsg(a + b, m + n) <==> DefaultMsg(a, m) && DefaultMsg(b, n)
  {
    hide DefaultSlot, DefaultMsg;
    DefaultMsgAt(a, m);
    DefaultMsgAt(b, n);
    DefaultMsgAt(a + b, m + n);
    assert forall i :: 0 <= i < |a| ==> (a + b)[i] == a[i] && (m + n)[i] == m[i];
    assert forall i :: 0 <= i < |b| ==> (a + b)[|a| + i] == b[i] && (m + n)[|a| + i] == n[i];
    assert forall i :: |a| <= i < |a + b| ==> (a + b)[i] == b[i - |a|] && (m + n)[i] == n[i - |a|];
  }

  lemma {:induction false} PlainDefaultOnly(gf: GField, f: Field, slot: Slot)
    requires FieldGood(gf, f) && f.htype == gf.rules && !f.htype.OneOf?
    requires TypedSlot(f, slot) && FitsSlot(f, slot) && DeclaredSlot(gf, slot) && DefaultSlot(f, FullSlot(gf))
    ensures DefaultSlot(f, slot)
    decreases gf, 5
  {
    hide Typed, Fits, Declared, DefaultValue, LTypeOk, TypeOk, Inhabited;
    if f.htype.Singular? {
      FieldTypeGood(gf, f);
      assert FullSlot(gf) == Single(Full(gf.gtype));
      DefaultOnly(gf.gtype, slot.v);
    } else if f.htype.FixArray? {
      NoEmptyArray(f);
    }
  }

  lemma {:induction false} UnionNotDefault(fields: seq<GField>, group: nat)
    requires fields != []
    ensures !DefaultMsg(LowerUnion(fields, group), FullUnion(fields, Widest(fields)))
  {
    hide DefaultMsg, LowerUnion, FullUnion;
    var fs, m, k := LowerUnion(fields, group), FullUnion(fields, Widest(fields)), Widest(fields);
    DefaultMsgAt(fs, m);
    FullAt(fields, k, k);
    UnionGroup(fields, group, k);
    assert !DefaultSlot(fs[k], m[k]);
  }

  lemma {:induction false} ItemDefaultOnly(item: GItem, group: nat, m: seq<Slot>)
    requires ItemGood(item, group) && DeclaredItem(item, m)
    requires TypedMsg(LowerItem(item, group), m) && FitsMsg(LowerItem(item, group), m)
    requires DefaultMsg(LowerItem(item, group), FullItem(item))
    ensures DefaultMsg(LowerItem(item, group), m)
    decreases item, 6
  {
    hide FieldOk, TypeOk, InhabitedField, TypedSlot, FitsSlot, DeclaredSlot, DefaultSlot, FullSlot, LowerField,
         FieldGood;
    match item
    case Plain(gf) =>
      var f := LowerField(gf, gf.rules);
      PlainGood(gf, f, group);
      assert TypedSlot(f, m[0]) && FitsSlot(f, m[0]);
      DefaultMsgAt([f], [FullSlot(gf)]);
      DefaultMsgAt([f], m);
      assert DefaultSlot([f][0], [FullSlot(gf)][0]);
      PlainDefaultOnly(gf, f, m[0]);
    case Union(fields) =>
      if fields != [] { UnionNotDefault(fields, group); }
  }

  lemma {:induction false} NoEmptyArray(f: Field)
    requires FieldOk(f) && f.htype.FixArray?
    ensures f.htype.arraySize > 0
  {
  }

  lemma {:induction false} FullAt(fields: seq<GField>, k: int, i: nat)
    requires i < |fields|
    ensures FullUnion(fields, k)[i] == if i == k then Single(FullOf(fields[i])) else Absent
    decreases |fields|
  {
    if i > 0 { FullAt(fields[1..], k - 1, i - 1); }
  }

  lemma {:induction false} MsgDefaultOnly(items: seq<GItem>, m: seq<Slot>)
    requires MsgGood(items) && TypedMsg(Lower(items), m) && FitsMsg(Lower(items), m) && DeclaredMsg(items, m)
    requires DefaultMsg(Lower(items), FullMsg(items))
    ensures DefaultMsg(Lower(items), m)
    decreases items, 7
  {
    hide MsgGood, ItemOk, InhabitedItem, FieldOk, TypedSlot, FitsSlot, DeclaredItem, LowerItem, FullItem, DefaultMsg;
    if items == [] {
      assert m == [] && FullMsg(items) == [];
    } else {
      var k := Width(items[0]);
      var a, b := LowerItem(items[0], |items|), Lower(items[1..]);
      RestGood(items);
      LowerWidth(items[0], |items|);
      FullLength(items[1..]);
      assert (a + b)[..k] == a && (a + b)[k..] == b && m == m[..k] + m[k..];
      TailTyped(a + b, m, k);
      DefaultSplit(a, FullItem(items[0]), b, FullMsg(items[1..]));
      ItemDefaultOnly(items[0], |items|, m[..k]);
      MsgDefaultOnly(items[1..], m[k..]);
      DefaultSplit(a, m[..k], b, m[k..]);
    }
  }

  // ---------------------------------------------------------------------------
  // What the generated sizes add

  /** A string counts the length of one byte more than it can have; a submessage, what
      its own size adds, also to its length prefix. */
  function SlackType(gt: GType): int
    decreases gt, 1
  {
    match gt
    case GScalar(ltype) =>
      if ltype.LString? && ltype.dataSize > 0 then |Varint(ltype.dataSize)| - |Varint(ltype.dataSize - 1)| else 0
    case GEnum(_, _, _) => 0
    case GMessage(items) =>
      SlackMsg(items) + VarintMaxSize(PeakMsg(items) + SlackMsg(items)) - VarintMaxSize(PeakMsg(items))
  }

  /** A packed array counts a key for each element in place of one length prefix; an
      array of one element that is not packed, a byte; a field that is never written,
      everything. */
  function SlackField(f: GField): int
    decreases f, 2
  {
    var key := VarintMaxSize(f.tag * 8);
    if f.rules.Repeated? || f.rules.FixArray? then
      var n := f.rules.arraySize;
      if Packable(LowerType(f.gtype)) then
        if n < 2 then 0 else Times(key, n - 1) - |Varint(Times(PeakType(f.gtype), n))|
      else n * SlackType(f.gtype) + if n == 1 then 1 else 0
    else if NeverWritten(f) then PeakTagged(f) + SlackType(f.gtype)
    else SlackType(f.gtype)
  }

  function SlackItem(item: GItem): int
    decreases item, 3
  {
    match item
    case Plain(f) => SlackField(f)
    case Union(fields) => LargestSized(fields) - PeakUnion(fields)
  }

  function Sized(f: GField): int
    decreases f, 2
  {
    PeakTagged(f) + SlackType(f.gtype)
  }

  /** The alternative of a oneof that is largest with its slack; another one may have
      the largest encoding. */
  function LargestSized(fields: seq<GField>): int
    decreases fields, 3
  {
    if fields == [] then 0
    else
      var first, others := Sized(fields[0]), LargestSized(fields[1..]);
      if first < others then others else first
  }

  function SlackMsg(items: seq<GItem>): int
    decreases items, 4
  {
    if items == [] then 0 else SlackItem(items[0]) + SlackMsg(items[1..])
  }

  lemma {:induction false} TypeSlack(gt: GType)
    requires TypeOk(gt)
    ensures TypeSize(gt) == PeakType(gt) + SlackType(gt) && SlackType(gt) >= 0
    decreases gt, 1
  {
    hide Varint;
    match gt
    case GScalar(ltype) => if ltype.LString? { VarintMonotonic(ltype.dataSize - 1, ltype.dataSize); }
    case GEnum(_, _, values) =>
    case GMessage(items) =>
      MsgSlack(items);
      VarintMonotonic(PeakMsg(items), MessageSize(items));
  }

  lemma {:induction false} PackableExact(gt: GType)
    requires TypeOk(gt) && Packable(LowerType(gt))
    ensures SlackType(gt) == 0 && TypeSize(gt) <= 10
  {
    PackableSize(gt);
  }

  lemma {:induction false} TimesGap(a: nat, b: nat, n: nat)
    ensures Times(a + b, n) == Times(a, n) + n * b
  {
    TimesIsProduct(a + b, n);
    TimesIsProduct(a, n);
    assert (a + b) * n == a * n + n * b;
  }

  lemma {:induction false} PackedSlack(key: nat, e: nat, n: nat)
    requires key >= 1 && e <= 10 && n >= 1
    ensures Times(e + key, n) + (if n == 1 then 1 else 0) - (key + |Varint(Times(e, n))| + Times(e, n))
         == if n == 1 then 0 else Times(key, n - 1) - |Varint(Times(e, n))|
    ensures n >= 2 ==> Times(key, n - 1) >= |Varint(Times(e, n))|
  {
    hide Varint;
    TimesSplit(e, key, n);
    assert Times(key, n) == key + Times(key, n - 1);
    PackedFits(key, e, n, Times(e, n));
    if n == 1 {
      assert Times(e, 1) == e + Times(e, 0) && Times(key, 0) == 0;
      Short(e);
    }
  }

  lemma {:induction false} Short(e: nat)
    requires e < 128
    ensures |Varint(e)| == 1
  {
  }

  lemma {:induction false} FieldSlack(f: GField)
    requires TypeOk(f.gtype) && !f.rules.OneOf?
    ensures FieldSize(f) == PeakField(f) + SlackField(f) && SlackField(f) >= 0
    decreases f, 2
  {
    hide VarintMaxSize, TypeSize, PeakType, SlackType, TypeOk, NeverWritten;
    TypeSlack(f.gtype);
    if f.rules.Repeated? || f.rules.FixArray? {
      if Packable(LowerType(f.gtype)) {
        PackedFieldSlack(f);
      } else {
        TimesGap(PeakTagged(f), SlackType(f.gtype), f.rules.arraySize);
      }
    }
  }

  lemma {:induction false} PackedFieldSlack(f: GField)
    requires TypeOk(f.gtype) && (f.rules.Repeated? || f.rules.FixArray?) && Packable(LowerType(f.gtype))
    requires TypeSize(f.gtype) == PeakType(f.gtype) + SlackType(f.gtype)
    ensures FieldSize(f) == PeakField(f) + SlackField(f) && SlackField(f) >= 0
  {
    hide Varint, VarintMaxSize, TypeSize, PeakType, SlackType, TypeOk, NeverWritten;
    OneByte(f.tag * 8);
    PackableExact(f.gtype);
    if f.rules.arraySize > 0 { PackedSlack(VarintMaxSize(f.tag * 8), TypeSize(f.gtype), f.rules.arraySize); }
  }

  lemma {:induction false} UnionSlack(fields: seq<GField>)
    requires forall i :: 0 <= i < |fields| ==> TypeOk(fields[i].gtype)
    ensures UnionSize(fields) == LargestSized(fields) >= PeakUnion(fields)
    decreases fields, 3
  {
    hide TypeOk, Sized, PeakTagged, UnionFieldSize;
    if fields != [] {
      AlternativeSlack(fields[0]);
      UnionSlack(fields[1..]);
    }
  }

  lemma {:induction false} AlternativeSlack(f: GField)
    requires TypeOk(f.gtype)
    ensures UnionFieldSize(f) == Sized(f) >= PeakTagged(f)
    decreases f, 2
  {
    TypeSlack(f.gtype);
  }

  /** The generated size is the largest encoding and what is added to it. */
  lemma {:induction false} MsgSlack(items: seq<GItem>)
    requires ItemsOk(items)
    ensures MessageSize(items) == PeakMsg(items) + SlackMsg(items) && SlackMsg(items) >= 0
    decreases items, 5
  {
    hide FieldSize, PeakField, SlackField, UnionSize, PeakUnion, TypeOk;
    if items != [] {
      ItemSlack(items[0]);
      MsgSlack(items[1..]);
    }
  }

  lemma {:induction false} ItemSlack(item: GItem)
    requires ItemOk(item)
    ensures ItemSize(item) == PeakItem(item) + SlackItem(item) && SlackItem(item) >= 0
    decreases item, 4
  {
    match item
    case Plain(f) => FieldSlack(f);
    case Union(fields) => UnionSlack(fields);
  }

  /** No message that the encoder accepts takes more than the generated size less the
      slack, and one takes exactly that. */
  lemma {:induction false} LargestEncoding(items: seq<GItem>)
    requires ItemsOk(items) && InhabitedMsg(items) && DescOk(Lower(items))
    ensures forall m :: TypedMsg(Lower(items), m) && FitsMsg(Lower(items), m) && DeclaredMsg(items, m) ==>
              |EncMsg(Lower(items), m)| <= MessageSize(items) - SlackMsg(items)
    ensures exists m :: TypedMsg(Lower(items), m) && FitsMsg(Lower(items), m) && DeclaredMsg(items, m)
                        && |EncMsg(Lower(items), m)| == MessageSize(items) - SlackMsg(items)
  {
    hide ItemsOk, InhabitedMsg, FieldOk, TypedMsg, FitsMsg, DeclaredMsg, EncMsg, Lower, PeakMsg, SlackMsg, MessageSize;
    assert MsgGood(items);
    MsgSlack(items);
    MsgAttains(items);
    forall m | TypedMsg(Lower(items), m) && FitsMsg(Lower(items), m) && DeclaredMsg(items, m)
      ensures |EncMsg(Lower(items), m)| <= PeakMsg(items)
    {
      MsgPeak(items, m);
    }
  }
}
