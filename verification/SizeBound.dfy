/**
 The generator's maximum encoded sizes (`encoded_size`), and that they bound what
 the encoder writes.
 */
module SizeBound {
  import opened Options
  import opened Varints
  import opened Proto

  // ---------------------------------------------------------------------------
  // Message types as the generator holds them

  datatype GType =
    | GScalar(ltype: LType)
    | GEnum(unsigned: bool, size: nat, values: seq<int>)
    | GMessage(items: seq<GItem>)

  datatype GField = GField(tag: nat, gtype: GType, rules: HType, def: Option<Value>)

  /** A field of its own, or a oneof with its alternatives. */
  datatype GItem = Plain(field: GField) | Union(fields: seq<GField>)

  function LowerType(gt: GType): LType
    decreases gt, 1
  {
    match gt
    case GScalar(ltype) => ltype
    case GEnum(unsigned, size, _) => if unsigned then LUvarint(size) else LVarint(size)
    case GMessage(items) => LSubmsg(Lower(items))
  }

  function LowerField(f: GField, rules: HType): Field
    decreases f, 2
  {
    Field(f.tag, LowerType(f.gtype), rules, f.def)
  }

  function LowerUnion(fields: seq<GField>, group: nat): (fs: seq<Field>)
    ensures |fs| == |fields|
    decreases fields, 3
  {
    if fields == [] then [] else [LowerField(fields[0], OneOf(group))] + LowerUnion(fields[1..], group)
  }

  function LowerItem(item: GItem, group: nat): seq<Field>
    decreases item, 4
  {
    match item
    case Plain(f) => [LowerField(f, f.rules)]
    case Union(fields) => LowerUnion(fields, group)
  }

  /** The descriptor: the fields of the items in order; a oneof is numbered by the
      number of items from it to the end. */
  function Lower(items: seq<GItem>): seq<Field>
    decreases items, 5
  {
    if items == [] then [] else LowerItem(items[0], |items|) + Lower(items[1..])
  }

  /** Types that the generator accepts with static allocation. */
  ghost predicate TypeOk(gt: GType)
    decreases gt, 1
  {
    match gt
    case GScalar(ltype) => !ltype.LSubmsg? && LTypeOk(ltype)
    case GEnum(_, size, values) => IntSize(size) && forall v :: v in values ==> VarintMaxSize(v) <= 10
    case GMessage(items) => ItemsOk(items)
  }

  ghost predicate ItemOk(item: GItem)
    decreases item, 2
  {
    match item
    case Plain(f) => !f.rules.OneOf? && TypeOk(f.gtype)
    case Union(fields) => forall i :: 0 <= i < |fields| ==> TypeOk(fields[i].gtype)
  }

  ghost predicate ItemsOk(items: seq<GItem>)
    decreases items, 3
  {
    forall i :: 0 <= i < |items| ==> ItemOk(items[i])
  }

  // ---------------------------------------------------------------------------
  // Sizes

  /** `varint_max_size` for a value that fits ten bytes */
  function VarintMaxSize(n: int): nat {
    |Varint(if n < 0 then TWO_64 - n else n)|
  }

  /** The loop of `varint_max_size`; None is its ValueError. */
  method ComputeVarintMaxSize(maxValue: int) returns (r: Option<nat>)
    ensures r == if VarintMaxSize(maxValue) <= 10 then Some(VarintMaxSize(maxValue)) else None
  {
    var n: nat := if maxValue < 0 then TWO_64 - maxValue else maxValue;
    var rest := n;
    for i := 1 to 11
      invariant 0 <= rest && VarintMaxSize(maxValue) == i - 1 + |Varint(rest)|
    {
      if rest / 128 == 0 {
        return Some(i);
      }
      rest := rest / 128;
    }
    return None;
  }

  function Max(a: nat, b: nat): nat { if a < b then b else a }

  /** `Enum.encoded_size` */
  function EnumSize(values: seq<int>): nat {
    if values == [] then 0 else Max(VarintMaxSize(values[0]), EnumSize(values[1..]))
  }

  /** The encoded-size column of `datatypes`, and the sizes of strings and bytes. */
  function ScalarSize(lt: LType): nat {
    match lt
    case LBool => 1
    case LVarint(_) => 10
    case LUvarint(size) => if size == 1 then 2 else if size == 2 then 3 else if size == 4 then 5 else 10
    case LSvarint(size) => if size == 1 then 2 else if size == 2 then 3 else if size == 4 then 5 else 10
    case LFixed32 => 4
    case LFixed64 => 8
    case LString(dataSize) => VarintMaxSize(dataSize) + if dataSize > 0 then dataSize - 1 else 0
    case LBytes(capacity) => VarintMaxSize(capacity) + capacity
    case LFixedBytes(length) => VarintMaxSize(length) + length
    case LSubmsg(_) => 0
  }

  function TypeSize(gt: GType): nat
    decreases gt, 1
  {
    match gt
    case GScalar(ltype) => ScalarSize(ltype)
    case GEnum(_, _, values) => EnumSize(values)
    case GMessage(items) => MessageSize(items) + VarintMaxSize(MessageSize(items))
  }

  /** `Field.encoded_size` */
  function FieldSize(f: GField): nat
    decreases f, 2
  {
    var one := TypeSize(f.gtype) + VarintMaxSize(f.tag * 8);
    if f.rules.Repeated? || f.rules.FixArray? then
      Times(one, f.rules.arraySize) + if f.rules.arraySize == 1 then 1 else 0
    else one
  }

  /** a * n */
  function Times(a: nat, n: nat): nat { if n == 0 then 0 else a + Times(a, n - 1) }

  /** `OneOf.encoded_size` */
  function UnionSize(fields: seq<GField>): nat
    decreases fields, 3
  {
    if fields == [] then 0 else Max(UnionFieldSize(fields[0]), UnionSize(fields[1..]))
  }

  /** An alternative of a oneof is never an array. */
  function UnionFieldSize(f: GField): nat
    decreases f, 2
  {
    TypeSize(f.gtype) + VarintMaxSize(f.tag * 8)
  }

  function ItemSize(item: GItem): nat
    decreases item, 4
  {
    match item
    case Plain(f) => FieldSize(f)
    case Union(fields) => UnionSize(fields)
  }

  /** `Message.encoded_size` */
  function MessageSize(items: seq<GItem>): nat
    decreases items, 5
  {
    if items == [] then 0 else ItemSize(items[0]) + MessageSize(items[1..])
  }

  // ---------------------------------------------------------------------------
  // Computing the sizes

  /** No call of `varint_max_size` raises. */
  ghost predicate SizableType(gt: GType)
    decreases gt, 1
  {
    gt.GMessage? ==> Sizable(gt.items) && VarintMaxSize(MessageSize(gt.items)) <= 10
  }

  ghost predicate SizableField(f: GField)
    decreases f, 2
  {
    SizableType(f.gtype) && VarintMaxSize(f.tag * 8) <= 10
  }

  ghost predicate SizableItem(item: GItem)
    decreases item, 3
  {
    match item
    case Plain(f) => SizableField(f)
    case Union(fields) => forall i :: 0 <= i < |fields| ==> SizableField(fields[i])
  }

  ghost predicate Sizable(items: seq<GItem>)
    decreases items, 4
  {
    forall i :: 0 <= i < |items| ==> SizableItem(items[i])
  }

  lemma {:induction false} TimesIsProduct(a: nat, n: nat)
    ensures Times(a, n) == a * n
  {
    if n > 0 {
      TimesIsProduct(a, n - 1);
      assert a * n == a * (n - 1) + a;
    }
  }

  method ComputeEnumSize(values: seq<int>) returns (r: nat)
    requires forall v :: v in values ==> VarintMaxSize(v) <= 10
    ensures r == EnumSize(values)
  {
    r := 0;
    var i := |values|;
    assert values[i..] == [];
    while i > 0
      invariant 0 <= i <= |values| && r == EnumSize(values[i..])
    {
      i := i - 1;
      var size := ComputeVarintMaxSize(values[i]);
      assert values[i] in values && values[i..][1..] == values[i + 1..];
      r := Max(size.value, r);
    }
    assert values[0..] == values;
  }

  /** The part of `Field.encoded_size` that is common to all rules: one value with
      its tag. */
  method ComputeTaggedSize(f: GField) returns (r: Option<nat>)
    requires TypeOk(f.gtype)
    ensures r == if SizableField(f) then Some(UnionFieldSize(f)) else None
    decreases f, 2
  {
    var size;
    match f.gtype {
      case GScalar(ltype) =>
        size := ScalarSize(ltype);
      case GEnum(_, _, values) =>
        size := ComputeEnumSize(values);
      case GMessage(items) =>
        var inner := ComputeMessageSize(items);
        if inner == None {
          return None;
        }
        var prefix := ComputeVarintMaxSize(inner.value);
        if prefix == None {
          return None;
        }
        size := inner.value + prefix.value;
    }
    var tag := ComputeVarintMaxSize(f.tag * 8);
    return if tag == None then None else Some(size + tag.value);
  }

  /** `Field.encoded_size` */
  method ComputeFieldSize(f: GField) returns (r: Option<nat>)
    requires TypeOk(f.gtype)
    ensures r == if SizableField(f) then Some(FieldSize(f)) else None
    decreases f, 3
  {
    r := ComputeTaggedSize(f);
    if r.Some? && (f.rules.Repeated? || f.rules.FixArray?) {
      var n := f.rules.arraySize;
      TimesIsProduct(r.value, n);
      r := Some(r.value * n);
      if n == 1 {
        r := Some(r.value + 1);
      }
    }
  }

  /** `OneOf.encoded_size` */
  method ComputeUnionSize(fields: seq<GField>) returns (r: Option<nat>)
    requires forall i :: 0 <= i < |fields| ==> TypeOk(fields[i].gtype)
    ensures r == if forall i :: 0 <= i < |fields| ==> SizableField(fields[i]) then Some(UnionSize(fields)) else None
    decreases fields, 4
  {
    var largest := 0;
    var i := 0;
    assert fields[0..] == fields;
    while i < |fields|
      invariant 0 <= i <= |fields| && forall j :: 0 <= j < i ==> SizableField(fields[j])
      invariant UnionSize(fields) == Max(largest, UnionSize(fields[i..]))
    {
      var size := ComputeTaggedSize(fields[i]);
      if size == None {
        return None;
      }
      assert fields[i..][1..] == fields[i + 1..];
      if size.value > largest {
        largest := size.value;
      }
      i := i + 1;
    }
    return Some(largest);
  }

  /** `Message.encoded_size` */
  method ComputeMessageSize(items: seq<GItem>) returns (r: Option<nat>)
    requires ItemsOk(items)
    ensures r == if Sizable(items) then Some(MessageSize(items)) else None
    decreases items, 6
  {
    var size := 0;
    var i := 0;
    assert items[0..] == items;
    while i < |items|
      invariant 0 <= i <= |items| && forall j :: 0 <= j < i ==> SizableItem(items[j])
      invariant MessageSize(items) == size + MessageSize(items[i..])
    {
      var fsize := ComputeItemSize(items[i]);
      if fsize == None {
        return None;
      }
      assert items[i..][1..] == items[i + 1..];
      size := size + fsize.value;
      i := i + 1;
    }
    return Some(size);
  }

  method ComputeItemSize(item: GItem) returns (r: Option<nat>)
    requires ItemOk(item)
    ensures r == if SizableItem(item) then Some(ItemSize(item)) else None
    decreases item, 5
  {
    match item {
      case Plain(f) => r := ComputeFieldSize(f);
      case Union(fields) => r := ComputeUnionSize(fields);
    }
  }

  // ---------------------------------------------------------------------------
  // Messages whose enum fields hold declared values

  ghost predicate Declared(gt: GType, v: Value)
    decreases gt, 1
  {
    match gt
    case GScalar(_) => true
    case GEnum(_, _, values) => v.VInt? && v.i in values
    case GMessage(items) => v.VMsg? && DeclaredMsg(items, v.slots)
  }

  ghost predicate DeclaredSlot(f: GField, slot: Slot)
    decreases f, 2
  {
    match slot
    case Absent => true
    case Single(v) => Declared(f.gtype, v)
    case Many(vs) => forall i :: 0 <= i < |vs| ==> Declared(f.gtype, vs[i])
  }

  ghost predicate DeclaredItem(item: GItem, m: seq<Slot>)
    decreases item, 4
  {
    match item
    case Plain(f) => |m| == 1 && DeclaredSlot(f, m[0])
    case Union(fields) => |m| == |fields| && forall i :: 0 <= i < |fields| ==> DeclaredSlot(fields[i], m[i])
  }

  function Width(item: GItem): nat { if item.Plain? then 1 else |item.fields| }

  ghost predicate DeclaredMsg(items: seq<GItem>, m: seq<Slot>)
    decreases items, 5
  {
    if items == [] then m == []
    else
      var k := Width(items[0]);
      k <= |m| && DeclaredItem(items[0], m[..k]) && DeclaredMsg(items[1..], m[k..])
  }

  // ---------------------------------------------------------------------------
  // Varints and values

  lemma {:induction false} VarintMonotonic(a: nat, b: nat)
    requires a <= b
    ensures |Varint(a)| <= |Varint(b)|
  {
    if a >= 128 { VarintMonotonic(a / 128, b / 128); }
  }

  lemma {:induction false} TagSize(tag: nat, wireType: int)
    requires 0 <= wireType < 8
    ensures |Tag(wireType, tag)| == VarintMaxSize(tag * 8)
  {
    assert (tag * 8 + wireType) / 128 == (tag * 8) / 128;
  }

  lemma {:induction false} EnumCovers(values: seq<int>, v: int)
    requires v in values
    ensures VarintMaxSize(v) <= EnumSize(values)
  {
    if v != values[0] { EnumCovers(values[1..], v); }
  }

  lemma {:induction false} IntSizes(n: nat)
    ensures n < 2 ==> |Varint(n)| == 1
    ensures n < 0x100 ==> |Varint(n)| <= 2
    ensures n < 0x1_0000 ==> |Varint(n)| <= 3
    ensures n < TWO_32 ==> |Varint(n)| <= 5
    ensures n < TWO_64 ==> |Varint(n)| <= 10
  {
    VarintLengths(n);
    assert Pow128(2) == 0x4000 && Pow128(3) == 0x20_0000;
    if n < 0x100 { VarintLength(n, 2); }
    if n < 0x1_0000 { VarintLength(n, 3); }
  }

  lemma {:induction false} ZigZagBound(i: int, size: nat)
    requires IntSize(size) && -(Bound(size) / 2) <= i < Bound(size) / 2
    ensures ZigZag(i) < Bound(size)
  {
  }

  /** A value of an integer type takes at most the size in the table. */
  lemma {:induction false} ScalarBound(lt: LType, v: Value)
    requires LTypeOk(lt) && !lt.LSubmsg? && Typed(lt, v) && Fits(lt, v)
    ensures |EncValue(lt, v)| <= ScalarSize(lt)
  {
    hide Varint, ZigZag;
    match lt
    case LBool => IntSizes(v.i);
    case LVarint(_) => IntSizes(v.i % TWO_64);
    case LUvarint(_) => IntSizes(v.i);
    case LSvarint(size) => ZigZagBound(v.i, size); IntSizes(ZigZag(v.i));
    case LFixed32 =>
    case LFixed64 =>
    case LString(dataSize) => VarintMonotonic(|v.bytes|, dataSize);
    case LBytes(capacity) => VarintMonotonic(|v.bytes|, capacity);
    case LFixedBytes(length) =>
  }

  lemma {:induction false} EnumWord(i: int)
    requires -TWO_63 <= i < TWO_64
    ensures |Varint(i % TWO_64)| <= VarintMaxSize(i)
  {
    hide Varint;
    if i < 0 {
      assert i % TWO_64 == TWO_64 + i;
      VarintMonotonic(i % TWO_64, TWO_64 - i);
    }
  }

  /** A declared value of an enum takes at most the size of the largest. */
  lemma {:induction false} EnumBound(unsigned: bool, size: nat, values: seq<int>, v: Value)
    requires IntSize(size) && v.VInt? && v.i in values
    requires Typed(LowerType(GEnum(unsigned, size, values)), v)
    ensures |EncValue(LowerType(GEnum(unsigned, size, values)), v)| <= EnumSize(values)
  {
    hide Varint, VarintMaxSize;
    EnumCovers(values, v.i);
    EnumWord(v.i);
  }

  lemma {:induction false} ValueBound(gt: GType, v: Value)
    requires TypeOk(gt) && Typed(LowerType(gt), v) && Fits(LowerType(gt), v) && Declared(gt, v)
    ensures |EncValue(LowerType(gt), v)| <= TypeSize(gt)
    decreases gt, 1
  {
    match gt
    case GScalar(ltype) => ScalarBound(ltype, v);
    case GEnum(unsigned, size, values) => EnumBound(unsigned, size, values, v);
    case GMessage(items) =>
      MessageBound(items, v.slots);
      VarintMonotonic(|EncMsg(Lower(items), v.slots)|, MessageSize(items));
  }

  // ---------------------------------------------------------------------------
  // Fields

  lemma {:induction false} TimesMonotonic(a: nat, k: nat, n: nat)
    requires k <= n
    ensures Times(a, k) <= Times(a, n)
  {
    if k < n { TimesMonotonic(a, k, n - 1); }
  }

  lemma {:induction false} TimesSplit(a: nat, b: nat, n: nat)
    ensures Times(a + b, n) == Times(a, n) + Times(b, n)
  {
    if n > 0 { TimesSplit(a, b, n - 1); }
  }

  lemma {:induction false} EachBound(gf: GField, f: Field, vs: seq<Value>)
    requires f == LowerField(gf, gf.rules) && TypeOk(gf.gtype)
    requires forall i :: 0 <= i < |vs| ==>
               Typed(f.ltype, vs[i]) && Fits(f.ltype, vs[i]) && Declared(gf.gtype, vs[i])
    ensures |EncEach(f, vs)| <= Times(TypeSize(gf.gtype) + VarintMaxSize(gf.tag * 8), |vs|)
    decreases gf, 1, |vs|
  {
    if vs != [] {
      assert vs[0] in vs;
      ValueBound(gf.gtype, vs[0]);
      TagSize(f.tag, WireType(f.ltype));
      EachBound(gf, f, vs[1..]);
    }
  }

  lemma {:induction false} PackedBound(gf: GField, lt: LType, vs: seq<Value>)
    requires lt == LowerType(gf.gtype) && TypeOk(gf.gtype)
    requires forall i :: 0 <= i < |vs| ==> Typed(lt, vs[i]) && Fits(lt, vs[i]) && Declared(gf.gtype, vs[i])
    ensures |EncValues(lt, vs)| <= Times(TypeSize(gf.gtype), |vs|)
    decreases gf, 1, |vs|
  {
    if vs != [] {
      ValueBound(gf.gtype, vs[0]);
      PackedBound(gf, lt, vs[1..]);
    }
  }

  /** Ten bytes an element: the length prefix of n of them fits n - 1 bytes. */
  lemma {:induction false} PrefixSize(n: nat)
    requires n >= 2
    ensures |Varint(10 * n)| <= n - 1
    decreases n
  {
    if n > 12 {
      PrefixSize(n - 1);
      OneMore(10 * (n - 1), 10 * n);
    }
  }

  lemma {:induction false} OneMore(a: nat, b: nat)
    requires b / 128 <= a
    ensures |Varint(b)| <= |Varint(a)| + 1
  {
    VarintMonotonic(b / 128, a);
  }

  lemma {:induction false} TimesLeast(a: nat, n: nat)
    ensures a >= 1 ==> Times(a, n) >= n
    ensures a <= 10 ==> Times(a, n) <= 10 * n
  {
    if n > 0 { TimesLeast(a, n - 1); }
  }

  lemma {:induction false} EnumAtMost(values: seq<int>)
    requires forall v :: v in values ==> VarintMaxSize(v) <= 10
    ensures EnumSize(values) <= 10
  {
    if values != [] { EnumAtMost(values[1..]); }
  }

  /** A packed array fits in the room for an unpacked one. */
  lemma {:induction false} PackedFits(t: nat, e: nat, n: nat, sum: nat)
    requires t >= 1 && e <= 10 && n >= 1 && sum <= Times(e, n)
    ensures t + |Varint(sum)| + sum <= Times(e + t, n) + if n == 1 then 1 else 0
  {
    TimesSplit(e, t, n);
    TimesLeast(e, n);
    VarintMonotonic(sum, 10 * n);
    if n == 1 {
      assert Times(e, 1) == e + Times(e, 0) && Times(t, 1) == t + Times(t, 0);
    } else {
      PrefixSize(n);
      assert Times(t, n) == t + Times(t, n - 1);
      TimesLeast(t, n - 1);
    }
  }

  /** An array of up to n elements, in the room for n unpacked ones. */
  lemma {:induction false} ArrayBound(gf: GField, f: Field, vs: seq<Value>, n: nat)
    requires f == LowerField(gf, gf.rules) && TypeOk(gf.gtype) && |vs| <= n
    requires forall i :: 0 <= i < |vs| ==>
               Typed(f.ltype, vs[i]) && Fits(f.ltype, vs[i]) && Declared(gf.gtype, vs[i])
    ensures |EncSlot(f, Many(vs))| <=
            Times(TypeSize(gf.gtype) + VarintMaxSize(gf.tag * 8), n) + if n == 1 then 1 else 0
    decreases gf, 2
  {
    hide Times, Typed, Fits, Declared, TypeOk, TypeSize, VarintMaxSize, EncValues, EncEach;
    var e, t := TypeSize(gf.gtype), VarintMaxSize(gf.tag * 8);
    if vs != [] {
      if Packable(f.ltype) {
        var packed := EncValues(f.ltype, vs);
        PackedBound(gf, f.ltype, vs);
        TimesMonotonic(e, |vs|, n);
        TagSize(f.tag, WT_STRING);
        PackableSize(gf.gtype);
        PackedFits(t, e, n, |packed|);
      } else {
        EachBound(gf, f, vs);
        TimesMonotonic(e + t, |vs|, n);
      }
    }
  }

  lemma {:induction false} PackableSize(gt: GType)
    requires TypeOk(gt) && Packable(LowerType(gt))
    ensures TypeSize(gt) <= 10
  {
    if gt.GEnum? { EnumAtMost(gt.values); }
  }

  lemma {:induction false} SingleBound(gf: GField, f: Field, slot: Slot)
    requires f == LowerField(gf, f.htype) && !IsArray(f) && TypeOk(gf.gtype)
    requires TypedSlot(f, slot) && FitsSlot(f, slot) && DeclaredSlot(gf, slot)
    ensures |EncSlot(f, slot)| <= UnionFieldSize(gf)
    ensures slot.Absent? ==> EncSlot(f, slot) == []
    decreases gf, 2
  {
    if slot.Single? {
      ValueBound(gf.gtype, slot.v);
      TagSize(f.tag, WireType(f.ltype));
    }
  }

  // ---------------------------------------------------------------------------
  // Messages

  /** At most one alternative of a oneof is set. */
  lemma {:induction false} UnionBound(fields: seq<GField>, group: nat, m: seq<Slot>)
    requires |m| == |fields|
    requires forall i :: 0 <= i < |fields| ==> TypeOk(fields[i].gtype) && DeclaredSlot(fields[i], m[i])
    requires TypedMsg(LowerUnion(fields, group), m) && FitsMsg(LowerUnion(fields, group), m)
    ensures |EncMsg(LowerUnion(fields, group), m)| <= UnionSize(fields)
    ensures (forall i :: 0 <= i < |m| ==> m[i].Absent?) ==> EncMsg(LowerUnion(fields, group), m) == []
    decreases fields, 3
  {
    hide TypeOk, DeclaredSlot, TypedSlot, FitsSlot, EncSlot;
    if fields != [] {
      var fs := LowerUnion(fields, group);
      var rest := LowerUnion(fields[1..], group);
      assert fs[1..] == rest;
      TailTyped(fs, m, 1);
      assert TypedSlot(fs[0], m[0]) && FitsSlot(fs[0], m[0]);
      SingleBound(fields[0], fs[0], m[0]);
      forall j | 0 < j < |fs| ensures m[0].Absent? || m[j].Absent? {
        UnionGroup(fields, group, j);
        UnionGroup(fields, group, 0);
        assert SameOneOf(fs[0], fs[j]);
      }
      UnionBound(fields[1..], group, m[1..]);
    }
  }

  lemma {:induction false} UnionGroup(fields: seq<GField>, group: nat, i: nat)
    requires i < |fields|
    ensures LowerUnion(fields, group)[i].htype == OneOf(group)
  {
    if i > 0 { UnionGroup(fields[1..], group, i - 1); }
  }

  lemma {:induction false} TailTyped(fs: seq<Field>, m: seq<Slot>, k: nat)
    requires TypedMsg(fs, m) && FitsMsg(fs, m) && k <= |fs|
    ensures TypedMsg(fs[..k], m[..k]) && FitsMsg(fs[..k], m[..k])
    ensures TypedMsg(fs[k..], m[k..]) && FitsMsg(fs[k..], m[k..])
  {
  }

  lemma {:induction false} EncMsgSplit(fs: seq<Field>, m: seq<Slot>, k: nat)
    requires |m| == |fs| && k <= |fs|
    ensures EncMsg(fs, m) == EncMsg(fs[..k], m[..k]) + EncMsg(fs[k..], m[k..])
    decreases k
  {
    hide EncSlot;
    if k > 0 {
      EncMsgSplit(fs[1..], m[1..], k - 1);
      assert fs[..k][1..] == fs[1..][..k - 1] && m[..k][1..] == m[1..][..k - 1];
      assert fs[k..] == fs[1..][k - 1..] && m[k..] == m[1..][k - 1..];
    } else {
      assert fs[0..] == fs && m[0..] == m;
    }
  }

  lemma {:induction false} ItemBound(item: GItem, group: nat, m: seq<Slot>)
    requires ItemOk(item) && DeclaredItem(item, m)
    requires TypedMsg(LowerItem(item, group), m) && FitsMsg(LowerItem(item, group), m)
    ensures |EncMsg(LowerItem(item, group), m)| <= ItemSize(item)
    decreases item, 4
  {
    match item
    case Plain(gf) =>
      var f := LowerField(gf, gf.rules);
      assert LowerItem(item, group)[0] == f && TypedSlot(f, m[0]) && FitsSlot(f, m[0]);
      if IsArray(f) {
        ArrayBound(gf, f, m[0].vs, gf.rules.arraySize);
      } else {
        SingleBound(gf, f, m[0]);
      }
      assert EncMsg([f], m) == EncSlot(f, m[0]);
    case Union(fields) => UnionBound(fields, group, m);
  }

  /** Every message that the encoder accepts is written in at most the number of
      bytes that the generator computed for its type. */
  lemma {:induction false} MessageBound(items: seq<GItem>, m: seq<Slot>)
    requires ItemsOk(items)
    requires TypedMsg(Lower(items), m) && FitsMsg(Lower(items), m) && DeclaredMsg(items, m)
    ensures |EncMsg(Lower(items), m)| <= MessageSize(items)
    decreases items, 5
  {
    if items != [] {
      var fs, k := Lower(items), Width(items[0]);
      var first := LowerItem(items[0], |items|);
      assert |first| == k && fs[..k] == first && fs[k..] == Lower(items[1..]);
      TailTyped(fs, m, k);
      ItemBound(items[0], |items|, m[..k]);
      MessageBound(items[1..], m[k..]);
      EncMsgSplit(fs, m, k);
    }
  }
}
