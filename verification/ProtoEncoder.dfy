/**
 The encoder on output streams.  A stream without a callback only counts bytes;
 submessages and packed varint arrays are first sized with such a stream and
 then written.
 */
module ProtoEncoder {
  import opened Varints
  import opened Proto
  import opened ProtoRoundTrip

  datatype EncodeError =
    | StreamFull
    | ArrayMaxSizeExceeded
    | BytesSizeExceeded
    | UnterminatedString
    | SubmsgSizeChanged

  datatype Status = Done | Failed(error: EncodeError)

  /** The byte-by-byte shifts of `pb_encode_fixed32` and `pb_encode_fixed64`. */
  method FixedBytes(i: nat, k: nat) returns (bytes: seq<byte>)
    ensures bytes == LittleEndian(i, k)
  {
    hide LittleEndian;
    bytes := [];
    var n: nat := i;
    for j := 0 to k
      invariant bytes + LittleEndian(n, k - j) == LittleEndian(i, k)
    {
      LittleEndianStep(n, k - j);
      bytes := bytes + [n % 256];
      n := n / 256;
    }
    LittleEndianStep(n, 0);
  }

  lemma {:induction false} LittleEndianStep(n: nat, k: nat)
    ensures k == 0 ==> LittleEndian(n, k) == []
    ensures k > 0 ==> LittleEndian(n, k) == [n % 256] + LittleEndian(n / 256, k - 1)
  {
  }

  class OStream {
    const writing: bool
    const maxSize: nat
    var bytesWritten: nat
    var buffer: seq<byte>

    /** PB_OSTREAM_SIZING */
    constructor Sizing()
      ensures !writing && bytesWritten == 0 && buffer == []
    {
      writing, maxSize, bytesWritten, buffer := false, 0, 0, [];
    }

    /** A stream of at most `limit` bytes that goes on where `start` ends. */
    constructor Onto(start: seq<byte>, limit: nat)
      ensures writing && maxSize == limit && bytesWritten == 0 && buffer == start
    {
      writing, maxSize, bytesWritten, buffer := true, limit, 0, start;
    }

    /** Whether `n` more bytes can be written. */
    predicate Room(n: nat)
      reads this
    {
      !writing || n == 0 || bytesWritten + n <= maxSize
    }

    /** The bytes `e` went out since the state `(bytes, start)`. */
    ghost predicate Emitted(bytes: nat, start: seq<byte>, e: seq<byte>)
      reads this
    {
      bytesWritten == bytes + |e| && buffer == (if writing then start + e else start)
    }

    /** `pb_write` */
    method Write(data: seq<byte>) returns (r: Status)
      modifies this
      ensures r == if old(Room(|data|)) then Done else Failed(StreamFull)
      ensures r.Done? ==> Emitted(old(bytesWritten), old(buffer), data)
    {
      if |data| > 0 && writing {
        if bytesWritten + |data| > maxSize {
          return Failed(StreamFull);
        }
        buffer := buffer + data;
      }
      bytesWritten := bytesWritten + |data|;
      return Done;
    }

    /** `pb_write(stream, NULL, size)` on a sizing stream. */
    method Count(size: nat)
      requires !writing
      modifies this`bytesWritten
      ensures bytesWritten == old(bytesWritten) + size
    {
      bytesWritten := bytesWritten + size;
    }

    /** `pb_encode_varint` */
    method WriteVarint(value: nat) returns (r: Status)
      requires value < TWO_64
      modifies this
      ensures r == if old(Room(|Varint(value)|)) then Done else Failed(StreamFull)
      ensures r.Done? ==> Emitted(old(bytesWritten), old(buffer), Varint(value))
    {
      var bytes := EncodeVarint(value);
      r := Write(bytes);
    }

    /** `pb_encode_tag` */
    method WriteTag(wireType: int, tag: nat) returns (r: Status)
      requires 0 <= wireType < 8 && tag < MAX_TAG
      modifies this
      ensures r == if old(Room(|Tag(wireType, tag)|)) then Done else Failed(StreamFull)
      ensures r.Done? ==> Emitted(old(bytesWritten), old(buffer), Tag(wireType, tag))
    {
      r := WriteVarint(tag * 8 + wireType);
    }

    /** `pb_encode_string` */
    method WriteString(data: seq<byte>) returns (r: Status)
      requires |data| < TWO_64
      modifies this
      ensures r == if old(Room(|Prefixed(data)|)) then Done else Failed(StreamFull)
      ensures r.Done? ==> Emitted(old(bytesWritten), old(buffer), Prefixed(data))
    {
      hide Varint;
      r := WriteVarint(|data|);
      if r.Done? {
        r := Write(data);
      }
    }

    /** `pb_enc_fixed` */
    method WriteFixed(lt: LType, i: int) returns (r: Status)
      requires (lt.LFixed32? && 0 <= i < TWO_32) || (lt.LFixed64? && 0 <= i < TWO_64)
      modifies this
      ensures r == if old(Room(|EncValue(lt, VInt(i))|)) then Done else Failed(StreamFull)
      ensures r.Done? ==> Emitted(old(bytesWritten), old(buffer), EncValue(lt, VInt(i)))
    {
      hide LittleEndian;
      var bytes := FixedBytes(i, if lt.LFixed32? then 4 else 8);
      r := Write(bytes);
    }

    /** `pb_enc_varint`, `pb_enc_bool` */
    method WriteInt(lt: LType, i: int) returns (r: Status)
      requires (lt.LBool? || lt.LVarint? || lt.LUvarint? || lt.LSvarint?) && LTypeOk(lt) && Typed(lt, VInt(i))
      modifies this
      ensures r == if old(Room(|EncValue(lt, VInt(i))|)) then Done else Failed(StreamFull)
      ensures r.Done? ==> Emitted(old(bytesWritten), old(buffer), EncValue(lt, VInt(i)))
    {
      hide Varint, ZigZag;
      if lt.LSvarint? {
        ZigZagRoundTrip(i);
        r := WriteVarint(ZigZag(i));
      } else {
        r := WriteVarint(i % TWO_64);
      }
    }
  }

  // ---------------------------------------------------------------------------
  // Values and fields

  /** `pb_enc_bytes`, `pb_enc_string`, `pb_enc_fixed_length_bytes` */
  method EncodeBytes(stream: OStream, lt: LType, bytes: seq<byte>) returns (r: Status)
    requires (lt.LBytes? || lt.LString? || lt.LFixedBytes?) && LTypeOk(lt) && Typed(lt, VBytes(bytes))
    modifies stream
    ensures r.Done? <==> Fits(lt, VBytes(bytes)) && old(stream.Room(|EncValue(lt, VBytes(bytes))|))
    ensures r.Done? ==> stream.Emitted(old(stream.bytesWritten), old(stream.buffer), EncValue(lt, VBytes(bytes)))
    ensures r != Failed(SubmsgSizeChanged)
  {
    hide Prefixed;
    if lt.LBytes? && |bytes| > lt.capacity {
      return Failed(BytesSizeExceeded);
    }
    if lt.LString? {
      // length of the string, looking no further than the buffer
      var size := 0;
      while size < lt.dataSize - 1 && size < |bytes|
        invariant 0 <= size <= |bytes| && size <= lt.dataSize - 1
      {
        size := size + 1;
      }
      if size < |bytes| {
        return Failed(UnterminatedString);
      }
    }
    r := stream.WriteString(bytes);
  }

  /** The field encoders that `encode_basic_field` dispatches to. */
  method EncodeValue(stream: OStream, lt: LType, v: Value) returns (r: Status)
    requires LTypeOk(lt) && Typed(lt, v) && |EncValue(lt, v)| < TWO_64
    modifies stream
    ensures r.Done? <==> Fits(lt, v) && old(stream.Room(|EncValue(lt, v)|))
    ensures r.Done? ==> stream.Emitted(old(stream.bytesWritten), old(stream.buffer), EncValue(lt, v))
    ensures r != Failed(SubmsgSizeChanged)
    decreases lt, 1
  {
    hide EncMsg, LittleEndian, Varint, ZigZag;
    if lt.LSubmsg? {
      r := EncodeSubmessage(stream, lt.fields, v.slots);
    } else if lt.LFixed32? || lt.LFixed64? {
      r := stream.WriteFixed(lt, v.i);
    } else if Packable(lt) {
      r := stream.WriteInt(lt, v.i);
    } else {
      r := EncodeBytes(stream, lt, v.bytes);
    }
  }

  /** `pb_encode_submessage`: size it, write the size, write it; the two passes
      always agree. */
  method EncodeSubmessage(stream: OStream, fs: seq<Field>, m: seq<Slot>) returns (r: Status)
    requires DescOk(fs) && TypedMsg(fs, m) && |Prefixed(EncMsg(fs, m))| < TWO_64
    modifies stream
    ensures r.Done? <==> FitsMsg(fs, m) && old(stream.Room(|Prefixed(EncMsg(fs, m))|))
    ensures r.Done? ==> stream.Emitted(old(stream.bytesWritten), old(stream.buffer), Prefixed(EncMsg(fs, m)))
    ensures r != Failed(SubmsgSizeChanged)
    decreases fs, 10
  {
    hide EncMsg, Varint, FitsMsg, TypedMsg, DescOk;
    ghost var body := EncMsg(fs, m);
    assert |Prefixed(body)| == |Varint(|body|)| + |body|;
    var sizing := new OStream.Sizing();
    r := EncodeMsg(sizing, fs, m);
    if r.Failed? {
      return;
    }
    var size := sizing.bytesWritten;
    r := stream.WriteVarint(size);
    if r.Failed? {
      return;
    }
    if !stream.writing {
      stream.Count(size);
      return;
    }
    if stream.bytesWritten + size > stream.maxSize {
      return Failed(StreamFull);
    }
    var substream := new OStream.Onto(stream.buffer, size);
    r := EncodeMsg(substream, fs, m);
    stream.bytesWritten := stream.bytesWritten + substream.bytesWritten;
    stream.buffer := substream.buffer;
    if substream.bytesWritten != size {
      return Failed(SubmsgSizeChanged);
    }
  }

  /** `encode_basic_field` */
  method EncodeBasicField(stream: OStream, f: Field, v: Value) returns (r: Status)
    requires FieldOk(f) && Typed(f.ltype, v) && |EncTagged(f, v)| < TWO_64
    modifies stream
    ensures r.Done? <==> Fits(f.ltype, v) && old(stream.Room(|EncTagged(f, v)|))
    ensures r.Done? ==> stream.Emitted(old(stream.bytesWritten), old(stream.buffer), EncTagged(f, v))
    ensures r != Failed(SubmsgSizeChanged)
    decreases f, 2
  {
    hide EncValue, Tag, Fits, Typed;
    r := stream.WriteTag(WireType(f.ltype), f.tag);
    if r.Done? {
      r := EncodeValue(stream, f.ltype, v);
    }
  }

  /** `pb_encode` */
  method EncodeMsg(stream: OStream, fs: seq<Field>, m: seq<Slot>) returns (r: Status)
    requires DescOk(fs) && TypedMsg(fs, m) && |EncMsg(fs, m)| < TWO_64
    modifies stream
    ensures r.Done? <==> FitsMsg(fs, m) && old(stream.Room(|EncMsg(fs, m)|))
    ensures r.Done? ==> stream.Emitted(old(stream.bytesWritten), old(stream.buffer), EncMsg(fs, m))
    ensures r != Failed(SubmsgSizeChanged)
    decreases fs, 9
  {
    hide EncSlot, FitsSlot, TypedSlot, FieldOk;
    r := Done;
    ghost var done: seq<byte> := [];
    for i := 0 to |fs|
      invariant stream.Emitted(old(stream.bytesWritten), old(stream.buffer), done)
      invariant old(stream.Room(|done|))
      invariant done + EncMsg(fs[i..], m[i..]) == EncMsg(fs, m)
      invariant forall j :: 0 <= j < i ==> FitsSlot(fs[j], m[j])
      invariant r.Done?
    {
      ghost var e := EncSlot(fs[i], m[i]);
      assert fs[i..][1..] == fs[i + 1..] && m[i..][1..] == m[i + 1..];
      r := EncodeField(stream, fs[i], m[i]);
      if r.Failed? {
        return;
      }
      done := done + e;
    }
    assert fs[|fs|..] == [];
  }

  /** `encode_field` */
  method EncodeField(stream: OStream, f: Field, slot: Slot) returns (r: Status)
    requires FieldOk(f) && TypedSlot(f, slot) && |EncSlot(f, slot)| < TWO_64
    modifies stream
    ensures r.Done? <==> FitsSlot(f, slot) && old(stream.Room(|EncSlot(f, slot)|))
    ensures r.Done? ==> stream.Emitted(old(stream.bytesWritten), old(stream.buffer), EncSlot(f, slot))
    ensures r != Failed(SubmsgSizeChanged)
    decreases f, 5
  {
    hide EncTagged, EncValues, EncEach, Fits, Typed;
    if slot.Absent? {
      return Done;
    }
    if f.htype == Singular(false) && DefaultValue(f.ltype, slot.v) {
      DefaultFits(f.ltype, slot.v);
      return Done;
    }
    if IsArray(f) {
      r := EncodeArray(stream, f, slot.vs);
    } else {
      r := EncodeBasicField(stream, f, slot.v);
    }
  }

  /** `encode_array`; the count of a fixed-count array is its size. */
  method EncodeArray(stream: OStream, f: Field, vs: seq<Value>) returns (r: Status)
    requires FieldOk(f) && IsArray(f) && TypedSlot(f, Many(vs)) && |EncSlot(f, Many(vs))| < TWO_64
    modifies stream
    ensures r.Done? <==> FitsSlot(f, Many(vs)) && old(stream.Room(|EncSlot(f, Many(vs))|))
    ensures r.Done? ==> stream.Emitted(old(stream.bytesWritten), old(stream.buffer), EncSlot(f, Many(vs)))
    ensures r != Failed(SubmsgSizeChanged)
    decreases f, 4
  {
    hide EncTagged, EncValues, EncEach, Fits, Typed;
    var count := if f.htype.FixArray? then f.htype.arraySize else |vs|;
    if count == 0 {
      return Done;
    }
    if count > f.htype.arraySize {
      return Failed(ArrayMaxSizeExceeded);
    }
    if Packable(f.ltype) {
      forall i | 0 <= i < |vs| ensures Fits(f.ltype, vs[i]) { ScalarFits(f.ltype, vs[i]); }
      r := EncodePacked(stream, f, vs);
    } else {
      r := EncodeUnpacked(stream, f, vs);
    }
  }

  method EncodeUnpacked(stream: OStream, f: Field, vs: seq<Value>) returns (r: Status)
    requires FieldOk(f) && |EncEach(f, vs)| < TWO_64
    requires forall i :: 0 <= i < |vs| ==> Typed(f.ltype, vs[i])
    modifies stream
    ensures r.Done? <==> (forall i :: 0 <= i < |vs| ==> Fits(f.ltype, vs[i])) && old(stream.Room(|EncEach(f, vs)|))
    ensures r.Done? ==> stream.Emitted(old(stream.bytesWritten), old(stream.buffer), EncEach(f, vs))
    ensures r != Failed(SubmsgSizeChanged)
    decreases f, 3
  {
    hide EncTagged, EncEach, Fits, Typed, FieldOk;
    r := Done;
    ghost var done: seq<byte> := [];
    assert vs[0..] == vs && [] + EncEach(f, vs) == EncEach(f, vs);
    for i := 0 to |vs|
      invariant stream.Emitted(old(stream.bytesWritten), old(stream.buffer), done)
      invariant old(stream.Room(|done|))
      invariant done + EncEach(f, vs[i..]) == EncEach(f, vs)
      invariant forall j :: 0 <= j < i ==> Fits(f.ltype, vs[j])
      invariant r.Done?
    {
      EachSplit(f, vs, i, done);
      r := EncodeBasicField(stream, f, vs[i]);
      if r.Failed? {
        return;
      }
      done := done + EncTagged(f, vs[i]);
    }
    EachSplit(f, vs, |vs|, done);
  }

  /** Moving one element from the elements to write to the bytes written. */
  lemma {:induction false} EachSplit(f: Field, vs: seq<Value>, i: nat, done: seq<byte>)
    requires i <= |vs|
    ensures i < |vs| ==>
              && done + EncEach(f, vs[i..]) == (done + EncTagged(f, vs[i])) + EncEach(f, vs[i + 1..])
              && |done| + |EncTagged(f, vs[i])| <= |done + EncEach(f, vs[i..])|
    ensures i == |vs| ==> done + EncEach(f, vs[i..]) == done
  {
    hide EncTagged;
    if i < |vs| { assert vs[i..][1..] == vs[i + 1..]; }
  }

  lemma {:induction false} ValuesSplit(lt: LType, vs: seq<Value>, i: nat, done: seq<byte>)
    requires i <= |vs|
    ensures i < |vs| ==>
              && done + EncValues(lt, vs[i..]) == (done + EncValue(lt, vs[i])) + EncValues(lt, vs[i + 1..])
              && |done| + |EncValue(lt, vs[i])| <= |done + EncValues(lt, vs[i..])|
    ensures i == |vs| ==> done + EncValues(lt, vs[i..]) == done
  {
    hide EncValue;
    if i < |vs| { assert vs[i..][1..] == vs[i + 1..]; }
  }

  method EncodePacked(stream: OStream, f: Field, vs: seq<Value>) returns (r: Status)
    requires FieldOk(f) && Packable(f.ltype) && |vs| <= PB_SIZE_MAX
    requires forall i :: 0 <= i < |vs| ==> Typed(f.ltype, vs[i])
    modifies stream
    ensures var e := Tag(WT_STRING, f.tag) + Prefixed(EncValues(f.ltype, vs));
            && r == (if old(stream.Room(|e|)) then Done else Failed(StreamFull))
            && (r.Done? ==> stream.Emitted(old(stream.bytesWritten), old(stream.buffer), e))
  {
    hide EncValues, Tag, Varint, Typed;
    ghost var body := EncValues(f.ltype, vs);
    PackedLength(f.ltype, vs);
    r := stream.WriteTag(WT_STRING, f.tag);
    if r.Failed? {
      return;
    }
    var size := PackedSize(f.ltype, vs);
    r := stream.WriteVarint(size);
    if r.Failed? {
      return;
    }
    if !stream.writing {
      stream.Count(size);
      return;
    }
    r := WritePacked(stream, f.ltype, vs);
  }

  /** The size of a packed array: a product for fixed widths, a sizing pass for
      varints. */
  method PackedSize(lt: LType, vs: seq<Value>) returns (size: nat)
    requires LTypeOk(lt) && Packable(lt) && forall i :: 0 <= i < |vs| ==> Typed(lt, vs[i])
    ensures size == |EncValues(lt, vs)|
  {
    if lt.LFixed32? || lt.LFixed64? {
      FixedLength(lt, vs);
      size := (if lt.LFixed32? then 4 else 8) * |vs|;
    } else {
      var sizing := new OStream.Sizing();
      var status := WritePacked(sizing, lt, vs);
      size := sizing.bytesWritten;
    }
  }

  method WritePacked(stream: OStream, lt: LType, vs: seq<Value>) returns (r: Status)
    requires LTypeOk(lt) && Packable(lt) && forall i :: 0 <= i < |vs| ==> Typed(lt, vs[i])
    modifies stream
    ensures r == if old(stream.Room(|EncValues(lt, vs)|)) then Done else Failed(StreamFull)
    ensures r.Done? ==> stream.Emitted(old(stream.bytesWritten), old(stream.buffer), EncValues(lt, vs))
  {
    hide EncValue, EncValues, Typed, LTypeOk;
    r := Done;
    ghost var done: seq<byte> := [];
    assert vs[0..] == vs && [] + EncValues(lt, vs) == EncValues(lt, vs);
    for i := 0 to |vs|
      invariant stream.Emitted(old(stream.bytesWritten), old(stream.buffer), done)
      invariant old(stream.Room(|done|))
      invariant done + EncValues(lt, vs[i..]) == EncValues(lt, vs)
      invariant r.Done?
    {
      ValuesSplit(lt, vs, i, done);
      r := WriteScalar(stream, lt, vs[i]);
      if r.Failed? {
        return;
      }
      done := done + EncValue(lt, vs[i]);
    }
    ValuesSplit(lt, vs, |vs|, done);
  }

  method WriteScalar(stream: OStream, lt: LType, v: Value) returns (r: Status)
    requires LTypeOk(lt) && Packable(lt) && Typed(lt, v)
    modifies stream
    ensures r == if old(stream.Room(|EncValue(lt, v)|)) then Done else Failed(StreamFull)
    ensures r.Done? ==> stream.Emitted(old(stream.bytesWritten), old(stream.buffer), EncValue(lt, v))
  {
    hide EncValue;
    if lt.LFixed32? || lt.LFixed64? {
      r := stream.WriteFixed(lt, v.i);
    } else {
      r := stream.WriteInt(lt, v.i);
    }
  }

  lemma {:induction false} ScalarFits(lt: LType, v: Value)
    requires Packable(lt) && Typed(lt, v)
    ensures Fits(lt, v)
  {
  }

  /** `pb_get_encoded_size`: the sizing pass alone reports exactly the number of
      bytes a writing pass produces. */
  method GetEncodedSize(fs: seq<Field>, m: seq<Slot>) returns (r: Status, size: nat)
    requires DescOk(fs) && TypedMsg(fs, m) && |EncMsg(fs, m)| < TWO_64
    ensures r.Done? <==> FitsMsg(fs, m)
    ensures r.Done? ==> size == |EncMsg(fs, m)|
    ensures r != Failed(SubmsgSizeChanged)
  {
    hide EncMsg, FitsMsg, TypedMsg, DescOk;
    var stream := new OStream.Sizing();
    r := EncodeMsg(stream, fs, m);
    size := stream.bytesWritten;
  }

  lemma {:induction false} FixedLength(lt: LType, vs: seq<Value>)
    requires lt.LFixed32? || lt.LFixed64?
    requires forall i :: 0 <= i < |vs| ==> Typed(lt, vs[i])
    ensures |EncValues(lt, vs)| == (if lt.LFixed32? then 4 else 8) * |vs|
    decreases |vs|
  {
    if vs != [] { FixedLength(lt, vs[1..]); }
  }

  /** A default value is within every capacity. */
  lemma {:induction false} DefaultFits(lt: LType, v: Value)
    requires LTypeOk(lt) && Typed(lt, v) && DefaultValue(lt, v)
    ensures Fits(lt, v)
    decreases lt, 1
  {
    if lt.LSubmsg? { DefaultMsgFits(lt.fields, v.slots); }
  }

  lemma {:induction false} DefaultSlotFits(f: Field, slot: Slot)
    requires FieldOk(f) && TypedSlot(f, slot) && DefaultSlot(f, slot)
    ensures FitsSlot(f, slot)
    decreases f, 2
  {
    if f.htype.Singular? { DefaultFits(f.ltype, slot.v); }
  }

  lemma {:induction false} DefaultMsgFits(fs: seq<Field>, m: seq<Slot>)
    requires |m| == |fs| && (forall i :: 0 <= i < |fs| ==> FieldOk(fs[i]) && TypedSlot(fs[i], m[i]))
    requires DefaultMsg(fs, m)
    ensures forall i :: 0 <= i < |fs| ==> FitsSlot(fs[i], m[i])
    decreases fs, 3
  {
    if fs != [] {
      DefaultSlotFits(fs[0], m[0]);
      assert forall i :: 0 <= i < |fs| - 1 ==> fs[1..][i] == fs[i + 1] && m[1..][i] == m[i + 1];
      DefaultMsgFits(fs[1..], m[1..]);
      assert forall i :: 0 < i < |fs| ==> fs[i] == fs[1..][i - 1] && m[i] == m[1..][i - 1];
    }
  }
}
