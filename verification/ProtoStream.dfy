/**
 Input streams: every reader consumes the bytes and returns the value that the
 corresponding function on byte sequences says.
 */
module ProtoStream {
  import opened Options
  import opened Varints
  import opened Proto
  import Words

  // ---------------------------------------------------------------------------
  // The 64-bit decoding loop

  /** `(uint64_t)x << 7k` for a group of seven bits. */
  function Shift64(x: nat, k: nat): nat
    requires x < 128
  {
    (x * Pow128(k)) % TWO_64
  }

  lemma {:induction false} SpelledSnoc(s: seq<byte>, b: byte)
    ensures Spelled(s + [b]) == Spelled(s) + (b % 128) * Pow128(|s|)
    ensures Spelled(s) < Pow128(|s|)
  {
    if s == [] {
      assert ([] + [b])[1..] == [];
    } else {
      var P := Pow128(|s| - 1);
      SpelledSnoc(s[1..], b);
      assert (s + [b])[1..] == s[1..] + [b] && Pow128(|s|) == 128 * P;
      Words.MulAssociative(b % 128, 128, P);
      Words.MulAssociative(128, b % 128, P);
      Words.MulDistributes(128, Spelled(s[1..]), (b % 128) * P);
    }
  }

  lemma {:induction false} GroupSnoc(s: seq<byte>, k: nat, limit: nat)
    requires k < |s| && k < limit && forall i :: 0 <= i < k ==> s[i] >= 128
    ensures s[k] < 128 ==> Group(s, limit) == Some(k + 1)
    decreases k
  {
    if k > 0 { GroupSnoc(s[1..], k - 1, limit - 1); }
  }

  lemma {:induction false} GroupNone(s: seq<byte>, limit: nat)
    requires forall i :: 0 <= i < |s| && i < limit ==> s[i] >= 128
    ensures Group(s, limit) == None
    decreases limit
  {
    if s != [] && limit > 0 { GroupNone(s[1..], limit - 1); }
  }

  lemma {:induction false} TopGroup(r: nat, x: nat)
    requires r < TWO_63 && x < 128
    ensures r + (x * TWO_63) % TWO_64 == (r + x * TWO_63) % TWO_64
  {
    var q, b := x / 2, x % 2;
    assert x * TWO_63 == TWO_64 * q + b * TWO_63;
    Words.DivModUnique(x * TWO_63, TWO_64, q, b * TWO_63);
    Words.DivModUnique(r + x * TWO_63, TWO_64, q, r + b * TWO_63);
  }

  /** Adding group k to the groups below it. */
  lemma {:induction false} AddGroup(done: seq<byte>, b: byte)
    requires |done| < 10
    ensures Spelled(done) + Shift64(b % 128, |done|) == Spelled(done + [b]) % TWO_64
    ensures |done| < 9 ==> Spelled(done + [b]) < TWO_64
  {
    hide Spelled, Pow128;
    var k, x := |done|, b % 128;
    SpelledSnoc(done, b);
    Pow128Values();
    if k < 9 {
      SpelledSnoc(done + [b], 0);
      Pow128Monotonic(k + 1, 9);
      SmallMod(Spelled(done + [b]));
      Words.MulNonNegative(x, Pow128(k));
      SmallMod(x * Pow128(k));
    } else {
      TopGroup(Spelled(done), x);
    }
  }

  lemma {:induction false} Pow128Values()
    ensures Pow128(9) == TWO_63
  {
    assert Pow128(3) == 0x20_0000;
    assert Pow128(6) == 0x400_0000_0000 by { assert Pow128(5) == 128 * Pow128(4) && Pow128(4) == 128 * Pow128(3); }
    assert Pow128(9) == 128 * Pow128(8) && Pow128(8) == 128 * Pow128(7) && Pow128(7) == 128 * Pow128(6);
  }

  lemma {:induction false} Pow128Monotonic(a: nat, b: nat)
    requires a <= b
    ensures Pow128(a) <= Pow128(b)
  {
    if a < b { Pow128Monotonic(a, b - 1); }
  }

  // ---------------------------------------------------------------------------
  // Streams

  /** What a reader returned and left on the stream is what a parser says. */
  ghost predicate Reads<T>(p: Option<Parsed<T>>, r: Option<T>, left: seq<byte>) {
    r.Some? == p.Some? && (p.Some? ==> r.value == p.value.value && left == p.value.rest)
  }

  /** The same for a varint. */
  ghost predicate ReadsVarint(d: Option<Decoded>, r: Option<nat>, left: seq<byte>) {
    r.Some? == d.Some? && (d.Some? ==> r.value == d.value.value && left == d.value.rest)
  }

  class IStream {
    /** The bytes that are left. */
    var data: seq<byte>

    constructor (bytes: seq<byte>)
      ensures data == bytes
    {
      data := bytes;
    }

    /** `pb_readbyte` */
    method ReadByte() returns (r: Option<byte>)
      modifies this
      ensures old(data) == [] ==> r == None && data == []
      ensures old(data) != [] ==> r == Some(old(data)[0]) && data == old(data)[1..]
    {
      if |data| == 0 {
        return None;
      }
      r := Some(data[0]);
      data := data[1..];
    }

    /** `pb_read` */
    method Read(n: nat) returns (r: Option<seq<byte>>)
      modifies this
      ensures Reads(Take(old(data), n), r, data)
    {
      if n == 0 {
        assert data[..0] == [] && data[0..] == data;
        return Some([]);
      }
      if |data| < n {
        return None;
      }
      r := Some(data[..n]);
      data := data[n..];
    }

    /** `pb_decode_varint` */
    method ReadVarint() returns (r: Option<nat>)
      modifies this
      ensures ReadsVarint(DecodeVarint(old(data)), r, data)
    {
      hide Group, Spelled, Pow128, Shift64;
      ghost var s := data;
      ghost var done: seq<byte> := [];
      var bitpos, k, result := 0, 0, 0;
      SpelledEmpty();
      while true
        invariant 0 <= k <= 10 && bitpos == 7 * k && |done| == k <= |s|
        invariant done == s[..k] && data == s[k..]
        invariant forall i :: 0 <= i < k ==> s[i] >= 128
        invariant k < 10 ==> result == Spelled(done)
        decreases |data|
      {
        if bitpos >= 64 {
          GroupNone(s, 10);
          return None;
        }
        var read := ReadByte();
        if read == None {
          GroupNone(s, 10);
          return None;
        }
        var b := read.value;
        AddGroup(done, b);
        result := result + Shift64(b % 128, k);
        bitpos := bitpos + 7;
        done := done + [b];
        assert done == s[..k + 1];
        if b < 128 {
          GroupSnoc(s, k, 10);
          return Some(result);
        }
        k := k + 1;
        if k < 10 { SmallMod(Spelled(done)); }
      }
    }

    /** `pb_decode_varint32` */
    method ReadVarint32() returns (r: Option<nat>)
      modifies this
      ensures ReadsVarint(DecodeVarint32(old(data)), r, data)
    {
      var first := ReadByte();
      if first == None {
        return None;
      }
      if first.value < 128 {
        return Some(first.value);
      }
      var bitpos, k, result := 7, 1, first.value % 128;
      ghost var target := Decode32From(data, 1, result);
      while true
        invariant bitpos == 7 * k && 1 <= k && 0 <= result
        invariant Decode32From(data, k, result) == target
        decreases |data|
      {
        var read := ReadByte();
        if read == None {
          return None;
        }
        var b := read.value;
        if bitpos >= 32 {
          var signExtension := if bitpos < 63 then 0xFF else 0x01;
          var validExtension := b % 128 == 0 || (result >= 0x8000_0000 && b == signExtension);
          if bitpos >= 64 || !validExtension {
            return None;
          }
        } else {
          result := result + Shift32(b % 128, k);
        }
        bitpos, k := bitpos + 7, k + 1;
        if b < 128 {
          if bitpos == 35 && (b / 16) % 8 != 0 {
            return None;
          }
          return Some(result);
        }
      }
    }

    /** `pb_make_string_substream` */
    method MakeSubstream() returns (r: Option<seq<byte>>)
      modifies this
      ensures Reads(TakePrefixed(old(data)), r, data)
    {
      hide DecodeVarint32;
      var size := ReadVarint32();
      if size == None {
        return None;
      }
      if |data| < size.value {
        return None;
      }
      r := Some(data[..size.value]);
      data := data[size.value..];
    }

    /** `pb_skip_varint` */
    method SkipVarintBytes() returns (ok: bool)
      modifies this
      ensures var t := SkipVarint(old(data));
              ok == t.Some? && (ok ==> data == t.value)
    {
      ghost var target := SkipVarint(data);
      while true
        invariant SkipVarint(data) == target
        decreases |data|
      {
        var b := ReadByte();
        if b == None {
          return false;
        }
        if b.value < 128 {
          return true;
        }
      }
    }

    /** `pb_skip_field` */
    method SkipField(wireType: int) returns (ok: bool)
      modifies this
      ensures var t := Skip(wireType, old(data));
              ok == t.Some? && (ok ==> data == t.value)
    {
      hide TakePrefixed, SkipVarint;
      if wireType == WT_VARINT {
        ok := SkipVarintBytes();
      } else if wireType == WT_64BIT {
        var r := Read(8);
        ok := r.Some?;
      } else if wireType == WT_STRING {
        var r := MakeSubstream();
        ok := r.Some?;
      } else if wireType == WT_32BIT {
        var r := Read(4);
        ok := r.Some?;
      } else {
        ok := false;
      }
    }

    /** `pb_decode_fixed32` and `pb_decode_fixed64` */
    method ReadFixed(k: nat) returns (r: Option<Value>)
      requires k == 4 || k == 8
      modifies this
      ensures Reads(DecFixed(old(data), k), r, data)
    {
      var read := Read(k);
      if read == None {
        return None;
      }
      var b: seq<int> := read.value;
      Assemble(read.value);
      var low := b[0] + b[1] * 0x100 + b[2] * 0x1_0000 + b[3] * 0x100_0000;
      if k == 4 {
        return Some(VInt(low));
      }
      Assemble(read.value[4..]);
      var high := b[4] + b[5] * 0x100 + b[6] * 0x1_0000 + b[7] * 0x100_0000;
      return Some(VInt(low + high * 0x1_0000_0000));
    }

    /** `pb_dec_bool` and `pb_dec_varint`: casts to the field's size must not
        change the number. */
    method ReadInt(lt: LType) returns (r: Option<Value>)
      requires lt.LBool? || lt.LUvarint? || lt.LVarint? || lt.LSvarint?
      requires !lt.LBool? ==> IntSize(lt.size)
      modifies this
      ensures Reads(DecInt(lt, old(data)), r, data)
    {
      hide DecodeVarint, DecodeVarint32;
      if lt.LBool? {
        var small := ReadVarint32();
        return if small == None then None else Some(VInt(if small.value != 0 then 1 else 0));
      }
      var read := ReadVarint();
      if read == None {
        return None;
      }
      var value := read.value;
      if lt.LUvarint? {
        var clamped := value % Bound(lt.size);
        CastKeeps(value, lt.size);
        return if clamped != value then None else Some(VInt(value));
      }
      var svalue;
      if lt.LSvarint? {
        svalue := UnZigZag(value);
      } else {
        svalue := if lt.size == 8 then Signed64(value) else Signed32(value % TWO_32);
      }
      var clamped := CastSigned(svalue, lt.size);
      CastSignedKeeps(svalue, lt.size);
      return if clamped != svalue then None else Some(VInt(svalue));
    }

    /** `pb_dec_bytes`, `pb_dec_string`, `pb_dec_fixed_length_bytes` */
    method ReadBytes(lt: LType) returns (r: Option<Value>)
      requires lt.LBytes? || lt.LString? || lt.LFixedBytes?
      modifies this
      ensures Reads(DecBytes(lt, old(data)), r, data)
    {
      hide DecodeVarint32, UpToNul;
      var length := ReadVarint32();
      if length == None {
        return None;
      }
      var size := length.value;
      if lt.LString? {
        if size == TWO_32 - 1 || size + 1 > lt.dataSize {
          return None;
        }
        var text := Read(size);
        return if text == None then None else Some(VBytes(UpToNul(text.value)));
      }
      if size > PB_SIZE_MAX {
        return None;
      }
      if lt.LBytes? {
        if size > lt.capacity {
          return None;
        }
      } else {
        if size == 0 {
          return Some(VBytes(Zeros(lt.length)));
        }
        if size != lt.length {
          return None;
        }
      }
      var bytes := Read(size);
      return if bytes == None then None else Some(VBytes(bytes.value));
    }
  }

  lemma {:induction false} Assemble(b: seq<byte>)
    requires |b| >= 4
    ensures FromLittleEndian(b) ==
            b[0] + b[1] * 0x100 + b[2] * 0x1_0000 + b[3] * 0x100_0000 + 0x1_0000_0000 * FromLittleEndian(b[4..])
  {
    assert b[1..][1..] == b[2..] && b[2..][1..] == b[3..] && b[3..][1..] == b[4..];
    assert FromLittleEndian(b[1..]) == b[1] + 256 * FromLittleEndian(b[2..]);
    assert FromLittleEndian(b[2..]) == b[2] + 256 * FromLittleEndian(b[3..]);
    assert FromLittleEndian(b[3..]) == b[3] + 256 * FromLittleEndian(b[4..]);
  }

  /** A cast to a signed integer of `size` bytes. */
  function CastSigned(i: int, size: nat): int {
    var u := i % Bound(size);
    if u < Bound(size) / 2 then u else u - Bound(size)
  }

  lemma {:induction false} CastKeeps(n: nat, size: nat)
    requires IntSize(size)
    ensures n % Bound(size) == n <==> n < Bound(size)
  {
  }

  lemma {:induction false} CastSignedKeeps(i: int, size: nat)
    requires IntSize(size)
    ensures CastSigned(i, size) == i <==> InSigned(i, size)
  {
    if InSigned(i, size) && i < 0 {
      assert i % Bound(size) == i + Bound(size);
    }
  }

  lemma {:induction false} SpelledEmpty()
    ensures Spelled([]) == 0
  {
  }

  lemma {:induction false} SmallMod(x: nat)
    ensures x < TWO_64 ==> x % TWO_64 == x
  {
  }
}
