/**
 What any bytes mean to the decoder: which it accepts, and what every field then
 holds, in terms of the records that the bytes are made of.
 */
module ProtoMeaning {
  import opened Options
  import opened Varints
  import opened Proto
  import opened ProtoRoundTrip
  import opened ProtoSafety

  // ---------------------------------------------------------------------------
  // Records

  /** A record: its tag, its wire type, and the bytes from its value on. */
  datatype Rec = Rec(tag: nat, wireType: nat, data: seq<byte>)

  /** The records of a byte string, found by skipping from one to the next. */
  function Records(s: seq<byte>): Option<seq<Rec>>
    decreases |s|
  {
    if s == [] then Some([])
    else
      var d := DecodeVarint32(s);
      if d == None || d.value.value / 8 == 0 then None
      else
        var next := Skip(d.value.value % 8, d.value.rest);
        if next == None then None
        else
          var recs := Records(next.value);
          if recs == None then None
          else Some([Rec(d.value.value / 8, d.value.value % 8, d.value.rest)] + recs.value)
  }

  /** Where the search stands after a record. */
  function At(fs: seq<Field>, at: nat, r: Rec): nat {
    var i := Locate(fs, at, r.tag);
    if i == None then at else i.value
  }

  /** The records that the search assigns to field k, in order. */
  function Own(fs: seq<Field>, at: nat, recs: seq<Rec>, k: nat): seq<Rec>
    decreases |recs|
  {
    if recs == [] then []
    else (if Locate(fs, at, recs[0].tag) == Some(k) then [recs[0]] else []) + Own(fs, At(fs, at, recs[0]), recs[1..], k)
  }

  /** All records with a tag. */
  function WithTag(recs: seq<Rec>, tag: nat): seq<Rec> {
    if recs == [] then [] else (if recs[0].tag == tag then [recs[0]] else []) + WithTag(recs[1..], tag)
  }

  /** With tags in order, a field's records are those with its tag. */
  lemma {:induction false} OwnByTag(fs: seq<Field>, at: nat, recs: seq<Rec>, k: nat)
    requires TagsIncrease(fs) && at < |fs| && k < |fs|
    ensures Own(fs, at, recs, k) == WithTag(recs, fs[k].tag)
    decreases |recs|
  {
    hide Locate, FirstTag;
    if recs != [] {
      LocateIsFirstTag(fs, at, recs[0].tag);
      OwnByTag(fs, At(fs, at, recs[0]), recs[1..], k);
    }
  }

  // ---------------------------------------------------------------------------
  // Values

  /** All values that packed bytes hold, one after the other. */
  function AllValues(lt: LType, s: seq<byte>): Option<seq<Value>>
    decreases |s|
  {
    if s == [] then Some([])
    else
      var p := DecValue(lt, VInt(0), s);
      if p == None then None
      else
        var rest := AllValues(lt, p.value.rest);
        if rest == None then None else Some([p.value.value] + rest.value)
  }

  /** The values that a record brings to an array: those of a packed record, or one. */
  function RecValues(f: Field, r: Rec): Option<seq<Value>> {
    if r.wireType == WT_STRING && Packable(f.ltype) then
      var t := TakePrefixed(r.data);
      if t == None then None else AllValues(f.ltype, t.value.value)
    else if r.wireType != WireType(f.ltype) then None
    else
      var p := DecValue(f.ltype, ZeroValue(f.ltype), r.data);
      if p == None then None else Some([p.value.value])
  }

  /** The values of several records, in order. */
  function Values(f: Field, recs: seq<Rec>): Option<seq<Value>> {
    if recs == [] then Some([])
    else
      var a, b := RecValues(f, recs[0]), Values(f, recs[1..]);
      if a == None || b == None then None else Some(a.value + b.value)
  }

  /** A value that several records are read into, one after the other. */
  function Merged(lt: LType, v: Value, recs: seq<Rec>): Option<Value>
    decreases |recs|
  {
    if recs == [] then Some(v)
    else if recs[0].wireType != WireType(lt) then None
    else
      var p := DecValue(lt, v, recs[0].data);
      if p == None then None else Merged(lt, p.value.value, recs[1..])
  }

  /** Only submessages are merged: of any other type the last record counts. */
  lemma {:induction false} LastWins(lt: LType, v: Value, recs: seq<Rec>)
    requires !lt.LSubmsg? && recs != [] && Merged(lt, v, recs).Some?
    ensures var p := DecValue(lt, VInt(0), recs[|recs| - 1].data);
            p.Some? && Merged(lt, v, recs) == Some(p.value.value)
    decreases |recs|
  {
    hide DecValue;
    SameForAll(lt, v, recs[0].data);
    if |recs| > 1 {
      LastWins(lt, DecValue(lt, v, recs[0].data).value.value, recs[1..]);
    } else {
      assert recs[1..] == [];
    }
  }

  lemma {:induction false} SameForAll(lt: LType, v: Value, s: seq<byte>)
    requires !lt.LSubmsg?
    ensures DecValue(lt, v, s) == DecValue(lt, VInt(0), s)
  {
  }

  /** A packed array of no more values than there is room for. */
  lemma {:induction false} PackedIs(lt: LType, room: nat, s: seq<byte>)
    requires Packable(lt)
    ensures DecPacked(lt, room, s) ==
            (if AllValues(lt, s).Some? && |AllValues(lt, s).value| <= room then AllValues(lt, s) else None)
    decreases |s|
  {
    hide DecValue;
    if s != [] {
      var p := DecValue(lt, VInt(0), s);
      if p.Some? && room > 0 { PackedIs(lt, room - 1, p.value.rest); }
    }
  }

  // ---------------------------------------------------------------------------
  // The decoding loop over records

  function Play(fs: seq<Field>, m: seq<Slot>, c: Cursor, recs: seq<Rec>): (r: Option<seq<Slot>>)
    requires |m| == |fs|
    ensures r.Some? ==> |r.value| == |fs|
    decreases |recs|
  {
    if recs == [] then
      if Complete(fs, c) && RequiredSeen(fs, c.seen) then Some(m) else None
    else
      var i := Locate(fs, c.at, recs[0].tag);
      if i == None then Play(fs, m, c, recs[1..])
      else
        var next := PlayOne(fs, m, c, i.value, recs[0]);
        if next == None then None else Play(fs, next.value.0, next.value.1, recs[1..])
  }

  /** One record for field i. */
  function PlayOne(fs: seq<Field>, m: seq<Slot>, c: Cursor, i: nat, r: Rec): (n: Option<(seq<Slot>, Cursor)>)
    requires i < |fs| == |m|
    ensures n.Some? ==> |n.value.0| == |fs|
  {
    var here := Enter(fs, c, i);
    if here == None then None
    else
      var p := DecSlot(fs[i], m[i], CountAt(fs[i], m[i], here.value), r.wireType, r.data);
      if p == None then None
      else Some((Store(fs, m, i, p.value.value.slot), Leave(fs[i], here.value, p.value.value.count)))
  }

  lemma {:induction false} DecFieldsIsPlay(fs: seq<Field>, m: seq<Slot>, c: Cursor, s: seq<byte>)
    requires |m| == |fs|
    ensures DecFields(fs, m, c, s) == if Records(s) == None then None else Play(fs, m, c, Records(s).value)
    decreases |s|
  {
    hide DecodeVarint32, DecSlot, Locate, Skip, Store, RequiredSeen, Enter, Leave, Complete;
    if s != [] {
      var d := DecodeVarint32(s);
      if Records(s).Some? { FirstRecord(s); }
      if d.Some? && d.value.value / 8 != 0 {
        var tag, wireType, rest := d.value.value / 8, d.value.value % 8, d.value.rest;
        var next, i := Skip(wireType, rest), Locate(fs, c.at, tag);
        if i == None {
          if next.Some? { DecFieldsIsPlay(fs, m, c, next.value); }
        } else if Enter(fs, c, i.value).Some? {
          var here, k := Enter(fs, c, i.value).value, i.value;
          var p := DecSlot(fs[k], m[k], CountAt(fs[k], m[k], here), wireType, rest);
          if p.Some? {
            SlotAsSkip(fs[k], m[k], CountAt(fs[k], m[k], here), wireType, rest);
            var filled := p.value.value;
            DecFieldsIsPlay(fs, Store(fs, m, k, filled.slot), Leave(fs[k], here, filled.count), p.value.rest);
          }
        }
      }
    }
  }

  lemma {:induction false} FirstRecord(s: seq<byte>)
    requires s != [] && Records(s).Some?
    ensures var d := DecodeVarint32(s);
            && d.Some? && d.value.value / 8 != 0 && Skip(d.value.value % 8, d.value.rest).Some?
            && Records(s).value != []
            && Records(s).value[0] == Rec(d.value.value / 8, d.value.value % 8, d.value.rest)
            && Records(Skip(d.value.value % 8, d.value.rest).value) == Some(Records(s).value[1..])
  {
    hide DecodeVarint32, Skip;
  }

  // ---------------------------------------------------------------------------
  // One record

  /** Arrays hold no more than they have room for; fixed-count ones exactly that. */
  ghost predicate ShapedSlot(f: Field, slot: Slot) {
    && (f.htype.Repeated? ==> slot.Many? && |slot.vs| <= f.htype.arraySize)
    && (f.htype.FixArray? ==> slot.Many? && |slot.vs| == f.htype.arraySize)
  }

  ghost predicate Shaped(fs: seq<Field>, m: seq<Slot>) {
    |m| == |fs| && forall k :: 0 <= k < |fs| ==> ShapedSlot(fs[k], m[k])
  }

  predicate ReadableOne(f: Field, r: Rec) {
    r.wireType == WireType(f.ltype) && DecValue(f.ltype, ZeroValue(f.ltype), r.data).Some?
  }

  lemma {:induction false} Moves(fs: seq<Field>, m: seq<Slot>, c: Cursor, i: nat, r: Rec)
    requires i < |fs| == |m| && Locate(fs, c.at, r.tag) == Some(i) && PlayOne(fs, m, c, i, r).Some?
    ensures var (m', c') := PlayOne(fs, m, c, i, r).value;
            && c'.at == At(fs, c.at, r) && c'.seen == c.seen + {i}
            && (!fs[i].htype.FixArray? ==> c'.fixed == c.fixed && c'.count == c.count)
            && (forall k :: 0 <= k < |fs| && k != i ==> m'[k] == if SameOneOf(fs[i], fs[k]) then Absent else m[k])
  {
    hide DecSlot, Locate, CountAt;
  }

  /** A record for a counted array appends its values. */
  lemma {:induction false} OneRepeated(fs: seq<Field>, m: seq<Slot>, c: Cursor, i: nat, r: Rec)
    requires i < |fs| == |m| && fs[i].htype.Repeated? && ShapedSlot(fs[i], m[i])
    ensures var vs := RecValues(fs[i], r);
            && (PlayOne(fs, m, c, i, r).Some? <==> vs.Some? && |m[i].vs| + |vs.value| <= fs[i].htype.arraySize)
            && (PlayOne(fs, m, c, i, r).Some? ==> PlayOne(fs, m, c, i, r).value.0[i] == Many(m[i].vs + vs.value))
  {
    hide DecValue, DecPacked, AllValues, TakePrefixed;
    var f, n := fs[i], |m[i].vs|;
    if r.wireType == WT_STRING && Packable(f.ltype) {
      var t := TakePrefixed(r.data);
      if t.Some? { PackedIs(f.ltype, f.htype.arraySize - n, t.value.value); }
    }
  }

  /** A record for a field that is not an array is read into what is there. */
  lemma {:induction false} OneSingle(fs: seq<Field>, m: seq<Slot>, c: Cursor, i: nat, r: Rec)
    requires i < |fs| == |m| && !IsArray(fs[i])
    ensures var p := DecValue(fs[i].ltype, InitOf(fs[i], m[i]), r.data);
            && (PlayOne(fs, m, c, i, r).Some? <==> r.wireType == WireType(fs[i].ltype) && p.Some?)
            && (PlayOne(fs, m, c, i, r).Some? ==> PlayOne(fs, m, c, i, r).value.0[i] == Single(p.value.value))
  {
    hide DecValue;
  }

  /** A record for a fixed-count array goes on with it, or starts it anew. */
  lemma {:induction false} OneFixed(fs: seq<Field>, m: seq<Slot>, c: Cursor, i: nat, r: Rec)
    requires i < |fs| == |m| && fs[i].htype.FixArray? && ShapedSlot(fs[i], m[i])
    requires c.fixed == Some(i) ==> c.count <= fs[i].htype.arraySize
    ensures var vs, from := RecValues(fs[i], r), if c.fixed == Some(i) then c.count else 0;
            && (PlayOne(fs, m, c, i, r).Some? <==>
                (c.fixed == Some(i) || Complete(fs, c)) && vs.Some? && from + |vs.value| <= fs[i].htype.arraySize)
            && (PlayOne(fs, m, c, i, r).Some? ==>
                  && PlayOne(fs, m, c, i, r).value.1.fixed == Some(i)
                  && PlayOne(fs, m, c, i, r).value.1.count == from + |vs.value|
                  && PlayOne(fs, m, c, i, r).value.0[i]
                     == Many(m[i].vs[..from] + vs.value + m[i].vs[from + |vs.value|..]))
  {
    hide DecValue, DecPacked, AllValues, TakePrefixed;
    var f, from := fs[i], if c.fixed == Some(i) then c.count else 0;
    if r.wireType == WT_STRING && Packable(f.ltype) {
      var t := TakePrefixed(r.data);
      if t.Some? { PackedIs(f.ltype, f.htype.arraySize - from, t.value.value); }
    }
  }

  lemma {:induction false} StillShaped(fs: seq<Field>, m: seq<Slot>, c: Cursor, i: nat, r: Rec)
    requires Shaped(fs, m) && i < |fs| && Locate(fs, c.at, r.tag) == Some(i) && PlayOne(fs, m, c, i, r).Some?
    requires c.fixed == Some(i) && fs[i].htype.FixArray? ==> c.count <= fs[i].htype.arraySize
    ensures Shaped(fs, PlayOne(fs, m, c, i, r).value.0)
  {
    hide PlayOne, RecValues, Locate;
    Moves(fs, m, c, i, r);
    if fs[i].htype.Repeated? {
      OneRepeated(fs, m, c, i, r);
    } else if fs[i].htype.FixArray? {
      OneFixed(fs, m, c, i, r);
    }
    var m' := PlayOne(fs, m, c, i, r).value.0;
    forall k | 0 <= k < |fs| ensures ShapedSlot(fs[k], m'[k]) { assert ShapedSlot(fs[k], m[k]); }
  }

  // ---------------------------------------------------------------------------
  // Acceptance

  /** What one field asks of its records. */
  ghost predicate FieldFits(f: Field, slot: Slot, own: seq<Rec>) {
    match f.htype
    case Repeated(n) => slot.Many? && Values(f, own).Some? && |slot.vs| + |Values(f, own).value| <= n
    case FixArray(_) => true
    case OneOf(_) => forall i :: 0 <= i < |own| ==> ReadableOne(f, own[i])
    case _ => Merged(f.ltype, InitOf(f, slot), own).Some?
  }

  /** The records of fixed-count arrays come in complete runs: each array gets exactly
      its number of values before the next one starts. */
  ghost predicate RunsComplete(fs: seq<Field>, at: nat, recs: seq<Rec>, open: Option<nat>, count: nat)
    decreases |recs|
  {
    if recs == [] then Complete(fs, Cursor(0, {}, open, count))
    else
      var i, next := Locate(fs, at, recs[0].tag), At(fs, at, recs[0]);
      if i == None || !fs[i.value].htype.FixArray? then RunsComplete(fs, next, recs[1..], open, count)
      else
        var vs, from := RecValues(fs[i.value], recs[0]), if open == i then count else 0;
        && (open == i || Complete(fs, Cursor(0, {}, open, count)))
        && vs.Some? && from + |vs.value| <= fs[i.value].htype.arraySize
        && RunsComplete(fs, next, recs[1..], i, from + |vs.value|)
  }

  function Owners(fs: seq<Field>, at: nat, recs: seq<Rec>): set<nat>
    decreases |recs|
  {
    if recs == [] then {}
    else
      var i := Locate(fs, at, recs[0].tag);
      (if i == None then {} else {i.value}) + Owners(fs, At(fs, at, recs[0]), recs[1..])
  }

  /** Every field can take its records, fixed-count arrays come in complete runs, and
      every tracked required field has a record. */
  ghost predicate Acceptable(fs: seq<Field>, m: seq<Slot>, c: Cursor, recs: seq<Rec>)
    requires |m| == |fs|
  {
    && (forall k :: 0 <= k < |fs| ==> FieldFits(fs[k], m[k], Own(fs, c.at, recs, k)))
    && RunsComplete(fs, c.at, recs, c.fixed, c.count)
    && RequiredSeen(fs, c.seen + Owners(fs, c.at, recs))
  }

  lemma {:induction false} FieldFitsFirst(fs: seq<Field>, m: seq<Slot>, c: Cursor, i: nat, r: Rec, own: seq<Rec>)
    requires i < |fs| == |m| && ShapedSlot(fs[i], m[i]) && !fs[i].htype.FixArray?
    ensures FieldFits(fs[i], m[i], [r] + own) <==>
            PlayOne(fs, m, c, i, r).Some? && FieldFits(fs[i], PlayOne(fs, m, c, i, r).value.0[i], own)
  {
    hide DecValue, RecValues, PlayOne;
    var f := fs[i];
    assert ([r] + own)[0] == r && ([r] + own)[1..] == own;
    if f.htype.Repeated? {
      OneRepeated(fs, m, c, i, r);
    } else {
      OneSingle(fs, m, c, i, r);
      if f.htype.OneOf? {
        assert FieldFits(f, m[i], [r] + own) <==> ReadableOne(f, r) && FieldFits(f, m[i], own) by {
          assert forall j :: 0 <= j < |own| ==> ([r] + own)[j + 1] == own[j];
        }
      }
    }
  }

  lemma {:induction false} OwnFirst(fs: seq<Field>, at: nat, r: Rec, recs: seq<Rec>, k: nat)
    ensures Own(fs, at, [r] + recs, k)
         == (if Locate(fs, at, r.tag) == Some(k) then [r] else []) + Own(fs, At(fs, at, r), recs, k)
  {
    hide Locate;
    assert ([r] + recs)[1..] == recs;
  }

  /** The fields' demands, before and after the first record. */
  lemma {:induction false} FitsStep(fs: seq<Field>, m: seq<Slot>, c: Cursor, i: nat, r: Rec, recs: seq<Rec>)
    requires Shaped(fs, m) && i < |fs| && Locate(fs, c.at, r.tag) == Some(i) && PlayOne(fs, m, c, i, r).Some?
    ensures var m' := PlayOne(fs, m, c, i, r).value.0;
            (forall k :: 0 <= k < |fs| ==> FieldFits(fs[k], m[k], Own(fs, c.at, [r] + recs, k))) <==>
            (forall k :: 0 <= k < |fs| ==> FieldFits(fs[k], m'[k], Own(fs, At(fs, c.at, r), recs, k)))
  {
    hide PlayOne, Own, Locate;
    var m', at := PlayOne(fs, m, c, i, r).value.0, At(fs, c.at, r);
    forall k | 0 <= k < |fs|
      ensures FieldFits(fs[k], m[k], Own(fs, c.at, [r] + recs, k)) <==> FieldFits(fs[k], m'[k], Own(fs, at, recs, k))
    {
      OwnFirst(fs, c.at, r, recs, k);
      Moves(fs, m, c, i, r);
      if k == i {
        if fs[i].htype.FixArray? { } else { FieldFitsFirst(fs, m, c, i, r, Own(fs, at, recs, i)); }
      } else {
        assert [] + Own(fs, at, recs, k) == Own(fs, at, recs, k);
        OneOfIgnoresSlot(fs[k], m[k], m'[k], Own(fs, at, recs, k));
      }
    }
  }

  lemma {:induction false} OneOfIgnoresSlot(f: Field, a: Slot, b: Slot, own: seq<Rec>)
    ensures f.htype.OneOf? ==> (FieldFits(f, a, own) <==> FieldFits(f, b, own))
  {
  }

  /** The loop accepts the records exactly when every field can take its own. */
  lemma {:induction false} PlayAccepts(fs: seq<Field>, m: seq<Slot>, c: Cursor, recs: seq<Rec>)
    requires Shaped(fs, m) && InRange(fs, c)
    ensures Play(fs, m, c, recs).Some? <==> Acceptable(fs, m, c, recs)
    decreases |recs|
  {
    hide PlayOne, Locate, FieldFits, RecValues, RequiredSeen, Complete;
    if recs == [] {
      NoRecords(fs, m, c);
    } else {
      var r, rest := recs[0], recs[1..];
      assert recs == [r] + rest;
      var i := Locate(fs, c.at, r.tag);
      if i == None {
        PlayAccepts(fs, m, c, rest);
        PassedOver(fs, m, c, r, rest);
      } else {
        TakenUp(fs, m, c, i.value, r, rest);
        if PlayOne(fs, m, c, i.value, r).Some? {
          var (m', c') := PlayOne(fs, m, c, i.value, r).value;
          StillShaped(fs, m, c, i.value, r);
          StillInRange(fs, m, c, i.value, r);
          PlayAccepts(fs, m', c', rest);
        }
      }
    }
  }

  /** The open array has no more than its elements. */
  ghost predicate InRange(fs: seq<Field>, c: Cursor) {
    c.fixed.Some? && c.fixed.value < |fs| && fs[c.fixed.value].htype.FixArray? ==>
      c.count <= fs[c.fixed.value].htype.arraySize
  }

  lemma {:induction false} StillInRange(fs: seq<Field>, m: seq<Slot>, c: Cursor, i: nat, r: Rec)
    requires Shaped(fs, m) && InRange(fs, c) && i < |fs| && Locate(fs, c.at, r.tag) == Some(i)
    requires PlayOne(fs, m, c, i, r).Some?
    ensures InRange(fs, PlayOne(fs, m, c, i, r).value.1)
  {
    hide PlayOne, Locate, RecValues;
    Moves(fs, m, c, i, r);
    if fs[i].htype.FixArray? { OneFixed(fs, m, c, i, r); }
  }

  lemma {:induction false} NoRecords(fs: seq<Field>, m: seq<Slot>, c: Cursor)
    requires Shaped(fs, m)
    ensures Play(fs, m, c, []).Some? <==> Acceptable(fs, m, c, [])
  {
    assert c.seen + {} == c.seen;
    forall k | 0 <= k < |fs| ensures FieldFits(fs[k], m[k], []) { assert ShapedSlot(fs[k], m[k]); }
  }

  lemma {:induction false} PassedOver(fs: seq<Field>, m: seq<Slot>, c: Cursor, r: Rec, recs: seq<Rec>)
    requires |m| == |fs| && Locate(fs, c.at, r.tag) == None
    ensures Acceptable(fs, m, c, [r] + recs) <==> Acceptable(fs, m, c, recs)
  {
    hide Locate, FieldFits, RequiredSeen, Complete, RecValues;
    assert ([r] + recs)[1..] == recs && {} + Owners(fs, c.at, recs) == Owners(fs, c.at, recs);
    forall k | 0 <= k < |fs| ensures Own(fs, c.at, [r] + recs, k) == Own(fs, c.at, recs, k) {
      OwnFirst(fs, c.at, r, recs, k);
      assert [] + Own(fs, c.at, recs, k) == Own(fs, c.at, recs, k);
    }
  }

  lemma {:induction false} TakenUp(fs: seq<Field>, m: seq<Slot>, c: Cursor, i: nat, r: Rec, recs: seq<Rec>)
    requires Shaped(fs, m) && InRange(fs, c) && i < |fs| && Locate(fs, c.at, r.tag) == Some(i)
    ensures Acceptable(fs, m, c, [r] + recs) <==>
            PlayOne(fs, m, c, i, r).Some?
            && Acceptable(fs, PlayOne(fs, m, c, i, r).value.0, PlayOne(fs, m, c, i, r).value.1, recs)
  {
    hide PlayOne, Locate, FieldFits, RecValues, RequiredSeen, Complete, Own;
    assert ([r] + recs)[1..] == recs;
    var f := fs[i];
    if PlayOne(fs, m, c, i, r).Some? {
      var (m', c') := PlayOne(fs, m, c, i, r).value;
      Moves(fs, m, c, i, r);
      FitsStep(fs, m, c, i, r, recs);
      var later := Owners(fs, At(fs, c.at, r), recs);
      assert c.seen + ({i} + later) == c'.seen + later;
      if f.htype.FixArray? {
        OneFixed(fs, m, c, i, r);
        CompleteDepends(fs, c);
      }
    } else if f.htype.FixArray? {
      OneFixed(fs, m, c, i, r);
      CompleteDepends(fs, c);
    } else {
      OwnFirst(fs, c.at, r, recs, i);
      FieldFitsFirst(fs, m, c, i, r, Own(fs, At(fs, c.at, r), recs, i));
    }
  }

  lemma {:induction false} CompleteDepends(fs: seq<Field>, c: Cursor)
    ensures Complete(fs, c) == Complete(fs, Cursor(0, {}, c.fixed, c.count))
  {
  }

  // ---------------------------------------------------------------------------
  // What the fields hold

  /** A counted array: what it held, and the values of its records in order. */
  lemma {:induction false} PlayRepeated(fs: seq<Field>, m: seq<Slot>, c: Cursor, recs: seq<Rec>, k: nat)
    requires Shaped(fs, m) && InRange(fs, c) && Play(fs, m, c, recs).Some? && k < |fs| && fs[k].htype.Repeated?
    ensures m[k].Many? && Values(fs[k], Own(fs, c.at, recs, k)).Some?
    ensures Play(fs, m, c, recs).value[k] == Many(m[k].vs + Values(fs[k], Own(fs, c.at, recs, k)).value)
    decreases |recs|
  {
    hide PlayOne, Locate, RecValues, RequiredSeen, Complete;
    assert ShapedSlot(fs[k], m[k]);
    if recs == [] {
      assert m[k].vs + [] == m[k].vs;
    } else {
      var r, rest := recs[0], recs[1..];
      assert recs == [r] + rest;
      OwnFirst(fs, c.at, r, rest, k);
      var i := Locate(fs, c.at, r.tag);
      var later := Own(fs, At(fs, c.at, r), rest, k);
      assert [] + later == later;
      if i == None {
        PlayRepeated(fs, m, c, rest, k);
      } else {
        var (m', c') := PlayOne(fs, m, c, i.value, r).value;
        Moves(fs, m, c, i.value, r);
        StillShaped(fs, m, c, i.value, r);
        StillInRange(fs, m, c, i.value, r);
        PlayRepeated(fs, m', c', rest, k);
        if i == Some(k) {
          OneRepeated(fs, m, c, k, r);
          ValuesFirst(fs[k], r, later);
          assert (m[k].vs + RecValues(fs[k], r).value) + Values(fs[k], later).value
              == m[k].vs + (RecValues(fs[k], r).value + Values(fs[k], later).value);
        }
      }
    }
  }

  lemma {:induction false} ValuesFirst(f: Field, r: Rec, recs: seq<Rec>)
    ensures Values(f, [r] + recs) ==
            var a, b := RecValues(f, r), Values(f, recs);
            if a == None || b == None then None else Some(a.value + b.value)
  {
    hide RecValues;
    assert ([r] + recs)[1..] == recs;
  }

  /** A required, optional or singular field: what its records are read into. */
  lemma {:induction false} PlaySingle(fs: seq<Field>, m: seq<Slot>, c: Cursor, recs: seq<Rec>, k: nat)
    requires Shaped(fs, m) && InRange(fs, c) && Play(fs, m, c, recs).Some? && k < |fs|
    requires !IsArray(fs[k]) && !fs[k].htype.OneOf?
    ensures var own := Own(fs, c.at, recs, k);
            && Merged(fs[k].ltype, InitOf(fs[k], m[k]), own).Some?
            && Play(fs, m, c, recs).value[k]
               == if own == [] then m[k] else Single(Merged(fs[k].ltype, InitOf(fs[k], m[k]), own).value)
    decreases |recs|
  {
    hide PlayOne, Locate, DecValue, RequiredSeen, Complete;
    if recs != [] {
      var r, rest := recs[0], recs[1..];
      assert recs == [r] + rest;
      OwnFirst(fs, c.at, r, rest, k);
      var i := Locate(fs, c.at, r.tag);
      var later := Own(fs, At(fs, c.at, r), rest, k);
      assert [] + later == later && ([r] + later)[1..] == later;
      if i == None {
        PlaySingle(fs, m, c, rest, k);
      } else {
        var (m', c') := PlayOne(fs, m, c, i.value, r).value;
        Moves(fs, m, c, i.value, r);
        StillShaped(fs, m, c, i.value, r);
        StillInRange(fs, m, c, i.value, r);
        PlaySingle(fs, m', c', rest, k);
        if i == Some(k) { OneSingle(fs, m, c, k, r); }
      }
    }
  }

  /** The last record of field k's oneof, with its field. */
  function LastOfGroup(fs: seq<Field>, at: nat, recs: seq<Rec>, k: nat): (r: Option<(nat, Rec)>)
    requires k < |fs|
    ensures r.Some? ==> r.value.0 < |fs| && (r.value.0 == k || SameOneOf(fs[k], fs[r.value.0]))
    decreases |recs|
  {
    if recs == [] then None
    else
      var i, later := Locate(fs, at, recs[0].tag), LastOfGroup(fs, At(fs, at, recs[0]), recs[1..], k);
      if later.Some? then later
      else if i.Some? && (i.value == k || SameOneOf(fs[k], fs[i.value])) then Some((i.value, recs[0]))
      else None
  }

  /** A oneof alternative: set exactly if the last record of the oneof is its own. */
  lemma {:induction false} PlayOneOf(fs: seq<Field>, m: seq<Slot>, c: Cursor, recs: seq<Rec>, k: nat)
    requires Shaped(fs, m) && InRange(fs, c) && Play(fs, m, c, recs).Some? && k < |fs| && fs[k].htype.OneOf?
    ensures var last := LastOfGroup(fs, c.at, recs, k);
            && (last == None ==> Play(fs, m, c, recs).value[k] == m[k])
            && (last.Some? && last.value.0 != k ==> Play(fs, m, c, recs).value[k] == Absent)
            && (last.Some? && last.value.0 == k ==>
                  && ReadableOne(fs[k], last.value.1)
                  && Play(fs, m, c, recs).value[k]
                     == Single(DecValue(fs[k].ltype, ZeroValue(fs[k].ltype), last.value.1.data).value.value))
    decreases |recs|
  {
    hide PlayOne, Locate, DecValue, RequiredSeen, Complete;
    if recs != [] {
      var r, rest := recs[0], recs[1..];
      var i := Locate(fs, c.at, r.tag);
      if i == None {
        PlayOneOf(fs, m, c, rest, k);
      } else {
        var (m', c') := PlayOne(fs, m, c, i.value, r).value;
        Moves(fs, m, c, i.value, r);
        StillShaped(fs, m, c, i.value, r);
        StillInRange(fs, m, c, i.value, r);
        PlayOneOf(fs, m', c', rest, k);
        if i == Some(k) { OneSingle(fs, m, c, k, r); }
      }
    }
  }

  /** The records of the last run of array k: a run goes on until a record of another
      fixed-count array.  `run` is the run so far, and `live` says that it goes on. */
  function LastRun(fs: seq<Field>, at: nat, recs: seq<Rec>, k: nat, run: seq<Rec>, live: bool): seq<Rec>
    decreases |recs|
  {
    if recs == [] then run
    else
      var i, next := Locate(fs, at, recs[0].tag), At(fs, at, recs[0]);
      if i == Some(k) then LastRun(fs, next, recs[1..], k, (if live then run else []) + [recs[0]], true)
      else
        LastRun(fs, next, recs[1..], k, run, live && (i == None || !fs[i.value].htype.FixArray?))
  }

  /** What the array holds on the way: the values of the run so far come first, and a
      run that is over has filled it. */
  ghost predicate RunSoFar(f: Field, slot: Slot, run: seq<Rec>, live: bool, count: nat, init: Slot) {
    && Values(f, run).Some? && slot.Many? && f.htype.FixArray? && |slot.vs| == f.htype.arraySize
    && (live ==> run != [] && count == |Values(f, run).value| <= |slot.vs|
                 && slot.vs[..count] == Values(f, run).value)
    && (!live ==> if run == [] then slot == init else slot == Many(Values(f, run).value))
  }

  lemma {:induction false} ValuesLast(f: Field, recs: seq<Rec>, r: Rec)
    requires Values(f, recs).Some? && RecValues(f, r).Some?
    ensures Values(f, recs + [r]) == Some(Values(f, recs).value + RecValues(f, r).value)
    decreases |recs|
  {
    hide RecValues;
    if recs == [] {
      assert recs + [r] == [r] && [r][1..] == [];
      assert RecValues(f, r).value + [] == RecValues(f, r).value == [] + RecValues(f, r).value;
    } else {
      assert (recs + [r])[1..] == recs[1..] + [r];
      ValuesLast(f, recs[1..], r);
      var a, b, d := RecValues(f, recs[0]).value, Values(f, recs[1..]).value, RecValues(f, r).value;
      assert a + (b + d) == (a + b) + d;
    }
  }

  lemma {:induction false} RunGoesOn(fs: seq<Field>, m: seq<Slot>, c: Cursor, k: nat, r: Rec, run: seq<Rec>, init: Slot)
    requires k < |fs| == |m| && ShapedSlot(fs[k], m[k]) && PlayOne(fs, m, c, k, r).Some?
    requires RunSoFar(fs[k], m[k], run, c.fixed == Some(k), c.count, init)
    ensures var (m', c') := PlayOne(fs, m, c, k, r).value;
            && c'.fixed == Some(k)
            && RunSoFar(fs[k], m'[k], (if c.fixed == Some(k) then run else []) + [r], true, c'.count, init)
  {
    hide PlayOne, RecValues;
    OneFixed(fs, m, c, k, r);
    var vs, so := RecValues(fs[k], r).value, if c.fixed == Some(k) then run else [];
    ValuesLast(fs[k], so, r);
    var from := if c.fixed == Some(k) then c.count else 0;
    var elements := m[k].vs[..from] + vs + m[k].vs[from + |vs|..];
    assert elements[..from + |vs|] == m[k].vs[..from] + vs;
  }

  /** A run that another array ends, or the end of the bytes, is complete. */
  lemma {:induction false} RunEnds(f: Field, slot: Slot, run: seq<Rec>, count: nat, init: Slot)
    requires RunSoFar(f, slot, run, true, count, init) && count == f.htype.arraySize
    ensures RunSoFar(f, slot, run, false, 0, init)
  {
    assert slot.vs[..count] == slot.vs;
  }

  /** A fixed-count array: the values of its last run, which are all of them. */
  lemma {:induction false} PlayFixed(fs: seq<Field>, m: seq<Slot>, c: Cursor, recs: seq<Rec>, k: nat, run: seq<Rec>,
                                     init: Slot)
    requires Shaped(fs, m) && InRange(fs, c) && Play(fs, m, c, recs).Some? && k < |fs|
    requires RunSoFar(fs[k], m[k], run, c.fixed == Some(k), c.count, init)
    ensures var last := LastRun(fs, c.at, recs, k, run, c.fixed == Some(k));
            && Values(fs[k], last).Some?
            && Play(fs, m, c, recs).value[k] == if last == [] then init else Many(Values(fs[k], last).value)
    decreases |recs|
  {
    hide PlayOne, Locate, RecValues, RequiredSeen, Values, RunSoFar;
    if recs == [] {
      AtTheEnd(fs, m, c, k, run, init);
    } else {
      var r, rest := recs[0], recs[1..];
      var i := Locate(fs, c.at, r.tag);
      if i == None {
        PlayFixed(fs, m, c, rest, k, run, init);
      } else {
        var (m', c') := PlayOne(fs, m, c, i.value, r).value;
        Moves(fs, m, c, i.value, r);
        StillShaped(fs, m, c, i.value, r);
        StillInRange(fs, m, c, i.value, r);
        if i == Some(k) {
          assert ShapedSlot(fs[k], m[k]);
          RunGoesOn(fs, m, c, k, r, run, init);
          PlayFixed(fs, m', c', rest, k, (if c.fixed == Some(k) then run else []) + [r], init);
        } else {
          Elsewhere(fs, m, c, i.value, r, k, run, init);
          PlayFixed(fs, m', c', rest, k, run, init);
        }
      }
    }
  }

  lemma {:induction false} AtTheEnd(fs: seq<Field>, m: seq<Slot>, c: Cursor, k: nat, run: seq<Rec>, init: Slot)
    requires |m| == |fs| && k < |fs| && Complete(fs, c) && RunSoFar(fs[k], m[k], run, c.fixed == Some(k), c.count, init)
    ensures Values(fs[k], run).Some? && m[k] == if run == [] then init else Many(Values(fs[k], run).value)
  {
    if c.fixed == Some(k) { RunEnds(fs[k], m[k], run, c.count, init); }
  }

  lemma {:induction false} Elsewhere(fs: seq<Field>, m: seq<Slot>, c: Cursor, i: nat, r: Rec, k: nat, run: seq<Rec>,
                                     init: Slot)
    requires Shaped(fs, m) && InRange(fs, c) && i < |fs| && k < |fs| && i != k && Locate(fs, c.at, r.tag) == Some(i)
    requires PlayOne(fs, m, c, i, r).Some? && RunSoFar(fs[k], m[k], run, c.fixed == Some(k), c.count, init)
    ensures var (m', c') := PlayOne(fs, m, c, i, r).value;
            && (c'.fixed == Some(k) <==> c.fixed == Some(k) && !fs[i].htype.FixArray?)
            && RunSoFar(fs[k], m'[k], run, c'.fixed == Some(k), c'.count, init)
  {
    hide PlayOne, Locate, RecValues, Values;
    Moves(fs, m, c, i, r);
    if fs[i].htype.FixArray? {
      assert ShapedSlot(fs[i], m[i]);
      OneFixed(fs, m, c, i, r);
      if c.fixed == Some(k) { RunEnds(fs[k], m[k], run, c.count, init); }
    }
  }

  // ---------------------------------------------------------------------------
  // Whole byte strings

  lemma {:induction false} InitShaped(fs: seq<Field>)
    ensures Shaped(fs, InitMsg(fs)) && InRange(fs, START)
  {
    hide InitMsg;
    forall k | 0 <= k < |fs| ensures ShapedSlot(fs[k], InitMsg(fs)[k]) { InitMsgAt(fs, k); }
  }

  /** The decoder accepts a byte string exactly when it is made of records that every
      field can take, with complete runs of fixed-count arrays and a record for every
      tracked required field. */
  lemma {:induction false} DecodeAccepts(fs: seq<Field>, s: seq<byte>)
    ensures Decode(fs, s).Some? <==> Records(s).Some? && Acceptable(fs, InitMsg(fs), START, Records(s).value)
  {
    hide DecFields, InitMsg, Records, Acceptable, Play;
    InitShaped(fs);
    DecFieldsIsPlay(fs, InitMsg(fs), START, s);
    if Records(s).Some? { PlayAccepts(fs, InitMsg(fs), START, Records(s).value); }
  }

  /** What a field holds after decoding, from its records. */
  ghost function Meaning(fs: seq<Field>, recs: seq<Rec>, k: nat): Slot
    requires k < |fs|
  {
    var f, own := fs[k], Own(fs, 0, recs, k);
    match f.htype
    case Repeated(_) => Many(if Values(f, own).Some? then Values(f, own).value else [])
    case FixArray(_) =>
      var last := LastRun(fs, 0, recs, k, [], false);
      if last == [] || Values(f, last) == None then InitSlot(f) else Many(Values(f, last).value)
    case OneOf(_) =>
      var last := LastOfGroup(fs, 0, recs, k);
      if last == None || last.value.0 != k || !ReadableOne(f, last.value.1) then Absent
      else Single(DecValue(f.ltype, ZeroValue(f.ltype), last.value.1.data).value.value)
    case _ =>
      var v := Merged(f.ltype, InitValue(f), own);
      if own == [] || v == None then InitSlot(f) else Single(v.value)
  }

  /** Whatever the bytes that the decoder accepts: a repeated field holds the values of
      its records in order, whether packed or not; a fixed-count array those of its
      last run; of a oneof the alternative of the last record is set; any other field
      holds what its records are read into one after the other. */
  lemma {:induction false} DecodeMeans(fs: seq<Field>, s: seq<byte>, k: nat)
    requires Decode(fs, s).Some? && k < |fs|
    ensures Records(s).Some? && |Decode(fs, s).value| == |fs|
    ensures Decode(fs, s).value[k] == Meaning(fs, Records(s).value, k)
  {
    hide DecFields, InitMsg, Records, Play, Values, Merged, DecValue, Own, LastRun, LastOfGroup;
    InitShaped(fs);
    DecFieldsIsPlay(fs, InitMsg(fs), START, s);
    InitMsgAt(fs, k);
    var z, recs := InitMsg(fs), Records(s).value;
    match fs[k].htype
    case Repeated(_) =>
      PlayRepeated(fs, z, START, recs, k);
      assert [] + Values(fs[k], Own(fs, 0, recs, k)).value == Values(fs[k], Own(fs, 0, recs, k)).value;
    case FixArray(_) =>
      NoRunYet(fs[k]);
      PlayFixed(fs, z, START, recs, k, [], z[k]);
    case OneOf(_) => PlayOneOf(fs, z, START, recs, k);
    case _ => PlaySingle(fs, z, START, recs, k);
  }

  lemma {:induction false} NoRunYet(f: Field)
    requires f.htype.FixArray?
    ensures RunSoFar(f, InitSlot(f), [], false, 0, InitSlot(f))
  {
  }
}
