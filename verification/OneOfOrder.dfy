/**
 Decoding with a descriptor whose tags are out of order.  The generator keeps the
 alternatives of a oneof together, so a field's tag may lie between theirs.
 */
module OneOfOrder {
  import opened Options
  import opened Varints
  import opened Proto
  import opened ProtoRoundTrip
  import FieldIter

  /** The decoder's search is the iterator's, on descriptors without extension
      ranges. */
  lemma {:induction false} LocateIsSearch(fs: seq<Field>, es: seq<FieldIter.Entry>, at: nat, tag: nat)
    requires |fs| == |es| && at < |fs|
    requires forall i :: 0 <= i < |fs| ==> fs[i].tag == es[i].info.tag && !FieldIter.IsExtension(es[i].info)
    ensures Locate(fs, at, tag) == FieldIter.Search(es, at, tag)
  {
    FirstIsFirst(fs, es, tag, 0, at + 1);
    FirstIsFirst(fs, es, tag, at + 1, |fs|);
  }

  lemma {:induction false} FirstIsFirst(fs: seq<Field>, es: seq<FieldIter.Entry>, tag: nat, lo: nat, hi: nat)
    requires |fs| == |es| && lo <= hi <= |fs|
    requires forall i :: 0 <= i < |fs| ==> fs[i].tag == es[i].info.tag && !FieldIter.IsExtension(es[i].info)
    ensures FirstTag(fs, tag, lo, hi) == FieldIter.First(es, tag, lo, hi)
    decreases hi - lo
  {
    if lo < hi { FirstIsFirst(fs, es, tag, lo + 1, hi); }
  }

  // ---------------------------------------------------------------------------
  // Which fields are lost

  /** The decoder stands on the first field, or on the last one found, which has the
      largest tag of those. */
  lemma {:induction false} PositionIsLargest(fs: seq<Field>, m: seq<Slot>, k: nat)
    requires |m| == |fs| && k <= |fs| && fs != []
    ensures var at := Position(fs, m, k);
            && (at == 0 || Found(fs, m, at)) && fs[0].tag <= fs[at].tag
            && forall j :: 0 <= j < k && Found(fs, m, j) ==> fs[j].tag <= fs[at].tag
    decreases k
  {
    hide Written;
    if k > 0 { PositionIsLargest(fs, m, k - 1); }
  }

  /** A written field is lost exactly when its tag is larger than the last field's, or
      smaller than the first field's or that of an earlier field that is found. */
  lemma {:induction false} LostIff(fs: seq<Field>, m: seq<Slot>, k: nat)
    requires DescOk(fs) && |m| == |fs| && k < |fs| && Written(fs[k], m[k])
    ensures !Found(fs, m, k) <==>
            k > 0 && (|| fs[k].tag > fs[|fs| - 1].tag || fs[k].tag < fs[0].tag
                      || exists j :: 0 <= j < k && Found(fs, m, j) && fs[k].tag < fs[j].tag)
  {
    hide Written, FieldOk;
    PositionIsLargest(fs, m, k);
  }

  // ---------------------------------------------------------------------------
  // A oneof around a field

  /** Two alternatives of a oneof, then plain fields. */
  ghost predicate OneOfFirst(fs: seq<Field>) {
    && |fs| >= 3 && DescOk(fs) && SameOneOf(fs[0], fs[1])
    && (forall i :: 0 <= i < |fs| ==> OrderedField(fs[i]))
    && forall i :: 2 <= i < |fs| ==> fs[i].htype == Singular(false)
  }

  lemma {:induction false} SlotComesBack(fs: seq<Field>, m: seq<Slot>, k: nat)
    requires OneOfFirst(fs) && Sound(fs, m) && k < |fs|
    ensures ReadSlot(fs[k], m[k]) == Some(m[k]) && !Tracked(fs, k)
    ensures !Written(fs[k], m[k]) ==> m[k] == InitSlot(fs[k])
    ensures k < 2 ==> InitSlot(fs[k]) == Absent
  {
    hide Written, ReadSlot, KeptSlot, TypedSlot, FitsSlot, ShortSlot, OrderedField;
    assert FieldOk(fs[k]) && TypedSlot(fs[k], m[k]);
    TagInRange(fs[k]);
    OrderedSlotKept(fs[k], m[k]);
    KeptSlotIff(fs[k], m[k]);
    if !Written(fs[k], m[k]) { UnwrittenIsInit(fs[k], m[k]); }
  }

  /** What comes back, from which fields are found. */
  lemma {:induction false} ComesBack(fs: seq<Field>, m: seq<Slot>, r: seq<Slot>)
    requires OneOfFirst(fs) && Sound(fs, m) && |r| == |fs|
    requires forall k :: 0 <= k < |fs| && Written(fs[k], m[k]) ==>
               r[k] == if Found(fs, m, k) then m[k] else InitSlot(fs[k])
    requires forall k :: 0 <= k < |fs| && !Written(fs[k], m[k]) ==> r[k] == m[k]
    ensures Decode(fs, EncMsg(fs, m)) == Some(r)
  {
    hide Written, ReadSlot, OneOfFirst, Sound, ReadMsg, Decode, EncMsg, InitSlot, Tracked;
    assert |m| == |fs| by { SoundLength(fs, m); }
    MsgReadsBack(fs, m);
    forall k | 0 <= k < |fs|
      ensures if Found(fs, m, k) then ReadSlot(fs[k], m[k]) == Some(r[k])
              else r[k] == InitSlot(fs[k]) && !Tracked(fs, k)
    {
      SlotComesBack(fs, m, k);
    }
    ReadIs(fs, m, r);
  }

  lemma {:induction false} SoundLength(fs: seq<Field>, m: seq<Slot>)
    requires Sound(fs, m)
    ensures |m| == |fs|
  {
  }

  /** With one field whose tag lies between the alternatives', the alternative with
      the largest tag is lost: the message is read back exactly when that is not
      set. */
  lemma {:induction false} LargestTagIsLost(fs: seq<Field>, m: seq<Slot>)
    requires OneOfFirst(fs) && |fs| == 3 && fs[0].tag < fs[2].tag < fs[1].tag && Sound(fs, m)
    ensures |m| == 3
    ensures Decode(fs, EncMsg(fs, m)) == Some(m[1 := Absent])
    ensures Decode(fs, EncMsg(fs, m)) == Some(m) <==> m[1] == Absent
  {
    hide Decode, EncMsg, Written, DescOk, TypedSlot, FitsMsg, ShortMsg, InitSlot, OrderedField;
    SlotComesBack(fs, m, 1);
    var r := m[1 := Absent];
    assert !Found(fs, m, 1) by { assert Position(fs, m, 1) == 0; }
    assert Written(fs[0], m[0]) ==> Found(fs, m, 0);
    assert Position(fs, m, 2) == 0;
    assert Written(fs[2], m[2]) ==> Found(fs, m, 2);
    AbsentUnwritten(fs[1]);
    ComesBack(fs, m, r);
    assert r[1] == Absent;
    assert m[1] == Absent ==> r == m;
  }

  /** With a further field of a larger tag, the alternative is found, and what is lost
      behind it is the field in between: the message is read back exactly when the
      alternative is not set, or that field has its initial value. */
  lemma {:induction false} InnerFieldIsLost(fs: seq<Field>, m: seq<Slot>)
    requires OneOfFirst(fs) && |fs| == 4 && fs[0].tag < fs[2].tag < fs[1].tag < fs[3].tag && Sound(fs, m)
    ensures |m| == 4
    ensures Decode(fs, EncMsg(fs, m)) == Some(if m[1] == Absent then m else m[2 := InitSlot(fs[2])])
    ensures Decode(fs, EncMsg(fs, m)) == Some(m) <==> m[1] == Absent || m[2] == InitSlot(fs[2])
  {
    hide Decode, EncMsg, DescOk, TypedSlot, FitsMsg, ShortMsg, InitSlot, OrderedField, Written;
    SlotComesBack(fs, m, 2);
    var r := if m[1] == Absent then m else m[2 := InitSlot(fs[2])];
    AbsentUnwritten(fs[1]);
    OneOfWritten(fs[1], m[1]);
    assert Written(fs[0], m[0]) ==> Found(fs, m, 0);
    assert Position(fs, m, 1) == 0;
    assert Found(fs, m, 1) <==> m[1] != Absent;
    assert Position(fs, m, 2) == if m[1] == Absent then 0 else 1;
    assert Found(fs, m, 2) <==> m[1] == Absent && Written(fs[2], m[2]);
    assert Position(fs, m, 3) == if m[1] != Absent then 1 else if Written(fs[2], m[2]) then 2 else 0;
    assert Written(fs[3], m[3]) ==> Found(fs, m, 3);
    ComesBack(fs, m, r);
    assert m[1] != Absent ==> r[2] == InitSlot(fs[2]);
    assert m[2] == InitSlot(fs[2]) ==> r == m;
  }

  lemma {:induction false} OneOfWritten(f: Field, slot: Slot)
    requires f.htype.OneOf? && TypedSlot(f, slot)
    ensures Written(f, slot) <==> slot != Absent
  {
  }
}
