/**
 Field descriptors packed into one, two, four or eight 32-bit words, and the
 iterator that walks them (default configuration: pb_size_t has 16 bits).
 */
module FieldIter {
  import opened Options
  import opened Varints
  import opened Words
  import opened Bits

  // ---------------------------------------------------------------------------
  // Packing

  datatype Info = Info(tag: nat, ftype: nat, dataOffset: nat, dataSize: nat, sizeOffset: int, arraySize: nat)

  datatype Entry = Entry(width: nat, info: Info)

  /** `x << k` ored onto what is below */
  function Above(low: nat, x: nat, k: nat): nat { Or(x * Pow2(k), low) }

  /** The low half of the first word of every format. */
  function Head(code: nat, info: Info): nat {
    Above(Or((info.tag * 4) % 0x100, code), info.ftype, 8)
  }

  /** `(uint32_t)(int_least8_t)x` */
  function SignExtend8(x: int): nat {
    if x % 0x100 < 0x80 then x % 0x100 else TWO_32 - 0x100 + x % 0x100
  }

  /** The second word of the four- and eight-word formats. */
  function SizeAndTag(info: Info): nat {
    Or(((info.tag * 4) % TWO_32 / 0x100) * 0x100, SignExtend8(info.sizeOffset))
  }

  /** PB_FIELDINFO_1, _2, _4 and _8 */
  function Pack(e: Entry): (words: seq<nat>)
    ensures |words| >= 1 && |words| == if e.width in {1, 2, 4} then e.width else 8
  {
    var i := e.info;
    if e.width == 1 then
      [Above(Above(Above(Head(0, i), i.dataOffset % 0x100, 16), i.sizeOffset % 0x10, 24), i.dataSize % 0x10, 28)]
    else if e.width == 2 then
      [Above(Above(Head(1, i), i.arraySize % 0x1000, 16), i.sizeOffset % 0x10, 28),
       Above(Above(i.dataOffset % 0x1_0000, i.dataSize % 0x1000, 16), (i.tag / 0x40) % 0x10, 28)]
    else if e.width == 4 then
      [Above(Head(2, i), i.arraySize % 0x1_0000, 16), SizeAndTag(i), i.dataOffset, i.dataSize]
    else
      [Head(3, i), SizeAndTag(i), i.dataOffset, i.dataSize, i.arraySize, 0, 0, 0]
  }

  /** The static assertions PB_FIELDINFO_ASSERT_1, _2, _4 and _8 */
  predicate Asserted(e: Entry) {
    var i := e.info;
    && i.ftype < 0x100 && i.sizeOffset >= 0
    && match e.width
       case 1 => i.tag < 0x40 && i.dataOffset < 0x100 && i.sizeOffset < 0x10 && i.dataSize < 0x10 && i.arraySize < 2
       case 2 =>
         i.tag < 0x400 && i.dataOffset < 0x1_0000 && i.sizeOffset < 0x10 && i.dataSize < 0x1000 && i.arraySize < 0x1000
       case _ =>
         && (e.width == 4 || e.width == 8)
         && i.tag < 0x1_0000 && i.dataOffset < 0x1_0000 && SignExtend8(i.sizeOffset) < 0x100
         && i.dataSize < 0x1_0000 && i.arraySize < 0x1_0000
  }

  // ---------------------------------------------------------------------------
  // Unpacking

  /** `(int_least8_t)b` */
  function Signed8(b: nat): int { if b < 0x80 then b else b - 0x100 }

  /** All the words that the length code announces are there. */
  predicate Loadable(words: seq<nat>) {
    && |words| >= 1 && (words[0] % 4 == 1 ==> |words| >= 2)
    && (words[0] % 4 == 2 ==> |words| >= 4) && (words[0] % 4 == 3 ==> |words| >= 5)
  }

  /** `load_descriptor_values` from the words of one field */
  function Load(words: seq<nat>): Info
    requires Loadable(words)
  {
    var w := words[0];
    var ftype, low := (w / 0x100) % 0x100, (w / 4) % 0x40;
    if w % 4 == 0 then
      Info(low, ftype, (w / 0x1_0000) % 0x100, (w / 0x1000_0000) % 0x10, (w / 0x100_0000) % 0x10, 1)
    else if w % 4 == 1 then
      Info(Or((words[1] / 0x1000_0000) * 0x40, low) % 0x1_0000, ftype, words[1] % 0x1_0000,
           (words[1] / 0x1_0000) % 0x1000, (w / 0x1000_0000) % 0x10, (w / 0x1_0000) % 0x1000)
    else
      Info(Or((words[1] / 0x100) * 0x40, low) % 0x1_0000, ftype, words[2], words[3] % 0x1_0000,
           Signed8(words[1] % 0x100), if w % 4 == 2 then w / 0x1_0000 else words[4] % 0x1_0000)
  }

  lemma {:induction false} Powers()
    ensures Pow2(6) == 0x40 && Pow2(8) == 0x100 && Pow2(16) == 0x1_0000
    ensures Pow2(24) == 0x100_0000 && Pow2(28) == 0x1000_0000
  {
    assert Pow2(4) == 16;
    Pow2Add(4, 4); Pow2Add(8, 8); Pow2Add(16, 8); Pow2Add(24, 4);
    assert Pow2(2) == 4; Pow2Add(4, 2);
  }

  lemma {:induction false} AboveIsSum(low: nat, x: nat, k: nat)
    requires low < Pow2(k)
    ensures Above(low, x, k) == low + x * Pow2(k)
  {
    OrIsSum(x, k, low);
  }

  lemma {:induction false} HeadIsSum(code: nat, info: Info)
    requires code < 4 && info.ftype < 0x100
    ensures Head(code, info) == code + 4 * (info.tag % 0x40) + 0x100 * info.ftype < 0x1_0000
  {
    Powers();
    assert Pow2(2) == 4;
    assert (info.tag * 4) % 0x100 == (info.tag % 0x40) * 4;
    OrIsSum(info.tag % 0x40, 2, code);
    AboveIsSum(code + 4 * (info.tag % 0x40), info.ftype, 8);
  }

  /** Reading a digit of a number written in mixed radix. */
  lemma {:induction false} Digit(w: nat, low: nat, P: nat, x: nat, Q: nat, high: nat)
    requires 0 < P && 0 < Q && low < P && x < Q && w == P * (Q * high + x) + low
    ensures w / P == Q * high + x && (w / P) % Q == x && w % P == low
  {
    MulNonNegative(Q, high);
    DivModUnique(w, P, Q * high + x, low);
    DivModUnique(Q * high + x, Q, high, x);
  }

  /** The low half of the first word: length code, six tag bits, type. */
  predicate FirstDigits(w: nat, code: nat, info: Info) {
    w % 4 == code && (w / 4) % 0x40 == info.tag % 0x40 && (w / 0x100) % 0x100 == info.ftype
  }

  lemma {:induction false} HeadDigits(w: nat, code: nat, info: Info, high: nat)
    requires code < 4 && info.ftype < 0x100 && w == Head(code, info) + 0x1_0000 * high
    ensures FirstDigits(w, code, info) && w / 0x1_0000 == high
  {
    hide Head;
    HeadIsSum(code, info);
    var t, f := info.tag % 0x40, info.ftype;
    Digit(w, code, 4, t, 0x40, 0x100 * high + f);
    Digit(w, code + 4 * t, 0x100, f, 0x100, high);
    DivModUnique(w, 0x1_0000, high, code + 4 * t + 0x100 * f);
  }

  lemma {:induction false} OneWord(i: Info)
    requires Asserted(Entry(1, i))
    ensures FirstDigits(Pack(Entry(1, i))[0], 0, i) && Load(Pack(Entry(1, i))) == i.(arraySize := 1)
  {
    hide Pow2, Or, Above, Head;
    Powers();
    HeadIsSum(0, i);
    var a := Head(0, i);
    AboveIsSum(a, i.dataOffset, 16);
    AboveIsSum(a + i.dataOffset * 0x1_0000, i.sizeOffset, 24);
    AboveIsSum(a + i.dataOffset * 0x1_0000 + i.sizeOffset * 0x100_0000, i.dataSize, 28);
    var w := Pack(Entry(1, i))[0];
    var high := i.dataOffset + 0x100 * (i.sizeOffset + 0x10 * i.dataSize);
    HeadDigits(w, 0, i, high);
    Digit(w, a, 0x1_0000, i.dataOffset, 0x100, i.sizeOffset + 0x10 * i.dataSize);
    Digit(w, a + 0x1_0000 * i.dataOffset, 0x100_0000, i.sizeOffset, 0x10, i.dataSize);
    Digit(w, a + 0x1_0000 * i.dataOffset + 0x100_0000 * i.sizeOffset, 0x1000_0000, i.dataSize, 0x10, 0);
  }

  lemma {:induction false} TagOf(tag: nat)
    requires tag < 0x1_0000
    ensures Or((tag / 0x40) * 0x40, tag % 0x40) % 0x1_0000 == tag
  {
    hide Pow2, Or;
    Powers();
    OrIsSum(tag / 0x40, 6, tag % 0x40);
  }

  lemma {:induction false} SecondWord(i: Info)
    requires Asserted(Entry(2, i))
    ensures var v := Pack(Entry(2, i))[1];
            v % 0x1_0000 == i.dataOffset && (v / 0x1_0000) % 0x1000 == i.dataSize && v / 0x1000_0000 == i.tag / 0x40
  {
    hide Pow2, Or, Above, Head;
    Powers();
    AboveIsSum(i.dataOffset, i.dataSize, 16);
    AboveIsSum(i.dataOffset + i.dataSize * 0x1_0000, i.tag / 0x40, 28);
    var v := Pack(Entry(2, i))[1];
    Digit(v, i.dataOffset, 0x1_0000, i.dataSize, 0x1000, i.tag / 0x40);
    Digit(v, i.dataOffset + 0x1_0000 * i.dataSize, 0x1000_0000, i.tag / 0x40, 0x10, 0);
  }

  lemma {:induction false} TwoWords(i: Info)
    requires Asserted(Entry(2, i))
    ensures FirstDigits(Pack(Entry(2, i))[0], 1, i) && Load(Pack(Entry(2, i))) == i
  {
    hide Pow2, Or, Above, Head;
    Powers();
    HeadIsSum(1, i);
    var a := Head(1, i);
    AboveIsSum(a, i.arraySize, 16);
    AboveIsSum(a + i.arraySize * 0x1_0000, i.sizeOffset, 28);
    var w := Pack(Entry(2, i))[0];
    HeadDigits(w, 1, i, i.arraySize + 0x1000 * i.sizeOffset);
    Digit(w, a, 0x1_0000, i.arraySize, 0x1000, i.sizeOffset);
    Digit(w, a + 0x1_0000 * i.arraySize, 0x1000_0000, i.sizeOffset, 0x10, 0);
    SecondWord(i);
    TagOf(i.tag);
  }

  lemma {:induction false} SizeAndTagDigits(i: Info)
    requires i.tag < 0x1_0000 && 0 <= i.sizeOffset && SignExtend8(i.sizeOffset) < 0x100
    ensures SizeAndTag(i) / 0x100 == i.tag / 0x40 && SizeAndTag(i) % 0x100 == i.sizeOffset % 0x100
  {
    hide Pow2, Or;
    Powers();
    OrIsSum(i.tag / 0x40, 8, i.sizeOffset % 0x100);
    DivModUnique(SizeAndTag(i), 0x100, i.tag / 0x40, i.sizeOffset % 0x100);
  }

  /** What the two wide formats give back: of the size offset, one byte. */
  lemma {:induction false} FourWords(i: Info)
    requires Asserted(Entry(4, i))
    ensures FirstDigits(Pack(Entry(4, i))[0], 2, i) && Load(Pack(Entry(4, i))) == i.(sizeOffset := i.sizeOffset % 0x100)
  {
    hide Pow2, Or, Above, Head, SizeAndTag;
    Powers();
    HeadIsSum(2, i);
    AboveIsSum(Head(2, i), i.arraySize, 16);
    HeadDigits(Pack(Entry(4, i))[0], 2, i, i.arraySize);
    SizeAndTagDigits(i);
    TagOf(i.tag);
  }

  lemma {:induction false} EightWords(i: Info)
    requires Asserted(Entry(8, i))
    ensures FirstDigits(Pack(Entry(8, i))[0], 3, i) && Load(Pack(Entry(8, i))) == i.(sizeOffset := i.sizeOffset % 0x100)
  {
    hide Pow2, Or, Above, Head, SizeAndTag;
    HeadDigits(Head(3, i), 3, i, 0);
    SizeAndTagDigits(i);
    TagOf(i.tag);
  }

  function Code(width: nat): nat {
    if width == 1 then 0 else if width == 2 then 1 else if width == 4 then 2 else 3
  }

  /** Among fields that pass the static assertions, exactly those with one array
      element (one word) or a size offset below 128 (four or eight words) are
      read back as they were written. */
  lemma {:induction false} PackRoundTrip(e: Entry)
    requires Asserted(e)
    ensures FirstDigits(Pack(e)[0], Code(e.width), e.info)
    ensures Load(Pack(e)) == e.info <==>
            (e.width == 1 ==> e.info.arraySize == 1) && (e.width >= 4 ==> e.info.sizeOffset < 0x80)
  {
    hide Pack, Load;
    if e.width == 1 {
      OneWord(e.info);
    } else if e.width == 2 {
      TwoWords(e.info);
    } else if e.width == 4 {
      FourWords(e.info);
    } else {
      EightWords(e.info);
    }
  }

  /** The wide formats keep one byte of the size offset, and their static
      assertions test that byte alone: an entry with size offset 256 passes them
      and is read back as the one with size offset 0. */
  lemma {:induction false} SizeOffsetLost(i: Info, e: Entry)
    requires Asserted(Entry(4, i)) && i.sizeOffset == 0 && e == Entry(4, i.(sizeOffset := 0x100))
    ensures Asserted(e) && FirstDigits(Pack(e)[0], 2, e.info) && Load(Pack(e)) == i != e.info
  {
    hide Pack, Load;
    FourWords(e.info);
  }

  // ---------------------------------------------------------------------------
  // Descriptors

  const LTYPE_EXTENSION := 0x0A

  predicate IsExtension(info: Info) { info.ftype % 0x10 == LTYPE_EXTENSION }

  predicate IsRequired(info: Info) { (info.ftype / 0x10) % 4 == 0 }

  predicate IsSubmsg(info: Info) { info.ftype % 0x10 == 8 || info.ftype % 0x10 == 9 }

  /** Fields that the macros lay out and the iterator reads back. */
  predicate EntryOk(e: Entry) {
    && Asserted(e)
    && (e.width == 1 ==> e.info.arraySize == 1) && (e.width >= 4 ==> e.info.sizeOffset < 0x80)
  }

  predicate AllOk(es: seq<Entry>) { forall i :: 0 <= i < |es| ==> EntryOk(es[i]) }

  /** The `field_info` array, up to the zero word that PB_BIND adds. */
  function Layout(es: seq<Entry>): seq<nat> {
    if es == [] then [] else Pack(es[0]) + Layout(es[1..])
  }

  /** Where the words of field i start. */
  function Start(es: seq<Entry>, i: nat): nat
    requires i <= |es|
  {
    if i == 0 then 0 else Start(es, i - 1) + |Pack(es[i - 1])|
  }

  function RequiredCount(es: seq<Entry>, i: nat): nat
    requires i <= |es|
  {
    if i == 0 then 0 else RequiredCount(es, i - 1) + if IsRequired(es[i - 1].info) then 1 else 0
  }

  function SubmsgCount(es: seq<Entry>, i: nat): nat
    requires i <= |es|
  {
    if i == 0 then 0 else SubmsgCount(es, i - 1) + if IsSubmsg(es[i - 1].info) then 1 else 0
  }

  lemma {:induction false} StartShift(es: seq<Entry>, i: nat)
    requires 0 < i <= |es|
    ensures Start(es, i) == |Pack(es[0])| + Start(es[1..], i - 1)
  {
    if i > 1 { StartShift(es, i - 1); }
  }

  lemma {:induction false} LayoutAt(es: seq<Entry>, i: nat)
    requires i < |es|
    ensures Start(es, i) + |Pack(es[i])| <= |Layout(es)|
    ensures Layout(es)[Start(es, i)..][..|Pack(es[i])|] == Pack(es[i])
    decreases |es|
  {
    hide Pack;
    var first := Pack(es[0]);
    assert Layout(es) == first + Layout(es[1..]);
    if i > 0 {
      StartShift(es, i);
      LayoutAt(es[1..], i - 1);
      var k := Start(es[1..], i - 1);
      assert Layout(es)[|first| + k..] == Layout(es[1..])[k..];
    } else {
      assert Layout(es)[0..][..|first|] == first;
    }
  }

  lemma {:induction false} LoadPrefix(words: seq<nat>, p: seq<nat>)
    requires Loadable(p) && |p| <= |words| && words[..|p|] == p
    ensures Loadable(words) && Load(words) == Load(p) && words[0] == p[0]
  {
    hide Or;
    forall j | 0 <= j < |p| ensures words[j] == p[j] { assert words[..|p|][j] == p[j]; }
  }

  /** The words of a field, read from the array. */
  lemma {:induction false} LoadAt(es: seq<Entry>, i: nat, fieldInfo: seq<nat>)
    requires AllOk(es) && i < |es| && fieldInfo == Layout(es) + [0]
    ensures Start(es, i) < |fieldInfo|
    ensures var words := fieldInfo[Start(es, i)..];
            && FirstDigits(fieldInfo[Start(es, i)], Code(es[i].width), es[i].info)
            && Loadable(words) && Load(words) == es[i].info
  {
    hide Layout, Pack, Load;
    var k, p := Start(es, i), Pack(es[i]);
    LayoutAt(es, i);
    PackRoundTrip(es[i]);
    var words := fieldInfo[k..];
    assert words == Layout(es)[k..] + [0];
    assert words[..|p|] == p;
    LoadPrefix(words, p);
  }

  // ---------------------------------------------------------------------------
  // Searching

  predicate Matches(e: Entry, tag: nat) { e.info.tag == tag && !IsExtension(e.info) }

  /** The first match among fields lo up to hi. */
  function First(es: seq<Entry>, tag: nat, lo: nat, hi: nat): (r: Option<nat>)
    requires lo <= hi <= |es|
    ensures r.Some? ==> lo <= r.value < hi && Matches(es[r.value], tag)
    ensures r.Some? ==> forall j :: lo <= j < r.value ==> !Matches(es[j], tag)
    ensures r.None? ==> forall j :: lo <= j < hi ==> !Matches(es[j], tag)
    decreases hi - lo
  {
    if lo == hi then None else if Matches(es[lo], tag) then Some(lo) else First(es, tag, lo + 1, hi)
  }

  /** What `pb_field_iter_find` finds from field `start`, whatever the order of
      the tags. */
  function Search(es: seq<Entry>, start: nat, tag: nat): (r: Option<nat>)
    requires start < |es|
    ensures r.Some? ==> r.value < |es| && es[r.value].info.tag == tag
  {
    if es[start].info.tag == tag then Some(start)
    else if tag > es[|es| - 1].info.tag then None
    else if tag < es[start].info.tag then First(es, tag, 0, start + 1)
    else
      var after := First(es, tag, start + 1, |es|);
      if after.Some? then after else First(es, tag, 0, start + 1)
  }

  predicate Increasing(es: seq<Entry>) {
    forall i, j :: 0 <= i < j < |es| ==> es[i].info.tag < es[j].info.tag
  }

  /** Every field is found from every position. */
  predicate Complete(es: seq<Entry>) {
    forall s, i :: 0 <= s < |es| && 0 <= i < |es| ==> Search(es, s, es[i].info.tag) == Some(i)
  }

  /** With tags in order, the search finds the field with the tag, unless that is
      an extension range elsewhere. */
  lemma {:induction false} SearchFinds(es: seq<Entry>, start: nat, tag: nat, i: nat)
    requires Increasing(es) && start < |es| && i < |es| && es[i].info.tag == tag
    ensures Search(es, start, tag) == if i == start || !IsExtension(es[i].info) then Some(i) else None
  {
  }

  lemma {:induction false} SearchMisses(es: seq<Entry>, start: nat, tag: nat)
    requires start < |es| && forall i :: 0 <= i < |es| ==> es[i].info.tag != tag
    ensures Search(es, start, tag) == None
  {
  }

  /** Without extension ranges, the search finds every field from every position
      exactly when the tags increase strictly. */
  lemma {:induction false} CompleteIffIncreasing(es: seq<Entry>)
    requires forall i :: 0 <= i < |es| ==> !IsExtension(es[i].info)
    ensures Complete(es) <==> Increasing(es)
  {
    if Increasing(es) {
      forall s, i | 0 <= s < |es| && 0 <= i < |es| ensures Search(es, s, es[i].info.tag) == Some(i) {
        SearchFinds(es, s, es[i].info.tag, i);
      }
    }
    if Complete(es) {
      forall i, j | 0 <= i < j < |es| ensures es[i].info.tag < es[j].info.tag {
        assert Search(es, i, es[j].info.tag) == Some(j);
      }
    }
  }

  /** The alternatives of a oneof stay together in the field list, so its tags may
      enclose a later field's.  The last tag is then not the largest: from the first
      field, the oneof's tag 5 is not found at all, and from it, tag 3 is not. */
  lemma {:induction false} InterleavedOneOf(es: seq<Entry>)
    requires |es| == 3 && es[0].info.tag == 1 && es[1].info.tag == 5 && es[2].info.tag == 3
    requires forall i :: 0 <= i < 3 ==> !IsExtension(es[i].info)
    ensures forall start :: 0 <= start < 3 ==> Search(es, start, 1) == Some(0)
    ensures forall start :: 0 <= start < 3 ==> Search(es, start, 5) == if start == 1 then Some(1) else None
    ensures forall start :: 0 <= start < 3 ==> Search(es, start, 3) == if start == 1 then None else Some(2)
  {
    forall start | 0 <= start < 3
      ensures Search(es, start, 1) == Some(0)
      ensures Search(es, start, 5) == if start == 1 then Some(1) else None
      ensures Search(es, start, 3) == if start == 1 then None else Some(2)
    {
      hide First;
    }
  }

  // ---------------------------------------------------------------------------
  // The iterator

  lemma {:induction false} CodeWidth(e: Entry)
    requires Asserted(e)
    ensures Pow2(Code(e.width)) == |Pack(e)|
  {
    assert Pow2(0) == 1 && Pow2(1) == 2 && Pow2(2) == 4 && Pow2(3) == 8;
  }

  class Iterator {
    const fieldInfo: seq<nat>
    const fieldCount: nat
    const largestTag: nat

    var index: nat
    var fieldInfoIndex: nat
    var requiredFieldIndex: nat
    var submessageIndex: nat
    var tag: nat
    var info: Info

    ghost predicate Describes(es: seq<Entry>) {
      && AllOk(es) && fieldInfo == Layout(es) + [0] && fieldCount == |es|
      && largestTag == if es == [] then 0 else es[|es| - 1].info.tag
    }

    /** All four indices are the prefix counts at field i. */
    ghost predicate At(es: seq<Entry>, i: nat)
      reads this
    {
      && i <= |es| && index == i && fieldInfoIndex == Start(es, i)
      && requiredFieldIndex == RequiredCount(es, i) && submessageIndex == SubmsgCount(es, i)
    }

    /** The iterator stands on a field and holds its values. */
    ghost predicate On(es: seq<Entry>)
      reads this
    {
      At(es, index)
      && if es == [] then index == 0 && tag == 0 else index < |es| && info == es[index].info && tag == info.tag
    }

    /** `pb_field_iter_begin` */
    constructor (ghost es: seq<Entry>, fieldInfo: seq<nat>, fieldCount: nat, largestTag: nat)
      requires AllOk(es) && fieldInfo == Layout(es) + [0] && fieldCount == |es|
      requires largestTag == if es == [] then 0 else es[|es| - 1].info.tag
      ensures Describes(es) && On(es) && index == 0
    {
      hide Layout, Load;
      this.fieldInfo, this.fieldCount, this.largestTag := fieldInfo, fieldCount, largestTag;
      index, fieldInfoIndex, requiredFieldIndex, submessageIndex := 0, 0, 0, 0;
      tag, info := 0, Info(0, 0, 0, 0, 0, 0);
      new;
      var loaded := LoadValues(es);
    }

    /** `load_descriptor_values` */
    method LoadValues(ghost es: seq<Entry>) returns (loaded: bool)
      requires Describes(es) && At(es, index)
      modifies this`tag, this`info
      ensures loaded == (index < |es|)
      ensures loaded ==> On(es)
      ensures !loaded ==> tag == old(tag) && info == old(info)
    {
      hide Layout, Load, Loadable, FirstDigits, Pack, Start;
      if index >= fieldCount {
        return false;
      }
      LoadAt(es, index, fieldInfo);
      info := Load(fieldInfo[fieldInfoIndex..]);
      tag := info.tag;
      loaded := true;
    }

    /** `advance_iterator`; past the end, it restarts. */
    method Advance(ghost es: seq<Entry>)
      requires Describes(es) && es != []
      requires At(es, index) || index >= |es|
      modifies this`index, this`fieldInfoIndex, this`requiredFieldIndex, this`submessageIndex
      ensures At(es, if old(index) + 1 < |es| then old(index) + 1 else 0)
    {
      hide Layout, Pack, Load;
      index := index + 1;
      if index >= fieldCount {
        index, fieldInfoIndex, submessageIndex, requiredFieldIndex := 0, 0, 0, 0;
      } else {
        LoadAt(es, index - 1, fieldInfo);
        CodeWidth(es[index - 1]);
        var prev := fieldInfo[fieldInfoIndex];
        var prevType := (prev / 0x100) % 0x100;
        fieldInfoIndex := fieldInfoIndex + Pow2(prev % 4);
        requiredFieldIndex := requiredFieldIndex + if (prevType / 0x10) % 4 == 0 then 1 else 0;
        submessageIndex := submessageIndex + if prevType % 0x10 == 8 || prevType % 0x10 == 9 then 1 else 0;
      }
    }

    /** `pb_field_iter_next` */
    method Next(ghost es: seq<Entry>) returns (more: bool)
      requires Describes(es) && On(es) && es != []
      modifies this
      ensures On(es) && index == if old(index) + 1 < |es| then old(index) + 1 else 0
      ensures more <==> old(index) + 1 < |es|
    {
      Advance(es);
      var loaded := LoadValues(es);
      more := index != 0;
    }

    /** The test inside the search loop: a fast check of the low tag bits, then the
        whole field. */
    method Check(ghost es: seq<Entry>, wanted: nat) returns (hit: bool)
      requires Describes(es) && At(es, index) && index < |es|
      modifies this`tag, this`info
      ensures hit <==> Matches(es[index], wanted)
      ensures hit ==> On(es)
    {
      hide Layout, Load, Pack, Start;
      LoadAt(es, index, fieldInfo);
      var fieldinfo := fieldInfo[fieldInfoIndex];
      hit := false;
      if (fieldinfo / 4) % 0x40 == wanted % 0x40 {
        var candidate := LoadValues(es);
        hit := tag == wanted && info.ftype % 0x10 != LTYPE_EXTENSION;
      }
    }

    /** `pb_field_iter_find` */
    method Find(ghost es: seq<Entry>, wanted: nat) returns (found: bool)
      requires Describes(es) && On(es)
      modifies this
      ensures On(es)
      ensures es == [] ==> found == (wanted == 0)
      ensures es != [] ==> found == Search(es, old(index), wanted).Some?
      ensures es != [] && found ==> index == Search(es, old(index), wanted).value
      ensures !found ==> index == old(index)
    {
      hide Layout, Pack, Load, Loadable, FirstDigits, Start, RequiredCount, SubmsgCount, AllOk, Matches;
      if tag == wanted {
        return true;
      } else if wanted > largestTag {
        return false;
      }
      var start := index;
      ghost var back, wrapped := wanted < tag, false;
      if wanted < tag {
        index := fieldCount;
      }
      while true
        invariant start < |es| && wanted != es[start].info.tag && wanted <= es[|es| - 1].info.tag
        invariant back == (wanted < es[start].info.tag)
        invariant wrapped ==> At(es, index) && index < start
        invariant wrapped ==> First(es, wanted, 0, start + 1) == First(es, wanted, index + 1, start + 1)
        invariant wrapped && !back ==> First(es, wanted, start + 1, |es|) == None
        invariant !wrapped && back ==> index == |es|
        invariant !wrapped && !back ==> At(es, index) && start <= index < |es|
        invariant !wrapped && !back ==> First(es, wanted, start + 1, |es|) == First(es, wanted, index + 1, |es|)
        decreases if wrapped then start - index else |es| - index + start + 2
      {
        wrapped := wrapped || index + 1 >= |es|;
        Advance(es);
        var hit := Check(es, wanted);
        if hit {
          return true;
        }
        if index == start {
          break;
        }
      }
      var loaded := LoadValues(es);
      found := false;
    }
  }
}
