/**
 Tagged unions whose tags have several widths: the checks of the bitfield
 generator, and the tag reader that it emits.
 */
module TagClasses {
  import opened Words
  import opened Bits

  /** An element's tag value, and where its block keeps the tag field. */
  datatype Element = Element(name: string, value: nat, width: nat, offset: nat, highAligned: bool, base: nat, size: nat)

  /** What `make_classes` records.  Masks are relative to the class offset. */
  datatype Classes = Classes(tagOffset: map<nat, nat>, classOffset: nat, masks: map<nat, nat>, widths: seq<nat>)

  function Shift(m: nat, k: nat): nat {
    MulNonNegative(m, Pow2(k));
    m * Pow2(k)
  }

  /** `(2 ** width - 1) << offset` */
  function FieldBits(width: nat, offset: nat): nat { Shift(Pow2(width) - 1, offset) }

  /** The offset of the last element with each width. */
  function Offsets(es: seq<Element>): map<nat, nat> {
    if es == [] then map[] else var e := es[|es| - 1]; Offsets(es[..|es| - 1])[e.width := e.offset]
  }

  predicate IsLeast(x: nat, m: map<nat, nat>) {
    (exists w :: w in m && m[w] == x) && forall w :: w in m ==> x <= m[w]
  }

  ghost predicate SortedKeys(ws: seq<nat>, keys: set<nat>) {
    && (forall i, j :: 0 <= i < j < |ws| ==> ws[i] < ws[j])
    && (forall w :: w in ws <==> w in keys)
  }

  /** Offsets and widths are those of the elements. */
  ghost predicate Recorded(c: Classes, es: seq<Element>) {
    && c.tagOffset == Offsets(es) && IsLeast(c.classOffset, c.tagOffset)
    && c.masks.Keys == c.tagOffset.Keys && SortedKeys(c.widths, c.masks.Keys)
  }

  predicate WidthsKnown(c: Classes) {
    && (forall w :: w in c.widths ==> w in c.masks && w in c.tagOffset)
    && (forall w :: w in c.tagOffset ==> c.classOffset <= c.tagOffset[w])
  }

  /** The sanity checks on the masks */
  predicate MasksOk(c: Classes)
    requires WidthsKnown(c)
  {
    var ws := c.widths;
    && (forall i :: 0 <= i < |ws| ==>
          var field := FieldBits(ws[i], c.tagOffset[ws[i]]);
          Or(Shift(c.masks[ws[i]], c.classOffset), field) == field)
    && !(|ws| > 1 && c.masks[ws[0]] == 0)
    && !(exists i :: 1 <= i < |ws| - 1 && c.masks[ws[i - 1]] == c.masks[ws[i]])
    && (forall i :: 1 <= i < |ws| ==> And(c.masks[ws[i]], c.masks[ws[i - 1]]) == c.masks[ws[i - 1]])
  }

  /** `assert_value_in_class` for the value of an element of the i-th width */
  predicate ValueInClass(c: Classes, value: nat, i: nat)
    requires WidthsKnown(c) && i < |c.widths|
  {
    var w := c.widths[i];
    var field := FieldBits(w, c.tagOffset[w]);
    var cvalue := Shift(value, c.tagOffset[w] - c.classOffset);
    && Or(Shift(value, c.tagOffset[w]), field) == field
    && (forall k :: 0 <= k < i ==> And(cvalue, c.masks[c.widths[k]]) == c.masks[c.widths[k]])
    && !(i + 1 < |c.widths| && And(cvalue, c.masks[w]) == c.masks[w])
  }

  /** The checks of `resolve` on one element */
  predicate ElementOk(c: Classes, e: Element)
    requires WidthsKnown(c)
  {
    && e.width in c.tagOffset && e.offset == c.tagOffset[e.width] && !e.highAligned
    && exists i :: 0 <= i < |c.widths| && c.widths[i] == e.width && ValueInClass(c, e.value, i)
  }

  predicate DistinctTags(es: seq<Element>) {
    forall i, j :: 0 <= i < j < |es| ==> es[i].name != es[j].name && es[i].value != es[j].value
  }

  /** All blocks have one word size and one length. */
  predicate OneShape(es: seq<Element>) {
    forall i, j :: 0 <= i < j < |es| ==> es[i].base == es[j].base && es[i].size == es[j].size
  }

  /** `set_base`: all tag fields lie in one word. */
  predicate SameWord(c: Classes, base: nat)
    requires base > 0
  {
    forall w, v :: w in c.tagOffset && v in c.tagOffset ==> c.tagOffset[w] / base == c.tagOffset[v] / base
  }

  /** Unions that `resolve` and `set_base` accept */
  ghost predicate Accepted(c: Classes, es: seq<Element>, base: nat) {
    && base > 0 && Recorded(c, es) && WidthsKnown(c) && MasksOk(c) && SameWord(c, base)
    && (forall i :: 0 <= i < |es| ==> ElementOk(c, es[i])) && DistinctTags(es) && OneShape(es)
  }

  // ---------------------------------------------------------------------------
  // The emitted reader

  /** `word_classmask` */
  function WordClassmask(c: Classes, i: nat, base: nat): nat
    requires base > 0 && WidthsKnown(c) && i < |c.widths|
  {
    Shift(c.masks[c.widths[i]], c.classOffset % base)
  }

  /** The word that the reader looks at for a width. */
  function WordOf(c: Classes, i: nat, base: nat, words: seq<nat>): nat
    requires base > 0 && WidthsKnown(c) && i < |c.widths|
  {
    var index := c.tagOffset[c.widths[i]] / base;
    if 0 <= index < |words| then words[index] else 0
  }

  /** The reader from its i-th test on: the width it stops at and the tag. */
  function ReadFrom(c: Classes, base: nat, words: seq<nat>, i: nat): (nat, nat)
    requires base > 0 && WidthsKnown(c) && i < |c.widths|
    decreases |c.widths| - i
  {
    var w, word, classmask := c.widths[i], WordOf(c, i, base, words), WordClassmask(c, i, base);
    if i + 1 < |c.widths| && And(word, classmask) == classmask then ReadFrom(c, base, words, i + 1)
    else (w, Low(Shr(word, c.tagOffset[w] % base), w))
  }

  /** A value of the union whose tag field is the element's; all other bits are
      arbitrary. */
  predicate Holds(words: seq<nat>, e: Element, base: nat)
    requires base > 0
  {
    && 0 <= e.offset / base < |words|
    && Low(Shr(words[e.offset / base], e.offset % base), e.width) == e.value
  }

  // ---------------------------------------------------------------------------
  // Decodability

  lemma {:induction false} FieldBit(width: nat, offset: nat, i: nat)
    ensures Bit(FieldBits(width, offset), i) <==> offset <= i < offset + width
  {
    hide Bit, Pow2;
    ShiftBit(Pow2(width) - 1, offset, i);
    if i >= offset { OnesBits(width, i - offset); }
  }

  /** The bits of the word inside the tag field are those of the value. */
  lemma {:induction false} TagBit(word: nat, s: nat, width: nat, value: nat, k: nat)
    requires Low(Shr(word, s), width) == value
    ensures Bit(value, k) <==> k < width && Bit(word, s + k)
  {
    hide Bit, Low, Shr;
    LowBit(Shr(word, s), width, k);
    UnshiftBit(word, s, k);
  }

  lemma {:induction false} OffsetsInWord(a: nat, b: nat, base: nat)
    requires base > 0 && a <= b && a / base == b / base
    ensures b % base - a % base == b - a
  {
    assert a == base * (a / base) + a % base && b == base * (b / base) + b % base;
  }

  /** The masks of the smaller widths are all ones in the word. */
  lemma {:induction false} PassesSmaller(word: nat, base: nat, value: nat, width: nat, offset: nat,
                                         classOffset: nat, mask: nat)
    requires base > 0 && classOffset <= offset && classOffset / base == offset / base
    requires Low(Shr(word, offset % base), width) == value
    requires And(Shift(value, offset - classOffset), mask) == mask
    ensures var m := Shift(mask, classOffset % base); And(word, m) == m
  {
    hide Bit, And, Low, Shr;
    var c, s, d := classOffset % base, offset % base, offset - classOffset;
    OffsetsInWord(classOffset, offset, base);
    AndIsMask(Shift(value, d), mask);
    AndIsMask(word, Shift(mask, c));
    forall i: nat | Bit(Shift(mask, c), i) ensures Bit(word, i) {
      ShiftBit(mask, c, i);
      ShiftBit(value, d, i - c);
      assert Bit(mask, i - c);
      TagBit(word, s, width, value, i - c - d);
    }
  }

  /** The mask of the element's own width has a bit that is zero in the word. */
  lemma {:induction false} StopsAtOwn(word: nat, base: nat, value: nat, width: nat, offset: nat, classOffset: nat,
                                      mask: nat)
    requires base > 0 && classOffset <= offset && classOffset / base == offset / base
    requires Low(Shr(word, offset % base), width) == value
    requires And(Shift(value, offset - classOffset), mask) != mask
    requires Or(Shift(mask, classOffset), FieldBits(width, offset)) == FieldBits(width, offset)
    ensures var m := Shift(mask, classOffset % base); And(word, m) != m
  {
    hide Bit, And, Or, Low, Shr, FieldBits;
    var c, s, d := classOffset % base, offset % base, offset - classOffset;
    OffsetsInWord(classOffset, offset, base);
    AndIsMask(Shift(value, d), mask);
    var t: nat :| Bit(mask, t) && !Bit(Shift(value, d), t);
    OrIsMask(Shift(mask, classOffset), FieldBits(width, offset));
    ShiftBit(mask, classOffset, t + classOffset);
    FieldBit(width, offset, t + classOffset);
    assert Bit(Shift(mask, classOffset), t + classOffset);
    ShiftBit(value, d, t);
    TagBit(word, s, width, value, t - d);
    ShiftBit(mask, c, t + c);
    AndIsMask(word, Shift(mask, c));
    assert Bit(Shift(mask, c), t + c) && !Bit(word, t + c);
  }

  lemma {:induction false} ReadReaches(c: Classes, base: nat, words: seq<nat>, e: Element, j: nat, i: nat)
    requires base > 0 && WidthsKnown(c) && MasksOk(c) && SameWord(c, base)
    requires exists w :: w in c.tagOffset && c.tagOffset[w] == c.classOffset
    requires i <= j < |c.widths| && c.widths[j] == e.width && e.offset == c.tagOffset[e.width]
    requires ValueInClass(c, e.value, j) && Holds(words, e, base)
    ensures ReadFrom(c, base, words, i) == (e.width, e.value)
    decreases j - i
  {
    hide And, Or, Shift, FieldBits, Low, Shr;
    var word := words[e.offset / base];
    var w := c.widths[i];
    assert c.tagOffset[w] / base == e.offset / base == c.classOffset / base;
    if i < j {
      PassesSmaller(word, base, e.value, e.width, e.offset, c.classOffset, c.masks[w]);
      ReadReaches(c, base, words, e, j, i + 1);
    } else if i + 1 < |c.widths| {
      StopsAtOwn(word, base, e.value, e.width, e.offset, c.classOffset, c.masks[w]);
    }
  }

  /** In every accepted union, the reader applied to any value that holds an
      element's tag stops at that element's width and returns its tag. */
  lemma {:induction false} TagDecodable(c: Classes, es: seq<Element>, base: nat, n: nat, words: seq<nat>)
    requires Accepted(c, es, base) && n < |es| && Holds(words, es[n], base)
    ensures |c.widths| > 0 && ReadFrom(c, base, words, 0) == (es[n].width, es[n].value)
  {
    hide MasksOk, ValueInClass, Holds, ReadFrom;
    assert ElementOk(c, es[n]);
    var j :| 0 <= j < |c.widths| && c.widths[j] == es[n].width && ValueInClass(c, es[n].value, j);
    ReadReaches(c, base, words, es[n], j, 0);
  }

  /** No value of the union can be taken for two elements. */
  lemma {:induction false} NeverConfused(c: Classes, es: seq<Element>, base: nat, m: nat, n: nat, words: seq<nat>)
    requires Accepted(c, es, base) && m < |es| && n < |es|
    requires Holds(words, es[m], base) && Holds(words, es[n], base)
    ensures m == n
  {
    TagDecodable(c, es, base, m, words);
    TagDecodable(c, es, base, n, words);
  }

  // ---------------------------------------------------------------------------
  // What the checks mean, bit by bit

  /** Shifted to the class offset, the mask's bits are those of the field. */
  ghost predicate InField(mask: nat, classOffset: nat, width: nat, offset: nat) {
    forall b: nat :: Bit(mask, b) ==> offset <= classOffset + b < offset + width
  }

  ghost predicate Inside(a: nat, b: nat) { forall i: nat :: Bit(a, i) ==> Bit(b, i) }

  lemma {:induction false} InFieldIff(mask: nat, classOffset: nat, width: nat, offset: nat)
    ensures Or(Shift(mask, classOffset), FieldBits(width, offset)) == FieldBits(width, offset) <==>
            InField(mask, classOffset, width, offset)
  {
    hide Bit, Or, Shift, FieldBits;
    var x, field := Shift(mask, classOffset), FieldBits(width, offset);
    OrIsMask(x, field);
    forall b: nat ensures Bit(x, b + classOffset) <==> Bit(mask, b) { ShiftedBit(mask, classOffset, b + classOffset); }
    if Or(x, field) == field {
      forall b: nat | Bit(mask, b) ensures offset <= classOffset + b < offset + width {
        assert Bit(x, b + classOffset);
        FieldBit(width, offset, b + classOffset);
      }
    }
    if InField(mask, classOffset, width, offset) {
      forall i: nat | Bit(x, i) ensures Bit(field, i) {
        ShiftedBit(mask, classOffset, i);
        assert Bit(mask, i - classOffset);
        FieldBit(width, offset, i);
      }
    }
  }

  lemma {:induction false} ShiftedBit(x: nat, k: nat, i: nat)
    ensures Bit(Shift(x, k), i) <==> i >= k && Bit(x, i - k)
  {
    hide Bit, Pow2;
    ShiftBit(x, k, i);
  }

  lemma {:induction false} OneBit(x: nat) returns (i: nat)
    requires x != 0
    ensures Bit(x, i)
  {
    if x % 2 == 1 {
      i := 0;
    } else {
      var j := OneBit(x / 2);
      i := j + 1;
    }
  }

  ghost predicate Empty(x: nat) { forall i: nat :: !Bit(x, i) }

  lemma {:induction false} EmptyIff(x: nat)
    ensures Empty(x) <==> x == 0
  {
    hide Bit;
    if x == 0 {
      forall i: nat ensures !Bit(x, i) { ZeroBits(i); }
    } else {
      var i := OneBit(x);
      assert Bit(x, i);
    }
  }

  /** The masks are accepted exactly when each lies in its field and in the next one,
      the first of several is not empty, and only the last may repeat. */
  lemma {:induction false} MasksMean(c: Classes)
    requires WidthsKnown(c)
    ensures var ws := c.widths;
            MasksOk(c) <==>
            && (forall i :: 0 <= i < |ws| ==> InField(c.masks[ws[i]], c.classOffset, ws[i], c.tagOffset[ws[i]]))
            && (|ws| > 1 ==> !Empty(c.masks[ws[0]]))
            && (forall i :: 1 <= i < |ws| - 1 ==> !Inside(c.masks[ws[i]], c.masks[ws[i - 1]]))
            && (forall i :: 1 <= i < |ws| ==> Inside(c.masks[ws[i - 1]], c.masks[ws[i]]))
  {
    hide Or, And, Shift, FieldBits, InField, Inside, Empty;
    var ws := c.widths;
    forall i | 0 <= i < |ws|
      ensures Or(Shift(c.masks[ws[i]], c.classOffset), FieldBits(ws[i], c.tagOffset[ws[i]]))
              == FieldBits(ws[i], c.tagOffset[ws[i]]) <==>
              InField(c.masks[ws[i]], c.classOffset, ws[i], c.tagOffset[ws[i]])
    {
      InFieldIff(c.masks[ws[i]], c.classOffset, ws[i], c.tagOffset[ws[i]]);
    }
    if |ws| > 1 { EmptyIff(c.masks[ws[0]]); }
    forall i | 1 <= i < |ws|
      ensures And(c.masks[ws[i]], c.masks[ws[i - 1]]) == c.masks[ws[i - 1]] <==>
              Inside(c.masks[ws[i - 1]], c.masks[ws[i]])
      ensures Inside(c.masks[ws[i - 1]], c.masks[ws[i]]) ==>
                (c.masks[ws[i - 1]] == c.masks[ws[i]] <==> Inside(c.masks[ws[i]], c.masks[ws[i - 1]]))
    {
      InsideIff(c.masks[ws[i - 1]], c.masks[ws[i]]);
    }
  }

  lemma {:induction false} InsideIff(a: nat, b: nat)
    ensures And(b, a) == a <==> Inside(a, b)
    ensures Inside(a, b) ==> (a == b <==> Inside(b, a))
  {
    hide And;
    AndIsMask(b, a);
    if And(b, a) == a {
      forall i: nat | Bit(a, i) ensures Bit(b, i) { }
    } else {
      var i: nat :| Bit(a, i) && !Bit(b, i);
    }
    if Inside(a, b) && Inside(b, a) { BitsDecide(a, b); }
  }

  /** A value is accepted for its width exactly when it fits the field, has all bits of
      the smaller widths' masks, and lacks one of its own, unless it has the largest
      width. */
  lemma {:induction false} ValueMeans(c: Classes, value: nat, i: nat)
    requires WidthsKnown(c) && i < |c.widths|
    ensures var w := c.widths[i];
            var cvalue := Shift(value, c.tagOffset[w] - c.classOffset);
            ValueInClass(c, value, i) <==>
            && InField(value, c.tagOffset[w], w, c.tagOffset[w])
            && (forall k :: 0 <= k < i ==> Inside(c.masks[c.widths[k]], cvalue))
            && (i + 1 < |c.widths| ==> !Inside(c.masks[w], cvalue))
  {
    hide Or, And, Shift, FieldBits, InField, Inside;
    var w := c.widths[i];
    var cvalue := Shift(value, c.tagOffset[w] - c.classOffset);
    InFieldIff(value, c.tagOffset[w], w, c.tagOffset[w]);
    InsideIff(c.masks[w], cvalue);
    forall k | 0 <= k < i
      ensures And(cvalue, c.masks[c.widths[k]]) == c.masks[c.widths[k]] <==> Inside(c.masks[c.widths[k]], cvalue)
    {
      InsideIff(c.masks[c.widths[k]], cvalue);
    }
  }

  // ---------------------------------------------------------------------------
  // The checks are needed

  /** The union with the element's tag, and zeros elsewhere. */
  function Bare(e: Element, base: nat): (words: seq<nat>)
    requires base > 0
  {
    DivNonNegative(e.offset, base);
    seq(e.offset / base + 1, _ => Shift(e.value, e.offset % base))
  }

  lemma {:induction false} BareHolds(e: Element, base: nat)
    requires base > 0 && InField(e.value, e.offset, e.width, e.offset)
    ensures Holds(Bare(e, base), e, base)
  {
    hide Bit, Low, Shr, Shift;
    var s := e.offset % base;
    var word := Shift(e.value, s);
    forall k: nat ensures Bit(Low(Shr(word, s), e.width), k) <==> Bit(e.value, k) {
      LowBit(Shr(word, s), e.width, k);
      UnshiftBit(word, s, k);
      ShiftedBit(e.value, s, k + s);
      if Bit(e.value, k) { assert e.offset + k < e.offset + e.width; }
    }
    BitsDecide(Low(Shr(word, s), e.width), e.value);
  }

  lemma {:induction false} HeldFits(words: seq<nat>, e: Element, base: nat)
    requires base > 0 && Holds(words, e, base)
    ensures InField(e.value, e.offset, e.width, e.offset)
  {
    hide Bit, Low, Shr;
    forall k: nat | Bit(e.value, k) ensures k < e.width {
      TagBit(words[e.offset / base], e.offset % base, e.width, e.value, k);
    }
  }

  /** The reader stops at its i-th test or later. */
  lemma {:induction false} ReadsOn(c: Classes, base: nat, words: seq<nat>, i: nat)
    requires base > 0 && WidthsKnown(c) && i < |c.widths|
    requires forall i, j :: 0 <= i < j < |c.widths| ==> c.widths[i] < c.widths[j]
    ensures ReadFrom(c, base, words, i).0 >= c.widths[i]
    decreases |c.widths| - i
  {
    hide And, Low, Shr, WordOf, WordClassmask;
    if i + 1 < |c.widths| { ReadsOn(c, base, words, i + 1); }
  }

  /** A reader that stops at width j has passed the tests of all smaller ones. */
  lemma {:induction false} PassedTests(c: Classes, base: nat, words: seq<nat>, j: nat, i: nat)
    requires base > 0 && WidthsKnown(c) && i <= j < |c.widths|
    requires forall i, j :: 0 <= i < j < |c.widths| ==> c.widths[i] < c.widths[j]
    requires ReadFrom(c, base, words, i).0 == c.widths[j]
    ensures forall k :: i <= k < j ==> Passes(c, base, words, k)
    ensures j + 1 < |c.widths| ==> !Passes(c, base, words, j)
    decreases j - i
  {
    hide And, Low, Shr, WordOf, WordClassmask;
    if i < j {
      PassedTests(c, base, words, j, i + 1);
    } else if i + 1 < |c.widths| {
      ReadsOn(c, base, words, i + 1);
    }
  }

  predicate Passes(c: Classes, base: nat, words: seq<nat>, k: nat)
    requires base > 0 && WidthsKnown(c) && k < |c.widths|
  {
    And(WordOf(c, k, base, words), WordClassmask(c, k, base)) == WordClassmask(c, k, base)
  }

  /** In the bare union the reader's test is the generator's. */
  lemma {:induction false} SameTest(value: nat, d: nat, c: nat, mask: nat)
    ensures And(Shift(value, c + d), Shift(mask, c)) == Shift(mask, c) <==> And(Shift(value, d), mask) == mask
  {
    hide Bit, And, Shift;
    InsideIff(Shift(mask, c), Shift(value, c + d));
    InsideIff(mask, Shift(value, d));
    if Inside(mask, Shift(value, d)) {
      forall i: nat | Bit(Shift(mask, c), i) ensures Bit(Shift(value, c + d), i) {
        ShiftedBit(mask, c, i);
        assert Bit(mask, i - c);
        ShiftedBit(value, d, i - c);
        ShiftedBit(value, c + d, i);
      }
    }
    if Inside(Shift(mask, c), Shift(value, c + d)) {
      forall i: nat | Bit(mask, i) ensures Bit(Shift(value, d), i) {
        ShiftedBit(mask, c, i + c);
        assert Bit(Shift(mask, c), i + c);
        ShiftedBit(value, c + d, i + c);
        ShiftedBit(value, d, i);
      }
    }
  }

  lemma {:induction false} BareTest(c: Classes, e: Element, base: nat, k: nat)
    requires base > 0 && WidthsKnown(c) && SameWord(c, base) && k < |c.widths|
    requires exists w :: w in c.tagOffset && c.tagOffset[w] == c.classOffset
    requires e.width in c.tagOffset && e.offset == c.tagOffset[e.width]
    ensures Passes(c, base, Bare(e, base), k) <==>
            And(Shift(e.value, e.offset - c.classOffset), c.masks[c.widths[k]]) == c.masks[c.widths[k]]
  {
    hide And, Shift;
    assert c.tagOffset[c.widths[k]] / base == e.offset / base == c.classOffset / base;
    OffsetsInWord(c.classOffset, e.offset, base);
    SameTest(e.value, e.offset - c.classOffset, c.classOffset % base, c.masks[c.widths[k]]);
  }

  /** The check on values is exact: it accepts those, and only those, that some union
      can hold and the reader finds in every union that holds them. */
  lemma {:induction false} ChecksNeeded(c: Classes, e: Element, base: nat, i: nat)
    requires base > 0 && WidthsKnown(c) && MasksOk(c) && SameWord(c, base)
    requires IsLeast(c.classOffset, c.tagOffset) && SortedKeys(c.widths, c.masks.Keys)
    requires i < |c.widths| && c.widths[i] == e.width && e.offset == c.tagOffset[e.width]
    ensures ValueInClass(c, e.value, i) <==>
            && (exists words :: Holds(words, e, base))
            && (forall words :: Holds(words, e, base) ==> ReadFrom(c, base, words, 0) == (e.width, e.value))
  {
    hide MasksOk, ValueInClass, ReadFrom, Holds, Shift, FieldBits, InField, And, Or;
    InFieldIff(e.value, e.offset, e.width, e.offset);
    if ValueInClass(c, e.value, i) {
      ValueFits(c, e, i);
      BareHolds(e, base);
      forall words | Holds(words, e, base) ensures ReadFrom(c, base, words, 0) == (e.width, e.value) {
        ReadReaches(c, base, words, e, i, 0);
      }
    }
    if (exists words :: Holds(words, e, base))
       && (forall words :: Holds(words, e, base) ==> ReadFrom(c, base, words, 0) == (e.width, e.value)) {
      var words :| Holds(words, e, base);
      HeldFits(words, e, base);
      BareHolds(e, base);
      PassedTests(c, base, Bare(e, base), i, 0);
      ValueChecked(c, e, base, i);
    }
  }

  lemma {:induction false} ValueFits(c: Classes, e: Element, i: nat)
    requires WidthsKnown(c) && i < |c.widths| && c.widths[i] == e.width && e.offset == c.tagOffset[e.width]
    requires ValueInClass(c, e.value, i)
    ensures InField(e.value, e.offset, e.width, e.offset)
  {
    hide Shift, FieldBits, InField, And, Or;
    InFieldIff(e.value, e.offset, e.width, e.offset);
  }

  lemma {:induction false} ValueChecked(c: Classes, e: Element, base: nat, i: nat)
    requires base > 0 && WidthsKnown(c) && SameWord(c, base) && IsLeast(c.classOffset, c.tagOffset)
    requires i < |c.widths| && c.widths[i] == e.width && e.offset == c.tagOffset[e.width]
    requires InField(e.value, e.offset, e.width, e.offset)
    requires forall k :: 0 <= k < i ==> Passes(c, base, Bare(e, base), k)
    requires i + 1 < |c.widths| ==> !Passes(c, base, Bare(e, base), i)
    ensures ValueInClass(c, e.value, i)
  {
    hide Shift, FieldBits, InField, And, Or, Bare, Passes;
    InFieldIff(e.value, e.offset, e.width, e.offset);
    forall k | 0 <= k <= i
      ensures Passes(c, base, Bare(e, base), k) <==>
              And(Shift(e.value, e.offset - c.classOffset), c.masks[c.widths[k]]) == c.masks[c.widths[k]]
    {
      BareTest(c, e, base, k);
    }
  }

  // ---------------------------------------------------------------------------
  // The generator's checks

  method LeastOf(s: set<nat>) returns (x: nat)
    requires s != {}
    ensures x in s && forall y :: y in s ==> x <= y
  {
    x :| x in s;
    var rest := s - {x};
    while rest != {}
      invariant rest <= s && x in s
      invariant forall y :: y in s && y !in rest ==> x <= y
      decreases |rest|
    {
      var y :| y in rest;
      if y < x {
        x := y;
      }
      rest := rest - {y};
    }
  }

  method Sort(keys: set<nat>) returns (ws: seq<nat>)
    ensures SortedKeys(ws, keys)
  {
    ws := [];
    var rest := keys;
    while rest != {}
      invariant rest <= keys && SortedKeys(ws, keys - rest)
      invariant forall i, k :: 0 <= i < |ws| && k in rest ==> ws[i] < k
      decreases |rest|
    {
      var x := LeastOf(rest);
      ws, rest := ws + [x], rest - {x};
    }
  }

  lemma {:induction false} OffsetsKnown(es: seq<Element>, i: nat)
    requires i < |es|
    ensures es[i].width in Offsets(es)
  {
    if i < |es| - 1 { OffsetsKnown(es[..|es| - 1], i); }
  }

  class TaggedUnion {
    const elements: seq<Element>
    /** Masks as written, relative to the field; may be empty. */
    const declared: map<nat, nat>
    var c: Classes

    constructor (elements: seq<Element>, declared: map<nat, nat>)
      ensures this.elements == elements && this.declared == declared
    {
      this.elements, this.declared := elements, declared;
      c := Classes(map[], 0, map[], []);
    }

    /** Masks relative to the class offset; without declared masks, a zero mask for
        the least width. */
    ghost predicate Relative(masks: map<nat, nat>, offsets: map<nat, nat>, least: nat)
      requires forall w :: w in offsets ==> least <= offsets[w]
    {
      && masks.Keys <= offsets.Keys
      && if declared == map[] then
           masks != map[] && forall w :: w in masks ==> masks[w] == 0 && forall v :: v in offsets ==> w <= v
         else
           masks.Keys == declared.Keys && forall w :: w in masks ==> masks[w] == Shift(declared[w], offsets[w] - least)
    }

    /** `make_classes`; a mask for a width that no element has is an error. */
    method MakeClasses() returns (ok: bool)
      requires elements != []
      modifies this
      ensures c.tagOffset == Offsets(elements) && IsLeast(c.classOffset, c.tagOffset)
      ensures declared.Keys <= c.tagOffset.Keys ==>
                Relative(c.masks, c.tagOffset, c.classOffset) && SortedKeys(c.widths, c.masks.Keys) && WidthsKnown(c)
      ensures ok <==> declared.Keys <= c.tagOffset.Keys && c.masks.Keys == c.tagOffset.Keys && MasksOk(c)
      ensures ok ==> Recorded(c, elements)
    {
      hide Shift, MasksOk, Offsets;
      var offsets := CollectOffsets();
      var least := LeastOffset(offsets);
      c := Classes(offsets, least, map[], []);
      if !(declared.Keys <= offsets.Keys) {
        return false;
      }
      var masks := RelativeMasks(offsets, least);
      var widths := Sort(masks.Keys);
      c := Classes(offsets, least, masks, widths);
      if masks.Keys != offsets.Keys {
        return false;
      }
      ok := CheckMasks(c);
    }

    /** The checks on the masks: inside their fields, the first not zero, no
        duplicate but the last, each inside the next. */
    method CheckMasks(c: Classes) returns (ok: bool)
      requires WidthsKnown(c)
      ensures ok <==> MasksOk(c)
    {
      hide Shift, FieldBits, Or, And;
      var ws := c.widths;
      for i := 0 to |ws|
        invariant forall k :: 0 <= k < i ==>
                    var field := FieldBits(ws[k], c.tagOffset[ws[k]]);
                    Or(Shift(c.masks[ws[k]], c.classOffset), field) == field
      {
        var field := FieldBits(ws[i], c.tagOffset[ws[i]]);
        if Or(Shift(c.masks[ws[i]], c.classOffset), field) != field {
          return false;
        }
      }
      if |ws| > 1 && c.masks[ws[0]] == 0 {
        return false;
      }
      var i := 1;
      while i < |ws| - 1
        invariant 1 <= i && forall k :: 1 <= k < i && k < |ws| - 1 ==> c.masks[ws[k - 1]] != c.masks[ws[k]]
      {
        if c.masks[ws[i - 1]] == c.masks[ws[i]] {
          return false;
        }
        i := i + 1;
      }
      ok := MasksNested(c);
    }

    method MasksNested(c: Classes) returns (ok: bool)
      requires WidthsKnown(c)
      ensures var ws := c.widths;
              ok <==> forall i :: 1 <= i < |ws| ==> And(c.masks[ws[i]], c.masks[ws[i - 1]]) == c.masks[ws[i - 1]]
    {
      hide And;
      var ws := c.widths;
      if ws == [] {
        return true;
      }
      var preMask := c.masks[ws[0]];
      for i := 1 to |ws|
        invariant preMask == c.masks[ws[i - 1]]
        invariant forall k :: 1 <= k < i ==> And(c.masks[ws[k]], c.masks[ws[k - 1]]) == c.masks[ws[k - 1]]
      {
        if And(c.masks[ws[i]], preMask) != preMask {
          return false;
        }
        preMask := c.masks[ws[i]];
      }
      ok := true;
    }

    /** The duplicate checks of `resolve_tag_values` */
    method TagsDiffer() returns (ok: bool)
      ensures ok <==> DistinctTags(elements)
    {
      var names: set<string>, values: set<nat> := {}, {};
      var n := 0;
      while n < |elements|
        invariant 0 <= n <= |elements| && DistinctTags(elements[..n])
        invariant forall v :: v in values <==> exists i :: 0 <= i < n && elements[i].value == v
        invariant forall v :: v in names <==> exists i :: 0 <= i < n && elements[i].name == v
      {
        if elements[n].name in names || elements[n].value in values {
          return false;
        }
        names, values := names + {elements[n].name}, values + {elements[n].value};
        n := n + 1;
      }
      assert elements[..n] == elements;
      ok := true;
    }

    /** `assert_value_in_class` */
    method AssertValueInClass(value: nat, width: nat) returns (ok: bool)
      requires WidthsKnown(c) && width in c.tagOffset && SortedKeys(c.widths, c.tagOffset.Keys)
      ensures ok <==> exists i :: 0 <= i < |c.widths| && c.widths[i] == width && ValueInClass(c, value, i)
    {
      hide Or, And, Shift, FieldBits;
      var field := FieldBits(width, c.tagOffset[width]);
      var cvalue := Shift(value, c.tagOffset[width] - c.classOffset);
      ghost var at: nat :| at < |c.widths| && c.widths[at] == width;
      if Or(Shift(value, c.tagOffset[width]), field) != field {
        assert forall i :: 0 <= i < |c.widths| && c.widths[i] == width ==> i == at;
        return false;
      }
      var k := 0;
      while c.widths[k] < width
        invariant 0 <= k <= at
        invariant forall j :: 0 <= j < k ==> And(cvalue, c.masks[c.widths[j]]) == c.masks[c.widths[j]]
        decreases at - k
      {
        if And(cvalue, c.masks[c.widths[k]]) != c.masks[c.widths[k]] {
          assert forall i :: 0 <= i < |c.widths| && c.widths[i] == width ==> i == at;
          return false;
        }
        k := k + 1;
      }
      assert k == at;
      assert forall i :: 0 <= i < |c.widths| && c.widths[i] == width ==> i == at;
      ok := !(k + 1 < |c.widths| && And(cvalue, c.masks[width]) == c.masks[width]);
    }

    /** The loop of `resolve` over the elements */
    method CheckElements() returns (ok: bool)
      requires Recorded(c, elements) && WidthsKnown(c)
      ensures ok <==> (forall i :: 0 <= i < |elements| ==> ElementOk(c, elements[i])) && OneShape(elements)
    {
      hide ValueInClass, Offsets;
      if elements == [] {
        return true;
      }
      var unionBase, unionSize := elements[0].base, elements[0].size;
      var n := 0;
      while n < |elements|
        invariant 0 <= n <= |elements| && forall i :: 0 <= i < n ==> ElementOk(c, elements[i])
        invariant forall i :: 0 <= i < n ==> elements[i].base == unionBase && elements[i].size == unionSize
      {
        var e := elements[n];
        if e.base != unionBase || e.size != unionSize {
          return false;
        }
        OffsetsKnown(elements, n);
        if e.offset != c.tagOffset[e.width] {
          return false;
        }
        var inClass := AssertValueInClass(e.value, e.width);
        if !inClass || e.highAligned {
          return false;
        }
        n := n + 1;
      }
      ok := true;
    }

    /** `resolve` for a union with one tag field */
    method Resolve() returns (ok: bool)
      requires elements != []
      modifies this
      ensures c.tagOffset == Offsets(elements) && IsLeast(c.classOffset, c.tagOffset)
      ensures declared.Keys <= c.tagOffset.Keys ==>
                Relative(c.masks, c.tagOffset, c.classOffset) && SortedKeys(c.widths, c.masks.Keys) && WidthsKnown(c)
      ensures ok <==>
              && declared.Keys <= c.tagOffset.Keys && c.masks.Keys == c.tagOffset.Keys && MasksOk(c)
              && DistinctTags(elements) && OneShape(elements)
              && (forall i :: 0 <= i < |elements| ==> ElementOk(c, elements[i]))
      ensures ok ==> Recorded(c, elements)
    {
      hide MasksOk, ValueInClass, Relative, Offsets;
      ok := MakeClasses();
      if !ok {
        return;
      }
      ok := TagsDiffer();
      if !ok {
        return;
      }
      ok := CheckElements();
    }

    /** `set_base` */
    method SetBase(base: nat) returns (ok: bool)
      requires base > 0
      ensures ok <==> SameWord(c, base)
    {
      var rest := c.tagOffset.Keys;
      if rest == {} {
        return true;
      }
      var first :| first in rest;
      var tagIndex := c.tagOffset[first] / base;
      while rest != {}
        invariant rest <= c.tagOffset.Keys
        invariant forall w :: w in c.tagOffset && w !in rest ==> c.tagOffset[w] / base == tagIndex
        decreases |rest|
      {
        var w :| w in rest;
        if c.tagOffset[w] / base != tagIndex {
          return false;
        }
        rest := rest - {w};
      }
      ok := true;
    }

    /** What the two passes accept is what the decodability results are about. */
    method Accept(base: nat) returns (ok: bool)
      requires elements != [] && base > 0
      modifies this
      ensures ok <==>
              && declared.Keys <= c.tagOffset.Keys && c.masks.Keys == c.tagOffset.Keys && WidthsKnown(c) && MasksOk(c)
              && DistinctTags(elements) && OneShape(elements)
              && (forall i :: 0 <= i < |elements| ==> ElementOk(c, elements[i]))
              && SameWord(c, base)
      ensures ok ==> Accepted(c, elements, base)
    {
      hide MasksOk, ValueInClass, Relative, Offsets;
      ok := Resolve();
      if ok {
        ok := SetBase(base);
      }
    }

    method LeastOffset(offsets: map<nat, nat>) returns (least: nat)
      requires elements != [] && offsets == Offsets(elements)
      ensures IsLeast(least, offsets)
    {
      OffsetsKnown(elements, 0);
      assert offsets[elements[0].width] in offsets.Values;
      least := LeastOf(offsets.Values);
      forall w | w in offsets ensures least <= offsets[w] { assert offsets[w] in offsets.Values; }
    }

    method RelativeMasks(offsets: map<nat, nat>, least: nat) returns (masks: map<nat, nat>)
      requires elements != [] && offsets == Offsets(elements) && IsLeast(least, offsets)
      requires declared.Keys <= offsets.Keys
      ensures Relative(masks, offsets, least)
    {
      hide Shift;
      if declared == map[] {
        OffsetsKnown(elements, 0);
        var first := LeastOf(offsets.Keys);
        masks := map[first := 0];
        assert first in masks;
      } else {
        masks := map w | w in declared :: Shift(declared[w], offsets[w] - least);
      }
    }

    method CollectOffsets() returns (offsets: map<nat, nat>)
      ensures offsets == Offsets(elements)
    {
      offsets := map[];
      var i := 0;
      while i < |elements|
        invariant 0 <= i <= |elements| && offsets == Offsets(elements[..i])
      {
        offsets := offsets[elements[i].width := elements[i].offset];
        i := i + 1;
        assert elements[..i][..i - 1] == elements[..i - 1];
      }
      assert elements[..i] == elements;
    }
  }

  // ---------------------------------------------------------------------------
  // An accepted union

  /** Four-bit tags other than 0b11xx, and eight-bit tags that end in them. */
  const SMALL := Element("small", 5, 4, 0, false, 64, 128)
  const WIDE := Element("wide", 0x2C, 8, 0, false, 64, 128)
  const TWO_WIDTHS := Classes(map[4 := 0, 8 := 0], 0, map[4 := 0xC, 8 := 0xC], [4, 8])

  lemma {:induction false} SmallNumbers()
    ensures Or(0xC, 0xF) == 0xF && Or(0xC, 0xFF) == 0xFF && Or(5, 0xF) == 0xF && Or(0x2C, 0xFF) == 0xFF
  {
  }

  lemma {:induction false} SmallMasks()
    ensures And(0xC, 0xC) == 0xC && And(5, 0xC) == 4 && And(0x2C, 0xC) == 0xC
  {
    assert And(2, 0) == 0 && And(5, 1) == 1;
    assert And(3, 3) == 3 && And(11, 3) == 3;
  }

  lemma {:induction false} NoShift()
    ensures forall x: nat :: Shift(x, 0) == x
    ensures FieldBits(4, 0) == 0xF && FieldBits(8, 0) == 0xFF
  {
    assert Pow2(4) == 16;
    Pow2Add(4, 4);
  }

  lemma {:induction false} TwoWidthsRecorded()
    ensures Recorded(TWO_WIDTHS, [SMALL, WIDE]) && WidthsKnown(TWO_WIDTHS)
  {
    var c := TWO_WIDTHS;
    var none: seq<Element> := [];
    assert [SMALL, WIDE][..1] == [SMALL] && [SMALL][..0] == none;
    assert Offsets(none) == map[] && Offsets([SMALL]) == map[4 := 0];
    assert Offsets([SMALL, WIDE]) == map[4 := 0][8 := 0];
    assert c.tagOffset[4] == 0;
  }

  lemma {:induction false} TwoWidthsAccepted()
    ensures Accepted(TWO_WIDTHS, [SMALL, WIDE], 64)
  {
    hide Shift, FieldBits, Or, And, Recorded, Offsets;
    var c := TWO_WIDTHS;
    TwoWidthsRecorded();
    NoShift();
    SmallNumbers();
    SmallMasks();
    assert c.widths[0] == 4 && c.widths[1] == 8;
    assert ValueInClass(c, 5, 0);
    assert ValueInClass(c, 0x2C, 1);
    assert ElementOk(c, SMALL) && ElementOk(c, WIDE);
  }
}
