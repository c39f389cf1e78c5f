/**
 The two-level bitmap over the priorities that have a ready thread, for one
 scheduling domain.
 */
module ReadyQueues {
  import opened Words
  import opened Bits
  import opened BitScan

  const WORD_RADIX: nat := 6

  // ---------------------------------------------------------------------------
  // The bitmaps

  /** `prio_to_l1index` */
  function Level(prio: nat): nat { prio / WORD_BITS }

  /** `prio & MASK(wordRadix)` */
  function Within(prio: nat): nat { prio % WORD_BITS }

  class ReadyBitmap {
    var l1: nat
    const l2: array<nat>
    ghost var ready: set<nat>

    function InvertL1(l1index: nat): nat
      requires l1index < l2.Length
    {
      l2.Length - 1 - l1index
    }

    /** Bit (p mod 64) of second-level word p div 64, counted from the end, says
        whether priority p is ready; a first-level bit says whether that word
        has any. */
    ghost predicate Valid()
      reads this, l2
    {
      && 0 < l2.Length <= WORD_BITS
      && l1 < Pow2(WORD_BITS)
      && (forall l :: 0 <= l < l2.Length ==> l2[l] < Pow2(WORD_BITS))
      && (forall p: nat {:trigger p in ready} :: p in ready <==> Level(p) < l2.Length && Bit(Word(Level(p)), Within(p)))
      && (forall l: nat {:trigger Bit(l1, l)} :: Bit(l1, l) <==> l < l2.Length && Word(l) != 0)
    }

    /** Second-level word of a first-level index. */
    ghost function Word(l1index: nat): nat
      requires l1index < l2.Length
      reads l2
    {
      l2[l2.Length - 1 - l1index]
    }

    constructor (words: nat)
      requires 0 < words <= WORD_BITS
      ensures Valid() && ready == {} && l2.Length == words && fresh(l2)
    {
      l1 := 0;
      l2 := new nat[words](_ => 0);
      ready := {};
      new;
      forall b: nat ensures !Bit(0, b) { ZeroBits(b); }
    }

    /** `addToBitmap` */
    method AddToBitmap(prio: nat)
      requires Valid() && prio / WORD_BITS < l2.Length
      modifies this`l1, this`ready, l2
      ensures Valid() && ready == old(ready) + {prio}
    {
      hide Bit, Or, Pow2;
      var l1index := Level(prio);
      var inverted := InvertL1(l1index);
      var bit := Within(prio);
      OrPow2(l1, l1index, WORD_BITS);
      OrPow2(l2[inverted], bit, WORD_BITS);
      ZeroBits(bit);
      l1 := Or(l1, Pow2(l1index));
      l2[inverted] := Or(l2[inverted], Pow2(bit));
      ready := ready + {prio};
      assert forall l: nat :: l < l2.Length && l != l1index ==> Word(l) == old(Word(l));
      assert forall p: nat :: p == prio <==> Level(p) == l1index && Within(p) == bit;
    }

    /** `removeFromBitmap` */
    method RemoveFromBitmap(prio: nat)
      requires Valid() && prio / WORD_BITS < l2.Length
      modifies this`l1, this`ready, l2
      ensures Valid() && ready == old(ready) - {prio}
    {
      hide Bit, AndNot, Pow2;
      var l1index := Level(prio);
      var inverted := InvertL1(l1index);
      var bit := Within(prio);
      AndNotPow2(l1, l1index);
      AndNotPow2(l2[inverted], bit);
      l2[inverted] := AndNot(l2[inverted], Pow2(bit));
      if l2[inverted] == 0 {
        l1 := AndNot(l1, Pow2(l1index));
      }
      ready := ready - {prio};
      assert forall l: nat :: l < l2.Length && l != l1index ==> Word(l) == old(Word(l));
      assert forall p: nat :: p == prio <==> Level(p) == l1index && Within(p) == bit;
    }

    /** `getHighestPrio`: the highest ready priority. */
    method GetHighestPrio() returns (prio: nat)
      requires Valid() && l1 != 0
      ensures prio in ready
      ensures forall p :: p in ready ==> p <= prio
    {
      hide Bit, Or, Pow2;
      Pow2Values();
      var z1 := Clz64(l1);
      var l1index := WORD_BITS - 1 - z1;
      TopBit(l1, l1index);
      var inverted := InvertL1(l1index);
      var z2 := Clz64(l2[inverted]);
      var l2index := WORD_BITS - 1 - z2;
      TopBit(l2[inverted], l2index);
      prio := Or(Shl(l1index, WORD_RADIX), l2index);
      ComposePrio(l1index, l2index);
      forall p | p in ready ensures p <= prio {
        ReadyHasBits(p);
      }
    }

    lemma ReadyHasBits(p: nat)
      requires Valid() && p in ready
      ensures Level(p) < l2.Length && Bit(Word(Level(p)), Within(p)) && Bit(l1, Level(p)) && l1 != 0
    {
      hide Bit;
      ZeroBits(Within(p));
      ZeroBits(Level(p));
    }

    /** `isHighestPrio` */
    method IsHighestPrio(prio: nat) returns (r: bool)
      requires Valid()
      ensures r <==> forall p :: p in ready ==> p <= prio
    {
      if l1 == 0 {
        forall p | p in ready ensures l1 != 0 { ReadyHasBits(p); }
        return true;
      }
      var highest := GetHighestPrio();
      r := prio >= highest;
    }
  }

  lemma {:induction false} ComposePrio(l: nat, b: nat)
    requires l < WORD_BITS && b < WORD_BITS
    ensures Or(Shl(l, WORD_RADIX), b) == l * WORD_BITS + b
    ensures var p := l * WORD_BITS + b; Level(p) == l && Within(p) == b
  {
    Pow2Values();
    assert Pow2(WORD_RADIX) == 64 by { Pow2Add(4, 2); }
    hide Pow2, Or;
    DivModUnique(l * 64, Pow2(WORD_BITS), 0, l * 64);
    OrIsSum(l, WORD_RADIX, b);
  }
}
