/**
 Capability lookup: the general `resolveAddressBits` walk over CNodes, and the
 fastpath's `lookup_fp`, which must find the same capability.
 */
module CSpace {
  import opened Words

  datatype Cap =
    | NullCap
    | CNodeCap(node: nat, radix: nat, guardSize: nat, guard: nat)
    | OtherCap(object: nat)

  /** The CNodes in memory.  Their caps may point anywhere, cycles included. */
  type Memory = map<nat, seq<Cap>>

  datatype LookupFault =
    | InvalidRoot
    | GuardMismatch(guardFound: nat, bitsLeft: nat, bitsFound: nat)
    | DepthMismatch(bitsFound: nat, bitsLeft: nat)

  datatype Resolution =
    | Fault(fault: LookupFault)
    | Slot(node: nat, offset: nat, bitsRemaining: nat)

  /** A CNode cap that the general walk accepts: it resolves at least one bit, its
      fields fit their 6-bit encodings, and its CNode has 2^radix slots. */
  ghost predicate WellBuilt(mem: Memory, cap: Cap) {
    cap.CNodeCap? ==>
      && cap.radix < WORD_BITS && cap.guardSize < WORD_BITS && 1 <= cap.radix + cap.guardSize
      && cap.node in mem && |mem[cap.node]| == Pow2(cap.radix)
  }

  /** A CNode has at least two slots; the fastpath shifts by the word size less
      the radix. */
  ghost predicate Branches(cap: Cap) { cap.CNodeCap? ==> cap.radix >= 1 }

  /** A cap without guard bits has guard zero. */
  ghost predicate GuardFits(cap: Cap) {
    cap.CNodeCap? && cap.guardSize == 0 ==> cap.guard == 0
  }

  ghost predicate WellBuiltMemory(mem: Memory) {
    forall p, i :: p in mem && 0 <= i < |mem[p]| ==> WellBuilt(mem, mem[p][i])
  }

  ghost predicate AllBranch(mem: Memory) {
    forall p, i :: p in mem && 0 <= i < |mem[p]| ==> Branches(mem[p][i])
  }

  ghost predicate GuardsFit(mem: Memory) {
    forall p, i :: p in mem && 0 <= i < |mem[p]| ==> GuardFits(mem[p][i])
  }

  // ---------------------------------------------------------------------------
  // The general walk

  function GuardBits(cap: Cap, cptr: nat, n: nat): nat
    requires cap.CNodeCap?
  {
    var shift: nat := (n - cap.guardSize) % WORD_BITS;
    Low(Shr(cptr, shift), cap.guardSize)
  }

  function Offset(cap: Cap, cptr: nat, n: nat): nat
    requires cap.CNodeCap? && cap.radix + cap.guardSize <= n
  {
    Low(Shr(cptr, n - (cap.radix + cap.guardSize)), cap.radix)
  }

  /** What `resolveAddressBits` returns for the low `n` bits of `cptr`. */
  ghost function Resolve(mem: Memory, cap: Cap, cptr: nat, n: nat): (r: Resolution)
    requires WellBuiltMemory(mem) && WellBuilt(mem, cap)
    ensures r.Slot? ==> r.node in mem && r.offset < |mem[r.node]| && r.bitsRemaining < n
    decreases n
  {
    if !cap.CNodeCap? then Fault(InvalidRoot)
    else
      var level := cap.radix + cap.guardSize;
      if cap.guardSize > n || GuardBits(cap, cptr, n) != cap.guard then
        Fault(GuardMismatch(cap.guard, n, cap.guardSize))
      else if level > n then
        Fault(DepthMismatch(level, n))
      else
        var offset := Offset(cap, cptr, n);
        var next := mem[cap.node][offset];
        if n == level then Slot(cap.node, offset, 0)
        else if !next.CNodeCap? then Slot(cap.node, offset, n - level)
        else Resolve(mem, next, cptr, n - level)
  }

  /** One level of the walk in arithmetic: of the n bits that are left, the first
      `guardSize` must be the guard, and the next `radix` choose the slot. */
  lemma {:induction false} OneLevel(mem: Memory, cap: Cap, cptr: nat, n: nat)
    requires WellBuiltMemory(mem) && WellBuilt(mem, cap) && cap.CNodeCap? && n <= WORD_BITS
    ensures var level, r := cap.radix + cap.guardSize, Resolve(mem, cap, cptr, n);
            if cap.guardSize > n then r == Fault(GuardMismatch(cap.guard, n, cap.guardSize))
            else if (cptr / Pow2(n - cap.guardSize)) % Pow2(cap.guardSize) != cap.guard then
              r == Fault(GuardMismatch(cap.guard, n, cap.guardSize))
            else if level > n then r == Fault(DepthMismatch(level, n))
            else
              var i := (cptr / Pow2(n - level)) % Pow2(cap.radix);
              && 0 <= i < |mem[cap.node]|
              && r == (if n > level && mem[cap.node][i].CNodeCap? then Resolve(mem, mem[cap.node][i], cptr, n - level)
                       else Slot(cap.node, i, n - level))
  {
    hide Pow2;
    if cap.guardSize <= n {
      if cap.guardSize == 0 {
        assert Pow2(0) == 1 by { NoBits(); }
      } else {
        assert (n - cap.guardSize) % WORD_BITS == n - cap.guardSize;
      }
    }
  }

  lemma {:induction false} NoBits()
    ensures Pow2(0) == 1
  {
  }

  method ResolveAddressBits(mem: Memory, root: Cap, cptr: nat, bits: nat) returns (r: Resolution)
    requires WellBuiltMemory(mem) && WellBuilt(mem, root)
    ensures r == Resolve(mem, root, cptr, bits)
  {
    if !root.CNodeCap? {
      return Fault(InvalidRoot);
    }
    var nodeCap, n := root, bits;
    while true
      invariant nodeCap.CNodeCap? && WellBuilt(mem, nodeCap)
      invariant Resolve(mem, nodeCap, cptr, n) == Resolve(mem, root, cptr, bits)
      decreases n
    {
      var radixBits, guardBits := nodeCap.radix, nodeCap.guardSize;
      var levelBits := radixBits + guardBits;
      var guard := GuardBits(nodeCap, cptr, n);
      if guardBits > n || guard != nodeCap.guard {
        return Fault(GuardMismatch(nodeCap.guard, n, guardBits));
      }
      if levelBits > n {
        return Fault(DepthMismatch(levelBits, n));
      }
      var offset := Offset(nodeCap, cptr, n);
      var node := nodeCap.node;
      if n == levelBits {
        return Slot(node, offset, 0);
      }
      n := n - levelBits;
      nodeCap := mem[node][offset];
      if !nodeCap.CNodeCap? {
        return Slot(node, offset, n);
      }
    }
  }

  ghost function CapAt(mem: Memory, r: Resolution): Cap
    requires r.Slot? ==> r.node in mem && r.offset < |mem[r.node]|
  {
    if r.Slot? then mem[r.node][r.offset] else NullCap
  }

  /** `lookupCap` on a thread whose CSpace root is `root`. */
  ghost function LookupCap(mem: Memory, root: Cap, cptr: nat): Cap
    requires WellBuiltMemory(mem) && WellBuilt(mem, root)
  {
    CapAt(mem, Resolve(mem, root, cptr, WORD_BITS))
  }

  // ---------------------------------------------------------------------------
  // Slots for CNode operations

  datatype SlotError =
    | FailedLookup(wasSource: bool, fault: LookupFault)
    | RangeError(min: nat, max: nat)

  datatype SlotResult = Found(node: nat, offset: nat) | Failed(error: SlotError)

  /** `lookupSlotForCNodeOp`: the slot a CNode invocation names, all of whose
      address bits must be used up. */
  method LookupSlotForCNodeOp(mem: Memory, isSource: bool, root: Cap, cptr: nat, depth: nat)
    returns (r: SlotResult)
    requires WellBuiltMemory(mem) && WellBuilt(mem, root)
    ensures r.Found? <==>
              1 <= depth <= WORD_BITS && var s := Resolve(mem, root, cptr, depth); s.Slot? && s.bitsRemaining == 0
    ensures r.Found? ==> Resolve(mem, root, cptr, depth) == Slot(r.node, r.offset, 0)
    ensures r.Failed? && root.CNodeCap? ==>
              (r.error == RangeError(1, WORD_BITS) <==> depth < 1 || depth > WORD_BITS)
    ensures !root.CNodeCap? ==> r == Failed(FailedLookup(isSource, InvalidRoot))
    ensures r.Failed? && r.error.FailedLookup? && root.CNodeCap? ==>
              var s := Resolve(mem, root, cptr, depth);
              r.error == FailedLookup(isSource, if s.Fault? then s.fault else DepthMismatch(0, s.bitsRemaining))
  {
    if !root.CNodeCap? {
      return Failed(FailedLookup(isSource, InvalidRoot));
    }
    if depth < 1 || depth > WORD_BITS {
      return Failed(RangeError(1, WORD_BITS));
    }
    var res := ResolveAddressBits(mem, root, cptr, depth);
    if res.Fault? {
      return Failed(FailedLookup(isSource, res.fault));
    }
    if res.bitsRemaining != 0 {
      return Failed(FailedLookup(isSource, DepthMismatch(0, res.bitsRemaining)));
    }
    return Found(res.node, res.offset);
  }

  // ---------------------------------------------------------------------------
  // The fastpath walk

  predicate FastGuardFails(cap: Cap, cptr: nat, bits: nat)
    requires cap.CNodeCap? && cap.guardSize < WORD_BITS
  {
    cap.guardSize != 0 && Shr(Shl(cptr, bits), WORD_BITS - cap.guardSize) != cap.guard
  }

  function FastOffset(cap: Cap, cptr: nat, bits: nat): nat
    requires cap.CNodeCap? && cap.radix <= WORD_BITS
  {
    Shr(Shl(Shl(cptr, bits), cap.guardSize), WORD_BITS - cap.radix)
  }

  lemma {:induction false} FastOffsetInRange(cap: Cap, cptr: nat, bits: nat)
    requires cap.CNodeCap? && cap.radix <= WORD_BITS
    ensures FastOffset(cap, cptr, bits) < Pow2(cap.radix)
  {
    var x := Shl(Shl(cptr, bits), cap.guardSize);
    var k := WORD_BITS - cap.radix;
    Pow2Add(k, cap.radix);
    DivBound(x, Pow2(k), Pow2(cap.radix));
  }

  /** `lookup_fp` from the point where `bits` bits are already consumed. */
  ghost function LookupFast(mem: Memory, cap: Cap, cptr: nat, bits: nat): Cap
    requires WellBuiltMemory(mem) && WellBuilt(mem, cap) && cap.CNodeCap? && bits < WORD_BITS
    requires AllBranch(mem) && Branches(cap)
    decreases WORD_BITS - bits
  {
    if FastGuardFails(cap, cptr, bits) then NullCap
    else
      FastOffsetInRange(cap, cptr, bits);
      var next := mem[cap.node][FastOffset(cap, cptr, bits)];
      var bits' := bits + cap.guardSize + cap.radix;
      if bits' < WORD_BITS && next.CNodeCap? then LookupFast(mem, next, cptr, bits')
      else if bits' > WORD_BITS then NullCap
      else next
  }

  /** `lookup_fp`: every slot it reads is inside its CNode, even when the walk
      has already overshot the word and the result will be discarded. */
  method LookupFp(mem: Memory, root: Cap, cptr: nat) returns (cap: Cap)
    requires WellBuiltMemory(mem) && WellBuilt(mem, root) && AllBranch(mem) && Branches(root)
    ensures cap == if root.CNodeCap? then LookupFast(mem, root, cptr, 0) else NullCap
  {
    hide Shr, Shl, Pow2;
    var bits := 0;
    cap := root;
    if !cap.CNodeCap? {
      return NullCap;
    }
    while true
      invariant cap.CNodeCap? && WellBuilt(mem, cap) && Branches(cap) && bits < WORD_BITS
      invariant LookupFast(mem, cap, cptr, bits) == LookupFast(mem, root, cptr, 0)
      decreases WORD_BITS - bits
    {
      var guardBits, radixBits := cap.guardSize, cap.radix;
      var cptr2 := Shl(cptr, bits);
      if guardBits != 0 && Shr(cptr2, WORD_BITS - guardBits) != cap.guard {
        return NullCap;
      }
      var radix := Shr(Shl(cptr2, guardBits), WORD_BITS - radixBits);
      FastOffsetInRange(cap, cptr, bits);
      cap := mem[cap.node][radix];
      bits := bits + guardBits + radixBits;
      if !(bits < WORD_BITS && cap.CNodeCap?) {
        break;
      }
    }
    if bits > WORD_BITS {
      return NullCap;
    }
  }

  // ---------------------------------------------------------------------------
  // Both walks find the same capability

  lemma {:induction false} SameGuard(cap: Cap, cptr: nat, bits: nat)
    requires cap.CNodeCap? && cap.guardSize < WORD_BITS && bits < WORD_BITS
    requires bits + cap.guardSize <= WORD_BITS && GuardFits(cap)
    ensures FastGuardFails(cap, cptr, bits) <==> GuardBits(cap, cptr, WORD_BITS - bits) != cap.guard
  {
    if cap.guardSize != 0 {
      ShlShr(cptr, bits, cap.guardSize);
      var shift: nat := WORD_BITS - bits - cap.guardSize;
      assert shift % WORD_BITS == shift;
    } else {
      assert Pow2(0) == 1;
    }
  }

  lemma {:induction false} SameOffset(cap: Cap, cptr: nat, bits: nat)
    requires cap.CNodeCap? && bits + cap.guardSize + cap.radix <= WORD_BITS
    ensures FastOffset(cap, cptr, bits) == Offset(cap, cptr, WORD_BITS - bits)
  {
    ShlShl(cptr, bits, cap.guardSize);
    ShlShr(cptr, bits + cap.guardSize, cap.radix);
  }

  /** Some CNode cap whose guard the fast walk tests has a guard but no guard
      bits. */
  ghost predicate MeetsMisfit(mem: Memory, cap: Cap, cptr: nat, bits: nat)
    requires WellBuiltMemory(mem) && WellBuilt(mem, cap) && cap.CNodeCap? && bits < WORD_BITS
    requires AllBranch(mem) && Branches(cap)
    decreases WORD_BITS - bits
  {
    || !GuardFits(cap)
    || (&& !FastGuardFails(cap, cptr, bits)
        && (FastOffsetInRange(cap, cptr, bits);
            var next := mem[cap.node][FastOffset(cap, cptr, bits)];
            var bits' := bits + cap.guardSize + cap.radix;
            bits' < WORD_BITS && next.CNodeCap? && MeetsMisfit(mem, next, cptr, bits')))
  }

  /** Without such a cap on the way the walks agree; with one, the general walk
      faults. */
  lemma {:induction false} FastFollowsSlow(mem: Memory, cap: Cap, cptr: nat, bits: nat)
    requires WellBuiltMemory(mem) && WellBuilt(mem, cap) && cap.CNodeCap? && bits < WORD_BITS
    requires AllBranch(mem) && Branches(cap)
    ensures CapAt(mem, Resolve(mem, cap, cptr, WORD_BITS - bits))
         == if MeetsMisfit(mem, cap, cptr, bits) then NullCap else LookupFast(mem, cap, cptr, bits)
    decreases WORD_BITS - bits
  {
    if !GuardFits(cap) {
      assert Pow2(0) == 1;
    } else if bits + cap.guardSize <= WORD_BITS {
      SameGuard(cap, cptr, bits);
      var bits' := bits + cap.guardSize + cap.radix;
      if bits' <= WORD_BITS {
        SameOffset(cap, cptr, bits);
        FastOffsetInRange(cap, cptr, bits);
        var next := mem[cap.node][FastOffset(cap, cptr, bits)];
        if bits' < WORD_BITS && next.CNodeCap? {
          FastFollowsSlow(mem, next, cptr, bits');
        }
      }
    }
  }

  lemma {:induction false} NoMisfits(mem: Memory, cap: Cap, cptr: nat, bits: nat)
    requires WellBuiltMemory(mem) && WellBuilt(mem, cap) && cap.CNodeCap? && bits < WORD_BITS
    requires AllBranch(mem) && Branches(cap) && GuardsFit(mem) && GuardFits(cap)
    ensures !MeetsMisfit(mem, cap, cptr, bits)
    decreases WORD_BITS - bits
  {
    if !FastGuardFails(cap, cptr, bits) {
      FastOffsetInRange(cap, cptr, bits);
      var next := mem[cap.node][FastOffset(cap, cptr, bits)];
      var bits' := bits + cap.guardSize + cap.radix;
      if bits' < WORD_BITS && next.CNodeCap? { NoMisfits(mem, next, cptr, bits'); }
    }
  }

  /** `lookup_fp` on a thread whose CSpace root is `root`. */
  ghost function FastLookup(mem: Memory, root: Cap, cptr: nat): Cap
    requires WellBuiltMemory(mem) && WellBuilt(mem, root) && AllBranch(mem) && Branches(root)
  {
    if root.CNodeCap? then LookupFast(mem, root, cptr, 0) else NullCap
  }

  /** For every graph of CNodes and every pointer, the fastpath finds the cap
      that `lookupCap` finds, and the null cap where that one faults. */
  lemma {:induction false} FastLookupIsLookupCap(mem: Memory, root: Cap, cptr: nat)
    requires WellBuiltMemory(mem) && WellBuilt(mem, root) && AllBranch(mem) && Branches(root)
    requires GuardsFit(mem) && GuardFits(root)
    ensures FastLookup(mem, root, cptr) == LookupCap(mem, root, cptr)
  {
    if root.CNodeCap? {
      FastFollowsSlow(mem, root, cptr, 0);
      NoMisfits(mem, root, cptr, 0);
    }
  }

  // ---------------------------------------------------------------------------
  // Guards without bits

  /** The cap with a guard of no bits set to zero. */
  function Mend(cap: Cap): Cap {
    if cap.CNodeCap? && cap.guardSize == 0 then cap.(guard := 0) else cap
  }

  function MendMemory(mem: Memory): (r: Memory)
    ensures r.Keys == mem.Keys && forall p :: p in mem ==> |r[p]| == |mem[p]|
    ensures forall p, i :: p in mem && 0 <= i < |mem[p]| ==> r[p][i] == Mend(mem[p][i])
  {
    map p | p in mem :: seq(|mem[p]|, i requires 0 <= i < |mem[p]| => Mend(mem[p][i]))
  }

  lemma {:induction false} MendKeeps(mem: Memory, root: Cap)
    requires WellBuiltMemory(mem) && WellBuilt(mem, root) && AllBranch(mem) && Branches(root)
    ensures var m := MendMemory(mem);
            && WellBuiltMemory(m) && WellBuilt(m, Mend(root)) && AllBranch(m) && Branches(Mend(root))
            && GuardsFit(m) && GuardFits(Mend(root))
  {
    var m := MendMemory(mem);
    forall p, i | p in m && 0 <= i < |m[p]|
      ensures WellBuilt(m, m[p][i]) && Branches(m[p][i]) && GuardFits(m[p][i])
    {
      assert WellBuilt(mem, mem[p][i]) && Branches(mem[p][i]);
    }
  }

  /** The fast walk does not look at a guard of no bits. */
  lemma {:induction false} FastIgnoresMisfits(mem: Memory, cap: Cap, cptr: nat, bits: nat)
    requires WellBuiltMemory(mem) && WellBuilt(mem, cap) && cap.CNodeCap? && bits < WORD_BITS
    requires AllBranch(mem) && Branches(cap)
    requires WellBuiltMemory(MendMemory(mem)) && WellBuilt(MendMemory(mem), Mend(cap)) && AllBranch(MendMemory(mem))
    ensures LookupFast(MendMemory(mem), Mend(cap), cptr, bits) == Mend(LookupFast(mem, cap, cptr, bits))
    decreases WORD_BITS - bits
  {
    hide Shr, Shl, Pow2;
    assert FastGuardFails(Mend(cap), cptr, bits) == FastGuardFails(cap, cptr, bits);
    if !FastGuardFails(cap, cptr, bits) {
      FastOffsetInRange(cap, cptr, bits);
      assert FastOffset(Mend(cap), cptr, bits) == FastOffset(cap, cptr, bits);
      var next := mem[cap.node][FastOffset(cap, cptr, bits)];
      var bits' := bits + cap.guardSize + cap.radix;
      if bits' < WORD_BITS && next.CNodeCap? { FastIgnoresMisfits(mem, next, cptr, bits'); }
    }
  }

  /** Whatever the guards, the two lookups agree exactly when the walk meets no
      guard without bits, or when it leads nowhere even with those guards zero. */
  lemma {:induction false} LookupsAgreeIff(mem: Memory, root: Cap, cptr: nat)
    requires WellBuiltMemory(mem) && WellBuilt(mem, root) && AllBranch(mem) && Branches(root)
    ensures WellBuiltMemory(MendMemory(mem)) && WellBuilt(MendMemory(mem), Mend(root))
    ensures FastLookup(mem, root, cptr) == LookupCap(mem, root, cptr) <==>
            || !root.CNodeCap? || !MeetsMisfit(mem, root, cptr, 0)
            || LookupCap(MendMemory(mem), Mend(root), cptr) == NullCap
  {
    MendKeeps(mem, root);
    if root.CNodeCap? {
      FastFollowsSlow(mem, root, cptr, 0);
      FastIgnoresMisfits(mem, root, cptr, 0);
      FastLookupIsLookupCap(MendMemory(mem), Mend(root), cptr);
    }
  }

  /** A root with a guard of no bits on which they differ. */
  lemma {:induction false} LookupsCanDiffer()
    ensures var mem, root := map[0 := [OtherCap(1), NullCap]], CNodeCap(0, 1, 0, 7);
            && WellBuiltMemory(mem) && WellBuilt(mem, root) && AllBranch(mem) && Branches(root)
            && FastLookup(mem, root, 0) == OtherCap(1) && LookupCap(mem, root, 0) == NullCap
  {
    var mem: Memory, root := map[0 := [OtherCap(1), NullCap]], CNodeCap(0, 1, 0, 7);
    assert Pow2(0) == 1 && Pow2(1) == 2;
    assert FastOffset(root, 0, 0) == 0 by { ZeroShifts(root); }
  }

  lemma {:induction false} ZeroShifts(cap: Cap)
    requires cap.CNodeCap? && cap.radix <= WORD_BITS
    ensures FastOffset(cap, 0, 0) == 0
  {
    hide Pow2;
    DivModUnique(0, Pow2(WORD_BITS), 0, 0);
    DivModUnique(0, Pow2(WORD_BITS - cap.radix), 0, 0);
    ZeroTimes(Pow2(0));
    ZeroTimes(Pow2(cap.guardSize));
  }

  lemma {:induction false} ZeroTimes(p: nat)
    ensures 0 * p == 0
  {
  }

  // ---------------------------------------------------------------------------
  // The caps that the kernel makes

  /** `updateCapData`; a badge is not part of the model. */
  function UpdateCapData(cap: Cap, guard: nat, guardSize: nat): Cap {
    if !cap.CNodeCap? then cap
    else if guardSize + cap.radix > WORD_BITS then NullCap
    else cap.(guard := Low(guard, guardSize), guardSize := guardSize)
  }

  /** What puts a cap into a slot: creating a CNode, copying or moving a cap, the
      same with new cap data, deleting. */
  datatype CapOp =
    | Create(node: nat, slot: nat, radix: nat, at: nat)
    | Copy(fromNode: nat, fromSlot: nat, node: nat, slot: nat)
    | Mint(fromNode: nat, fromSlot: nat, guard: nat, guardSize: nat, node: nat, slot: nat)
    | Delete(node: nat, slot: nat)

  function CapOf(mem: Memory, node: nat, slot: nat): Cap {
    if node in mem && slot < |mem[node]| then mem[node][slot] else NullCap
  }

  function PutCap(mem: Memory, node: nat, slot: nat, cap: Cap): Memory {
    if node in mem && slot < |mem[node]| then mem[node := mem[node][slot := cap]] else mem
  }

  /** A new CNode is put at an unused address, filled with null caps; a guard size
      has six bits. */
  function Apply(mem: Memory, op: CapOp): Memory {
    match op
    case Create(node, slot, radix, at) =>
      if at in mem || radix < 1 || radix >= WORD_BITS then mem
      else PutCap(mem[at := seq(Pow2(radix), _ => NullCap)], node, slot, CNodeCap(at, radix, 0, 0))
    case Copy(fromNode, fromSlot, node, slot) => PutCap(mem, node, slot, CapOf(mem, fromNode, fromSlot))
    case Mint(fromNode, fromSlot, guard, guardSize, node, slot) =>
      if guardSize >= WORD_BITS then mem
      else PutCap(mem, node, slot, UpdateCapData(CapOf(mem, fromNode, fromSlot), guard, guardSize))
    case Delete(node, slot) => PutCap(mem, node, slot, NullCap)
  }

  function ApplyAll(mem: Memory, ops: seq<CapOp>): Memory
    decreases |ops|
  {
    if ops == [] then mem else ApplyAll(Apply(mem, ops[0]), ops[1..])
  }

  ghost predicate KernelMade(mem: Memory) { WellBuiltMemory(mem) && AllBranch(mem) && GuardsFit(mem) }

  lemma {:induction false} PutCapKeeps(mem: Memory, node: nat, slot: nat, cap: Cap)
    requires KernelMade(mem) && WellBuilt(mem, cap) && Branches(cap) && GuardFits(cap)
    ensures KernelMade(PutCap(mem, node, slot, cap))
  {
    var m := PutCap(mem, node, slot, cap);
    forall p, i | p in m && 0 <= i < |m[p]|
      ensures WellBuilt(m, m[p][i]) && Branches(m[p][i]) && GuardFits(m[p][i])
    {
      assert m[p][i] == cap || m[p][i] == mem[p][i];
    }
  }

  lemma {:induction false} ApplyKeeps(mem: Memory, op: CapOp)
    requires KernelMade(mem)
    ensures KernelMade(Apply(mem, op))
  {
    match op
    case Create(node, slot, radix, at) =>
      if at !in mem && 1 <= radix < WORD_BITS {
        var m := mem[at := seq(Pow2(radix), _ => NullCap)];
        forall p, i | p in m && 0 <= i < |m[p]|
          ensures WellBuilt(m, m[p][i]) && Branches(m[p][i]) && GuardFits(m[p][i])
        {
          assert p == at || WellBuilt(mem, mem[p][i]);
        }
        PutCapKeeps(m, node, slot, CNodeCap(at, radix, 0, 0));
      }
    case Copy(fromNode, fromSlot, node, slot) => PutCapKeeps(mem, node, slot, CapOf(mem, fromNode, fromSlot));
    case Mint(fromNode, fromSlot, guard, guardSize, node, slot) =>
      if guardSize < WORD_BITS {
        assert Pow2(0) == 1;
        PutCapKeeps(mem, node, slot, UpdateCapData(CapOf(mem, fromNode, fromSlot), guard, guardSize));
      }
    case Delete(node, slot) => PutCapKeeps(mem, node, slot, NullCap);
  }

  /** Whatever caps are created, copied, minted and deleted, the two lookups agree
      from every cap in every slot. */
  lemma {:induction false} KernelCapsAgree(mem: Memory, ops: seq<CapOp>, node: nat, slot: nat, cptr: nat)
    requires KernelMade(mem)
    ensures var m := ApplyAll(mem, ops);
            KernelMade(m) && FastLookup(m, CapOf(m, node, slot), cptr) == LookupCap(m, CapOf(m, node, slot), cptr)
    decreases |ops|
  {
    if ops == [] {
      FastLookupIsLookupCap(mem, CapOf(mem, node, slot), cptr);
    } else {
      ApplyKeeps(mem, ops[0]);
      KernelCapsAgree(Apply(mem, ops[0]), ops[1..], node, slot, cptr);
    }
  }

  // ---------------------------------------------------------------------------
  // What an address means

  /** A walk: the slot index taken in each CNode. */
  ghost predicate Walk(mem: Memory, cap: Cap, path: seq<nat>)
    decreases |path|
  {
    && cap.CNodeCap? && WellBuilt(mem, cap) && cap.guard < Pow2(cap.guardSize)
    && path != [] && path[0] < Pow2(cap.radix)
    && (|path| > 1 ==> Walk(mem, mem[cap.node][path[0]], path[1..]))
  }

  ghost function WalkBits(mem: Memory, cap: Cap, path: seq<nat>): nat
    requires Walk(mem, cap, path)
    decreases |path|
  {
    cap.guardSize + cap.radix
    + if |path| > 1 then WalkBits(mem, mem[cap.node][path[0]], path[1..]) else 0
  }

  /** The address of a walk: guard and index of each CNode in turn, most
      significant first. */
  ghost function Address(mem: Memory, cap: Cap, path: seq<nat>): nat
    requires Walk(mem, cap, path)
    decreases |path|
  {
    var here := Join(cap.guard, cap.radix, path[0]);
    if |path| > 1 then
      var next := mem[cap.node][path[0]];
      Join(here, WalkBits(mem, next, path[1..]), Address(mem, next, path[1..]))
    else
      here
  }

  ghost function WalkEnd(mem: Memory, cap: Cap, path: seq<nat>): (r: (nat, nat))
    requires Walk(mem, cap, path)
    ensures r.0 in mem && r.1 < |mem[r.0]|
    decreases |path|
  {
    if |path| > 1 then WalkEnd(mem, mem[cap.node][path[0]], path[1..]) else (cap.node, path[0])
  }

  /** Splits the digits of an address that starts with one CNode's bits. */
  lemma {:induction false} FirstHop(cap: Cap, index: nat, m: nat, rest: nat, cptr: nat)
    requires cap.CNodeCap? && cap.guard < Pow2(cap.guardSize) && index < Pow2(cap.radix) && rest < Pow2(m)
    requires var n := cap.guardSize + cap.radix + m;
             Low(cptr, n) == Pow2(m) * Join(cap.guard, cap.radix, index) + rest
    ensures Low(Shr(cptr, cap.radix + m), cap.guardSize) == cap.guard
    ensures Low(Shr(cptr, m), cap.radix) == index
    ensures Low(cptr, m) == rest
  {
    var g, r := cap.guardSize, cap.radix;
    var here := Join(cap.guard, r, index);
    Slice(cptr, m, g + r);
    assert g + r + m == m + (g + r);
    DivModUnique(Low(cptr, m + (g + r)), Pow2(m), here, rest);
    var y := Shr(cptr, m);
    assert Low(y, g + r) == here;
    assert g + r == r + g;
    Slice(y, r, g);
    DivModUnique(here, Pow2(r), cap.guard, index);
    ShrShr(cptr, m, r);
  }

  lemma {:induction false} AddressBound(mem: Memory, cap: Cap, path: seq<nat>)
    requires WellBuiltMemory(mem) && Walk(mem, cap, path)
    ensures Address(mem, cap, path) < Pow2(WalkBits(mem, cap, path))
    decreases |path|
  {
    hide Pow2, Join;
    var here := Join(cap.guard, cap.radix, path[0]);
    JoinBound(cap.guard, cap.guardSize, cap.radix, path[0]);
    if |path| > 1 {
      var next := mem[cap.node][path[0]];
      AddressBound(mem, next, path[1..]);
      JoinBound(here, cap.guardSize + cap.radix, WalkBits(mem, next, path[1..]), Address(mem, next, path[1..]));
    }
  }

  /** Resolving the address of a walk arrives at the slot where the walk ends,
      with the bits after the address left over.  The bits above `n` in the
      pointer are ignored. */
  lemma {:induction false} ResolveAddress(mem: Memory, cap: Cap, path: seq<nat>, extra: nat, low: nat, cptr: nat)
    requires WellBuiltMemory(mem) && Walk(mem, cap, path) && low < Pow2(extra)
    requires WalkBits(mem, cap, path) + extra <= WORD_BITS
    requires Low(cptr, WalkBits(mem, cap, path) + extra) == Pow2(extra) * Address(mem, cap, path) + low
    requires extra > 0 ==> var (node, offset) := WalkEnd(mem, cap, path); !mem[node][offset].CNodeCap?
    ensures var (node, offset) := WalkEnd(mem, cap, path);
            Resolve(mem, cap, cptr, WalkBits(mem, cap, path) + extra) == Slot(node, offset, extra)
    decreases |path|
  {
    hide Low, Shr, Pow2, Join, GuardBits, Offset;
    var index := path[0];
    var here := Join(cap.guard, cap.radix, index);
    var n := WalkBits(mem, cap, path) + extra;
    var m := n - (cap.guardSize + cap.radix);
    var rest := low;
    if |path| > 1 {
      var next := mem[cap.node][index];
      var bits := WalkBits(mem, next, path[1..]);
      AddressBound(mem, next, path[1..]);
      rest := Pow2(extra) * Address(mem, next, path[1..]) + low;
      RestOfAddress(extra, here, bits, Address(mem, next, path[1..]), low);
    }
    assert n == cap.guardSize + cap.radix + m;
    FirstHop(cap, index, m, rest, cptr);
    GuardOfHop(cap, cptr, m);
    OffsetOfHop(cap, cptr, m);
    if |path| > 1 {
      ResolveAddress(mem, mem[cap.node][index], path[1..], extra, low, cptr);
    }
  }

  lemma {:induction false} RestOfAddress(extra: nat, here: nat, bits: nat, addr: nat, low: nat)
    requires addr < Pow2(bits) && low < Pow2(extra)
    ensures Pow2(extra) * Join(here, bits, addr) + low
         == Pow2(bits + extra) * here + (Pow2(extra) * addr + low)
    ensures Pow2(extra) * addr + low < Pow2(bits + extra)
  {
    var E, B := Pow2(extra), Pow2(bits);
    Pow2Add(bits, extra);
    MulDistributes(E, here * B, addr);
    MulAssociative(E, B, here);
    assert here * B == B * here;
    MulMonotonic(addr + 1, B, E);
    MulDistributes(E, addr, 1);
  }

  lemma {:induction false} OffsetOfHop(cap: Cap, cptr: nat, m: nat)
    requires cap.CNodeCap?
    ensures Offset(cap, cptr, cap.guardSize + cap.radix + m) == Low(Shr(cptr, m), cap.radix)
  {
  }

  lemma {:induction false} GuardOfHop(cap: Cap, cptr: nat, m: nat)
    requires cap.CNodeCap? && cap.guardSize + cap.radix >= 1 && cap.guardSize + cap.radix + m <= WORD_BITS
    requires Low(Shr(cptr, cap.radix + m), cap.guardSize) == cap.guard
    ensures GuardBits(cap, cptr, cap.guardSize + cap.radix + m) == cap.guard
  {
    if cap.guardSize == 0 {
      assert Pow2(0) == 1;
    }
  }
}
