/**
 The sporadic-server refill queue of a scheduling context, as operations on a
 sequence of refills.  `SchedContext.dfy` holds the circular buffer that the
 kernel updates in place; every method there is proved to compute one of the
 functions below.
 */
module RefillQueue {

  const UINT64_MAX: int := 0xFFFF_FFFF_FFFF_FFFF

  /** The smallest `scRefillMax` of a configured scheduling context. */
  const MIN_REFILLS: int := 2

  datatype Refill = Refill(rTime: int, rAmount: int)
  {
    function End(): int { rTime + rAmount }
  }

  /** What stays fixed while a scheduling context is charged and unblocked:
      the two platform constants MIN_BUDGET and usToTicks(MAX_PERIOD_US), and
      the context's own scPeriod and scRefillMax. */
  datatype Params = Params(minBudget: int, maxPeriod: int, period: int, maxRefills: int)
  {
    function MaxReleaseTime(): int { UINT64_MAX - 5 * maxPeriod }

    ghost predicate Ok(budget: int) {
      && 0 < minBudget <= budget <= period <= maxPeriod
      && 5 * maxPeriod <= UINT64_MAX
      && MIN_REFILLS <= maxRefills
    }
  }

  // ---------------------------------------------------------------------------
  // The operations

  function Last(q: seq<Refill>): Refill
    requires q != []
  {
    q[|q| - 1]
  }

  function ScheduleUsed(p: Params, q: seq<Refill>, used: Refill): seq<Refill>
    requires q != []
  {
    var tail := Last(q);
    var front := q[..|q| - 1];
    if tail.End() >= used.rTime then
      front + [Refill(tail.rTime, tail.rAmount + used.rAmount)]
    else if |q| != p.maxRefills then
      q + [used]
    else
      front + [Refill(used.rTime - tail.rAmount, tail.rAmount + used.rAmount)]
  }

  function ChargeEntireHead(p: Params, q: seq<Refill>): seq<Refill>
    requires q != []
  {
    var again := Refill(q[0].rTime + p.period, q[0].rAmount);
    if |q| == 1 then [again] else ScheduleUsed(p, q[1..], again)
  }

  predicate HeadOverrun(p: Params, q: seq<Refill>, usage: int)
    requires q != []
  {
    q[0].rAmount <= usage && q[0].rTime < p.MaxReleaseTime()
  }

  /** Charges whole head refills; returns the queue and the usage left over. */
  function HandleOverrun(p: Params, q: seq<Refill>, usage: int): (r: (seq<Refill>, int))
    requires q != [] && AllPositive(q)
    ensures r.0 != []
    decreases usage
  {
    if HeadOverrun(p, q, usage) then
      HandleOverrun(p, ChargeEntireHead(p, q), usage - q[0].rAmount)
    else
      (q, usage)
  }

  function ChargePartOfHead(p: Params, q: seq<Refill>, usage: int): seq<Refill>
    requires q != []
  {
    ScheduleUsed(p,
                 [Refill(q[0].rTime + usage, q[0].rAmount - usage)] + q[1..],
                 Refill(q[0].rTime + p.period, usage))
  }

  /** The head merged into its successor, which then starts earlier and ends
      when it did. */
  function AbsorbHead(q: seq<Refill>): seq<Refill>
    requires |q| > 1
  {
    [Refill(q[1].rTime - q[0].rAmount, q[1].rAmount + q[0].rAmount)] + q[2..]
  }

  /** Merges the head into its successor until it holds the minimum budget. */
  function FillHead(p: Params, q: seq<Refill>): seq<Refill>
    requires q != []
    decreases |q|
  {
    if q[0].rAmount < p.minBudget && |q| > 1 then
      FillHead(p, AbsorbHead(q))
    else
      q
  }

  predicate PartRemains(p: Params, q: seq<Refill>, usage: int)
    requires q != []
  {
    usage > 0 && q[0].rTime < p.MaxReleaseTime()
  }

  function BudgetCheck(p: Params, q: seq<Refill>, usage: int): seq<Refill>
    requires q != [] && AllPositive(q)
  {
    var (r, left) := HandleOverrun(p, q, usage);
    FillHead(p, if PartRemains(p, r, left) then ChargePartOfHead(p, r, left) else r)
  }

  /** The successor merged into the head, which keeps its start. */
  function ExtendHead(q: seq<Refill>): seq<Refill>
    requires |q| > 1
  {
    [Refill(q[0].rTime, q[1].rAmount + q[0].rAmount)] + q[2..]
  }

  function MergeOverlaps(q: seq<Refill>): seq<Refill>
    requires q != []
    decreases |q|
  {
    if |q| > 1 && q[1].rTime <= q[0].End() then
      MergeOverlaps(ExtendHead(q))
    else
      q
  }

  function UnblockCheck(q: seq<Refill>, now: int): seq<Refill>
    requires q != []
  {
    if q[0].rTime <= now then MergeOverlaps([Refill(now, q[0].rAmount)] + q[1..]) else q
  }

  /** `maybe_add_empty_tail`: round-robin contexts, whose period is zero, collect the
      time that they used in a second refill. */
  function EmptyTail(time: int, period: int): seq<Refill> {
    if period == 0 then [Refill(time, 0)] else []
  }

  function Update(head: Refill, newPeriod: int, newBudget: int, now: int): seq<Refill> {
    var first := if head.rTime <= now then Refill(now, head.rAmount) else head;
    Topped(first, newPeriod, newBudget)
  }

  /** One refill trimmed to a budget, or the rest of it a period later. */
  function Topped(first: Refill, period: int, budget: int): seq<Refill> {
    if first.rAmount >= budget then
      [Refill(first.rTime, budget)] + EmptyTail(first.rTime, period)
    else
      [first, Refill(first.rTime + period, budget - first.rAmount)]
  }

  // ---------------------------------------------------------------------------
  // The refill invariant

  ghost predicate AllPositive(q: seq<Refill>) {
    forall i :: 0 <= i < |q| ==> q[i].rAmount > 0
  }

  ghost predicate Ordered(q: seq<Refill>) {
    forall i, j :: 0 <= i < j < |q| ==> q[i].End() <= q[j].rTime
  }

  ghost function Sum(q: seq<Refill>): int {
    if q == [] then 0 else q[0].rAmount + Sum(q[1..])
  }

  /** Everything but the minimum amount of the head. */
  ghost predicate Shape(p: Params, budget: int, q: seq<Refill>) {
    && 0 < |q| <= p.maxRefills
    && AllPositive(q)
    && Ordered(q)
    && Sum(q) == budget
    && Last(q).rTime <= q[0].rTime + p.period
    && 0 <= q[0].rTime
  }

  ghost predicate Inv(p: Params, budget: int, q: seq<Refill>) {
    Shape(p, budget, q) && q[0].rAmount >= p.minBudget
  }

  // ---------------------------------------------------------------------------
  // Sums

  lemma {:induction false} SumAppend(a: seq<Refill>, b: seq<Refill>)
    ensures Sum(a + b) == Sum(a) + Sum(b)
  {
    if a == [] {
      assert a + b == b;
    } else {
      assert (a + b)[1..] == a[1..] + b;
      SumAppend(a[1..], b);
    }
  }

  lemma {:induction false} SumOne(r: Refill)
    ensures Sum([r]) == r.rAmount
  {
    assert [r][1..] == [];
  }

  lemma {:induction false} SumBounds(q: seq<Refill>)
    requires AllPositive(q)
    ensures 0 <= Sum(q)
    ensures forall i :: 0 <= i < |q| ==> q[i].rAmount <= Sum(q)
  {
    if q != [] {
      SumBounds(q[1..]);
      assert forall i :: 0 < i < |q| ==> q[i] == q[1..][i - 1];
    }
  }

  /** Splitting off the tail and the head. */
  lemma {:induction false} SumEnds(q: seq<Refill>)
    requires q != []
    ensures Sum(q) == Sum(q[..|q| - 1]) + Last(q).rAmount
    ensures Sum(q) == q[0].rAmount + Sum(q[1..])
    ensures |q| > 1 ==> Sum(q) == q[0].rAmount + q[1].rAmount + Sum(q[2..])
  {
    assert q == q[..|q| - 1] + [Last(q)];
    SumAppend(q[..|q| - 1], [Last(q)]);
    SumOne(Last(q));
    if |q| > 1 {
      assert q[1..][1..] == q[2..];
    }
  }

  // ---------------------------------------------------------------------------
  // Every operation keeps the invariant

  /** `schedule_used` on a queue that the used refill does not precede. */
  lemma {:induction false} ScheduleUsedShape(p: Params, q: seq<Refill>, used: Refill)
    requires 0 < |q| <= p.maxRefills && AllPositive(q) && Ordered(q)
    requires used.rAmount > 0
    requires |q| == 1 ==> |q| != p.maxRefills
    requires Last(q).rTime <= used.rTime
    ensures var r := ScheduleUsed(p, q, used);
            && 0 < |r| <= p.maxRefills && AllPositive(r) && Ordered(r)
            && Sum(r) == Sum(q) + used.rAmount
            && Last(r).rTime <= used.rTime
            && r[0].rTime == q[0].rTime
  {
    var tail, front := Last(q), q[..|q| - 1];
    SumEnds(q);
    var r := ScheduleUsed(p, q, used);
    SumEnds(r);
    assert r[..|r| - 1] == if tail.End() < used.rTime && |q| != p.maxRefills then q else front;
  }

  lemma {:induction false} ChargeEntireHeadShape(p: Params, budget: int, q: seq<Refill>)
    requires p.Ok(budget) && Shape(p, budget, q)
    ensures var r := ChargeEntireHead(p, q);
            && Shape(p, budget, r)
            && q[0].rTime <= r[0].rTime
            && r[0].rTime <= q[0].rTime + p.period && Last(r).rTime <= q[0].rTime + p.period
  {
    hide ScheduleUsed;
    SumEnds(q);
    if |q| > 1 {
      var rest := q[1..];
      assert Last(rest) == Last(q) && rest[0] == q[1];
      assert q[0].End() <= q[1].rTime;
      assert |q| > 2 ==> q[1].End() <= Last(q).rTime;
      ScheduleUsedShape(p, rest, Refill(q[0].rTime + p.period, q[0].rAmount));
    } else {
      SumEnds(ChargeEntireHead(p, q));
      assert q[1..] == [] == ChargeEntireHead(p, q)[1..];
    }
  }

  lemma {:induction false} ChargePartOfHeadShape(p: Params, budget: int, q: seq<Refill>, usage: int)
    requires p.Ok(budget) && Shape(p, budget, q)
    requires 0 < usage < q[0].rAmount
    ensures var r := ChargePartOfHead(p, q, usage);
            && Shape(p, budget, r)
            && r[0].rTime == q[0].rTime + usage
            && r[0].rTime <= q[0].rTime + p.period && Last(r).rTime <= q[0].rTime + p.period
  {
    hide ScheduleUsed;
    var rest := [Refill(q[0].rTime + usage, q[0].rAmount - usage)] + q[1..];
    SumEnds(q);
    SumBounds(q);
    SumEnds(rest);
    assert rest[1..] == q[1..];
    ScheduleUsedShape(p, rest, Refill(q[0].rTime + p.period, usage));
  }

  lemma {:induction false} HandleOverrunShape(p: Params, budget: int, q: seq<Refill>, usage: int)
    requires p.Ok(budget) && Shape(p, budget, q) && 0 <= usage
    ensures var (r, left) := HandleOverrun(p, q, usage);
            && Shape(p, budget, r)
            && 0 <= left <= usage
            && q[0].rTime <= r[0].rTime
            && !HeadOverrun(p, r, left)
            && (q[0].rTime < p.MaxReleaseTime() ==>
                  && r[0].rTime < p.MaxReleaseTime() + p.period
                  && Last(r).rTime < p.MaxReleaseTime() + p.period)
            && (q[0].rTime >= p.MaxReleaseTime() ==> r == q && left == usage)
    decreases usage
  {
    if HeadOverrun(p, q, usage) {
      ChargeEntireHeadShape(p, budget, q);
      HandleOverrunShape(p, budget, ChargeEntireHead(p, q), usage - q[0].rAmount);
    }
  }

  lemma {:induction false} AbsorbHeadShape(p: Params, budget: int, q: seq<Refill>)
    requires p.Ok(budget) && Shape(p, budget, q) && |q| > 1
    ensures 0 < q[0].rAmount <= q[1].rTime && q[0].rAmount + q[1].rAmount <= budget
    ensures Shape(p, budget, AbsorbHead(q))
    ensures q[0].rTime <= AbsorbHead(q)[0].rTime && Last(AbsorbHead(q)).rTime <= Last(q).rTime
  {
    var r := AbsorbHead(q);
    SumEnds(q);
    SumBounds(q[2..]);
    assert r[1..] == q[2..];
    SumEnds(r);
    assert q[0].End() <= q[1].rTime;
  }

  /** A head that is too small is never the last refill. */
  lemma {:induction false} SmallHeadHasSuccessor(p: Params, budget: int, q: seq<Refill>)
    requires p.Ok(budget) && Shape(p, budget, q) && q[0].rAmount < p.minBudget
    ensures |q| > 1
  {
    SumEnds(q);
    if |q| == 1 { assert false; }
  }

  lemma {:induction false} FillHeadShape(p: Params, budget: int, q: seq<Refill>)
    requires p.Ok(budget) && Shape(p, budget, q)
    ensures var r := FillHead(p, q);
            && Inv(p, budget, r)
            && q[0].rTime <= r[0].rTime <= Last(q).rTime
            && Last(r).rTime <= Last(q).rTime
    ensures q[0].rAmount >= p.minBudget ==> FillHead(p, q) == q
    decreases |q|
  {
    if q[0].rAmount < p.minBudget {
      SmallHeadHasSuccessor(p, budget, q);
      AbsorbHeadShape(p, budget, q);
      FillHeadShape(p, budget, AbsorbHead(q));
    }
  }

  /** Charging keeps the refill invariant, never moves the head back, and
      keeps every refill time representable: below MAX_RELEASE_TIME plus a
      period if the head was below MAX_RELEASE_TIME, and untouched otherwise. */
  lemma {:induction false} BudgetCheckInv(p: Params, budget: int, q: seq<Refill>, usage: int)
    requires p.Ok(budget) && Inv(p, budget, q) && 0 <= usage
    ensures var r := BudgetCheck(p, q, usage);
            && Inv(p, budget, r)
            && q[0].rTime <= r[0].rTime
            && (q[0].rTime < p.MaxReleaseTime() ==> Last(r).rTime < p.MaxReleaseTime() + p.period)
            && (q[0].rTime >= p.MaxReleaseTime() ==> r == q)
  {
    HandleOverrunShape(p, budget, q, usage);
    var (r, left) := HandleOverrun(p, q, usage);
    var s := if PartRemains(p, r, left) then ChargePartOfHead(p, r, left) else r;
    if PartRemains(p, r, left) {
      ChargePartOfHeadShape(p, budget, r, left);
    }
    FillHeadShape(p, budget, s);
  }

  /** A queue whose head may reach into, or past, the refills behind it. */
  ghost predicate Mergeable(p: Params, budget: int, q: seq<Refill>) {
    && 0 < |q| <= p.maxRefills
    && AllPositive(q)
    && Ordered(q[1..])
    && Sum(q) == budget
    && Last(q).rTime <= q[0].rTime + p.period
    && 0 <= q[0].rTime
    && q[0].rAmount >= p.minBudget
  }

  lemma {:induction false} ExtendHeadMergeable(p: Params, budget: int, q: seq<Refill>)
    requires p.Ok(budget) && Mergeable(p, budget, q) && |q| > 1
    ensures q[0].rAmount + q[1].rAmount <= budget
    ensures Mergeable(p, budget, ExtendHead(q))
  {
    var r := ExtendHead(q);
    SumEnds(q);
    SumBounds(q[2..]);
    assert r[1..] == q[2..] == q[1..][1..];
    SumEnds(r);
  }

  lemma {:induction false} MergeOverlapsInv(p: Params, budget: int, q: seq<Refill>)
    requires p.Ok(budget) && Mergeable(p, budget, q)
    ensures Inv(p, budget, MergeOverlaps(q))
    ensures MergeOverlaps(q)[0].rTime == q[0].rTime
    decreases |q|
  {
    if |q| > 1 && q[1].rTime <= q[0].End() {
      ExtendHeadMergeable(p, budget, q);
      MergeOverlapsInv(p, budget, ExtendHead(q));
    } else {
      assert forall i :: 0 < i < |q| ==> q[i] == q[1..][i - 1];
    }
  }

  /** The head moved forward to `now`, before overlaps are merged. */
  lemma {:induction false} AdvanceHead(p: Params, budget: int, q: seq<Refill>, now: int)
    requires Inv(p, budget, q) && q[0].rTime <= now
    ensures Mergeable(p, budget, [Refill(now, q[0].rAmount)] + q[1..])
  {
    var r := [Refill(now, q[0].rAmount)] + q[1..];
    SumEnds(q);
    SumEnds(r);
    assert r[1..] == q[1..];
  }

  lemma {:induction false} UnblockCheckInv(p: Params, budget: int, q: seq<Refill>, now: int)
    requires p.Ok(budget) && Inv(p, budget, q) && 0 <= now
    ensures var r := UnblockCheck(q, now);
            && Inv(p, budget, r)
            && r[0].rTime == if q[0].rTime <= now then now else q[0].rTime
  {
    if q[0].rTime <= now {
      AdvanceHead(p, budget, q, now);
      MergeOverlapsInv(p, budget, [Refill(now, q[0].rAmount)] + q[1..]);
    }
  }

  lemma {:induction false} TwoRefills(q: seq<Refill>)
    requires |q| == 2
    ensures Sum(q) == q[0].rAmount + q[1].rAmount
  {
    SumEnds(q);
    assert q[2..] == [];
  }

  /** Exactly the new budget, whatever the head was. */
  lemma {:induction false} UpdateSum(head: Refill, newPeriod: int, newBudget: int, now: int)
    ensures var r := Update(head, newPeriod, newBudget, now);
            && Sum(r) == newBudget && r[0].rTime >= head.rTime
            && (newPeriod == 0 ==> |r| == 2 && r[0].rTime == r[1].rTime)
  {
    var r := Update(head, newPeriod, newBudget, now);
    if |r| == 1 { SumOne(r[0]); } else { TwoRefills(r); }
  }

  /** `refill_update` re-establishes the invariant for the new parameters from
      nothing but the old head refill. */
  lemma {:induction false} UpdateInv(p: Params, newBudget: int, head: Refill, now: int)
    requires p.Ok(newBudget) && 0 <= head.rTime && p.minBudget <= head.rAmount && 0 <= now
    ensures var r := Update(head, p.period, newBudget, now);
            && Inv(p, newBudget, r)
            && head.rTime <= r[0].rTime
  {
    var r := Update(head, p.period, newBudget, now);
    SumEnds(r);
    if |r| == 1 {
      assert r[1..] == [];
    } else {
      assert r[1..] == [r[1]] && r[2..] == [];
    }
  }
}
