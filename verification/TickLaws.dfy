/**
 What the refill operations do to every single tick: charges turn ticks over one by
 one, an unblock packs them from the present on, and an update cuts the queue anew.
 */
module TickLaws {
  import opened RefillQueue
  import opened Bandwidth

  ghost function Later(a: int, b: int): int { if a < b then b else a }

  ghost function LastTick(x: seq<int>): int
    requires x != []
  {
    x[|x| - 1]
  }

  /** One tick is charged: the first one leaves, and returns a period later, or right
      behind the last tick if that is later still.  No other tick moves. */
  ghost function Turn(x: seq<int>, period: int): (y: seq<int>)
    requires x != []
    ensures |y| == |x|
  {
    var rest := x[1..];
    rest + [if rest == [] then x[0] + period else Later(x[0] + period, LastTick(rest) + 1)]
  }

  ghost function Turns(x: seq<int>, n: nat, period: int): (y: seq<int>)
    requires x != []
    ensures |y| == |x|
    decreases n
  {
    if n == 0 then x else Turns(Turn(x, period), n - 1, period)
  }

  /** The ticks that n charges take, in order. */
  ghost function Taken(x: seq<int>, n: nat, period: int): (y: seq<int>)
    requires x != []
    ensures |y| == n
    decreases n
  {
    if n == 0 then [] else [x[0]] + Taken(Turn(x, period), n - 1, period)
  }

  lemma {:induction false} TurnsAdd(x: seq<int>, a: nat, b: nat, period: int)
    requires x != []
    ensures Turns(x, a + b, period) == Turns(Turns(x, a, period), b, period)
    ensures Taken(x, a + b, period) == Taken(x, a, period) + Taken(Turns(x, a, period), b, period)
    decreases a
  {
    if a > 0 { TurnsAdd(Turn(x, period), a - 1, b, period); }
  }

  lemma {:induction false} TicksCons(t: int, n: nat)
    requires n > 0
    ensures Ticks(t, n) == [t] + Ticks(t + 1, n - 1)
  {
  }

  lemma {:induction false} TurnFront(t: int, ts: seq<int>, y: seq<int>, period: int)
    requires y != []
    ensures Turn([t] + ts + y, period) == ts + (y + [Later(t + period, LastTick(y) + 1)])
  {
    hide Later;
    var x := [t] + ts + y;
    assert x[1..] == ts + y && LastTick(ts + y) == LastTick(y) && x[0] == t;
  }

  /** Turning over a run of ticks that others follow: they come back as a run. */
  lemma {:induction false} TurnsOfRun(t: int, n: nat, y: seq<int>, period: int)
    requires y != []
    ensures Ticks(t, n) + y != []
    ensures Turns(Ticks(t, n) + y, n, period) == y + Ticks(Later(t + period, LastTick(y) + 1), n)
    ensures Taken(Ticks(t, n) + y, n, period) == Ticks(t, n)
    decreases n
  {
    hide Turn, Later;
    if n == 0 {
      assert Ticks(t, n) + y == y;
    } else {
      hide Ticks;
      var ts, a := Ticks(t + 1, n - 1), Later(t + period, LastTick(y) + 1);
      TicksCons(t, n);
      TurnFront(t, ts, y, period);
      TurnsOfRun(t + 1, n - 1, y + [a], period);
      NextLater(t + period, LastTick(y) + 1);
      TicksCons(a, n);
      Associative(y, [a], Ticks(a + 1, n - 1));
    }
  }

  lemma {:induction false} NextLater(a: int, b: int)
    ensures Later(a + 1, Later(a, b) + 1) == Later(a, b) + 1
  {
  }

  /** A run alone, no longer than a period, comes back a period later. */
  lemma {:induction false} TurnsOfAll(t: int, n: nat, period: int)
    requires 0 < n <= period
    ensures Ticks(t, n) != [] && Turns(Ticks(t, n), n, period) == Ticks(t + period, n)
    ensures Taken(Ticks(t, n), n, period) == Ticks(t, n)
  {
    hide Ticks, Turn, Turns, Taken;
    TurnAlone(t, n, period);
    OneTurn(Ticks(t, n), n, period);
    TicksCons(t, n);
    TicksCons(t + period, n);
    TurnsOfRun(t + 1, n - 1, [t + period], period);
  }

  lemma {:induction false} OneTurn(x: seq<int>, n: nat, period: int)
    requires x != [] && n > 0
    ensures Turns(x, n, period) == Turns(Turn(x, period), n - 1, period)
    ensures Taken(x, n, period) == [x[0]] + Taken(Turn(x, period), n - 1, period)
  {
    hide Turn;
  }

  lemma {:induction false} TurnAlone(t: int, n: nat, period: int)
    requires 0 < n <= period
    ensures Ticks(t, n) != [] && Turn(Ticks(t, n), period) == Ticks(t + 1, n - 1) + [t + period]
  {
    assert Ticks(t, n)[1..] == Ticks(t + 1, n - 1);
  }

  // ---------------------------------------------------------------------------
  // Scheduling what was used

  /** How far the tail is put off: only in a full buffer, and up to the used refill. */
  ghost function PutOff(p: Params, q: seq<Refill>, used: Refill): int
    requires q != []
  {
    if |q| == p.maxRefills then Later(0, used.rTime - Last(q).End()) else 0
  }

  /** Exactly which ticks move: the used ones start at their time or where the tail
      ends, whichever is later; the tail is put off only in a full buffer; nothing
      else moves.  A refill is added exactly when there is a gap and room for it. */
  lemma {:induction false} ScheduleUsedExactly(p: Params, q: seq<Refill>, used: Refill)
    requires q != [] && AllPositive(q) && used.rAmount > 0
    ensures var tail, r := Last(q), ScheduleUsed(p, q, used);
            && Flat(r) == Flat(q[..|q| - 1]) + Ticks(tail.rTime + PutOff(p, q, used), tail.rAmount)
                          + Ticks(Later(used.rTime, tail.End()), used.rAmount)
            && |r| == |q| + (if tail.End() < used.rTime && |q| != p.maxRefills then 1 else 0)
            && r[..|q| - 1] == q[..|q| - 1]
  {
    hide Flat;
    var tail, front := Last(q), q[..|q| - 1];
    assert q == front + [tail];
    FlatSnoc(front, tail);
    FlatSnoc(q, used);
    FlatSnoc(front, Refill(tail.rTime, tail.rAmount + used.rAmount));
    FlatSnoc(front, Refill(used.rTime - tail.rAmount, tail.rAmount + used.rAmount));
    SplitRun(Flat(front), tail.rTime, tail.rAmount, used.rAmount);
    SplitRun(Flat(front), used.rTime - tail.rAmount, tail.rAmount, used.rAmount);
  }

  lemma {:induction false} SplitRun(x: seq<int>, t: int, a: int, b: int)
    requires a > 0 && b > 0
    ensures x + Ticks(t, a + b) == x + Ticks(t, a) + Ticks(t + a, b)
  {
  }

  /** With room, or without a gap: the ticks of the queue stay. */
  lemma {:induction false} ScheduleUsedAppends(p: Params, q: seq<Refill>, used: Refill)
    requires q != [] && AllPositive(q) && used.rAmount > 0
    requires |q| < p.maxRefills || used.rTime <= Last(q).End()
    ensures Flat(ScheduleUsed(p, q, used)) == Flat(q) + Ticks(Later(used.rTime, Last(q).End()), used.rAmount)
  {
    hide Flat, ScheduleUsed;
    ScheduleUsedExactly(p, q, used);
    assert q == q[..|q| - 1] + [Last(q)];
    FlatSnoc(q[..|q| - 1], Last(q));
  }

  lemma {:induction false} FlatLast(q: seq<Refill>)
    requires q != [] && AllPositive(q)
    ensures Flat(q) != [] && LastTick(Flat(q)) == Last(q).End() - 1
  {
    hide Flat;
    assert q == q[..|q| - 1] + [Last(q)];
    FlatSnoc(q[..|q| - 1], Last(q));
  }

  // ---------------------------------------------------------------------------
  // Charging

  /** A whole head is charged tick by tick, whether the buffer is full or not. */
  lemma {:induction false} ChargeEntireHeadTurns(p: Params, budget: int, q: seq<Refill>)
    requires p.Ok(budget) && Shape(p, budget, q)
    ensures Flat(q) != [] && |ChargeEntireHead(p, q)| <= |q|
    ensures Flat(ChargeEntireHead(p, q)) == Turns(Flat(q), q[0].rAmount, p.period)
    ensures Taken(Flat(q), q[0].rAmount, p.period) == Ticks(q[0].rTime, q[0].rAmount)
  {
    hide Flat, ScheduleUsed, Ticks, Turns, Taken;
    var head := q[0];
    var again := Refill(head.rTime + p.period, head.rAmount);
    assert q == [head] + q[1..];
    FlatCons(head, q[1..]);
    SumBounds(q);
    FlatLast(q);
    if |q| == 1 {
      assert q[1..] == [] && Flat(q) == Ticks(head.rTime, head.rAmount) by { FlatOne(head); assert q == [head]; }
      FlatOne(again);
      TurnsOfAll(head.rTime, head.rAmount, p.period);
    } else {
      var rest := q[1..];
      FlatLast(rest);
      ScheduleUsedAppends(p, rest, again);
      ScheduleUsedExactly(p, rest, again);
      TurnsOfRun(head.rTime, head.rAmount, Flat(rest), p.period);
    }
  }

  lemma {:induction false} HandleOverrunTurns(p: Params, budget: int, q: seq<Refill>, usage: int)
    requires p.Ok(budget) && Shape(p, budget, q) && 0 <= usage
    ensures var (r, left) := HandleOverrun(p, q, usage);
            && 0 <= left <= usage && |r| <= |q| && Flat(q) != []
            && Flat(r) == Turns(Flat(q), usage - left, p.period)
            && OverrunLog(p, q, usage) == Taken(Flat(q), usage - left, p.period)
    decreases usage
  {
    hide Flat, Ticks, ChargeEntireHead;
    HandleOverrunShape(p, budget, q, usage);
    FlatLast(q);
    if HeadOverrun(p, q, usage) {
      var r, n := ChargeEntireHead(p, q), q[0].rAmount;
      ChargeEntireHeadShape(p, budget, q);
      ChargeEntireHeadTurns(p, budget, q);
      HandleOverrunTurns(p, budget, r, usage - n);
      TurnsAdd(Flat(q), n, usage - n - HandleOverrun(p, r, usage - n).1, p.period);
    }
  }

  /** Part of the head is charged tick by tick, if there is room or no gap. */
  lemma {:induction false} ChargePartTurns(p: Params, budget: int, q: seq<Refill>, usage: int)
    requires p.Ok(budget) && Shape(p, budget, q) && 0 < usage < q[0].rAmount
    requires |q| < p.maxRefills || q[0].rTime + p.period <= Last(q).End()
    ensures Flat(q) != []
    ensures Flat(ChargePartOfHead(p, q, usage)) == Turns(Flat(q), usage, p.period)
    ensures Taken(Flat(q), usage, p.period) == Ticks(q[0].rTime, usage)
  {
    hide Flat, ScheduleUsed, Ticks, Turns, Taken;
    var rest := [AfterPart(q[0], usage)] + q[1..];
    var used := Refill(q[0].rTime + p.period, usage);
    assert AllPositive(rest) && Last(rest).End() == Last(q).End();
    FlatSplitHead(q, usage);
    FlatLast(rest);
    ScheduleUsedAppends(p, rest, used);
    TurnsOfRun(q[0].rTime, usage, Flat(rest), p.period);
    assert ChargePartOfHead(p, q, usage) == ScheduleUsed(p, rest, used);
  }

  /** In a full buffer with a gap, the used ticks return exactly a period later, and
      the tail is put off so that it ends there. */
  lemma {:induction false} ChargePartPutsOff(p: Params, budget: int, q: seq<Refill>, usage: int)
    requires p.Ok(budget) && Shape(p, budget, q) && 0 < usage < q[0].rAmount
    requires |q| == p.maxRefills && Last(q).End() < q[0].rTime + p.period
    ensures usage <= |Flat(q)| - Last(q).rAmount
    ensures var tail, back := Last(q), q[0].rTime + p.period;
            Flat(ChargePartOfHead(p, q, usage))
              == Flat(q)[usage..|Flat(q)| - tail.rAmount] + Ticks(back - tail.rAmount, tail.rAmount)
                 + Ticks(back, usage)
  {
    hide Flat, ScheduleUsed, Ticks;
    var rest := [AfterPart(q[0], usage)] + q[1..];
    var used := Refill(q[0].rTime + p.period, usage);
    var front, tail := rest[..|rest| - 1], Last(q);
    assert AllPositive(rest) && Last(rest) == tail;
    FlatSplitHead(q, usage);
    ScheduleUsedExactly(p, rest, used);
    assert rest == front + [tail];
    FlatSnoc(front, tail);
    TicksLength(q[0].rTime, usage);
    TicksLength(tail.rTime, tail.rAmount);
    assert Flat(q)[usage..|Flat(q)| - tail.rAmount] == Flat(front);
    assert ChargePartOfHead(p, q, usage) == ScheduleUsed(p, rest, used);
  }

  lemma {:induction false} TicksLength(t: int, n: int)
    requires n >= 0
    ensures |Ticks(t, n)| == n
  {
  }

  // ---------------------------------------------------------------------------
  // The minimum head

  /** The head takes in its successors until it has the minimum: it ends where the
      last of them did, and the refills behind are untouched. */
  ghost predicate Filled(p: Params, q: seq<Refill>, r: seq<Refill>, j: nat) {
    && j < |q| && r == [Refill(q[j].rTime - Sum(q[..j]), Sum(q[..j]) + q[j].rAmount)] + q[j + 1..]
    && (forall i :: 0 <= i < j ==> Sum(q[..i]) + q[i].rAmount < p.minBudget)
    && (j + 1 < |q| ==> Sum(q[..j]) + q[j].rAmount >= p.minBudget)
  }

  lemma {:induction false} FillHeadExactly(p: Params, q: seq<Refill>) returns (j: nat)
    requires q != []
    ensures Filled(p, q, FillHead(p, q), j)
    decreases |q|
  {
    if q[0].rAmount < p.minBudget && |q| > 1 {
      var k := FillHeadExactly(p, AbsorbHead(q));
      FilledOneMore(p, q, FillHead(p, q), k);
      j := k + 1;
    } else {
      j := 0;
      assert q[..0] == [] && q == [q[0]] + q[1..];
    }
  }

  lemma {:induction false} FilledOneMore(p: Params, q: seq<Refill>, r: seq<Refill>, k: nat)
    requires |q| > 1 && q[0].rAmount < p.minBudget && Filled(p, AbsorbHead(q), r, k)
    ensures Filled(p, q, r, k + 1)
  {
    hide Sum;
    var a, j := AbsorbHead(q), k + 1;
    AbsorbedSum(q, k);
    assert a[k + 1..] == q[j + 1..];
    forall i | 0 <= i < j ensures Sum(q[..i]) + q[i].rAmount < p.minBudget {
      if i == 0 {
        EmptySum(q);
      } else {
        AbsorbedSum(q, i - 1);
        assert Sum(a[..i - 1]) + a[i - 1].rAmount < p.minBudget;
      }
    }
  }

  lemma {:induction false} EmptySum(q: seq<Refill>)
    ensures Sum(q[..0]) == 0
  {
  }

  lemma {:induction false} AbsorbedSum(q: seq<Refill>, i: nat)
    requires |q| > 1 && i < |q| - 1
    ensures var a := AbsorbHead(q);
            && Sum(a[..i]) + a[i].rAmount == Sum(q[..i + 1]) + q[i + 1].rAmount
            && a[i].rTime - Sum(a[..i]) == q[i + 1].rTime - Sum(q[..i + 1])
  {
    var a := AbsorbHead(q);
    if i == 0 {
      assert a[..0] == [] && q[..1] == [q[0]];
      SumOne(q[0]);
    } else {
      assert a[..i] == [a[0]] + q[2..i + 1] && q[..i + 1] == [q[0]] + ([q[1]] + q[2..i + 1]);
      SumAppend([a[0]], q[2..i + 1]);
      SumAppend([q[0]], [q[1]] + q[2..i + 1]);
      SumAppend([q[1]], q[2..i + 1]);
      SumOne(a[0]);
      SumOne(q[0]);
      SumOne(q[1]);
    }
  }

  // ---------------------------------------------------------------------------
  // Whole charges

  /** A charge with room in the buffer turns over exactly the charged ticks, one by
      one, and then fills the head up to the minimum. */
  lemma {:induction false} BudgetCheckTurns(p: Params, budget: int, q: seq<Refill>, usage: int)
    returns (s: seq<Refill>, j: nat)
    requires p.Ok(budget) && Inv(p, budget, q) && 0 <= usage && |q| < p.maxRefills
    ensures Flat(q) != [] && |ChargeLog(p, q, usage)| <= usage
    ensures Flat(s) == Turns(Flat(q), |ChargeLog(p, q, usage)|, p.period)
    ensures ChargeLog(p, q, usage) == Taken(Flat(q), |ChargeLog(p, q, usage)|, p.period)
    ensures Filled(p, s, BudgetCheck(p, q, usage), j)
  {
    hide Flat, HandleOverrun, FillHead, OverrunLog, ChargePartOfHead, Ticks, Filled, Turns, Taken, Shape, Inv;
    InvIsShape(p, budget, q);
    OverrunFacts(p, budget, q, usage);
    var (r, left) := HandleOverrun(p, q, usage);
    s := r;
    var n := usage - left;
    if PartRemains(p, r, left) {
      s := ChargePartOfHead(p, r, left);
      ChargePartTurns(p, budget, r, left);
      assert s != [] by { ChargePartOfHeadShape(p, budget, r, left); ShapeNotEmpty(p, budget, s); }
      TurnsAdd(Flat(q), n, left, p.period);
      TicksLength(r[0].rTime, left);
      n := usage;
    }
    j := FillHeadExactly(p, s);
    assert OverrunLog(p, q, usage) + [] == OverrunLog(p, q, usage);
  }

  lemma {:induction false} InvIsShape(p: Params, budget: int, q: seq<Refill>)
    requires Inv(p, budget, q)
    ensures Shape(p, budget, q)
  {
  }

  lemma {:induction false} ShapeNotEmpty(p: Params, budget: int, q: seq<Refill>)
    requires Shape(p, budget, q)
    ensures q != []
  {
  }

  lemma {:induction false} OverrunFacts(p: Params, budget: int, q: seq<Refill>, usage: int)
    requires p.Ok(budget) && Shape(p, budget, q) && 0 <= usage
    ensures q != [] && AllPositive(q) && Flat(q) != []
    ensures var (r, left) := HandleOverrun(p, q, usage);
            && Shape(p, budget, r) && r != [] && 0 <= left <= usage && |r| <= |q|
            && (PartRemains(p, r, left) ==> left < r[0].rAmount)
            && Flat(r) != [] && Flat(r) == Turns(Flat(q), usage - left, p.period)
            && OverrunLog(p, q, usage) == Taken(Flat(q), usage - left, p.period)
  {
    hide Flat, HandleOverrun, OverrunLog, Turns, Taken;
    HandleOverrunShape(p, budget, q, usage);
    HandleOverrunTurns(p, budget, q, usage);
    FlatLast(HandleOverrun(p, q, usage).0);
  }

  /** The charge of a running thread, which its head is sufficient for: in a buffer
      with room the used ticks return exactly a period later, or right behind the
      tail if that ends later, and no other tick moves. */
  lemma {:induction false} SufficientChargeExactly(p: Params, budget: int, q: seq<Refill>, usage: int)
    requires p.Ok(budget) && Inv(p, budget, q) && q[0].rTime < p.MaxReleaseTime() && |q| < p.maxRefills
    requires 0 < usage && usage + p.minBudget <= q[0].rAmount
    ensures usage <= |Flat(q)|
    ensures Flat(BudgetCheck(p, q, usage))
         == Flat(q)[usage..] + Ticks(Later(q[0].rTime + p.period, Last(q).End()), usage)
    ensures |BudgetCheck(p, q, usage)| == |q| + if Last(q).End() < q[0].rTime + p.period then 1 else 0
  {
    hide Flat, ScheduleUsed, Ticks;
    var rest := [AfterPart(q[0], usage)] + q[1..];
    var used := Refill(q[0].rTime + p.period, usage);
    assert AllPositive(rest) && Last(rest).End() == Last(q).End();
    assert HandleOverrun(p, q, usage) == (q, usage);
    assert ChargePartOfHead(p, q, usage) == ScheduleUsed(p, rest, used);
    ChargePartOfHeadShape(p, budget, q, usage);
    ScheduleUsedExactly(p, rest, used);
    ScheduleUsedAppends(p, rest, used);
    FlatSplitHead(q, usage);
    TicksLength(q[0].rTime, usage);
    assert Flat(q)[usage..] == Flat(rest);
    HeadStays(p, rest, used);
  }

  lemma {:induction false} HeadStays(p: Params, q: seq<Refill>, used: Refill)
    requires q != [] && used.rAmount > 0 && (|q| != p.maxRefills || |q| > 1)
    ensures ScheduleUsed(p, q, used)[0].rAmount >= q[0].rAmount
  {
  }

  // ---------------------------------------------------------------------------
  // Unblocking

  /** The ticks packed from a time on: tick i is not before `now + i`. */
  ghost function Packed(x: seq<int>, now: int): seq<int> {
    seq(|x|, i requires 0 <= i < |x| => Later(x[i], now + i))
  }

  lemma {:induction false} TicksGrow(x: seq<int>, i: nat, j: nat)
    requires Increasing(x) && i <= j < |x|
    ensures x[j] >= x[i] + (j - i)
    decreases j - i
  {
    if i < j { TicksGrow(x, i, j - 1); }
  }

  lemma {:induction false} FlatHead(q: seq<Refill>)
    requires q != [] && AllPositive(q)
    ensures Flat(q) == Ticks(q[0].rTime, q[0].rAmount) + Flat(q[1..])
  {
  }

  lemma {:induction false} MergeOverlapsPacks(q: seq<Refill>)
    requires q != [] && AllPositive(q) && Ordered(q[1..])
    ensures Flat(MergeOverlaps(q)) == Packed(Flat(q), q[0].rTime)
    decreases |q|
  {
    hide Flat;
    var x, t, a := Flat(q), q[0].rTime, q[0].rAmount;
    FlatHead(q);
    if |q| > 1 && q[1].rTime <= q[0].End() {
      var r := ExtendHead(q);
      assert r[1..] == q[1..][1..] && q[1..][1..] == q[2..];
      MergeOverlapsPacks(r);
      FlatHead(r);
      FlatHead(q[1..]);
      ExtendPacks(t, a, q[1].rTime, q[1].rAmount, Flat(q[2..]));
    } else if |q| > 1 {
      FlatIncreasing(q[1..]);
      FlatLength(q[1..]);
      forall i | 0 <= i < |x| ensures x[i] >= t + i {
        if i >= a {
          assert x[i] == Flat(q[1..])[i - a];
          TicksGrow(Flat(q[1..]), 0, i - a);
        }
      }
      assert Packed(x, t) == x;
    } else {
      assert q[1..] == [] && Flat([]) == [] by { EmptyFlat(); }
      assert Packed(x, t) == x;
    }
  }

  lemma {:induction false} EmptyFlat()
    ensures Flat([]) == []
  {
  }

  lemma {:induction false} ExtendPacks(t: int, a: int, u: int, b: int, y: seq<int>)
    requires a > 0 && b > 0 && u <= t + a
    ensures Packed(Ticks(t, a + b) + y, t) == Packed(Ticks(t, a) + (Ticks(u, b) + y), t)
  {
  }

  /** An unblock puts every tick at its own time or as many ticks after the present
      as there are before it, whichever is later. */
  lemma {:induction false} UnblockCheckExactly(q: seq<Refill>, now: int)
    requires q != [] && AllPositive(q) && Ordered(q)
    ensures Flat(UnblockCheck(q, now)) == Packed(Flat(q), now)
  {
    hide Flat, MergeOverlaps;
    FlatIncreasing(q);
    var x := Flat(q);
    if q[0].rTime <= now {
      var r := [Refill(now, q[0].rAmount)] + q[1..];
      assert r[1..] == q[1..];
      MergeOverlapsPacks(r);
      FlatHead(q);
      FlatHead(r);
      ExtendedHead(q[0].rTime, now, q[0].rAmount, Flat(q[1..]));
    } else {
      forall i | 0 <= i < |x| ensures x[i] >= now + i { TicksGrow(x, 0, i); }
      assert Packed(x, now) == x;
    }
  }

  lemma {:induction false} ExtendedHead(t: int, now: int, a: int, y: seq<int>)
    requires t <= now && a > 0
    ensures Packed(Ticks(now, a) + y, now) == Packed(Ticks(t, a) + y, now)
  {
  }

  /** The refills behind the new head are untouched, and separate from it. */
  lemma {:induction false} MergeOverlapsRest(q: seq<Refill>)
    requires q != []
    ensures var r := MergeOverlaps(q);
            && 0 < |r| <= |q| && r[0].rTime == q[0].rTime && r[1..] == q[|q| - |r| + 1..]
            && (|r| > 1 ==> r[0].End() < r[1].rTime)
    decreases |q|
  {
    if |q| > 1 && q[1].rTime <= q[0].End() {
      MergeOverlapsRest(ExtendHead(q));
      var r := MergeOverlaps(q);
      assert ExtendHead(q)[|q| - 1 - |r| + 1..] == q[|q| - |r| + 1..];
    } else {
      assert q[1..] == q[|q| - |q| + 1..];
    }
  }

  lemma {:induction false} UnblockCheckRest(q: seq<Refill>, now: int)
    requires q != [] && q[0].rTime <= now
    ensures var r := UnblockCheck(q, now);
            && 0 < |r| <= |q| && r[0].rTime == now && r[1..] == q[|q| - |r| + 1..]
            && (|r| > 1 ==> r[0].End() < r[1].rTime)
  {
    var a := [Refill(now, q[0].rAmount)] + q[1..];
    MergeOverlapsRest(a);
    var r := UnblockCheck(q, now);
    assert a[|q| - |r| + 1..] == q[|q| - |r| + 1..];
  }

  // ---------------------------------------------------------------------------
  // Updates

  /** An update keeps the head's ticks, from the present on and up to the new budget,
      and puts the rest of the budget a period after the first. */
  lemma {:induction false} UpdateExactly(head: Refill, period: int, budget: int, now: int)
    requires 0 < budget && 0 < head.rAmount
    ensures var start, kept := Later(head.rTime, now), if head.rAmount < budget then head.rAmount else budget;
            && Flat(Update(head, period, budget, now)) == Ticks(start, kept) + Ticks(start + period, budget - kept)
            && |Update(head, period, budget, now)| == if head.rAmount < budget || period == 0 then 2 else 1
  {
    hide Flat;
    FlatUpdate(if head.rTime <= now then Refill(now, head.rAmount) else head, period, budget);
  }
}
