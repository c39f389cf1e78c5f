/**
 The spacing behind the sliding-window constraint of the sporadic server.

 A queue is read as the increasing sequence of the ticks it holds, each at its
 own point of refill time.  A charge takes ticks from the front and puts each
 of them back at least one period later; nothing ever moves a tick earlier.
 */
module Bandwidth {
  import opened RefillQueue

  /** The points of refill time [t, t + n). */
  ghost function Ticks(t: int, n: int): seq<int> {
    if n <= 0 then [] else seq(n, i => t + i)
  }

  /** All ticks of a queue, in queue order. */
  ghost function Flat(q: seq<Refill>): seq<int> {
    if q == [] then [] else Ticks(q[0].rTime, q[0].rAmount) + Flat(q[1..])
  }

  ghost predicate Increasing(s: seq<int>) {
    forall i, j :: 0 <= i < j < |s| ==> s[i] < s[j]
  }

  /** Tick by tick, `y` is no earlier than `x`. */
  ghost predicate Delayed(x: seq<int>, y: seq<int>) {
    |x| == |y| && forall i :: 0 <= i < |x| ==> x[i] <= y[i]
  }

  ghost function Shift(s: seq<int>, d: int): seq<int> {
    seq(|s|, i requires 0 <= i < |s| => s[i] + d)
  }

  /** The first `u` ticks taken off the front and put back `d` later. */
  ghost function Recycled(x: seq<int>, u: nat, d: int): seq<int>
    requires u <= |x|
  {
    x[u..] + Shift(x[..u], d)
  }

  // ---------------------------------------------------------------------------
  // Ticks of a queue

  lemma {:induction false} FlatAppend(a: seq<Refill>, b: seq<Refill>)
    ensures Flat(a + b) == Flat(a) + Flat(b)
  {
    if a == [] {
      assert a + b == b;
    } else {
      assert (a + b)[1..] == a[1..] + b;
      FlatAppend(a[1..], b);
    }
  }

  lemma {:induction false} FlatOne(r: Refill)
    ensures Flat([r]) == Ticks(r.rTime, r.rAmount)
  {
    assert [r][1..] == [];
  }

  lemma {:induction false} FlatCons(r: Refill, q: seq<Refill>)
    ensures Flat([r] + q) == Ticks(r.rTime, r.rAmount) + Flat(q)
  {
    assert ([r] + q)[1..] == q;
  }

  lemma {:induction false} FlatSnoc(q: seq<Refill>, r: Refill)
    ensures Flat(q + [r]) == Flat(q) + Ticks(r.rTime, r.rAmount)
  {
    FlatAppend(q, [r]);
    FlatOne(r);
  }

  lemma {:induction false} FlatLength(q: seq<Refill>)
    requires AllPositive(q)
    ensures |Flat(q)| == Sum(q)
  {
    if q != [] { FlatLength(q[1..]); }
  }

  /** Ordered refills hold each point of time at most once, all of them at or
      after the start of the first refill. */
  lemma {:induction false} FlatIncreasing(q: seq<Refill>)
    requires AllPositive(q) && Ordered(q)
    ensures Increasing(Flat(q))
    ensures q != [] ==> Flat(q) != [] && Flat(q)[0] == q[0].rTime
  {
    if q != [] {
      FlatIncreasing(q[1..]);
      if |q| > 1 {
        assert q[1..][0].rTime == q[1].rTime >= q[0].End();
        var a, b := Ticks(q[0].rTime, q[0].rAmount), Flat(q[1..]);
        assert forall j :: 0 <= j < |b| ==> b[0] <= b[j];
      }
    }
  }

  // ---------------------------------------------------------------------------
  // No operation moves a tick earlier

  lemma {:induction false} DelayedAfter(front: seq<int>, x: seq<int>, y: seq<int>)
    requires Delayed(x, y)
    ensures Delayed(front + x, front + y)
  {
  }

  /** Two refills as one, no earlier than either. */
  lemma {:induction false} JoinedDelays(a: Refill, b: Refill, start: int)
    requires a.rAmount >= 0 && b.rAmount >= 0 && start >= a.rTime && start + a.rAmount >= b.rTime
    ensures Delayed(Ticks(a.rTime, a.rAmount) + Ticks(b.rTime, b.rAmount), Ticks(start, a.rAmount + b.rAmount))
  {
  }

  lemma {:induction false} JoinTail(front: seq<Refill>, tail: Refill, used: Refill, start: int)
    requires tail.rAmount > 0 && used.rAmount > 0 && start >= tail.rTime && start + tail.rAmount >= used.rTime
    ensures Delayed(Flat(front + [tail]) + Ticks(used.rTime, used.rAmount),
                    Flat(front + [Refill(start, tail.rAmount + used.rAmount)]))
  {
    hide Flat, Ticks, Delayed;
    FlatSnoc(front, tail);
    FlatSnoc(front, Refill(start, tail.rAmount + used.rAmount));
    JoinedDelays(tail, used, start);
    var x := Ticks(tail.rTime, tail.rAmount) + Ticks(used.rTime, used.rAmount);
    DelayedAfter(Flat(front), x, Ticks(start, tail.rAmount + used.rAmount));
    Associative(Flat(front), Ticks(tail.rTime, tail.rAmount), Ticks(used.rTime, used.rAmount));
  }

  lemma {:induction false} ScheduleUsedDelays(p: Params, q: seq<Refill>, used: Refill)
    requires q != [] && AllPositive(q) && used.rAmount > 0
    ensures Delayed(Flat(q) + Ticks(used.rTime, used.rAmount), Flat(ScheduleUsed(p, q, used)))
  {
    hide Flat, Ticks;
    var tail, front := Last(q), q[..|q| - 1];
    assert q == front + [tail];
    if tail.End() >= used.rTime {
      JoinTail(front, tail, used, tail.rTime);
    } else if |q| != p.maxRefills {
      FlatSnoc(q, used);
    } else {
      JoinTail(front, tail, used, used.rTime - tail.rAmount);
    }
  }

  lemma {:induction false} RecycledFront(a: seq<int>, b: seq<int>, d: int)
    ensures (a + b)[..|a|] == a
    ensures Recycled(a + b, |a|, d) == b + Shift(a, d)
  {
    assert (a + b)[..|a|] == a;
    assert (a + b)[|a|..] == b;
  }

  lemma {:induction false} TicksFacts(t: int, m: nat, n: nat, d: int)
    ensures |Ticks(t, m)| == m
    ensures Shift(Ticks(t, m), d) == Ticks(t + d, m)
    ensures Ticks(t, m + n) == Ticks(t, m) + Ticks(t + m, n)
  {
  }

  lemma {:induction false} ChargeEntireHeadDelays(p: Params, q: seq<Refill>)
    requires q != [] && AllPositive(q)
    ensures Delayed(Flat(q[1..]) + Ticks(q[0].rTime + p.period, q[0].rAmount), Flat(ChargeEntireHead(p, q)))
  {
    hide Ticks;
    hide ScheduleUsed;
    var again := Refill(q[0].rTime + p.period, q[0].rAmount);
    if |q| > 1 {
      ScheduleUsedDelays(p, q[1..], again);
    } else {
      FlatOne(again);
      assert Flat(q[1..]) == [];
    }
  }

  lemma {:induction false} ChargeEntireHeadRecycles(p: Params, q: seq<Refill>)
    requires q != [] && AllPositive(q)
    ensures q[0].rAmount <= |Flat(q)|
    ensures Flat(q)[..q[0].rAmount] == Ticks(q[0].rTime, q[0].rAmount)
    ensures Delayed(Recycled(Flat(q), q[0].rAmount, p.period), Flat(ChargeEntireHead(p, q)))
  {
    var again := Refill(q[0].rTime + p.period, q[0].rAmount);
    var front, back := Ticks(q[0].rTime, q[0].rAmount), Flat(q[1..]);
    assert Flat(q) == front + back;
    hide ScheduleUsed, Flat, Ticks, ChargeEntireHead;
    assert |front| == q[0].rAmount && Shift(front, p.period) == Ticks(again.rTime, again.rAmount) by {
      TicksFacts(q[0].rTime, q[0].rAmount, 0, p.period);
    }
    RecycledFront(front, back, p.period);
    assert Delayed(back + Ticks(again.rTime, again.rAmount), Flat(ChargeEntireHead(p, q))) by {
      ChargeEntireHeadDelays(p, q);
    }
  }

  ghost function AfterPart(r: Refill, usage: int): Refill {
    Refill(r.rTime + usage, r.rAmount - usage)
  }

  lemma {:induction false} FlatSplitHead(q: seq<Refill>, usage: int)
    requires q != [] && 0 < usage < q[0].rAmount
    ensures Flat(q) == Ticks(q[0].rTime, usage) + Flat([AfterPart(q[0], usage)] + q[1..])
  {
    var kept := AfterPart(q[0], usage);
    var a, b, c := Ticks(q[0].rTime, usage), Ticks(kept.rTime, kept.rAmount), Flat(q[1..]);
    calc {
      Flat(q);
      Ticks(q[0].rTime, q[0].rAmount) + c;
      { TicksFacts(q[0].rTime, usage, kept.rAmount, 0); }
      (a + b) + c;
      { Associative(a, b, c); }
      a + (b + c);
      { FlatCons(kept, q[1..]); }
      a + Flat([kept] + q[1..]);
    }
  }

  lemma {:induction false} Associative(a: seq<int>, b: seq<int>, c: seq<int>)
    ensures (a + b) + c == a + (b + c)
  {
  }

  lemma {:induction false} ChargePartOfHeadRecycles(p: Params, q: seq<Refill>, usage: int)
    requires q != [] && AllPositive(q) && 0 < usage < q[0].rAmount
    ensures usage <= |Flat(q)|
    ensures Flat(q)[..usage] == Ticks(q[0].rTime, usage)
    ensures Delayed(Recycled(Flat(q), usage, p.period), Flat(ChargePartOfHead(p, q, usage)))
  {
    hide ScheduleUsed, Flat, Ticks;
    var rest := [AfterPart(q[0], usage)] + q[1..];
    var used := Refill(q[0].rTime + p.period, usage);
    var front, back := Ticks(q[0].rTime, usage), Flat(rest);
    assert Flat(q) == front + back by { FlatSplitHead(q, usage); }
    RecycledFront(front, back, p.period);
    assert |front| == usage && Shift(front, p.period) == Ticks(used.rTime, usage) by {
      TicksFacts(q[0].rTime, usage, 0, p.period);
    }
    assert ChargePartOfHead(p, q, usage) == ScheduleUsed(p, rest, used);
    assert AllPositive(rest);
    assert Delayed(back + Ticks(used.rTime, usage), Flat(ScheduleUsed(p, rest, used))) by {
      ScheduleUsedDelays(p, rest, used);
    }
  }

  lemma {:induction false} FillHeadDelays(p: Params, budget: int, q: seq<Refill>)
    requires p.Ok(budget) && Shape(p, budget, q)
    ensures Delayed(Flat(q), Flat(FillHead(p, q)))
    decreases |q|
  {
    if q[0].rAmount < p.minBudget && |q| > 1 {
      AbsorbHeadShape(p, budget, q);
      FlatHeadTwo(q);
      FlatCons(AbsorbHead(q)[0], q[2..]);
      assert q[0].End() <= q[1].rTime;
      assert Delayed(Flat(q), Flat(AbsorbHead(q)));
      FillHeadDelays(p, budget, AbsorbHead(q));
    }
  }

  lemma {:induction false} FlatHeadTwo(q: seq<Refill>)
    requires |q| > 1
    ensures Flat(q) == Ticks(q[0].rTime, q[0].rAmount) + Ticks(q[1].rTime, q[1].rAmount) + Flat(q[2..])
  {
    assert q[1..][1..] == q[2..];
  }

  lemma {:induction false} MergeOverlapsDelays(q: seq<Refill>)
    requires q != [] && AllPositive(q)
    ensures Delayed(Flat(q), Flat(MergeOverlaps(q)))
    decreases |q|
  {
    if |q| > 1 && q[1].rTime <= q[0].End() {
      FlatHeadTwo(q);
      FlatCons(ExtendHead(q)[0], q[2..]);
      assert Delayed(Flat(q), Flat(ExtendHead(q)));
      MergeOverlapsDelays(ExtendHead(q));
    }
  }

  lemma {:induction false} UnblockCheckDelays(q: seq<Refill>, now: int)
    requires q != [] && AllPositive(q)
    ensures Delayed(Flat(q), Flat(UnblockCheck(q, now)))
  {
    if q[0].rTime <= now {
      var r := [Refill(now, q[0].rAmount)] + q[1..];
      assert q == [q[0]] + q[1..];
      FlatCons(q[0], q[1..]);
      FlatCons(r[0], q[1..]);
      MergeOverlapsDelays(r);
    }
  }

  // ---------------------------------------------------------------------------
  // What was charged, and how it is spaced

  /** Refill-time positions charged by the whole-head charges of one call. */
  ghost function OverrunLog(p: Params, q: seq<Refill>, usage: int): seq<int>
    requires q != [] && AllPositive(q)
    decreases usage
  {
    if HeadOverrun(p, q, usage) then
      Ticks(q[0].rTime, q[0].rAmount) + OverrunLog(p, ChargeEntireHead(p, q), usage - q[0].rAmount)
    else
      []
  }

  /** Refill-time positions charged by one `refill_budget_check`. */
  ghost function ChargeLog(p: Params, q: seq<Refill>, usage: int): seq<int>
    requires q != [] && AllPositive(q)
  {
    var (r, left) := HandleOverrun(p, q, usage);
    OverrunLog(p, q, usage) + if PartRemains(p, r, left) then Ticks(r[0].rTime, left) else []
  }

  /** In charging order, and on into the queue: positions increase, and two
      that are `most` places apart are at least `width` apart. */
  ghost predicate Spaced(log: seq<int>, x: seq<int>, most: int, width: int) {
    var s := log + x;
    && |x| <= most
    && Increasing(s)
    && forall i, j :: 0 <= i && i + most <= j < |s| ==> s[i] + width <= s[j]
  }

  lemma {:induction false} SpacedDelay(log: seq<int>, x: seq<int>, y: seq<int>, most: int, width: int)
    requires Spaced(log, x, most, width) && Delayed(x, y) && Increasing(y)
    ensures Spaced(log, y, most, width)
  {
    var s, t := log + x, log + y;
    assert forall i :: 0 <= i < |s| ==> s[i] <= t[i];
    assert forall i :: 0 <= i < |log| ==> s[i] == t[i];
    forall i, j | 0 <= i < j < |t| ensures t[i] < t[j] {
      if i < |log| {
        assert s[i] < s[j];
      } else {
        assert t[i] == y[i - |log|] && t[j] == y[j - |log|];
      }
    }
    forall i, j | 0 <= i && i + most <= j < |t| ensures t[i] + width <= t[j] {
      assert s[i] + width <= s[j];
    }
  }

  /** Charging the first u of the ticks that follow n earlier ones: the charged
      ones stay, later ones come no earlier, and new ones a period after those
      `size` places before. */
  ghost predicate Charged(s: seq<int>, t: seq<int>, n: nat, u: nat, size: int, period: int) {
    && 0 < u <= size && |s| == n + size && |t| == |s| + u
    && (forall i :: 0 <= i < n + u ==> t[i] == s[i])
    && (forall k :: n + u <= k < |s| ==> s[k] <= t[k])
    && (forall k, j :: |s| <= k < |t| && j == k - size ==> s[j] + period <= t[k])
  }

  lemma {:induction false} RecycledIsCharged(log: seq<int>, x: seq<int>, u: nat, y: seq<int>, period: int)
    requires 0 < u <= |x| && Delayed(Recycled(x, u, period), y)
    ensures Charged(log + x, log + x[..u] + y, |log|, u, |x|, period)
  {
    var s, t, n, r := log + x, log + x[..u] + y, |log|, Recycled(x, u, period);
    assert forall i :: 0 <= i < n + u ==> t[i] == s[i];
    forall k | n + u <= k < |s| ensures s[k] <= t[k] {
      assert t[k] == y[k - n - u] >= r[k - n - u] == x[k - n];
    }
    forall k, j | |s| <= k < |t| && j == k - |x| ensures s[j] + period <= t[k] {
      assert t[k] == y[k - n - u] >= r[k - n - u] == x[j - n] + period;
    }
  }

  lemma {:induction false} ChargedIncreasing(s: seq<int>, t: seq<int>, n: nat, u: nat, size: int, period: int)
    requires Charged(s, t, n, u, size, period) && Increasing(s) && s[n + u - 1] < s[n] + period
    requires forall i, j :: n + u <= i < j < |t| ==> t[i] < t[j]
    ensures Increasing(t)
  {
    forall i, j | 0 <= i < j < |t| ensures t[i] < t[j] {
      if i < n + u {
        if j < |s| {
          assert s[i] < s[j];
        } else {
          assert s[j - size] + period <= t[j];
          assert s[i] <= s[n + u - 1];
          assert s[n] <= s[j - size];
        }
      }
    }
  }

  lemma {:induction false} ChargedSpaced(s: seq<int>, t: seq<int>, n: nat, u: nat, size: int, period: int,
                                         most: int, width: int)
    requires Charged(s, t, n, u, size, period) && Increasing(s) && size <= most && width <= period
    requires forall i, j :: 0 <= i && i + most <= j < |s| ==> s[i] + width <= s[j]
    ensures forall i, j :: 0 <= i && i + most <= j < |t| ==> t[i] + width <= t[j]
  {
    forall i, j | 0 <= i && i + most <= j < |t| ensures t[i] + width <= t[j] {
      if j < |s| {
        assert s[i] + width <= s[j];
      } else {
        assert s[j - size] + period <= t[j];
        assert s[i] <= s[j - size];
      }
    }
  }

  lemma {:induction false} SpacedRecycle(log: seq<int>, x: seq<int>, u: nat, y: seq<int>, period: int,
                                         most: int, width: int)
    requires Spaced(log, x, most, width) && 0 < u <= |x| && width <= period
    requires x[u - 1] < x[0] + period
    requires Delayed(Recycled(x, u, period), y) && Increasing(y)
    ensures Spaced(log + x[..u], y, most, width)
  {
    hide Charged;
    var s, t, n := log + x, log + x[..u] + y, |log|;
    RecycledIsCharged(log, x, u, y, period);
    forall i, j | n + u <= i < j < |t| ensures t[i] < t[j] {
      assert t[i] == y[i - n - u] && t[j] == y[j - n - u];
    }
    assert s[n + u - 1] == x[u - 1] && s[n] == x[0];
    ChargedIncreasing(s, t, n, u, |x|, period);
    ChargedSpaced(s, t, n, u, |x|, period, most, width);
  }

  /** A queue that starts anew: the first c ticks are only delayed, and all others
      come a period after the first. */
  lemma {:induction false} SpacedRestart(log: seq<int>, x: seq<int>, y: seq<int>, c: nat, period: int,
                                         most: int, width: int)
    requires Spaced(log, x, most, width) && |y| <= most && width <= period
    requires 0 < c <= |x| && c <= |y| && Increasing(y)
    requires forall i :: 0 <= i < c ==> x[i] <= y[i]
    requires forall i :: c <= i < |y| ==> y[0] + period <= y[i]
    ensures Spaced(log, y, most, width)
  {
    var s, t, n := log + x, log + y, |log|;
    assert forall i :: 0 <= i < n ==> s[i] == t[i];
    assert s[n] == x[0] && t[n] == y[0];
    forall i, j | 0 <= i < j < |t| ensures t[i] < t[j] {
      if j >= n {
        assert t[j] == y[j - n] >= y[0];
        if i < n { assert s[i] < s[n]; } else { assert t[i] == y[i - n]; }
      } else {
        assert s[i] < s[j];
      }
    }
    forall i, j | 0 <= i && i + most <= j < |t| ensures t[i] + width <= t[j] {
      if j < n + c {
        assert s[i] + width <= s[j];
        assert j >= n ==> s[j] == x[j - n] && t[j] == y[j - n];
      } else {
        assert t[j] == y[j - n] && s[i] < s[n];
      }
    }
  }

  lemma {:induction false} HandleOverrunSpaced(p: Params, budget: int, q: seq<Refill>, usage: int, log: seq<int>,
                                               most: int, width: int)
    requires p.Ok(budget) && Shape(p, budget, q) && 0 <= usage
    requires Spaced(log, Flat(q), most, width) && budget <= most && width <= p.period
    ensures Spaced(log + OverrunLog(p, q, usage), Flat(HandleOverrun(p, q, usage).0), most, width)
    decreases usage
  {
    hide Spaced, Flat;
    if HeadOverrun(p, q, usage) {
      var r := ChargeEntireHead(p, q);
      var head := Ticks(q[0].rTime, q[0].rAmount);
      ChargeEntireHeadShape(p, budget, q);
      ChargeEntireHeadRecycles(p, q);
      SumBounds(q);
      FlatIncreasing(r);
      SpacedRecycle(log, Flat(q), q[0].rAmount, Flat(r), p.period, most, width);
      HandleOverrunSpaced(p, budget, r, usage - q[0].rAmount, log + head, most, width);
      assert log + OverrunLog(p, q, usage) == log + head + OverrunLog(p, r, usage - q[0].rAmount);
    } else {
      assert log + OverrunLog(p, q, usage) == log;
    }
  }

  lemma {:induction false} ChargePartSpaced(p: Params, budget: int, q: seq<Refill>, usage: int, log: seq<int>,
                         most: int, width: int)
    requires p.Ok(budget) && Shape(p, budget, q) && 0 < usage < q[0].rAmount
    requires Spaced(log, Flat(q), most, width) && budget <= most && width <= p.period
    ensures Spaced(log + Ticks(q[0].rTime, usage), Flat(ChargePartOfHead(p, q, usage)), most, width)
  {
    ChargePartOfHeadShape(p, budget, q, usage);
    ChargePartOfHeadRecycles(p, q, usage);
    SumBounds(q);
    FlatIncreasing(ChargePartOfHead(p, q, usage));
    SpacedRecycle(log, Flat(q), usage, Flat(ChargePartOfHead(p, q, usage)), p.period, most, width);
  }

  lemma {:induction false} FillHeadSpaced(p: Params, budget: int, q: seq<Refill>, log: seq<int>, most: int, width: int)
    requires p.Ok(budget) && Shape(p, budget, q)
    requires Spaced(log, Flat(q), most, width) && budget <= most && width <= p.period
    ensures Spaced(log, Flat(FillHead(p, q)), most, width)
  {
    FillHeadShape(p, budget, q);
    FillHeadDelays(p, budget, q);
    FlatIncreasing(FillHead(p, q));
    SpacedDelay(log, Flat(q), Flat(FillHead(p, q)), most, width);
  }

  /** One charge extends the log by positions that keep the whole of it spaced. */
  lemma {:induction false} BudgetCheckSpaced(p: Params, budget: int, q: seq<Refill>, usage: int, log: seq<int>,
                                             most: int, width: int)
    requires p.Ok(budget) && Inv(p, budget, q) && 0 <= usage
    requires Spaced(log, Flat(q), most, width) && budget <= most && width <= p.period
    ensures Spaced(log + ChargeLog(p, q, usage), Flat(BudgetCheck(p, q, usage)), most, width)
  {
    hide Spaced, Flat, OverrunLog, HandleOverrun, FillHead, Ticks;
    HandleOverrunShape(p, budget, q, usage);
    HandleOverrunSpaced(p, budget, q, usage, log, most, width);
    var (r, left) := HandleOverrun(p, q, usage);
    var log' := log + OverrunLog(p, q, usage);
    if PartRemains(p, r, left) {
      ChargePartSpaced(p, budget, r, left, log', most, width);
      ChargePartOfHeadShape(p, budget, r, left);
      assert log' + Ticks(r[0].rTime, left) == log + ChargeLog(p, q, usage);
      FillHeadSpaced(p, budget, ChargePartOfHead(p, r, left), log + ChargeLog(p, q, usage), most, width);
    } else {
      assert log' == log + ChargeLog(p, q, usage);
      FillHeadSpaced(p, budget, r, log', most, width);
    }
  }

  /** One charge charges all of `usage`, unless refill time has run out. */
  lemma {:induction false} BudgetCheckCharges(p: Params, budget: int, q: seq<Refill>, usage: int)
    requires p.Ok(budget) && Inv(p, budget, q) && 0 <= usage
    ensures |ChargeLog(p, q, usage)| <= usage && BudgetCheck(p, q, usage) != []
    ensures |ChargeLog(p, q, usage)| == usage || BudgetCheck(p, q, usage)[0].rTime >= p.MaxReleaseTime()
  {
    hide Flat, OverrunLog, HandleOverrun, FillHead;
    HandleOverrunShape(p, budget, q, usage);
    OverrunCharges(p, budget, q, usage);
    var (r, left) := HandleOverrun(p, q, usage);
    if PartRemains(p, r, left) {
      ChargePartOfHeadShape(p, budget, r, left);
      FillHeadShape(p, budget, ChargePartOfHead(p, r, left));
    } else {
      FillHeadShape(p, budget, r);
    }
  }

  lemma {:induction false} OverrunCharges(p: Params, budget: int, q: seq<Refill>, usage: int)
    requires p.Ok(budget) && Shape(p, budget, q) && 0 <= usage
    ensures |OverrunLog(p, q, usage)| == usage - HandleOverrun(p, q, usage).1
    decreases usage
  {
    if HeadOverrun(p, q, usage) {
      ChargeEntireHeadShape(p, budget, q);
      OverrunCharges(p, budget, ChargeEntireHead(p, q), usage - q[0].rAmount);
    }
  }

  lemma {:induction false} NoTicks(t: int)
    ensures Ticks(t, 0) == []
  {
  }

  lemma {:induction false} FlatUpdate(first: Refill, period: int, budget: int)
    requires 0 < budget && 0 < first.rAmount
    ensures Flat(Topped(first, period, budget))
         == if first.rAmount >= budget then Ticks(first.rTime, budget)
            else Ticks(first.rTime, first.rAmount) + Ticks(first.rTime + period, budget - first.rAmount)
  {
    hide Ticks;
    if first.rAmount >= budget {
      var kept := Refill(first.rTime, budget);
      FlatOne(kept);
      if period == 0 {
        FlatCons(kept, [Refill(first.rTime, 0)]);
        FlatOne(Refill(first.rTime, 0));
        NoTicks(first.rTime);
      } else {
        assert Topped(first, period, budget) == [kept];
      }
    } else {
      FlatCons(first, [Refill(first.rTime + period, budget - first.rAmount)]);
      FlatOne(Refill(first.rTime + period, budget - first.rAmount));
    }
  }

  /** An update, also one that changes budget and period, restarts the queue without
      breaking the spacing. */
  lemma {:induction false} UpdateSpaced(q: seq<Refill>, period: int, budget: int, now: int, log: seq<int>,
                                        most: int, width: int)
    requires q != [] && AllPositive(q) && 0 < budget <= period
    requires Spaced(log, Flat(q), most, width) && budget <= most && width <= period
    ensures Spaced(log, Flat(Update(q[0], period, budget, now)), most, width)
  {
    hide Flat, Spaced;
    var head := q[0];
    var first := if head.rTime <= now then Refill(now, head.rAmount) else head;
    var x, y := Flat(q), Flat(Update(head, period, budget, now));
    FlatUpdate(first, period, budget);
    assert x == Ticks(head.rTime, head.rAmount) + Flat(q[1..]) by {
      assert q == [head] + q[1..];
      FlatCons(head, q[1..]);
    }
    SpacedRestart(log, x, y, if head.rAmount < budget then head.rAmount else budget, period, most, width);
  }

  // ---------------------------------------------------------------------------
  // Windows

  /** How many positions of `s` lie in [from, from + width). */
  ghost function InWindow(s: seq<int>, from: int, width: int): nat {
    if s == [] then 0
    else (if from <= s[0] < from + width then 1 else 0) + InWindow(s[1..], from, width)
  }

  /** In an increasing sequence the members of a window are consecutive. */
  lemma {:induction false} WindowIsRange(s: seq<int>, from: int, width: int) returns (i: nat)
    requires Increasing(s)
    ensures i + InWindow(s, from, width) <= |s|
    ensures forall k :: i <= k < i + InWindow(s, from, width) ==> from <= s[k] < from + width
    ensures InWindow(s, from, width) > 0 && from <= s[0] ==> i == 0
  {
    if s == [] {
      i := 0;
    } else {
      var j := WindowIsRange(s[1..], from, width);
      if from <= s[0] < from + width {
        i := 0;
        assert |s| > 1 ==> s[0] < s[1];
      } else {
        i := j + 1;
        if InWindow(s[1..], from, width) > 0 {
          assert s[1..][j] == s[j + 1] > s[0];
        } else {
          i := 0;
        }
      }
    }
  }

  /** Spacing bounds every window: two positions `most` places apart cannot
      both be inside one. */
  lemma {:induction false} SpacedWindow(log: seq<int>, x: seq<int>, most: int, width: int, from: int)
    requires Spaced(log, x, most, width) && 0 <= most
    ensures InWindow(log, from, width) <= most
  {
    var s := log + x;
    assert forall i :: 0 <= i < |log| ==> log[i] == s[i];
    var i := WindowIsRange(log, from, width);
    var n := InWindow(log, from, width);
    if n > 0 {
      assert s[i + n - 1] < from + width <= s[i] + width;
    }
  }
}
