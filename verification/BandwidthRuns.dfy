/**
 The sliding-window constraint of the sporadic server: whatever mix of charges,
 unblocks and updates a scheduling context goes through, no window of one period
 sees more than the budget charged inside it; if updates change the parameters,
 of the shortest period and the largest budget.
 */
module BandwidthRuns {
  import opened RefillQueue
  import opened Bandwidth

  /** A charge, an unblock, or an update with new parameters. */
  datatype Event = Charge(usage: nat) | Unblock(now: nat) | Reset(period: int, budget: int, maxRefills: int, now: nat)

  /** A scheduling context with its parameters and its queue. */
  datatype Context = Context(p: Params, budget: int, q: seq<Refill>)

  ghost predicate Valid(s: Context) { s.p.Ok(s.budget) && Inv(s.p, s.budget, s.q) }

  /** The kernel checks new parameters before it updates a context. */
  ghost predicate Allowed(s: Context, e: Event) {
    e.Reset? ==> s.p.(period := e.period, maxRefills := e.maxRefills).Ok(e.budget)
  }

  ghost function Step(s: Context, e: Event): Context
    requires Valid(s) && Allowed(s, e)
  {
    match e
    case Charge(usage) => s.(q := BudgetCheck(s.p, s.q, usage))
    case Unblock(now) => s.(q := UnblockCheck(s.q, now))
    case Reset(period, budget, maxRefills, now) =>
      Context(s.p.(period := period, maxRefills := maxRefills), budget, Update(s.q[0], period, budget, now))
  }

  lemma {:induction false} StepInv(s: Context, e: Event)
    requires Valid(s) && Allowed(s, e)
    ensures Valid(Step(s, e))
    ensures s.q[0].rTime <= Step(s, e).q[0].rTime
  {
    match e
    case Charge(usage) => BudgetCheckInv(s.p, s.budget, s.q, usage);
    case Unblock(now) => UnblockCheckInv(s.p, s.budget, s.q, now);
    case Reset(period, budget, maxRefills, now) =>
      UpdateInv(s.p.(period := period, maxRefills := maxRefills), budget, s.q[0], now);
  }

  /** Every update of the run is allowed; whether it is depends on platform constants
      only. */
  ghost predicate AllAllowed(s: Context, run: seq<Event>) {
    forall i :: 0 <= i < |run| ==> Allowed(s, run[i])
  }

  ghost function Run(s: Context, run: seq<Event>): (r: Context)
    requires Valid(s) && AllAllowed(s, run)
    ensures Valid(r)
    ensures s.q[0].rTime <= r.q[0].rTime
    decreases |run|
  {
    if run == [] then s
    else
      StepInv(s, run[0]);
      Run(Step(s, run[0]), run[1..])
  }

  /** Refill-time positions charged by one event. */
  ghost function StepLog(s: Context, e: Event): seq<int>
    requires Valid(s)
  {
    if e.Charge? then ChargeLog(s.p, s.q, e.usage) else []
  }

  /** The parameters of a context, and those that an event sets, stay within a
      budget and a period. */
  ghost predicate Within(s: Context, most: int, width: int) { s.budget <= most && width <= s.p.period }

  ghost predicate Keeps(e: Event, most: int, width: int) { e.Reset? ==> e.budget <= most && width <= e.period }

  lemma {:induction false} StepSpaced(s: Context, e: Event, log: seq<int>, most: int, width: int)
    requires Valid(s) && Allowed(s, e) && Within(s, most, width) && Keeps(e, most, width)
    requires Spaced(log, Flat(s.q), most, width)
    ensures Within(Step(s, e), most, width)
    ensures Spaced(log + StepLog(s, e), Flat(Step(s, e).q), most, width)
  {
    hide Spaced;
    assert log + [] == log;
    match e
    case Charge(usage) => BudgetCheckSpaced(s.p, s.budget, s.q, usage, log, most, width);
    case Unblock(now) =>
      UnblockCheckInv(s.p, s.budget, s.q, now);
      UnblockCheckDelays(s.q, now);
      FlatIncreasing(UnblockCheck(s.q, now));
      SpacedDelay(log, Flat(s.q), Flat(UnblockCheck(s.q, now)), most, width);
    case Reset(period, budget, maxRefills, now) =>
      UpdateSpaced(s.q, period, budget, now, log, most, width);
  }

  /** Refill-time positions charged over a whole run, in order. */
  ghost function RunLog(s: Context, run: seq<Event>): seq<int>
    requires Valid(s) && AllAllowed(s, run)
    decreases |run|
  {
    if run == [] then []
    else
      StepInv(s, run[0]);
      StepLog(s, run[0]) + RunLog(Step(s, run[0]), run[1..])
  }

  lemma {:induction false} RunSpaced(s: Context, run: seq<Event>, log: seq<int>, most: int, width: int)
    requires Valid(s) && AllAllowed(s, run) && Within(s, most, width)
    requires forall i :: 0 <= i < |run| ==> Keeps(run[i], most, width)
    requires Spaced(log, Flat(s.q), most, width)
    ensures Spaced(log + RunLog(s, run), Flat(Run(s, run).q), most, width)
    decreases |run|
  {
    hide Spaced, Flat, Inv, ChargeLog;
    if run == [] {
      assert log + RunLog(s, run) == log;
    } else {
      var a, r := StepLog(s, run[0]), Step(s, run[0]);
      StepInv(s, run[0]);
      StepSpaced(s, run[0], log, most, width);
      RunSpaced(r, run[1..], log + a, most, width);
      Associative(log, a, RunLog(r, run[1..]));
    }
  }

  lemma {:induction false} InitiallySpaced(s: Context, most: int, width: int)
    requires Valid(s) && Within(s, most, width)
    ensures Spaced([], Flat(s.q), most, width)
  {
    FlatIncreasing(s.q);
    FlatLength(s.q);
    assert [] + Flat(s.q) == Flat(s.q);
  }

  /** The sliding-window theorem: from any context that meets the invariant, after any
      run of charges, unblocks and updates, in which no budget is above `most` and no
      period below `width`, the ticks charged inside any window of that width number
      at most `most`, also when updates fall inside the window. */
  lemma {:induction false} SlidingWindow(s: Context, run: seq<Event>, most: int, width: int, from: int)
    requires Valid(s) && AllAllowed(s, run) && Within(s, most, width)
    requires forall i :: 0 <= i < |run| ==> Keeps(run[i], most, width)
    ensures InWindow(RunLog(s, run), from, width) <= most
  {
    hide Spaced, Flat, Inv, RunLog, Run, InWindow;
    var log := RunLog(s, run);
    InitiallySpaced(s, most, width);
    RunSpaced(s, run, [], most, width);
    assert [] + log == log;
    SpacedWindow(log, Flat(Run(s, run).q), most, width, from);
  }

  /** While budget and period stay the same, whatever else an update changes: one
      period, one budget. */
  lemma {:induction false} OneBudgetAPeriod(s: Context, run: seq<Event>, from: int)
    requires Valid(s) && AllAllowed(s, run)
    requires forall i :: 0 <= i < |run| && run[i].Reset? ==> run[i].budget == s.budget && run[i].period == s.p.period
    ensures InWindow(RunLog(s, run), from, s.p.period) <= s.budget
  {
    hide Inv, RunLog, InWindow;
    SlidingWindow(s, run, s.budget, s.p.period, from);
  }
}
