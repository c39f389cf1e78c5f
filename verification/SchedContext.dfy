/**
 A scheduling context: the circular buffer of refills as the kernel keeps it,
 with 64-bit times and amounts.  Every sum and difference below wraps at 2^64;
 the methods' contracts speak of unbounded integers, so proving them includes
 proving that nothing wraps.
 */
module SchedContexts {
  import opened RefillQueue

  const TWO_64: int := UINT64_MAX + 1

  function Add64(a: int, b: int): int {
    if a + b <= UINT64_MAX then a + b else a + b - TWO_64
  }

  function Sub64(a: int, b: int): int {
    if b <= a then a - b else a - b + TWO_64
  }

  /** The places from h round to t of the first `max` in a buffer. */
  ghost function Circular(s: seq<Refill>, max: int, h: int, t: int): seq<Refill>
    requires 0 <= h < max <= |s| && 0 <= t < max
  {
    if h <= t then s[h..t + 1] else s[h..max] + s[..t + 1]
  }

  lemma {:induction false} PopFront(s: seq<Refill>, max: int, h: int, t: int)
    requires 0 <= h < max <= |s| && 0 <= t < max && h != t
    ensures Circular(s, max, h, t) == [s[h]] + Circular(s, max, if h == max - 1 then 0 else h + 1, t)
  {
    if h > t { assert s[h..max] == [s[h]] + s[h + 1..max]; }
  }

  class SchedContext {
    const minBudget: int
    const maxPeriod: int
    const refills: array<Refill>

    var scPeriod: int
    var scRefillHead: int
    var scRefillTail: int
    var scRefillMax: int
    var scSporadic: bool

    ghost function Params(): Params
      reads this
    {
      RefillQueue.Params(minBudget, maxPeriod, scPeriod, scRefillMax)
    }

    predicate InBuffer()
      reads this
    {
      && 0 < scRefillMax <= refills.Length
      && 0 <= scRefillHead < scRefillMax
      && 0 <= scRefillTail < scRefillMax
    }

    // -------------------------------------------------------------------------
    // Readers

    function Next(index: int): int
      reads this
    {
      if index == scRefillMax - 1 then 0 else index + 1
    }

    function Size(): int
      reads this
    {
      if scRefillHead <= scRefillTail then scRefillTail - scRefillHead + 1
      else scRefillTail + 1 + (scRefillMax - scRefillHead)
    }

    predicate Single()
      reads this
    {
      scRefillHead == scRefillTail
    }

    function Head(): Refill
      requires InBuffer()
      reads this, refills
    {
      refills[scRefillHead]
    }

    function Tail(): Refill
      requires InBuffer()
      reads this, refills
    {
      refills[scRefillTail]
    }

    function Capacity(usage: int): (r: int)
      requires InBuffer()
      reads this, refills
      ensures usage + r >= Head().rAmount && r >= 0
      ensures r > 0 ==> usage + r == Head().rAmount
    {
      if usage > Head().rAmount then 0 else Head().rAmount - usage
    }

    /** `refill_sufficient` */
    predicate Sufficient(usage: int)
      requires InBuffer()
      reads this, refills
    {
      Capacity(usage) >= minBudget
    }

    predicate Ready(now: int)
      requires InBuffer()
      reads this, refills
    {
      Head().rTime <= now
    }

    // -------------------------------------------------------------------------
    // The queue that the buffer stands for

    ghost function Queue(): (q: seq<Refill>)
      requires InBuffer()
      reads this, refills
      ensures 0 < |q| <= scRefillMax && |q| == Size()
      ensures |q| == 1 <==> Single()
      ensures q[0] == Head() && Last(q) == Tail()
      ensures |q| > 1 ==> q[1] == refills[Next(scRefillHead)]
    {
      if scRefillHead <= scRefillTail then refills[scRefillHead..scRefillTail + 1]
      else refills[scRefillHead..scRefillMax] + refills[..scRefillTail + 1]
    }

    lemma QueueIs()
      requires InBuffer()
      ensures Queue() == Circular(refills[..], scRefillMax, scRefillHead, scRefillTail)
    {
    }

    ghost function Budget(): int
      requires InBuffer()
      reads this, refills
    {
      Sum(Queue())
    }

    /** The refill invariant, between any two operations. */
    ghost predicate Valid()
      reads this, refills
    {
      && InBuffer()
      && Params().Ok(Budget())
      && Inv(Params(), Budget(), Queue())
      && Head().rTime < Params().MaxReleaseTime() + maxPeriod
    }

    /** A round-robin context: what is left of its time slice, and what is used. */
    ghost predicate RoundRobin()
      reads this, refills
    {
      && InBuffer() && scPeriod == 0 && MIN_REFILLS <= scRefillMax && |Queue()| == MIN_REFILLS
      && 0 < minBudget <= Head().rAmount && 0 <= Tail().rAmount
      && Head().rAmount + Tail().rAmount <= maxPeriod && 5 * maxPeriod <= UINT64_MAX
      && 0 <= Head().rTime < Params().MaxReleaseTime() + maxPeriod
    }

    ghost predicate Configured()
      reads this, refills
    {
      Valid() || RoundRobin()
    }

    /** Parameters that the kernel configures a context with: period 0 for
        round robin. */
    ghost predicate MayConfigure(maxRefills: int, budget: int, period: int) {
      && 0 < minBudget <= budget <= maxPeriod && 5 * maxPeriod <= UINT64_MAX
      && MIN_REFILLS <= maxRefills <= refills.Length && (period == 0 || budget <= period <= maxPeriod)
    }

    // -------------------------------------------------------------------------
    // Buffer updates

    method WriteHead(r: Refill)
      requires InBuffer()
      modifies refills
      ensures Queue() == [r] + old(Queue())[1..]
    {
      refills[scRefillHead] := r;
    }

    method WriteTail(r: Refill)
      requires InBuffer()
      modifies refills
      ensures Queue() == old(Queue())[..|old(Queue())| - 1] + [r]
    {
      refills[scRefillTail] := r;
    }

    method PopHead() returns (refill: Refill)
      requires InBuffer() && !Single()
      modifies this`scRefillHead
      ensures InBuffer()
      ensures refill == old(Queue())[0] && Queue() == old(Queue())[1..]
    {
      PopFront(refills[..], scRefillMax, scRefillHead, scRefillTail);
      QueueIs();
      hide SchedContext.Queue, Circular;
      refill := Head();
      scRefillHead := Next(scRefillHead);
      QueueIs();
    }

    method AddTail(refill: Refill)
      requires InBuffer() && Size() < scRefillMax
      modifies this`scRefillTail, refills
      ensures InBuffer()
      ensures Queue() == old(Queue()) + [refill]
    {
      var newTail := Next(scRefillTail);
      scRefillTail := newTail;
      refills[scRefillTail] := refill;
    }

    // -------------------------------------------------------------------------
    // Configuration

    constructor (platformMinBudget: int, platformMaxPeriod: int, capacity: nat)
      ensures minBudget == platformMinBudget && maxPeriod == platformMaxPeriod
      ensures fresh(refills) && refills.Length == capacity
      ensures scRefillMax == 0 && !scSporadic
    {
      minBudget, maxPeriod := platformMinBudget, platformMaxPeriod;
      refills := new Refill[capacity](_ => Refill(0, 0));
      scPeriod, scRefillHead, scRefillTail, scRefillMax, scSporadic := 0, 0, 0, 0, false;
    }

    method RefillNew(maxRefills: int, budget: int, period: int, now: int)
      requires MayConfigure(maxRefills, budget, period)
      requires 0 <= now < UINT64_MAX - 5 * maxPeriod
      modifies this, refills
      ensures if period == 0 then RoundRobin() else Valid()
      ensures scSporadic == old(scSporadic) && scPeriod == period && scRefillMax == maxRefills
      ensures Queue() == [Refill(now, budget)] + EmptyTail(now, period) && Budget() == budget
    {
      scPeriod := period;
      scRefillHead := 0;
      scRefillTail := 0;
      scRefillMax := maxRefills;
      refills[scRefillHead] := Head().(rAmount := budget);
      refills[scRefillHead] := Head().(rTime := now);
      assert Queue() == [Refill(now, budget)];
      SumOne(Refill(now, budget));
      MaybeAddEmptyTail();
    }

    method MaybeAddEmptyTail()
      requires InBuffer() && Single() && (scPeriod == 0 ==> MIN_REFILLS <= scRefillMax)
      modifies this`scRefillTail, refills
      ensures InBuffer() && Queue() == [old(Head())] + EmptyTail(old(Head().rTime), scPeriod)
      ensures Budget() == old(Head().rAmount)
    {
      hide SchedContext.Queue;
      ghost var head := Head();
      assert Queue() == [head];
      SumOne(head);
      if scPeriod == 0 {
        AddTail(Refill(Head().rTime, 0));
        SumEnds(Queue());
        SumOne(Refill(head.rTime, 0));
        assert Queue()[..1] == [head] && Queue()[1..] == [Refill(head.rTime, 0)];
      } else {
        assert [head] + [] == [head];
      }
    }

    /** The part of `refill_update` that keeps only the head refill. */
    method TruncateToHead(newPeriod: int, newMaxRefills: int)
      requires InBuffer() && 0 < newMaxRefills <= refills.Length
      modifies this, refills
      ensures InBuffer() && scPeriod == newPeriod && scRefillMax == newMaxRefills && scSporadic == old(scSporadic)
      ensures Queue() == [old(Head())]
    {
      refills[0] := Head();
      scRefillHead := 0;
      scRefillTail := scRefillHead;
      scRefillMax := newMaxRefills;
      scPeriod := newPeriod;
    }

    method RefillUpdate(newPeriod: int, newBudget: int, newMaxRefills: int, now: int)
      requires Configured() && MayConfigure(newMaxRefills, newBudget, newPeriod)
      requires 0 <= now < Params().MaxReleaseTime()
      modifies this, refills
      ensures if newPeriod == 0 then RoundRobin() else Valid()
      ensures scSporadic == old(scSporadic) && scPeriod == newPeriod && scRefillMax == newMaxRefills
      ensures Queue() == Update(old(Head()), newPeriod, newBudget, now) && Budget() == newBudget
      ensures old(Head().rTime) <= Head().rTime
    {
      hide SchedContext.Queue, Inv, Sum;
      ghost var head0 := Head();
      HeadFacts();
      UpdateSum(head0, newPeriod, newBudget, now);
      TruncateToHead(newPeriod, newMaxRefills);
      if newPeriod != 0 {
        UpdateInv(Params(), newBudget, head0, now);
      }
      if Ready(now) {
        WriteHead(Head().(rTime := now));
      }
      RefillTo(newBudget);
    }

    lemma HeadFacts()
      requires Configured()
      ensures 0 <= Head().rTime < Params().MaxReleaseTime() + maxPeriod && minBudget <= Head().rAmount
    {
      hide SchedContext.Queue, Sum;
    }

    /** The part of `refill_update` that trims the head, or schedules the rest. */
    method RefillTo(newBudget: int)
      requires InBuffer() && Single() && MIN_REFILLS <= scRefillMax && 0 <= scPeriod <= maxPeriod
      requires 0 <= Head().rTime && Head().rTime + maxPeriod <= UINT64_MAX && 0 <= Head().rAmount
      modifies this`scRefillTail, refills
      ensures InBuffer()
      ensures Queue() == Topped(old(Head()), scPeriod, newBudget)
    {
      hide SchedContext.Queue;
      var head := Head();
      assert Queue() == [head];
      if head.rAmount >= newBudget {
        WriteHead(head.(rAmount := newBudget));
        MaybeAddEmptyTail();
      } else {
        AddTail(Refill(Add64(head.rTime, scPeriod), Sub64(newBudget, head.rAmount)));
      }
    }

    // -------------------------------------------------------------------------
    // Charging

    method ScheduleUsedRefill(used: Refill)
      requires InBuffer()
      requires 0 <= used.rTime && 0 <= used.rAmount
      requires 0 <= Tail().rTime && 0 <= Tail().rAmount
      requires Tail().End() <= UINT64_MAX && Tail().rAmount + used.rAmount <= UINT64_MAX
      modifies this`scRefillTail, refills
      ensures InBuffer()
      ensures Queue() == ScheduleUsed(Params(), old(Queue()), used)
    {
      hide SchedContext.Queue;
      var tail := Tail();
      if Add64(tail.rTime, tail.rAmount) >= used.rTime {
        WriteTail(tail.(rAmount := Add64(tail.rAmount, used.rAmount)));
      } else if Size() != scRefillMax {
        AddTail(used);
      } else {
        WriteTail(Refill(Sub64(used.rTime, tail.rAmount), Add64(tail.rAmount, used.rAmount)));
      }
    }

    method ChargeEntireHeadRefill(usage: int) returns (left: int)
      requires InBuffer() && Params().Ok(Budget()) && Shape(Params(), Budget(), Queue())
      requires HeadOverrun(Params(), Queue(), usage) && usage <= UINT64_MAX
      modifies this`scRefillHead, this`scRefillTail, refills
      ensures InBuffer()
      ensures Queue() == ChargeEntireHead(Params(), old(Queue()))
      ensures left == usage - old(Head().rAmount)
    {
      hide SchedContext.Queue;
      var head := Head();
      SumBounds(Queue());
      if Single() {
        WriteHead(head.(rTime := Add64(head.rTime, scPeriod)));
      } else {
        var oldHead := PopHead();
        oldHead := oldHead.(rTime := Add64(oldHead.rTime, scPeriod));
        SumBounds(Queue());
        SumEnds(old(Queue()));
        ScheduleUsedRefill(oldHead);
      }
      left := Sub64(usage, head.rAmount);
    }

    method HandleOverrunOf(usage: int) returns (left: int)
      requires Valid() && 0 <= usage <= UINT64_MAX
      modifies this`scRefillHead, this`scRefillTail, refills
      ensures InBuffer()
      ensures (Queue(), left) == HandleOverrun(Params(), old(Queue()), usage)
    {
      hide SchedContext.Queue;
      left := usage;
      while Head().rAmount <= left && Head().rTime < UINT64_MAX - 5 * maxPeriod
        invariant InBuffer() && 0 <= left <= usage
        invariant Shape(Params(), old(Budget()), Queue())
        invariant HandleOverrun(Params(), Queue(), left) == HandleOverrun(Params(), old(Queue()), usage)
        decreases left
      {
        ChargeEntireHeadShape(Params(), Budget(), Queue());
        left := ChargeEntireHeadRefill(left);
      }
    }

    method MergeNonoverlappingHead()
      requires InBuffer() && !Single()
      requires 0 <= Queue()[0].rAmount && Queue()[0].rAmount + Queue()[1].rAmount <= UINT64_MAX
      requires Queue()[0].rAmount <= Queue()[1].rTime
      modifies this`scRefillHead, refills
      ensures InBuffer()
      ensures Queue() == AbsorbHead(old(Queue()))
    {
      hide SchedContext.Queue;
      var head := PopHead();
      WriteHead(Head().(rAmount := Add64(Head().rAmount, head.rAmount)));
      WriteHead(Head().(rTime := Sub64(Head().rTime, head.rAmount)));
    }

    /** The part of `refill_budget_check` that splits the head. */
    method ChargePart(usage: int, ghost budget: int)
      requires InBuffer() && Params().Ok(budget) && Shape(Params(), budget, Queue())
      requires 0 < usage < Head().rAmount && Head().rTime < Params().MaxReleaseTime()
      modifies this`scRefillTail, refills
      ensures InBuffer()
      ensures Queue() == ChargePartOfHead(Params(), old(Queue()), usage)
    {
      hide SchedContext.Queue;
      ghost var q := Queue();
      SumBounds(q);
      var head := Head();
      var used := Refill(Add64(head.rTime, scPeriod), usage);
      WriteHead(Refill(Add64(head.rTime, usage), Sub64(head.rAmount, usage)));
      assert Tail() == if |q| == 1 then Head() else Last(q);
      ScheduleUsedRefill(used);
    }

    /** The loop that ends `refill_budget_check`. */
    method EnsureMinimumHead(ghost budget: int)
      requires InBuffer() && Params().Ok(budget) && Shape(Params(), budget, Queue())
      modifies this`scRefillHead, refills
      ensures InBuffer()
      ensures Queue() == FillHead(Params(), old(Queue()))
    {
      hide SchedContext.Queue;
      while Head().rAmount < minBudget
        invariant InBuffer() && Shape(Params(), budget, Queue())
        invariant FillHead(Params(), Queue()) == FillHead(Params(), old(Queue()))
        decreases |Queue()|
      {
        SmallHeadHasSuccessor(Params(), budget, Queue());
        AbsorbHeadShape(Params(), budget, Queue());
        MergeNonoverlappingHead();
      }
    }

    /** `refill_budget_check`: charge `usage` to the head of the queue. */
    method RefillBudgetCheck(usage: int)
      requires Valid() && 0 <= usage <= UINT64_MAX
      modifies this`scRefillHead, this`scRefillTail, refills
      ensures Valid() && Budget() == old(Budget())
      ensures Queue() == BudgetCheck(Params(), old(Queue()), usage)
      ensures old(Head().rTime) <= Head().rTime
    {
      hide SchedContext.Queue;
      ghost var p, q, budget := Params(), Queue(), Budget();
      HandleOverrunShape(p, budget, q, usage);
      BudgetCheckInv(p, budget, q, usage);
      var left := HandleOverrunOf(usage);
      ghost var r := Queue();
      assert (r, left) == HandleOverrun(p, q, usage);
      if left > 0 && Head().rTime < UINT64_MAX - 5 * maxPeriod {
        ChargePartOfHeadShape(p, budget, r, left);
        ChargePart(left, budget);
      }
      EnsureMinimumHead(budget);
    }

    // -------------------------------------------------------------------------
    // Unblocking

    predicate HeadOverlapping()
      requires InBuffer()
      reads this, refills
    {
      !Single() && refills[Next(scRefillHead)].rTime <= Add64(Head().rTime, Head().rAmount)
    }

    method MergeOverlappingHead()
      requires InBuffer() && !Single()
      requires Queue()[0].rAmount + Queue()[1].rAmount <= UINT64_MAX
      modifies this`scRefillHead, refills
      ensures InBuffer()
      ensures Queue() == ExtendHead(old(Queue()))
    {
      hide SchedContext.Queue;
      var oldHead := PopHead();
      WriteHead(Head().(rTime := oldHead.rTime));
      WriteHead(Head().(rAmount := Add64(Head().rAmount, oldHead.rAmount)));
    }

    /** The loop of `refill_unblock_check`. */
    method MergeOverlappingHeads(ghost budget: int)
      requires InBuffer() && Params().Ok(budget) && Mergeable(Params(), budget, Queue())
      requires Head().rTime < Params().MaxReleaseTime()
      modifies this`scRefillHead, refills
      ensures InBuffer()
      ensures Queue() == MergeOverlaps(old(Queue()))
    {
      hide SchedContext.Queue;
      SumBounds(Queue());
      while HeadOverlapping()
        invariant InBuffer() && Mergeable(Params(), budget, Queue())
        invariant Head().rTime == old(Head().rTime) && Head().rAmount <= budget
        invariant MergeOverlaps(Queue()) == MergeOverlaps(old(Queue()))
        decreases |Queue()|
      {
        ExtendHeadMergeable(Params(), budget, Queue());
        MergeOverlappingHead();
      }
    }

    /** `refill_unblock_check` at time `now`. */
    method RefillUnblockCheck(now: int)
      requires Configured() && 0 <= now < Params().MaxReleaseTime()
      modifies this`scRefillHead, refills
      ensures InBuffer() && Budget() == old(Budget())
      ensures if scPeriod == 0 then RoundRobin() && Queue() == old(Queue())
              else Valid() && Queue() == UnblockCheck(old(Queue()), now)
      ensures old(Head().rTime) <= Head().rTime && Sufficient(0) && (old(Ready(now)) ==> Ready(now))
    {
      hide SchedContext.Queue;
      if scPeriod == 0 {
        return;
      }
      ghost var p, q, budget := Params(), Queue(), Budget();
      UnblockCheckInv(p, budget, q, now);
      if Ready(now) {
        AdvanceHead(p, budget, q, now);
        WriteHead(Head().(rTime := now));
        MergeOverlappingHeads(budget);
      }
    }

    // -------------------------------------------------------------------------
    // Round robin

    /** The round-robin part of `commitTime`. */
    method UseSlice(consumed: int)
      requires RoundRobin() && 0 <= consumed && Sufficient(consumed)
      modifies refills
      ensures RoundRobin() && Budget() == old(Budget())
      ensures Head() == old(Head()).(rAmount := old(Head().rAmount) - consumed)
      ensures Tail() == old(Tail()).(rAmount := old(Tail().rAmount) + consumed)
    {
      hide SchedContext.Queue;
      ghost var q := Queue();
      TwoRefills(q);
      WriteHead(Head().(rAmount := Sub64(Head().rAmount, consumed)));
      WriteTail(Tail().(rAmount := Add64(Tail().rAmount, consumed)));
      TwoRefills(Queue());
    }

    /** The round-robin part of `chargeBudget`: the whole slice again. */
    method RenewSlice()
      requires RoundRobin()
      modifies refills
      ensures RoundRobin() && Budget() == old(Budget())
      ensures Head() == old(Head()).(rAmount := Budget()) && Tail() == old(Tail()).(rAmount := 0)
    {
      hide SchedContext.Queue;
      var head, tail := Head(), Tail();
      TwoRefills(Queue());
      WriteHead(head.(rAmount := Add64(head.rAmount, tail.rAmount)));
      WriteTail(tail.(rAmount := 0));
      TwoRefills(Queue());
    }
  }
}
