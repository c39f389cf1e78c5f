/**
 What a committed fastpath leaves behind, field by field, and that no wake-up is lost
 over whole runs.
 */
module FastpathLaws {
  import opened Options
  import opened EndpointQueues
  import opened Fastpath
  import opened FastpathProofs
  import FastpathRuns
  import FastpathKernel

  type Event = FastpathRuns.Event

  /** Nothing but these entries of a table changes. */
  ghost predicate OnlyAt<T>(a: map<nat, T>, b: map<nat, T>, keys: set<nat>) {
    a.Keys == b.Keys && forall k :: k in a && k !in keys ==> b[k] == a[k]
  }

  // ---------------------------------------------------------------------------
  // Calls and faults

  ghost function Target(e: Event): nat
    requires (e.Call? && e.cap.EndpointCap?) || (e.VmFault? && e.handler.EndpointCap?)
  {
    if e.Call? then e.cap.ep else e.handler.ep
  }

  /** The first receiver of endpoint e runs on the sender's scheduling context x, and
      the sender waits for reply r, which is on top of the call stack. */
  ghost predicate Switched(s: State, u: State, e: nat, dest: nat, r: nat, x: nat, fault: FaultType) {
    && u.current == dest && OnlyAt(s.threads, u.threads, {s.current, dest})
    && {s.current, dest} <= s.threads.Keys && s.current != dest
    && u.threads[dest] == s.threads[dest].(state := Running, replyObject := None, sc := Some(x))
    && u.threads[s.current] == s.Cur().(state := BlockedOnReply, replyObject := Some(r), sc := None, fault := fault)
    && OnlyAt(s.eps, u.eps, {e}) && e in s.eps && s.eps[e].queue != [] && u.eps[e].queue == s.eps[e].queue[1..]
    && u.eps[e].state == (if |s.eps[e].queue| == 1 then Idle else Recv)
    && OnlyAt(s.scs, u.scs, {x}) && x in s.scs && u.scs[x] == SchedContext(Some(dest), Some(r))
    && r in s.replies && u.replies.Keys == s.replies.Keys
    && u.replies[r] == Reply(Some(s.current), s.scs[x].reply, ToSc(x))
    && (forall o :: o in s.replies && o != r ==>
          u.replies[o] == if s.scs[x].reply == Some(o) then s.replies[o].(next := ToReply(r)) else s.replies[o])
    && u.ntfns == s.ntfns && u.ready == s.ready && u.domain == s.domain && u.maxDomain == s.maxDomain
  }

  lemma {:induction false} TransferSwitches(s: State, stacks: CallStacks, e: nat, archOk: bool, fault: FaultType)
    requires Inv(s, stacks) && CanSendTo(s, e, archOk)
    ensures s.Cur().sc.Some?
    ensures var dest := s.eps[e].queue[0];
            Switched(s, FastpathRuns.SendStep(s, stacks, e, archOk, fault).0, e, dest,
                     s.threads[dest].replyObject.value, s.Cur().sc.value, fault)
  {
    hide ScLinks, ReplyLinks, Stacked, Queued, NtfnQueued, CurrentIsHighest, IsHighestPrio;
    var dest := s.eps[e].queue[0];
    var r, x := s.threads[dest].replyObject.value, s.Cur().sc.value;
    SendFacts(s, stacks, e, archOk, dest, r, x);
    assert Removed(s.eps[e].queue, 0) == s.eps[e].queue[1..];
    TransferInv(s, stacks, e, archOk, dest, r, x, fault);
  }

  /** A committed call or fault switches to the first receiver; only a fault is
      recorded. */
  lemma {:induction false} SendLaw(s: State, stacks: CallStacks, e: Event)
    requires Inv(s, stacks) && (e.Call? || e.VmFault?) && FastpathRuns.Commits(s, e)
    ensures s.Cur().sc.Some? && Target(e) in s.eps && s.eps[Target(e)].queue != []
    ensures var dest := s.eps[Target(e)].queue[0];
            && dest in s.threads && s.threads[dest].replyObject.Some?
            && Switched(s, FastpathRuns.Step(s, stacks, e).0, Target(e), dest, s.threads[dest].replyObject.value,
                        s.Cur().sc.value, if e.VmFault? then VMFault else NullFault)
  {
    hide ScLinks, ReplyLinks, Stacked, Queued, NtfnQueued, CurrentIsHighest, IsHighestPrio, Switched, Transfer;
    TransferSwitches(s, stacks, Target(e), e.archOk, if e.VmFault? then VMFault else NullFault);
  }

  /** Who may be switched to: the first receiver, if it has a reply object and no
      scheduling context of its own, belongs to the domain, and no ready thread of the
      domain has a higher priority. */
  ghost predicate MayRun(s: State, e: nat) {
    && e in s.eps && s.eps[e].state == Recv && s.eps[e].queue != []
    && var dest := s.eps[e].queue[0];
       && dest in s.threads && s.threads[dest].sc == None && s.threads[dest].replyObject.Some?
       && (s.maxDomain == 0 || s.threads[dest].domain == s.domain)
       && forall t :: t in s.ready && t in s.threads && s.threads[t].domain == s.domain ==>
            s.threads[t].prio <= s.threads[dest].prio
  }

  /** A call is taken exactly when the message and the address spaces allow it, the
      sender has no fault and the rights to send and to grant a reply, and the first
      receiver may run.  A fault needs no rights. */
  lemma {:induction false} SendCommitsIff(s: State, stacks: CallStacks, e: Event)
    requires Inv(s, stacks) && (e.Call? || e.VmFault?)
    ensures e.Call? ==>
              (FastpathRuns.Commits(s, e) <==>
               && e.messageOk && e.archOk && s.Cur().fault == NullFault && e.cap.EndpointCap? && e.cap.canSend
               && (e.cap.canGrant || e.cap.canGrantReply) && MayRun(s, e.cap.ep))
    ensures e.VmFault? ==>
              (FastpathRuns.Commits(s, e) <==> e.archOk && e.handler.EndpointCap? && MayRun(s, e.handler.ep))
  {
    hide ScLinks, ReplyLinks, Stacked, Queued, NtfnQueued;
  }

  // ---------------------------------------------------------------------------
  // Replies

  /** The caller runs again on the scheduling context x, its fault is done with, the
      reply leaves the call stack, and the server waits with it. */
  ghost predicate Returned(s: State, u: State, e: nat, caller: nat, r: nat, x: nat) {
    && {s.current, caller} <= s.threads.Keys && s.current != caller
    && u.current == caller && OnlyAt(s.threads, u.threads, {s.current, caller})
    && u.threads[caller]
       == s.threads[caller].(state := Running, replyObject := None, sc := Some(x), fault := NullFault)
    && u.threads[s.current] == s.Cur().(state := BlockedOnReceive(e), replyObject := Some(r), sc := None)
    && OnlyAt(s.scs, u.scs, {x}) && r in s.replies && x in s.scs
    && u.scs[x] == SchedContext(Some(caller), s.replies[r].prev)
    && u.replies.Keys == s.replies.Keys && u.replies[r] == Reply(Some(s.current), None, NoLink)
    && (forall o :: o in s.replies && o != r ==>
          u.replies[o] == if s.replies[r].prev == Some(o) then s.replies[o].(next := ToSc(x)) else s.replies[o])
    && u.ntfns == s.ntfns && u.ready == s.ready && u.domain == s.domain && u.maxDomain == s.maxDomain
  }

  /** The server joins the receivers of endpoint e, behind all that do not have a
      lower priority; the others keep their order. */
  ghost predicate Joined(s: State, u: State, e: nat) {
    && OnlyAt(s.eps, u.eps, {e}) && e in s.eps && u.eps[e].state == Recv && s.current in s.threads
    && exists k :: 0 <= k <= |s.eps[e].queue|
         && u.eps[e].queue == s.eps[e].queue[..k] + [s.current] + s.eps[e].queue[k..]
         && (forall i :: 0 <= i < |s.eps[e].queue| ==>
               s.eps[e].queue[i] in s.threads
               && (i < k <==> s.threads[s.eps[e].queue[i]].prio >= s.Cur().prio))
  }

  lemma {:induction false} ReplyLaw(s: State, stacks: CallStacks, e: Event)
    requires Inv(s, stacks) && e.ReplyRecv? && FastpathRuns.Commits(s, e)
    ensures var r := e.reply.value;
            && r in s.replies && s.replies[r].tcb.Some? && s.Cur().sc.Some?
            && var u := FastpathRuns.Step(s, stacks, e).0;
               Returned(s, u, e.cap.ep, s.replies[r].tcb.value, r, s.Cur().sc.value) && Joined(s, u, e.cap.ep)
  {
    hide ScLinks, ReplyLinks, Stacked, Queued, NtfnQueued, CurrentIsHighest, IsHighestPrio, Joined;
    var r := e.reply.value;
    var x, caller := s.replies[r].next.sc, s.replies[r].tcb.value;
    ReplyFacts(s, stacks, e.cap.ep, r, x, caller);
    ReplyInv(s, stacks, e.cap.ep, r, x, caller);
    JoinLaw(s, FastpathRuns.Step(s, stacks, e).0, e.cap.ep);
  }

  lemma {:induction false} JoinLaw(s: State, u: State, e: nat)
    requires e in s.eps && QueueOk(s, s.eps[e]) && s.current in s.threads
    requires u.eps == s.eps[e := Enqueue(s, s.eps[e], s.current)]
    ensures Joined(s, u, e)
  {
    var q := s.eps[e].queue;
    var k := Place(QueuePrios(s, q), s.Cur().prio);
    assert Inserted(q, k, s.current) == q[..k] + [s.current] + q[k..];
    forall i | 0 <= i < |q| ensures i < k <==> s.threads[q[i]].prio >= s.Cur().prio {
      assert QueuePrios(s, q)[i] == s.threads[q[i]].prio;
      if i < k { assert QueuePrios(s, q)[i] >= QueuePrios(s, q)[k - 1]; }
    }
  }

  /** A reply is taken exactly when the message and the address spaces allow it, the
      server has no fault and may receive on an endpoint where nobody sends, no
      notification for it is pending, and the reply is on top of the running call
      stack, of a caller that may run. */
  lemma {:induction false} ReplyCommitsIff(s: State, stacks: CallStacks, e: Event)
    requires Inv(s, stacks) && e.ReplyRecv?
    ensures FastpathRuns.Commits(s, e) <==>
            && e.messageOk && e.archOk && s.Cur().fault == NullFault
            && e.cap.EndpointCap? && e.cap.canReceive && e.cap.ep in s.eps && s.eps[e.cap.ep].state != Send
            && (forall n :: n in s.ntfns && s.ntfns[n].bound == Some(s.current) ==> s.ntfns[n].state != NtfnActive)
            && e.reply.Some? && e.reply.value in s.replies && s.replies[e.reply.value].tcb.Some?
            && s.Cur().sc.Some? && s.replies[e.reply.value].next == ToSc(s.Cur().sc.value)
            && var caller := s.replies[e.reply.value].tcb.value;
               && caller in s.threads && s.threads[caller].sc == None && s.threads[caller].fault != OtherFault
               && (s.maxDomain == 0 || s.threads[caller].domain == s.domain)
               && forall t :: t in s.ready && t in s.threads && s.threads[t].domain == s.domain ==>
                    s.threads[t].prio <= s.threads[caller].prio
  {
    hide ScLinks, ReplyLinks, Stacked, Queued, NtfnQueued;
  }

  // ---------------------------------------------------------------------------
  // Signals

  /** The thread runs on x, is in the scheduler exactly if x is active, and waits
      nowhere; all other threads are as they were. */
  ghost predicate Awake(s: State, u: State, dest: nat, x: nat, active: bool) {
    && dest in s.threads && OnlyAt(s.threads, u.threads, {dest}) && dest != s.current
    && u.threads[dest] == s.threads[dest].(state := Running, sc := Some(x))
    && u.ready == s.ready + (if active then {dest} else {})
    && OnlyAt(s.scs, u.scs, {x}) && x in s.scs && u.scs[x] == s.scs[x].(tcb := Some(dest))
    && u.current == s.current && u.domain == s.domain && u.maxDomain == s.maxDomain
    && (forall e :: e in u.eps ==> dest !in u.eps[e].queue)
    && (forall n :: n in u.ntfns ==> dest !in u.ntfns[n].queue)
  }

  /** The receiver left its endpoint's queue, the others kept their order, and its
      reply object is free. */
  ghost predicate LeftEndpoint(s: State, u: State, dest: nat) {
    && u.ntfns == s.ntfns && dest in s.threads && s.threads[dest].state.BlockedOnReceive?
    && var e, r := s.threads[dest].state.ep, s.threads[dest].replyObject;
       && OnlyAt(s.eps, u.eps, {e}) && e in s.eps
       && u.eps[e].state == (if |s.eps[e].queue| == 1 then Idle else Recv)
       && (exists k :: 0 <= k < |s.eps[e].queue| && s.eps[e].queue[k] == dest
                       && u.eps[e].queue == s.eps[e].queue[..k] + s.eps[e].queue[k + 1..])
       && u.replies.Keys == s.replies.Keys
       && forall o :: o in s.replies ==>
            u.replies[o] == if r == Some(o) then s.replies[o].(tcb := None) else s.replies[o]
  }

  ghost predicate LeftNotification(s: State, u: State, n: nat) {
    && u.eps == s.eps && u.replies == s.replies && OnlyAt(s.ntfns, u.ntfns, {n})
    && n in s.ntfns && s.ntfns[n].queue != []
    && u.ntfns[n] == s.ntfns[n].(queue := s.ntfns[n].queue[1..],
                                 state := if |s.ntfns[n].queue| == 1 then NtfnIdle else NtfnWaiting)
  }

  /** Whom a signal on n would wake: the first waiter, or the bound thread if it waits
      to receive. */
  ghost predicate Wakes(s: State, n: nat, dest: nat) {
    && n in s.ntfns
    && if s.ntfns[n].state == NtfnWaiting then s.ntfns[n].queue != [] && dest == s.ntfns[n].queue[0]
       else s.ntfns[n].state == NtfnIdle && s.ntfns[n].bound == Some(dest)
            && dest in s.threads && s.threads[dest].state.BlockedOnReceive?
  }

  /** On its own scheduling context, or an unused one that the notification holds. */
  ghost predicate RunsOn(s: State, n: nat, dest: nat, x: nat) {
    && n in s.ntfns && dest in s.threads && x in s.scs
    && if s.threads[dest].sc.Some? then s.threads[dest].sc == Some(x)
       else s.ntfns[n].sc == Some(x) && s.scs[x].tcb == None
  }

  ghost predicate Sends(s: State, e: Event) {
    && e.Signal? && s.current in s.threads && s.Cur().fault == NullFault && !e.domainExpired
    && e.ntfnCap.NotificationCap? && e.ntfnCap.canSend && e.ntfnCap.ntfn in s.ntfns
  }

  /** A signal without the right, or with nobody whom it could wake. */
  lemma {:induction false} SignalToNobody(s: State, stacks: CallStacks, e: Event)
    requires Inv(s, stacks) && e.Signal?
    ensures !Sends(s, e) ==> FastpathRuns.Step(s, stacks, e).0 == s
    ensures Sends(s, e) && (forall dest :: !Wakes(s, e.ntfnCap.ntfn, dest)) ==>
              var n := e.ntfnCap.ntfn;
              FastpathRuns.Step(s, stacks, e).0 == s.(ntfns := s.ntfns[n := s.ntfns[n].(state := NtfnActive)])
  {
    hide ScLinks, ReplyLinks, Stacked, Queued, CurrentIsHighest, Wake, CancelIpc, LeaveNotification;
    if Sends(s, e) {
      var n := e.ntfnCap.ntfn;
      if forall dest :: !Wakes(s, n, dest) {
        var d := Signalled(s, n);
        if d.Some? { assert Wakes(s, n, d.value); }
      }
    }
  }

  /** A signal that could wake a thread: it does so unless the thread has no context to
      run on, would outrank the running thread, or its active context is not released;
      in those cases nothing changes. */
  lemma {:induction false} SignalToThread(s: State, stacks: CallStacks, e: Event, dest: nat)
    requires Inv(s, stacks) && Sends(s, e) && Wakes(s, e.ntfnCap.ntfn, dest)
    ensures dest in s.threads
    ensures var n, u := e.ntfnCap.ntfn, FastpathRuns.Step(s, stacks, e).0;
            var declined := s.threads[dest].prio > s.Cur().prio || (e.refills.active && !e.refills.released);
            && (declined || (forall x :: !RunsOn(s, n, dest, x)) ==> u == s)
            && (forall x :: !declined && RunsOn(s, n, dest, x) ==>
                  && Awake(s, u, dest, x, e.refills.active)
                  && if s.ntfns[n].state == NtfnIdle then LeftEndpoint(s, u, dest) else LeftNotification(s, u, n))
  {
    hide ScLinks, ReplyLinks, Stacked, Queued, NtfnQueued, CurrentIsHighest, Awake, LeftEndpoint, LeftNotification,
         FastpathRuns.SignalStep;
    var n, u := e.ntfnCap.ntfn, FastpathRuns.Step(s, stacks, e).0;
    TargetExists(s, n, dest);
    FastpathKernel.SignalSteps(s, stacks, e.ntfnCap, e.domainExpired, e.refills);
    var x := WakeSc(s, n, dest);
    forall y: nat | RunsOn(s, n, dest, y) ensures x == Some(y) { }
    if x.Some? {
      WokenContext(s, stacks, n, dest);
      assert RunsOn(s, n, dest, x.value);
      if s.threads[dest].prio <= s.Cur().prio && (e.refills.active ==> e.refills.released) {
        RouseLaw(s, stacks, n, dest, x.value, e.refills.active);
      }
    }
  }

  lemma {:induction false} WokenContext(s: State, stacks: CallStacks, n: nat, dest: nat)
    requires Inv(s, stacks) && n in s.ntfns && dest in s.threads && WakeSc(s, n, dest).Some?
    ensures WakeSc(s, n, dest).value in s.scs
  {
    FastpathRuns.WokenContext(s, stacks, n, dest);
  }

  lemma {:induction false} TargetExists(s: State, n: nat, dest: nat)
    requires NtfnQueued(s) && Wakes(s, n, dest)
    ensures dest in s.threads && Signalled(s, n) == Some(dest)
    ensures s.ntfns[n].state == NtfnWaiting ==> s.threads[dest].state == BlockedOnNotification(n)
  {
    if s.ntfns[n].state == NtfnWaiting { FirstWaiter(s, n); }
  }

  lemma {:induction false} RouseLaw(s: State, stacks: CallStacks, n: nat, dest: nat, x: nat, active: bool)
    requires Inv(s, stacks) && Wakes(s, n, dest) && FastpathKernel.CanRouse(s, n, dest, x)
    ensures var u := FastpathKernel.Roused(s, n, dest, x, active);
            && Awake(s, u, dest, x, active)
            && if s.ntfns[n].state == NtfnIdle then LeftEndpoint(s, u, dest) else LeftNotification(s, u, n)
  {
    hide ScLinks, ReplyLinks, Stacked, CurrentIsHighest, Inv, Queued, NtfnQueued, QueueOk;
    QueuesOf(s, stacks);
    TargetExists(s, n, dest);
    NotCurrent(s, stacks, dest);
    if s.ntfns[n].state == NtfnIdle {
      RouseBound(s, stacks, n, dest, x, active);
    } else {
      RouseWaiter(s, stacks, n, dest, x, active);
    }
  }

  lemma {:induction false} QueuesOf(s: State, stacks: CallStacks)
    requires Inv(s, stacks)
    ensures Queued(s) && NtfnQueued(s) && s.current in s.threads
  {
    hide ScLinks, ReplyLinks, Stacked, CurrentIsHighest, Queued, NtfnQueued;
  }

  lemma {:induction false} NotCurrent(s: State, stacks: CallStacks, dest: nat)
    requires Inv(s, stacks) && dest in s.threads && s.threads[dest].state != Running
    ensures dest != s.current
  {
    hide ScLinks, ReplyLinks, Stacked, CurrentIsHighest, Queued, NtfnQueued;
  }

  lemma {:induction false} WaitsNowhereElse(s: State, dest: nat)
    requires Queued(s) && NtfnQueued(s) && dest in s.threads
    ensures forall e :: e in s.eps && dest in s.eps[e].queue ==>
              s.threads[dest].state == BlockedOnReceive(e) || s.threads[dest].state == BlockedOnSend(e)
    ensures forall n :: n in s.ntfns && dest in s.ntfns[n].queue ==> s.threads[dest].state == BlockedOnNotification(n)
  {
    hide QueueOk;
    forall e | e in s.eps && dest in s.eps[e].queue
      ensures s.threads[dest].state == BlockedOnReceive(e) || s.threads[dest].state == BlockedOnSend(e)
    {
      QueueOkFacts(s, s.eps[e]);
    }
  }

  lemma {:induction false} RouseBound(s: State, stacks: CallStacks, n: nat, dest: nat, x: nat, active: bool)
    requires Inv(s, stacks) && Queued(s) && NtfnQueued(s) && FastpathKernel.CanRouse(s, n, dest, x)
    requires dest in s.threads && dest != s.current && s.threads[dest].state.BlockedOnReceive?
    requires s.ntfns[n].state == NtfnIdle
    ensures var u := FastpathKernel.Roused(s, n, dest, x, active);
            Awake(s, u, dest, x, active) && LeftEndpoint(s, u, dest)
  {
    hide ScLinks, ReplyLinks, Stacked, CurrentIsHighest, Inv, Queued, NtfnQueued, Without;
    var e := s.threads[dest].state.ep;
    CancelFacts(s, stacks, dest);
    WaitsNowhereElse(s, dest);
    var k := WithoutIsRemoved(s.eps[e].queue, dest);
    WithoutMembers(s.eps[e].queue, dest);
    assert Removed(s.eps[e].queue, k) == s.eps[e].queue[..k] + s.eps[e].queue[k + 1..];
  }

  lemma {:induction false} RouseWaiter(s: State, stacks: CallStacks, n: nat, dest: nat, x: nat, active: bool)
    requires Inv(s, stacks) && Queued(s) && NtfnQueued(s) && FastpathKernel.CanRouse(s, n, dest, x)
    requires dest in s.threads && dest != s.current && s.threads[dest].state == BlockedOnNotification(n)
    requires s.ntfns[n].state == NtfnWaiting && s.ntfns[n].queue != [] && dest == s.ntfns[n].queue[0]
    ensures var u := FastpathKernel.Roused(s, n, dest, x, active);
            Awake(s, u, dest, x, active) && LeftNotification(s, u, n)
  {
    hide ScLinks, ReplyLinks, Stacked, CurrentIsHighest, Inv, Queued, NtfnQueued, Without;
    WaitsNowhereElse(s, dest);
    FirstWaiterUnique(s, n);
    WithoutMembers(s.ntfns[n].queue, dest);
  }

  lemma {:induction false} FirstWaiterUnique(s: State, n: nat)
    requires NtfnQueued(s) && n in s.ntfns && s.ntfns[n].queue != []
    ensures NoDuplicates(s.ntfns[n].queue) && s.ntfns[n].queue[0] in s.ntfns[n].queue
    ensures Without(s.ntfns[n].queue, s.ntfns[n].queue[0]) == s.ntfns[n].queue[1..]
  {
  }

  // ---------------------------------------------------------------------------
  // No wake-up is lost

  /** Every runnable thread on an active scheduling context runs, is in the scheduler,
      or is held back until its release. */
  ghost predicate Scheduled(s: State, active: set<nat>, held: set<nat>) {
    forall t ::
      && t in s.threads && s.threads[t].Runnable() && s.threads[t].sc.Some? && s.threads[t].sc.value in active ==>
      t == s.current || t in s.ready || t in held
  }

  /** What a signal reads of the refills fits the contexts that are active. */
  ghost predicate Fits(s: State, e: Event, active: set<nat>) {
    e.Signal? && e.ntfnCap.NotificationCap? ==>
      forall dest, x :: Wakes(s, e.ntfnCap.ntfn, dest) && RunsOn(s, e.ntfnCap.ntfn, dest, x) ==>
        (e.refills.active <==> x in active)
  }

  lemma {:induction false} StepScheduled(s: State, stacks: CallStacks, e: Event, active: set<nat>, held: set<nat>)
    requires Inv(s, stacks) && Scheduled(s, active, held) && Fits(s, e, active)
    ensures Scheduled(FastpathRuns.Step(s, stacks, e).0, active, held)
  {
    hide ScLinks, ReplyLinks, Stacked, Queued, NtfnQueued, CurrentIsHighest, CurrentRuns, FastpathRuns.Step, Wakes,
         RunsOn;
    FastpathKernel.StepIs(s, stacks, e);
    if e.Signal? {
      SignalScheduled(s, stacks, e, active, held);
    } else if FastpathRuns.Commits(s, e) {
      hide FastpathRuns.Commits;
      if e.ReplyRecv? { ReplyLaw(s, stacks, e); } else { SendLaw(s, stacks, e); }
    }
  }

  lemma {:induction false} SignalScheduled(s: State, stacks: CallStacks, e: Event, active: set<nat>, held: set<nat>)
    requires Inv(s, stacks) && Scheduled(s, active, held) && Fits(s, e, active) && e.Signal?
    ensures Scheduled(FastpathRuns.Step(s, stacks, e).0, active, held)
  {
    hide Inv, FastpathRuns.Step, Wakes, RunsOn, LeftEndpoint, LeftNotification;
    SignalToNobody(s, stacks, e);
    if Sends(s, e) {
      var n := e.ntfnCap.ntfn;
      if dest :| Wakes(s, n, dest) {
        SignalToThread(s, stacks, e, dest);
        if x :| RunsOn(s, n, dest, x) {
          assert e.refills.active <==> x in active;
        }
      }
    }
  }

  /** Along a run, whatever each signal reads fits the active contexts. */
  ghost predicate FitsRun(s: State, stacks: CallStacks, events: seq<Event>, active: set<nat>)
    requires Inv(s, stacks)
    decreases |events|
  {
    events == [] ||
    (&& Fits(s, events[0], active)
     && (FastpathRuns.StepInv(s, stacks, events[0]);
         var (t, after) := FastpathRuns.Step(s, stacks, events[0]);
         FitsRun(t, after, events[1..], active)))
  }

  /** Over every run of fastpaths no runnable thread drops out of the scheduler. */
  lemma {:induction false} RunScheduled(s: State, stacks: CallStacks, events: seq<Event>, active: set<nat>,
                                        held: set<nat>)
    requires Inv(s, stacks) && Scheduled(s, active, held) && FitsRun(s, stacks, events, active)
    ensures Scheduled(FastpathRuns.Run(s, stacks, events).0, active, held)
    decreases |events|
  {
    hide Inv, FastpathRuns.Step, Scheduled, Fits;
    if events != [] {
      FastpathRuns.StepInv(s, stacks, events[0]);
      StepScheduled(s, stacks, events[0], active, held);
      var (t, after) := FastpathRuns.Step(s, stacks, events[0]);
      RunScheduled(t, after, events[1..], active, held);
    }
  }
}
