/** Whole runs of fastpath system calls, and the kernel that performs them. */
module FastpathRuns {
  import opened Options
  import opened EndpointQueues
  import opened Fastpath
  import opened FastpathProofs

  datatype Event =
    | Call(cap: EndpointCap, messageOk: bool, archOk: bool)
    | VmFault(handler: EndpointCap, archOk: bool)
    | ReplyRecv(cap: EndpointCap, reply: Option<nat>, messageOk: bool, archOk: bool)
    | Signal(ntfnCap: NotificationCap, domainExpired: bool, refills: Refills)

  ghost predicate CanFault(s: State, handler: EndpointCap, archOk: bool) {
    handler.EndpointCap? && CanSendTo(s, handler.ep, archOk)
  }

  /** The state and call stacks after an event; an event that the fastpath
      declines changes nothing here. */
  ghost function Step(s: State, stacks: CallStacks, e: Event): (State, CallStacks)
    requires Inv(s, stacks)
  {
    match e
    case Call(cap, messageOk, archOk) =>
      if CanCall(s, cap, messageOk, archOk) then SendStep(s, stacks, cap.ep, archOk, s.Cur().fault) else (s, stacks)
    case VmFault(handler, archOk) =>
      if CanFault(s, handler, archOk) then SendStep(s, stacks, handler.ep, archOk, VMFault) else (s, stacks)
    case ReplyRecv(cap, reply, messageOk, archOk) =>
      if CanReplyRecv(s, cap, reply, messageOk, archOk) then
        var r := s.replies[reply.value];
        ReplyInv(s, stacks, cap.ep, reply.value, r.next.sc, r.tcb.value);
        (ReplyTo(s, cap.ep, reply.value), stacks[r.next.sc := stacks[r.next.sc][1..]])
      else (s, stacks)
    case Signal(cap, domainExpired, refills) =>
      (SignalStep(s, cap, domainExpired, refills, stacks), stacks)
  }

  ghost function SendStep(s: State, stacks: CallStacks, e: nat, archOk: bool, fault: FaultType): (State, CallStacks)
    requires Inv(s, stacks) && CanSendTo(s, e, archOk)
  {
    var dest := s.eps[e].queue[0];
    var r, x := s.threads[dest].replyObject.value, s.Cur().sc.value;
    TransferInv(s, stacks, e, archOk, dest, r, x, fault);
    (Transfer(s, e, fault), stacks[x := [r] + stacks[x]])
  }

  ghost function SignalStep(s: State, cap: NotificationCap, domainExpired: bool, refills: Refills, stacks: CallStacks)
    : State
    requires Inv(s, stacks)
  {
    if !MaySignal(s, cap, domainExpired) then s
    else
      var n := cap.ntfn;
      var dest := Signalled(s, n);
      if dest == None then
        if s.ntfns[n].state == NtfnWaiting then s else Activate(s, n)
      else if !CanWake(s, n, dest.value, refills) then s
      else
        var x := WakeSc(s, n, dest.value).value;
        WokenContext(s, stacks, n, dest.value);
        if s.ntfns[n].state == NtfnIdle then
          CancelInv(s, stacks, dest.value);
          Wake(CancelIpc(s, dest.value), dest.value, x, refills.active)
        else
          Wake(LeaveNotification(s, n, dest.value), dest.value, x, refills.active)
  }

  lemma {:induction false} WokenContext(s: State, stacks: CallStacks, n: nat, dest: nat)
    requires Inv(s, stacks) && n in s.ntfns && dest in s.threads && WakeSc(s, n, dest).Some?
    ensures WakeSc(s, n, dest).value in s.scs
    ensures s.threads[dest].sc.Some? ==> s.scs[s.threads[dest].sc.value].tcb == Some(dest)
  {
    hide Stacked, Queued, NtfnQueued, ReplyLinks, CurrentIsHighest, CurrentRuns;
  }

  lemma {:induction false} SignalInv(s: State, cap: NotificationCap, domainExpired: bool, refills: Refills,
                                     stacks: CallStacks)
    requires Inv(s, stacks)
    ensures Inv(SignalStep(s, cap, domainExpired, refills, stacks), stacks)
  {
    hide ScLinks, ReplyLinks, Stacked, Queued, NtfnQueued, CurrentRuns, CurrentIsHighest, Without;
    if MaySignal(s, cap, domainExpired) {
      var n := cap.ntfn;
      var dest := Signalled(s, n);
      if dest == None {
        if s.ntfns[n].state != NtfnWaiting { ActivateInv(s, stacks, n); }
      } else if CanWake(s, n, dest.value, refills) {
        WokenContext(s, stacks, n, dest.value);
        CurrentHere(s);
        var x := WakeSc(s, n, dest.value).value;
        if s.ntfns[n].state == NtfnIdle {
          CancelInv(s, stacks, dest.value);
          WakeInv(CancelIpc(s, dest.value), stacks, dest.value, x, refills.active);
        } else {
          LeaveInv(s, stacks, n);
          WakeInv(LeaveNotification(s, n, dest.value), stacks, dest.value, x, refills.active);
        }
      }
    }
  }

  lemma {:induction false} StepInv(s: State, stacks: CallStacks, e: Event)
    requires Inv(s, stacks)
    ensures Inv(Step(s, stacks, e).0, Step(s, stacks, e).1)
  {
    hide ScLinks, ReplyLinks, Stacked, Queued, NtfnQueued, CurrentRuns, CurrentIsHighest, Transfer, ReplyTo;
    match e
    case Call(cap, messageOk, archOk) =>
      if CanCall(s, cap, messageOk, archOk) { SendInv(s, stacks, cap.ep, archOk, s.Cur().fault); }
    case VmFault(handler, archOk) =>
      if CanFault(s, handler, archOk) { SendInv(s, stacks, handler.ep, archOk, VMFault); }
    case ReplyRecv(cap, reply, messageOk, archOk) =>
      if CanReplyRecv(s, cap, reply, messageOk, archOk) {
        var r := s.replies[reply.value];
        ReplyInv(s, stacks, cap.ep, reply.value, r.next.sc, r.tcb.value);
      }
    case Signal(cap, domainExpired, refills) =>
      SignalInv(s, cap, domainExpired, refills, stacks);
  }

  lemma {:induction false} SendInv(s: State, stacks: CallStacks, e: nat, archOk: bool, fault: FaultType)
    requires Inv(s, stacks) && CanSendTo(s, e, archOk)
    ensures Inv(SendStep(s, stacks, e, archOk, fault).0, SendStep(s, stacks, e, archOk, fault).1)
  {
    hide ScLinks, ReplyLinks, Stacked, Queued, NtfnQueued, CurrentIsHighest, Transfer;
    var dest := s.eps[e].queue[0];
    TransferInv(s, stacks, e, archOk, dest, s.threads[dest].replyObject.value, s.Cur().sc.value, fault);
  }

  ghost function Run(s: State, stacks: CallStacks, events: seq<Event>): (r: (State, CallStacks))
    requires Inv(s, stacks)
    decreases |events|
  {
    if events == [] then (s, stacks)
    else
      StepInv(s, stacks, events[0]);
      Run(Step(s, stacks, events[0]).0, Step(s, stacks, events[0]).1, events[1..])
  }

  /** Over every run of fastpath calls, faults, replies and signals: scheduling
      contexts and threads stay mutual inverses, every scheduling context heads a
      well-formed stack of replies of blocked callers, endpoint queues stay in
      priority order, and no ready thread outranks the running one. */
  lemma {:induction false} RunInv(s: State, stacks: CallStacks, events: seq<Event>)
    requires Inv(s, stacks)
    ensures Inv(Run(s, stacks, events).0, Run(s, stacks, events).1)
    decreases |events|
  {
    hide Step, ScLinks, ReplyLinks, Stacked, Queued, NtfnQueued, CurrentRuns, CurrentIsHighest;
    if events != [] {
      StepInv(s, stacks, events[0]);
      RunInv(Step(s, stacks, events[0]).0, Step(s, stacks, events[0]).1, events[1..]);
    }
  }

  // ---------------------------------------------------------------------------
  // A call and its reply

  /** The server may receive on an endpoint where nobody waits to send. */
  ghost predicate CanListen(s: State, server: EndpointCap) {
    server.EndpointCap? && server.canReceive && server.ep in s.eps && s.eps[server.ep].state != Send
  }

  /** A thread whose reply is not sent to the slow path on its own account. */
  ghost predicate CanAnswer(s: State, t: nat) {
    && t in s.threads && s.threads[t].fault == NullFault
    && !exists n :: n in s.ntfns && s.ntfns[n].bound == Some(t) && s.ntfns[n].state == NtfnActive
  }

  /** The threads after a call and its reply: the server waits where it listens
      now, and the caller's reply field, dead while it runs, is clear. */
  ghost function Answered(s: State, dest: nat, listen: nat): map<nat, Thread>
    requires s.current in s.threads && dest in s.threads
  {
    s.threads[s.current := s.Cur().(replyObject := None)]
             [dest := s.threads[dest].(state := BlockedOnReceive(listen))]
  }

  /** The reply to a call is never declined for a reason that lies in the call
      stack, priorities or domains, and it restores the state before the call:
      replies, scheduling contexts, call stacks and the running thread are as they
      were, and so is every thread but for where the server listens. */
  lemma {:induction false} CallThenReply(s: State, stacks: CallStacks, cap: EndpointCap, server: EndpointCap,
                                         archOk: bool)
    requires Inv(s, stacks) && CanCall(s, cap, true, archOk)
    requires CanListen(s, server) && CanAnswer(s, s.eps[cap.ep].queue[0])
    ensures var (t, between) := Step(s, stacks, Call(cap, true, archOk));
            var dest := s.eps[cap.ep].queue[0];
            var r := s.threads[dest].replyObject;
            && Inv(t, between)
            && CanReplyRecv(t, server, r, true, true)
            && var (u, after) := Step(t, between, ReplyRecv(server, r, true, true));
               && Inv(u, after) && after == stacks
               && u == s.(eps := u.eps, threads := Answered(s, dest, server.ep))
               && u.eps.Keys == s.eps.Keys
               && (forall e :: e in s.eps && e != cap.ep && e != server.ep ==> u.eps[e] == s.eps[e])
               && (forall e, v :: e in s.eps && v != dest ==> (v in u.eps[e].queue <==> v in s.eps[e].queue))
               && (forall e :: e in s.eps ==> (dest in u.eps[e].queue <==> e == server.ep))
  {
    hide ScLinks, ReplyLinks, Stacked, Queued, NtfnQueued, CurrentIsHighest, IsHighestPrio, Transfer, ReplyTo;
    var e := cap.ep;
    var dest := s.eps[e].queue[0];
    var r, x := s.threads[dest].replyObject.value, s.Cur().sc.value;
    TransferInv(s, stacks, e, archOk, dest, r, x, s.Cur().fault);
    var t, between := Transfer(s, e, s.Cur().fault), stacks[x := [r] + stacks[x]];
    assert Step(s, stacks, Call(cap, true, archOk)) == (t, between);
    CallEnablesReply(s, stacks, cap, server, archOk, dest, r, x);
    ReplyInv(t, between, server.ep, r, x, s.current);
    StepReply(t, between, server, r, x);
    ReplyRestores(s, stacks, cap, server, archOk, dest, r, x);
    assert between[x][1..] == stacks[x];
    assert between[x := between[x][1..]] == stacks;
    var u := ReplyTo(t, server.ep, r);
    SameWaiters(s, u, dest, server.ep);
  }

  lemma {:induction false} StepReply(s: State, stacks: CallStacks, cap: EndpointCap, r: nat, x: nat)
    requires Inv(s, stacks) && CanReplyRecv(s, cap, Some(r), true, true)
    requires s.replies[r].next == ToSc(x)
    ensures x in stacks && stacks[x] != [] && x in s.scs
    ensures forall i :: 0 <= i < |s.eps[cap.ep].queue| ==> s.eps[cap.ep].queue[i] in s.threads
    ensures Step(s, stacks, ReplyRecv(cap, Some(r), true, true))
         == (ReplyTo(s, cap.ep, r), stacks[x := stacks[x][1..]])
  {
    hide ScLinks, ReplyLinks, Stacked, Queued, NtfnQueued, CurrentIsHighest, CurrentRuns, ReplyTo;
    ReplyInv(s, stacks, cap.ep, r, x, s.replies[r].tcb.value);
  }

  lemma {:induction false} CallEnablesReply(s: State, stacks: CallStacks, cap: EndpointCap, server: EndpointCap,
                                            archOk: bool,
                                            dest: nat, r: nat, x: nat)
    requires Inv(s, stacks) && CanCall(s, cap, true, archOk) && SendObjects(s, cap.ep, archOk, dest, r, x)
    requires CanListen(s, server) && CanAnswer(s, dest)
    ensures r in s.replies && x in s.scs
    ensures var t := Transfer(s, cap.ep, s.Cur().fault);
            CanReplyRecv(t, server, Some(r), true, true) && ReplyObjects(t, server.ep, r, x, s.current)
  {
    hide ScLinks, ReplyLinks, Stacked, Queued, NtfnQueued, Removed;
    SendFacts(s, stacks, cap.ep, archOk, dest, r, x);
    var t := Transfer(s, cap.ep, s.Cur().fault);
    assert t.threads[s.current].prio == s.Cur().prio;
    assert IsHighestPrio(t, s.Cur().prio);
    assert !BoundActive(t);
  }

  lemma {:induction false} ReplyRestores(s: State, stacks: CallStacks, cap: EndpointCap, server: EndpointCap,
                                         archOk: bool,
                                         dest: nat, r: nat, x: nat)
    requires Inv(s, stacks) && CanCall(s, cap, true, archOk) && SendObjects(s, cap.ep, archOk, dest, r, x)
    requires CanListen(s, server) && CanAnswer(s, dest)
    requires r in s.replies && x in s.scs
    requires var t := Transfer(s, cap.ep, s.Cur().fault);
             forall i :: 0 <= i < |t.eps[server.ep].queue| ==> t.eps[server.ep].queue[i] in t.threads
    ensures var t := Transfer(s, cap.ep, s.Cur().fault);
            var u := ReplyTo(t, server.ep, r);
            && u == s.(eps := u.eps, threads := Answered(s, dest, server.ep)) && u.eps.Keys == s.eps.Keys
            && (forall e :: e in s.eps && e != cap.ep && e != server.ep ==> u.eps[e] == s.eps[e])
  {
    hide ScLinks, Stacked, NtfnQueued, Removed, Enqueue, QueueOk, Queued, ReplyLinks, Answered;
    SendFacts(s, stacks, cap.ep, archOk, dest, r, x);
    ThreadsRestored(s, stacks, cap, server, archOk, dest, r, x);
    RepliesRestored(s, stacks, cap, server, archOk, dest, r, x);
    var t := Transfer(s, cap.ep, s.Cur().fault);
    var u := ReplyTo(t, server.ep, r);
    assert u.scs == s.scs;
  }

  lemma {:induction false} ThreadsRestored(s: State, stacks: CallStacks, cap: EndpointCap, server: EndpointCap,
                                           archOk: bool,
                                           dest: nat, r: nat, x: nat)
    requires Inv(s, stacks) && CanCall(s, cap, true, archOk) && SendObjects(s, cap.ep, archOk, dest, r, x)
    requires CanListen(s, server) && CanAnswer(s, dest)
    requires r in s.replies && x in s.scs
    requires var t := Transfer(s, cap.ep, s.Cur().fault);
             forall i :: 0 <= i < |t.eps[server.ep].queue| ==> t.eps[server.ep].queue[i] in t.threads
    ensures ReplyTo(Transfer(s, cap.ep, s.Cur().fault), server.ep, r).threads == Answered(s, dest, server.ep)
  {
    hide ScLinks, Stacked, NtfnQueued, Removed, Enqueue, QueueOk, Queued, ReplyLinks;
    SendFacts(s, stacks, cap.ep, archOk, dest, r, x);
  }

  lemma {:induction false} RepliesRestored(s: State, stacks: CallStacks, cap: EndpointCap, server: EndpointCap,
                                           archOk: bool,
                                           dest: nat, r: nat, x: nat)
    requires Inv(s, stacks) && CanCall(s, cap, true, archOk) && SendObjects(s, cap.ep, archOk, dest, r, x)
    requires CanListen(s, server) && CanAnswer(s, dest)
    requires r in s.replies && x in s.scs
    requires var t := Transfer(s, cap.ep, s.Cur().fault);
             forall i :: 0 <= i < |t.eps[server.ep].queue| ==> t.eps[server.ep].queue[i] in t.threads
    ensures ReplyTo(Transfer(s, cap.ep, s.Cur().fault), server.ep, r).replies == s.replies
  {
    hide ScLinks, Stacked, NtfnQueued, Removed, Enqueue, QueueOk, Queued;
    SendFacts(s, stacks, cap.ep, archOk, dest, r, x);
    FreeReply(s, stacks, r, x);
    TopLink(s, stacks, x);
  }

  lemma {:induction false} TopLink(s: State, stacks: CallStacks, x: nat)
    requires Stacked(s, stacks) && x in s.scs
    ensures x in stacks && s.scs[x].reply == Top(stacks[x])
    ensures s.scs[x].reply.Some? ==>
              var r := s.scs[x].reply.value; r in s.replies && s.replies[r].next == ToSc(x)
  {
    assert IsStack(s, x, stacks[x]);
    if stacks[x] != [] {
      assert s.replies[stacks[x][0]].next == Up(x, stacks[x], 0);
    }
  }

  /** Who waits where follows from the threads. */
  lemma {:induction false} SameWaiters(s: State, u: State, dest: nat, listen: nat)
    requires Queued(s) && Queued(u) && u.eps.Keys == s.eps.Keys && listen in s.eps
    requires s.current in s.threads && s.Cur().state == Running && dest in s.threads && dest != s.current
    requires u.threads == Answered(s, dest, listen)
    ensures forall e, v :: e in s.eps && v != dest ==> (v in u.eps[e].queue <==> v in s.eps[e].queue)
    ensures forall e :: e in s.eps ==> (dest in u.eps[e].queue <==> e == listen)
  {
    hide Queued, QueueOk;
    forall e | e in s.eps ensures QueueOk(s, s.eps[e]) && Holds(s, e, s.eps[e]) && Holds(u, e, u.eps[e]) {
      QueuedHolds(s, e);
      QueuedHolds(u, e);
    }
  }

  // ---------------------------------------------------------------------------
  // Nested calls

  ghost predicate Commits(s: State, e: Event) {
    match e
    case Call(cap, messageOk, archOk) => CanCall(s, cap, messageOk, archOk)
    case VmFault(handler, archOk) => CanFault(s, handler, archOk)
    case ReplyRecv(cap, reply, messageOk, archOk) => CanReplyRecv(s, cap, reply, messageOk, archOk)
    case Signal(_, _, _) => true
  }

  /** Well-bracketed runs: signals, and rounds of a call or fault, whatever its
      receiver does in such a run, and a reply. */
  datatype Session =
    | Over
    | Aside(signal: Event, rest: Session)
    | Round(send: Event, inner: Session, reply: Event, rest: Session)

  ghost function Events(session: Session): seq<Event> {
    match session
    case Over => []
    case Aside(signal, rest) => [signal] + Events(rest)
    case Round(send, inner, reply, rest) => [send] + (Events(inner) + ([reply] + Events(rest)))
  }

  /** Every call, fault and reply of the session is made on the fastpath. */
  ghost predicate Committed(s: State, stacks: CallStacks, session: Session)
    requires Inv(s, stacks)
    decreases session
  {
    match session
    case Over => true
    case Aside(signal, rest) =>
      signal.Signal?
      && (StepInv(s, stacks, signal); Committed(Step(s, stacks, signal).0, Step(s, stacks, signal).1, rest))
    case Round(send, inner, reply, rest) =>
      && (send.Call? || send.VmFault?) && Commits(s, send) && reply.ReplyRecv?
      && (StepInv(s, stacks, send);
          var (t, between) := Step(s, stacks, send);
          && Committed(t, between, inner)
          && (RunInv(t, between, Events(inner));
              var (v, now) := Run(t, between, Events(inner));
              && Commits(v, reply)
              && (StepInv(v, now, reply);
                  Committed(Step(v, now, reply).0, Step(v, now, reply).1, rest))))
  }

  /** What a session gives back: the running thread with its scheduling context,
      the call stacks, the thread behind every reply on them, and the owner of
      every scheduling context that had one. */
  ghost predicate Restored(s: State, stacks: CallStacks, u: State, after: CallStacks) {
    && after == stacks
    && s.current in s.threads && u.current == s.current && u.current in u.threads && u.Cur().sc == s.Cur().sc
    && (forall y, r :: y in stacks && r in stacks[y] ==>
          r in s.replies && r in u.replies && u.replies[r].tcb == s.replies[r].tcb)
    && (forall y :: y in s.scs ==> y in u.scs && (s.scs[y].tcb.Some? ==> u.scs[y].tcb == s.scs[y].tcb))
  }

  lemma {:induction false} RestoredTwice(s: State, stacks: CallStacks, t: State, between: CallStacks, u: State,
                                         after: CallStacks)
    requires Restored(s, stacks, t, between) && Restored(t, between, u, after)
    ensures Restored(s, stacks, u, after)
  {
  }

  lemma {:induction false} RunAppend(s: State, stacks: CallStacks, a: seq<Event>, b: seq<Event>)
    requires Inv(s, stacks)
    ensures Inv(Run(s, stacks, a).0, Run(s, stacks, a).1)
    ensures Run(s, stacks, a + b) == Run(Run(s, stacks, a).0, Run(s, stacks, a).1, b)
    decreases |a|
  {
    hide Inv, Step;
    RunInv(s, stacks, a);
    if a == [] {
      assert a + b == b;
    } else {
      StepInv(s, stacks, a[0]);
      RunAppend(Step(s, stacks, a[0]).0, Step(s, stacks, a[0]).1, a[1..], b);
      assert (a + b)[1..] == a[1..] + b;
    }
  }

  lemma {:induction false} RunFirst(s: State, stacks: CallStacks, e: Event, rest: seq<Event>)
    requires Inv(s, stacks)
    ensures Inv(Step(s, stacks, e).0, Step(s, stacks, e).1)
    ensures Run(s, stacks, [e] + rest) == Run(Step(s, stacks, e).0, Step(s, stacks, e).1, rest)
  {
    hide Inv, Step;
    StepInv(s, stacks, e);
    assert ([e] + rest)[1..] == rest;
  }

  lemma {:induction false} SignalRestores(s: State, stacks: CallStacks, e: Event)
    requires Inv(s, stacks) && e.Signal?
    ensures Restored(s, stacks, Step(s, stacks, e).0, Step(s, stacks, e).1)
  {
    hide ScLinks, ReplyLinks, Stacked, Queued, NtfnQueued, CurrentIsHighest, Without, QueueOk, Restored,
         Wake, CancelIpc, LeaveNotification, Activate;
    NothingRestored(s, stacks);
    if MaySignal(s, e.ntfnCap, e.domainExpired) {
      var n := e.ntfnCap.ntfn;
      var dest := Signalled(s, n);
      if dest == None {
        ActivateRestores(s, stacks, n);
      } else if CanWake(s, n, dest.value, e.refills) {
        WokenContext(s, stacks, n, dest.value);
        var x := WakeSc(s, n, dest.value).value;
        if s.ntfns[n].state == NtfnIdle {
          CancelRestores(s, stacks, dest.value);
          WakeRestores(s, stacks, CancelIpc(s, dest.value), dest.value, x, e.refills.active);
        } else {
          LeaveRestores(s, stacks, n, dest.value);
          WakeRestores(s, stacks, LeaveNotification(s, n, dest.value), dest.value, x, e.refills.active);
        }
      }
    }
  }

  lemma {:induction false} ActivateRestores(s: State, stacks: CallStacks, n: nat)
    requires n in s.ntfns && Restored(s, stacks, s, stacks)
    ensures Restored(s, stacks, Activate(s, n), stacks)
  {
  }

  /** A thread leaves the queue that it waits in: the contexts stay. */
  ghost predicate Left(s: State, t: State, dest: nat) {
    && t.scs == s.scs && t.current == s.current && dest in t.threads && t.threads.Keys == s.threads.Keys
    && (forall u :: u in s.threads ==> t.threads[u].sc == s.threads[u].sc)
  }

  lemma {:induction false} CancelRestores(s: State, stacks: CallStacks, dest: nat)
    requires Inv(s, stacks) && dest in s.threads && s.threads[dest].state.BlockedOnReceive?
    requires Restored(s, stacks, s, stacks)
    ensures s.threads[dest].state.ep in s.eps
    ensures Restored(s, stacks, CancelIpc(s, dest), stacks) && Left(s, CancelIpc(s, dest), dest)
  {
    hide ScLinks, Stacked, Queued, NtfnQueued, CurrentIsHighest, Without, QueueOk;
    CancelFacts(s, stacks, dest);
  }

  lemma {:induction false} LeaveRestores(s: State, stacks: CallStacks, n: nat, dest: nat)
    requires n in s.ntfns && dest in s.threads && Restored(s, stacks, s, stacks)
    ensures Restored(s, stacks, LeaveNotification(s, n, dest), stacks) && Left(s, LeaveNotification(s, n, dest), dest)
  {
    hide Without;
  }

  lemma {:induction false} WakeRestores(s: State, stacks: CallStacks, t: State, dest: nat, x: nat, schedulable: bool)
    requires Restored(s, stacks, t, stacks) && Left(s, t, dest) && x in t.scs
    requires if t.threads[dest].sc == None then t.scs[x].tcb == None && dest != t.current
             else t.threads[dest].sc == Some(x) && t.scs[x].tcb == Some(dest)
    ensures Restored(s, stacks, Wake(t, dest, x, schedulable), stacks)
  {
  }

  lemma {:induction false} StackMembers(s: State, stacks: CallStacks)
    requires Stacked(s, stacks)
    ensures forall y, r :: y in stacks && r in stacks[y] ==> r in s.replies
  {
    hide IsStack;
    forall y, r | y in stacks && r in stacks[y] ensures r in s.replies { MemberWaits(s, y, stacks[y], r); }
  }

  /** The sender's thread waits behind the pushed reply, and its scheduling context
      goes to the receiver. */
  ghost predicate Sent(s: State, stacks: CallStacks, t: State, between: CallStacks, r: nat, x: nat) {
    && s.current in s.threads && s.Cur().sc == Some(x) && x in stacks && between == stacks[x := [r] + stacks[x]]
    && t.current in t.threads && t.Cur().sc == Some(x)
    && r in t.replies && t.replies[r].tcb == Some(s.current)
    && (forall y, v :: y in stacks && v in stacks[y] ==>
          v != r && v in s.replies && v in t.replies && t.replies[v].tcb == s.replies[v].tcb)
    && x in s.scs && s.scs[x].tcb == Some(s.current)
    && (forall y :: y in s.scs ==> y in t.scs && (y != x ==> t.scs[y].tcb == s.scs[y].tcb))
  }

  lemma {:induction false} SendEffect(s: State, stacks: CallStacks, e: nat, archOk: bool, fault: FaultType)
    requires Inv(s, stacks) && CanSendTo(s, e, archOk)
    ensures var (t, between) := SendStep(s, stacks, e, archOk, fault);
            Sent(s, stacks, t, between, s.threads[s.eps[e].queue[0]].replyObject.value, s.Cur().sc.value)
  {
    hide ScLinks, ReplyLinks, Stacked, Queued, NtfnQueued, CurrentIsHighest, IsHighestPrio, Removed;
    var dest := s.eps[e].queue[0];
    var r, x := s.threads[dest].replyObject.value, s.Cur().sc.value;
    SendFacts(s, stacks, e, archOk, dest, r, x);
    StackMembers(s, stacks);
    TransferInv(s, stacks, e, archOk, dest, r, x, fault);
  }

  lemma {:induction false} CommittedSend(s: State, stacks: CallStacks, send: Event) returns (r: nat, x: nat)
    requires Inv(s, stacks) && (send.Call? || send.VmFault?) && Commits(s, send)
    ensures Sent(s, stacks, Step(s, stacks, send).0, Step(s, stacks, send).1, r, x)
  {
    hide ScLinks, ReplyLinks, Stacked, Queued, NtfnQueued, CurrentIsHighest, IsHighestPrio, Sent, Transfer;
    var e := if send.Call? then send.cap.ep else send.handler.ep;
    SendEffect(s, stacks, e, send.archOk, if send.Call? then s.Cur().fault else VMFault);
    r, x := s.threads[s.eps[e].queue[0]].replyObject.value, s.Cur().sc.value;
  }

  /** The sender of reply r runs again, on the scheduling context x. */
  ghost predicate Popped(v: State, now: CallStacks, w: State, d: CallStacks, r: nat, x: nat) {
    && x in now && now[x] != [] && d == now[x := now[x][1..]]
    && r in v.replies && Some(w.current) == v.replies[r].tcb && w.current in w.threads && w.Cur().sc == Some(x)
    && w.replies.Keys == v.replies.Keys
    && (forall u :: u in v.replies && u != r ==> w.replies[u].tcb == v.replies[u].tcb)
    && w.scs.Keys == v.scs.Keys
    && x in w.scs && w.scs[x].tcb == v.replies[r].tcb
    && (forall y :: y in v.scs && y != x ==> w.scs[y] == v.scs[y])
  }

  lemma {:induction false} ReplyEffect(v: State, now: CallStacks, reply: Event, r: nat, x: nat)
    requires Inv(v, now) && reply.ReplyRecv? && Commits(v, reply)
    requires v.Cur().sc == Some(x) && x in now && now[x] != [] && now[x][0] == r && r in v.replies
    ensures Popped(v, now, Step(v, now, reply).0, Step(v, now, reply).1, r, x)
  {
    hide ScLinks, ReplyLinks, Stacked, Queued, NtfnQueued, CurrentIsHighest, IsHighestPrio, Enqueue;
    var used := reply.reply.value;
    HeadOfStack(v, now, used, x);
    ReplyInv(v, now, reply.cap.ep, used, x, v.replies[used].tcb.value);
    ReplyFacts(v, now, reply.cap.ep, used, x, v.replies[used].tcb.value);
  }

  lemma {:induction false} RoundReplies(s: State, stacks: CallStacks, t: State, between: CallStacks, v: State,
                                        now: CallStacks,
                                        w: State, d: CallStacks, r: nat, x: nat, y: nat, u: nat)
    requires Sent(s, stacks, t, between, r, x) && Restored(t, between, v, now) && Popped(v, now, w, d, r, x)
    requires y in stacks && u in stacks[y]
    ensures u in s.replies && u in w.replies && w.replies[u].tcb == s.replies[u].tcb
  {
    assert u in between[y];
  }

  lemma {:induction false} RoundContexts(s: State, stacks: CallStacks, t: State, between: CallStacks, v: State,
                                         now: CallStacks,
                                         w: State, d: CallStacks, r: nat, x: nat, y: nat)
    requires Sent(s, stacks, t, between, r, x) && Restored(t, between, v, now) && Popped(v, now, w, d, r, x)
    requires y in s.scs
    ensures y in w.scs && (s.scs[y].tcb.Some? ==> w.scs[y].tcb == s.scs[y].tcb)
  {
    assert between[x] == [r] + stacks[x] && r in between[x];
  }

  lemma {:induction false} RoundRestores(s: State, stacks: CallStacks, t: State, between: CallStacks, v: State,
                                         now: CallStacks,
                                         reply: Event, r: nat, x: nat)
    requires Sent(s, stacks, t, between, r, x) && Restored(t, between, v, now)
    requires Inv(v, now) && reply.ReplyRecv? && Commits(v, reply)
    ensures Restored(s, stacks, Step(v, now, reply).0, Step(v, now, reply).1)
  {
    hide Inv, Commits, Step, Popped;
    assert between[x] == [r] + stacks[x] && r in between[x];
    ReplyEffect(v, now, reply, r, x);
    var (w, d) := Step(v, now, reply);
    RoundThread(s, stacks, t, between, v, now, w, d, r, x);
    hide Sent;
    forall y, u | y in stacks && u in stacks[y]
      ensures u in s.replies && u in w.replies && w.replies[u].tcb == s.replies[u].tcb
    {
      RoundReplies(s, stacks, t, between, v, now, w, d, r, x, y, u);
    }
    forall y | y in s.scs ensures y in w.scs && (s.scs[y].tcb.Some? ==> w.scs[y].tcb == s.scs[y].tcb) {
      RoundContexts(s, stacks, t, between, v, now, w, d, r, x, y);
    }
  }

  lemma {:induction false} RoundThread(s: State, stacks: CallStacks, t: State, between: CallStacks, v: State,
                                       now: CallStacks,
                                       w: State, d: CallStacks, r: nat, x: nat)
    requires Sent(s, stacks, t, between, r, x) && Restored(t, between, v, now) && Popped(v, now, w, d, r, x)
    ensures d == stacks && s.current in s.threads && w.current == s.current && w.current in w.threads
    ensures w.Cur().sc == s.Cur().sc
  {
    assert between[x] == [r] + stacks[x] && r in between[x];
    assert now[x][1..] == stacks[x];
    assert d == stacks;
  }

  /** After any well-bracketed run, however deeply the calls nest, the thread that
      ran before runs again on its own scheduling context, and the call stacks and
      their callers are as they were. */
  lemma {:induction false} SessionRestores(s: State, stacks: CallStacks, session: Session)
    requires Inv(s, stacks) && Committed(s, stacks, session)
    ensures Restored(s, stacks, Run(s, stacks, Events(session)).0, Run(s, stacks, Events(session)).1)
    decreases session
  {
    hide ScLinks, ReplyLinks, Stacked, Queued, NtfnQueued, CurrentIsHighest, CurrentRuns, Step, Commits, Restored, Sent;
    match session
    case Over => NothingRestored(s, stacks);
    case Aside(signal, rest) =>
      RunFirst(s, stacks, signal, Events(rest));
      SignalRestores(s, stacks, signal);
      var (t, between) := Step(s, stacks, signal);
      SessionRestores(t, between, rest);
      var (u, after) := Run(t, between, Events(rest));
      RestoredTwice(s, stacks, t, between, u, after);
    case Round(send, inner, reply, rest) =>
      RoundOnce(s, stacks, send, inner, reply, rest);
      var (t, between) := Step(s, stacks, send);
      var (v, now) := Run(t, between, Events(inner));
      SessionRestores(t, between, inner);
      var r, x := CommittedSend(s, stacks, send);
      RoundRestores(s, stacks, t, between, v, now, reply, r, x);
      var (w, d) := Step(v, now, reply);
      SessionRestores(w, d, rest);
      var (u, after) := Run(w, d, Events(rest));
      RestoredTwice(s, stacks, w, d, u, after);
  }

  lemma {:induction false} NothingRestored(s: State, stacks: CallStacks)
    requires Inv(s, stacks)
    ensures Restored(s, stacks, s, stacks)
  {
    hide ScLinks, ReplyLinks, Stacked, Queued, NtfnQueued, CurrentIsHighest;
    StackMembers(s, stacks);
  }

  /** The run of a round, piece by piece. */
  lemma {:induction false} RoundOnce(s: State, stacks: CallStacks, send: Event, inner: Session, reply: Event,
                                     rest: Session)
    requires Inv(s, stacks)
    ensures var (t, between) := Step(s, stacks, send);
            && Inv(t, between)
            && var (v, now) := Run(t, between, Events(inner));
               && Inv(v, now)
               && var (w, d) := Step(v, now, reply);
                  && Inv(w, d)
                  && Run(s, stacks, Events(Round(send, inner, reply, rest))) == Run(w, d, Events(rest))
  {
    hide Inv, Step, Run;
    var tail := [reply] + Events(rest);
    RunFirst(s, stacks, send, Events(inner) + tail);
    var (t, between) := Step(s, stacks, send);
    RunAppend(t, between, Events(inner), tail);
    var (v, now) := Run(t, between, Events(inner));
    RunFirst(v, now, reply, Events(rest));
  }

  // ---------------------------------------------------------------------------
  // A state to start from

  /** A client runs, and a server waits with its reply object. */
  ghost function ClientAndServer(client: nat, server: nat): State {
    State(map[0 := Thread(Running, None, Some(0), client, 0, NullFault),
              1 := Thread(BlockedOnReceive(0), Some(0), None, server, 0, NullFault)],
          map[0 := Reply(Some(1), None, NoLink)],
          map[0 := SchedContext(Some(0), None)],
          map[0 := Ep(Recv, [1])], map[], {}, 0, 0, 0)
  }

  lemma {:induction false} ClientAndServerLinks(client: nat, server: nat)
    ensures var s := ClientAndServer(client, server); ScLinks(s) && ReplyLinks(s) && CurrentRuns(s) && NtfnQueued(s)
  {
  }

  lemma {:induction false} ClientAndServerStacked(client: nat, server: nat)
    ensures Stacked(ClientAndServer(client, server), map[0 := []])
  {
    var s := ClientAndServer(client, server);
    assert IsStack(s, 0, []);
  }

  lemma {:induction false} ClientAndServerQueued(client: nat, server: nat)
    ensures Queued(ClientAndServer(client, server))
  {
    var s := ClientAndServer(client, server);
    assert QueueOk(s, s.eps[0]);
    assert s.eps[0].queue[0] == 1;
  }

  /** The state meets the invariant, and both the client's call and the server's
      reply are on the fastpath. */
  lemma {:induction false} ServerIsCalled(client: nat, server: nat)
    ensures var s := ClientAndServer(client, server);
            && Inv(s, map[0 := []])
            && CanCall(s, EndpointCap(0, true, false, true, true), true, true)
            && CanListen(s, EndpointCap(0, false, true, false, false)) && CanAnswer(s, 1)
  {
    hide ScLinks, ReplyLinks, CurrentRuns, NtfnQueued, Stacked, Queued;
    ClientAndServerLinks(client, server);
    ClientAndServerStacked(client, server);
    ClientAndServerQueued(client, server);
  }
}
