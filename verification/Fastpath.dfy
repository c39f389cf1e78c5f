/**
 The MCS IPC fastpaths as steps over threads, reply objects, scheduling
 contexts, endpoints and notifications.  A step either commits and makes all of
 its updates, or is left to the slowpath and changes nothing.
 */
module Fastpath {
  import opened Options
  import opened EndpointQueues

  datatype ThreadState =
    | Inactive
    | Running
    | Restart
    | BlockedOnReceive(ep: nat)
    | BlockedOnSend(ep: nat)
    | BlockedOnReply
    | BlockedOnNotification(ntfn: nat)

  datatype FaultType = NullFault | VMFault | OtherFault

  datatype Thread = Thread(
    state: ThreadState,
    replyObject: Option<nat>,
    sc: Option<nat>,
    prio: nat,
    domain: nat,
    fault: FaultType)
  {
    predicate Runnable() { state == Running || state == Restart }

    /** The reply object means something only in the two states that wait with
        one; in any other state the field may be stale. */
    predicate HoldsReply() { replyObject.Some? && (state.BlockedOnReceive? || state == BlockedOnReply) }
  }

  /** `call_stack_t`: a reply further up the stack, or the scheduling context
      if this reply is the head. */
  datatype Link = NoLink | ToReply(reply: nat) | ToSc(sc: nat)

  datatype Reply = Reply(tcb: Option<nat>, prev: Option<nat>, next: Link)

  datatype SchedContext = SchedContext(tcb: Option<nat>, reply: Option<nat>)

  datatype Ep = Ep(state: EndpointState, queue: seq<nat>)

  datatype NtfnState = NtfnIdle | NtfnWaiting | NtfnActive

  datatype Notification = Notification(state: NtfnState, queue: seq<nat>, bound: Option<nat>, sc: Option<nat>)

  datatype State = State(
    threads: map<nat, Thread>,
    replies: map<nat, Reply>,
    scs: map<nat, SchedContext>,
    eps: map<nat, Ep>,
    ntfns: map<nat, Notification>,
    ready: set<nat>,
    current: nat,
    domain: nat,
    maxDomain: nat)
  {
    function Cur(): Thread
      requires current in threads
    {
      threads[current]
    }
  }

  // ---------------------------------------------------------------------------
  // Invariants

  /** Threads and scheduling contexts point at each other. */
  ghost predicate ScLinks(s: State) {
    && (forall t :: t in s.threads && s.threads[t].sc.Some? ==>
          var x := s.threads[t].sc.value; x in s.scs && s.scs[x].tcb == Some(t))
    && (forall x :: x in s.scs && s.scs[x].tcb.Some? ==>
          var t := s.scs[x].tcb.value; t in s.threads && s.threads[t].sc == Some(x))
  }

  /** Waiting threads and reply objects point at each other. */
  ghost predicate ReplyLinks(s: State) {
    && (forall t :: t in s.threads && s.threads[t].HoldsReply() ==>
          var r := s.threads[t].replyObject.value; r in s.replies && s.replies[r].tcb == Some(t))
    && (forall r :: r in s.replies && s.replies[r].tcb.Some? ==>
          var t := s.replies[r].tcb.value;
          t in s.threads && s.threads[t].HoldsReply() && s.threads[t].replyObject == Some(r))
  }

  function Up(x: nat, q: seq<nat>, i: int): Link {
    if i == 0 then ToSc(x) else if 0 < i <= |q| then ToReply(q[i - 1]) else NoLink
  }

  function Down(q: seq<nat>, i: int): Option<nat> {
    if 0 <= i < |q| - 1 then Some(q[i + 1]) else None
  }

  function Top(q: seq<nat>): Option<nat> {
    if q == [] then None else Some(q[0])
  }

  /** `q`, head first, is the call stack of scheduling context `x`: a doubly
      linked list of replies, each of a thread blocked on reply. */
  ghost predicate IsStack(s: State, x: nat, q: seq<nat>) {
    && x in s.scs && s.scs[x].reply == Top(q)
    && (forall i, j :: 0 <= i < j < |q| ==> q[i] != q[j])
    && (forall i :: 0 <= i < |q| ==> q[i] in s.replies)
    && (forall i {:trigger s.replies[q[i]].next} :: 0 <= i < |q| ==> s.replies[q[i]].next == Up(x, q, i))
    && (forall i {:trigger s.replies[q[i]].prev} :: 0 <= i < |q| ==> s.replies[q[i]].prev == Down(q, i))
    && (forall i {:trigger s.replies[q[i]].tcb} :: 0 <= i < |q| ==> WaitsForReply(s, s.replies[q[i]].tcb))
  }

  ghost predicate WaitsForReply(s: State, t: Option<nat>) {
    t.Some? && t.value in s.threads && s.threads[t.value].state == BlockedOnReply
  }

  type CallStacks = map<nat, seq<nat>>

  /** Every scheduling context has its call stack; no reply is in two stacks;
      and a reply in none is unlinked. */
  ghost predicate Stacked(s: State, stacks: CallStacks) {
    && stacks.Keys == s.scs.Keys
    && (forall x :: x in stacks ==> IsStack(s, x, stacks[x]))
    && (forall x, y, r :: x in stacks && y in stacks && r in stacks[x] && r in stacks[y] ==> x == y)
    && (forall r :: r in s.replies && s.replies[r].next != NoLink ==> exists x :: x in stacks && r in stacks[x])
    && (forall r :: r in s.replies && s.replies[r].prev != None ==> s.replies[r].next != NoLink)
  }

  ghost function QueuePrios(s: State, q: seq<nat>): seq<nat>
    requires forall i :: 0 <= i < |q| ==> q[i] in s.threads
  {
    seq(|q|, i requires 0 <= i < |q| => s.threads[q[i]].prio)
  }

  ghost predicate NoDuplicates(q: seq<nat>) {
    forall i, j :: 0 <= i < j < |q| ==> q[i] != q[j]
  }

  /** Endpoint queues hold exactly the threads blocked on them, once each, in
      priority order; an endpoint is idle exactly when its queue is empty. */
  ghost predicate Queued(s: State) {
    && (forall e :: e in s.eps ==> QueueOk(s, s.eps[e]))
    && (forall e, t :: e in s.eps && s.eps[e].state == Recv && t in s.eps[e].queue ==>
          s.threads[t].state == BlockedOnReceive(e))
    && (forall t :: t in s.threads && s.threads[t].state.BlockedOnReceive? ==>
          var e := s.threads[t].state.ep; e in s.eps && s.eps[e].state == Recv && t in s.eps[e].queue)
    && (forall e, t :: e in s.eps && s.eps[e].state == Send && t in s.eps[e].queue ==>
          s.threads[t].state == BlockedOnSend(e))
    && (forall t :: t in s.threads && s.threads[t].state.BlockedOnSend? ==>
          var e := s.threads[t].state.ep; e in s.eps && s.eps[e].state == Send && t in s.eps[e].queue)
  }

  ghost predicate QueueOk(s: State, ep: Ep) {
    && (ep.state == Idle <==> ep.queue == [])
    && NoDuplicates(ep.queue)
    && (forall i :: 0 <= i < |ep.queue| ==> ep.queue[i] in s.threads)
    && Decreasing(QueuePrios(s, ep.queue))
  }

  ghost predicate NtfnQueued(s: State) {
    && (forall n :: n in s.ntfns ==>
          && (s.ntfns[n].state == NtfnWaiting <==> s.ntfns[n].queue != [])
          && NoDuplicates(s.ntfns[n].queue)
          && (s.ntfns[n].bound.Some? ==> s.ntfns[n].bound.value in s.threads)
          && (s.ntfns[n].sc.Some? ==> s.ntfns[n].sc.value in s.scs))
    && (forall n, t :: n in s.ntfns && t in s.ntfns[n].queue ==>
          t in s.threads && s.threads[t].state == BlockedOnNotification(n))
    && (forall t :: t in s.threads && s.threads[t].state.BlockedOnNotification? ==>
          var n := s.threads[t].state.ntfn; n in s.ntfns && t in s.ntfns[n].queue)
  }

  /** The running thread has a scheduling context, is not in the scheduler, and
      is in the current domain. */
  ghost predicate CurrentRuns(s: State) {
    && s.current in s.threads && s.Cur().state == Running && s.Cur().sc.Some?
    && s.current !in s.ready
    && s.Cur().domain == s.domain
    && (forall t :: t in s.ready ==> t in s.threads && s.threads[t].Runnable())
    && (s.maxDomain == 0 ==> forall t :: t in s.threads ==> s.threads[t].domain == s.domain)
  }

  /** `isHighestPrio` on the ready set; the bitmaps that compute it are in
      `ReadyQueues.dfy`. */
  predicate IsHighestPrio(s: State, prio: nat) {
    forall t :: t in s.ready && t in s.threads && s.threads[t].domain == s.domain ==> s.threads[t].prio <= prio
  }

  /** No ready thread of the current domain outranks the running one. */
  ghost predicate CurrentIsHighest(s: State) {
    s.current in s.threads && IsHighestPrio(s, s.Cur().prio)
  }

  ghost predicate Inv(s: State, stacks: CallStacks) {
    && ScLinks(s) && ReplyLinks(s) && Stacked(s, stacks) && Queued(s) && NtfnQueued(s)
    && CurrentRuns(s) && CurrentIsHighest(s)
  }

  // ---------------------------------------------------------------------------
  // fastpath_call and fastpath_vm_fault

  datatype EndpointCap =
    | NotAnEndpoint
    | EndpointCap(ep: nat, canSend: bool, canReceive: bool, canGrant: bool, canGrantReply: bool)

  /** The checks that both senders make on the thread at the head of the
      endpoint queue; `archOk` stands for the address-space checks. */
  ghost predicate CanSendTo(s: State, e: nat, archOk: bool) {
    && s.current in s.threads && e in s.eps && s.eps[e].state == Recv && s.eps[e].queue != []
    && archOk
    && var dest := s.eps[e].queue[0];
       && dest in s.threads
       && !(s.threads[dest].prio < s.Cur().prio && !IsHighestPrio(s, s.threads[dest].prio))
       && !(s.threads[dest].domain != s.domain && 0 < s.maxDomain)
       && s.threads[dest].sc == None
       && s.threads[dest].replyObject.Some?
  }

  ghost predicate CanCall(s: State, cap: EndpointCap, messageOk: bool, archOk: bool) {
    && s.current in s.threads
    && messageOk && s.Cur().fault == NullFault
    && cap.EndpointCap? && cap.canSend
    && CanSendTo(s, cap.ep, archOk)
    && (cap.canGrant || cap.canGrantReply)
  }

  /** The common part of a committed call and a committed VM fault: the caller
      waits on the receiver's reply object, the reply goes on top of the call
      stack, and the receiver runs on the caller's scheduling context. */
  ghost function Transfer(s: State, e: nat, fault: FaultType): State
    requires s.current in s.threads && e in s.eps && s.eps[e].queue != []
    requires s.eps[e].queue[0] in s.threads && s.threads[s.eps[e].queue[0]].replyObject.Some?
    requires s.threads[s.eps[e].queue[0]].replyObject.value in s.replies
    requires s.Cur().sc.Some? && s.Cur().sc.value in s.scs
  {
    var dest := s.eps[e].queue[0];
    var r := s.threads[dest].replyObject.value;
    var x := s.Cur().sc.value;
    var rest := Removed(s.eps[e].queue, 0);
    var top := s.scs[x].reply;
    var threads := s.threads[s.current :=
                               s.Cur().(state := BlockedOnReply, replyObject := Some(r), sc := None, fault := fault)];
    var replies := if top.Some? && top.value in s.replies
                   then s.replies[top.value := s.replies[top.value].(next := ToReply(r))] else s.replies;
    s.(eps := s.eps[e := if rest == [] then Ep(Idle, []) else s.eps[e].(queue := rest)],
       threads := threads[dest := s.threads[dest].(state := Running, replyObject := None, sc := Some(x))],
       replies := replies[r := Reply(Some(s.current), top, ToSc(x))],
       scs := s.scs[x := SchedContext(Some(dest), Some(r))],
       current := dest)
  }

  // ---------------------------------------------------------------------------
  // fastpath_reply_recv

  /** A notification bound to the running thread is active. */
  predicate BoundActive(s: State) {
    exists n :: n in s.ntfns && s.ntfns[n].bound == Some(s.current) && s.ntfns[n].state == NtfnActive
  }

  ghost predicate CanReplyRecv(s: State, cap: EndpointCap, reply: Option<nat>, messageOk: bool, archOk: bool) {
    && s.current in s.threads
    && messageOk && s.Cur().fault == NullFault
    && cap.EndpointCap? && cap.canReceive && cap.ep in s.eps
    && reply.Some? && reply.value in s.replies
    && !BoundActive(s)
    && s.eps[cap.ep].state != Send
    && var r := s.replies[reply.value];
       && r.tcb.Some? && r.next.ToSc? && Some(r.next.sc) == s.Cur().sc
       && r.tcb.value in s.threads
       && var caller := s.threads[r.tcb.value];
          && caller.fault != OtherFault
          && archOk
          && IsHighestPrio(s, caller.prio)
          && !(caller.domain != s.domain && 0 < s.maxDomain)
          && caller.sc == None
  }

  ghost function Enqueue(s: State, ep: Ep, t: nat): Ep
    requires t in s.threads && forall i :: 0 <= i < |ep.queue| ==> ep.queue[i] in s.threads
  {
    Ep(Recv, Inserted(ep.queue, Place(QueuePrios(s, ep.queue), s.threads[t].prio), t))
  }

  /** A committed reply: the caller runs again on its scheduling context, the
      reply leaves the call stack, and the server waits with it on the endpoint. */
  ghost function ReplyTo(s: State, e: nat, r: nat): State
    requires s.current in s.threads && e in s.eps && r in s.replies && s.Cur().sc.Some? && s.Cur().sc.value in s.scs
    requires s.replies[r].tcb.Some? && s.replies[r].tcb.value in s.threads
    requires forall i :: 0 <= i < |s.eps[e].queue| ==> s.eps[e].queue[i] in s.threads
  {
    var caller := s.replies[r].tcb.value;
    var x := s.Cur().sc.value;
    var prev := s.replies[r].prev;
    var server := s.Cur().(state := BlockedOnReceive(e), replyObject := Some(r), sc := None);
    var replies := if prev.Some? && prev.value in s.replies
                   then s.replies[prev.value := s.replies[prev.value].(next := s.replies[r].next)] else s.replies;
    s.(eps := s.eps[e := Enqueue(s, s.eps[e], s.current)],
       threads := s.threads[s.current := server]
                           [caller := s.threads[caller].(state := Running, replyObject := None, sc := Some(x),
                                                         fault := NullFault)],
       replies := replies[r := Reply(Some(s.current), None, NoLink)],
       scs := s.scs[x := SchedContext(Some(caller), prev)],
       current := caller)
  }

  // ---------------------------------------------------------------------------
  // fastpath_signal

  datatype NotificationCap = NotANotification | NotificationCap(ntfn: nat, canSend: bool)

  /** What the signal fastpath reads of a scheduling context's refills. */
  datatype Refills = Refills(active: bool, released: bool)

  ghost predicate MaySignal(s: State, cap: NotificationCap, domainExpired: bool) {
    && s.current in s.threads && s.Cur().fault == NullFault
    && cap.NotificationCap? && cap.canSend && cap.ntfn in s.ntfns
    && !domainExpired
  }

  /** The thread a signal would wake, if there is one. */
  ghost function Signalled(s: State, n: nat): Option<nat>
    requires n in s.ntfns
  {
    match s.ntfns[n].state
    case NtfnActive => None
    case NtfnIdle =>
      var b := s.ntfns[n].bound;
      if b.Some? && b.value in s.threads && s.threads[b.value].state.BlockedOnReceive? then b else None
    case NtfnWaiting => if s.ntfns[n].queue == [] then None else Some(s.ntfns[n].queue[0])
  }

  /** The scheduling context the woken thread would run on: its own, or an
      unused one that the notification can donate. */
  ghost function WakeSc(s: State, n: nat, dest: nat): Option<nat>
    requires n in s.ntfns && dest in s.threads
  {
    if s.threads[dest].sc.Some? then s.threads[dest].sc
    else
      var x := s.ntfns[n].sc;
      if x.Some? && x.value in s.scs && s.scs[x.value].tcb == None then x else None
  }

  ghost predicate CanWake(s: State, n: nat, dest: nat, refills: Refills)
    requires n in s.ntfns && s.current in s.threads
  {
    && dest in s.threads
    && WakeSc(s, n, dest).Some?
    && s.threads[dest].prio <= s.Cur().prio
    && (refills.active ==> refills.released)
  }

  /** `q` without `t`. */
  function Without(q: seq<nat>, t: nat): seq<nat> {
    if q == [] then [] else if q[0] == t then q[1..] else [q[0]] + Without(q[1..], t)
  }

  /** `cancelIPC_fp`: a waiting receiver leaves its endpoint, and its reply object
      forgets it; the thread's own reply field stays. */
  ghost function CancelIpc(s: State, dest: nat): State
    requires dest in s.threads && s.threads[dest].state.BlockedOnReceive? && s.threads[dest].state.ep in s.eps
  {
    var e := s.threads[dest].state.ep;
    var r := s.threads[dest].replyObject;
    var rest := Without(s.eps[e].queue, dest);
    s.(eps := s.eps[e := Ep(if rest == [] then Idle else s.eps[e].state, rest)],
       replies := if r.Some? && r.value in s.replies
                  then s.replies[r.value := s.replies[r.value].(tcb := None)] else s.replies,
       threads := s.threads[dest := s.threads[dest].(state := Inactive)])
  }

  ghost function LeaveNotification(s: State, n: nat, dest: nat): State
    requires dest in s.threads && n in s.ntfns
  {
    var rest := Without(s.ntfns[n].queue, dest);
    s.(ntfns := s.ntfns[n := s.ntfns[n].(queue := rest, state := if rest == [] then NtfnIdle else s.ntfns[n].state)],
       threads := s.threads[dest := s.threads[dest].(state := Inactive)])
  }

  /** The woken thread runs on `x` and, if that is active, enters the scheduler. */
  ghost function Wake(s: State, dest: nat, x: nat, schedulable: bool): State
    requires dest in s.threads && x in s.scs
  {
    s.(threads := s.threads[dest := s.threads[dest].(state := Running, sc := Some(x))],
       scs := s.scs[x := s.scs[x].(tcb := Some(dest))],
       ready := if schedulable then s.ready + {dest} else s.ready)
  }

  ghost function Activate(s: State, n: nat): State
    requires n in s.ntfns
  {
    s.(ntfns := s.ntfns[n := s.ntfns[n].(state := NtfnActive)])
  }
}
