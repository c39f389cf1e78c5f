/**
 The endpoint queues of the fastpaths, which are sequences of threads, as the linked
 lists of thread control blocks that the kernel keeps.
 */
module LinkedEndpoints {
  import opened Options
  import opened EndpointQueues
  import opened Fastpath
  import opened FastpathProofs
  import opened FastpathKernel

  /** Every thread has a control block of its own, with its priority. */
  ghost predicate Blocks(tcbs: map<nat, Tcb>, s: State) {
    && (forall t :: t in s.threads ==> t in tcbs && tcbs[t].tcbPriority == s.threads[t].prio)
    && (forall t, u :: t in s.threads && u in s.threads && t != u ==> tcbs[t] != tcbs[u])
  }

  /** The list holds the blocks of the queue's threads, in order. */
  ghost predicate Lists(list: seq<Tcb>, tcbs: map<nat, Tcb>, queue: seq<nat>) {
    |list| == |queue| && forall i :: 0 <= i < |queue| ==> queue[i] in tcbs && list[i] == tcbs[queue[i]]
  }

  /** The linked endpoint is endpoint e of the state. */
  ghost predicate Represents(ep: Endpoint, tcbs: map<nat, Tcb>, s: State, e: nat)
    reads ep, ep.list
  {
    && ep.Valid() && e in s.eps && ep.state == s.eps[e].state && Blocks(tcbs, s) && Lists(ep.list, tcbs, s.eps[e].queue)
  }

  lemma {:induction false} ListsPriorities(list: seq<Tcb>, tcbs: map<nat, Tcb>, s: State, queue: seq<nat>)
    requires Blocks(tcbs, s) && Lists(list, tcbs, queue) && forall i :: 0 <= i < |queue| ==> queue[i] in s.threads
    ensures Priorities(list) == QueuePrios(s, queue)
  {
  }

  lemma {:induction false} RemovedLists(list: seq<Tcb>, tcbs: map<nat, Tcb>, queue: seq<nat>, k: nat)
    requires Lists(list, tcbs, queue) && k < |queue|
    ensures Lists(Removed(list, k), tcbs, Removed(queue, k))
  {
    hide Removed;
  }

  lemma {:induction false} InsertedLists(list: seq<Tcb>, tcbs: map<nat, Tcb>, queue: seq<nat>, k: nat, t: nat)
    requires Lists(list, tcbs, queue) && k <= |queue| && t in tcbs
    ensures Lists(Inserted(list, k, tcbs[t]), tcbs, Inserted(queue, k, t))
  {
    hide Inserted;
  }

  /** The linked list follows a committed call or fault. */
  method DequeueReceiver(ep: Endpoint, ghost tcbs: map<nat, Tcb>, ghost s: State, e: nat, ghost fault: FaultType)
    returns (dest: Tcb)
    requires Represents(ep, tcbs, s, e) && CanSwitch(s, e) && s.eps[e].state == Recv
    modifies ep, ep.list
    ensures dest == tcbs[s.eps[e].queue[0]]
    ensures Represents(ep, tcbs, Transfer(s, e, fault), e)
  {
    hide Removed, Endpoint.Valid;
    ghost var list := ep.list;
    RemovedLists(list, tcbs, s.eps[e].queue, 0);
    TransferKeepsRank(s, e, fault);
    dest := ep.DequeueHead();
  }

  /** The linked list follows a committed reply. */
  method EnqueueServer(ep: Endpoint, tcb: Tcb, ghost tcbs: map<nat, Tcb>, ghost s: State, ghost stacks: CallStacks,
                       e: nat, ghost r: nat)
    requires Represents(ep, tcbs, s, e) && Inv(s, stacks) && CanSwitchBack(s, e, r) && s.eps[e].state != Send
    requires tcb == tcbs[s.current]
    modifies ep, tcb, ep.list
    ensures Represents(ep, tcbs, ReplyTo(s, e, r), e)
  {
    hide Inserted, Place, Endpoint.Valid, Inv;
    ghost var list, queue := ep.list, s.eps[e].queue;
    CurrentNotQueued(s, stacks, e);
    NotListed(list, tcbs, s, queue);
    ListsPriorities(list, tcbs, s, queue);
    InsertedLists(list, tcbs, queue, Place(QueuePrios(s, queue), s.Cur().prio), s.current);
    ReplyKeepsRank(s, e, r);
    ep.Receive(tcb);
  }

  lemma {:induction false} CurrentNotQueued(s: State, stacks: CallStacks, e: nat)
    requires Inv(s, stacks) && e in s.eps
    ensures s.current in s.threads && s.current !in s.eps[e].queue
    ensures forall i :: 0 <= i < |s.eps[e].queue| ==> s.eps[e].queue[i] in s.threads
  {
    hide ScLinks, ReplyLinks, Stacked, NtfnQueued, CurrentIsHighest;
    QueuedHolds(s, e);
  }

  lemma {:induction false} NotListed(list: seq<Tcb>, tcbs: map<nat, Tcb>, s: State, queue: seq<nat>)
    requires Blocks(tcbs, s) && Lists(list, tcbs, queue) && s.current in s.threads && s.current !in queue
    requires forall i :: 0 <= i < |queue| ==> queue[i] in s.threads
    ensures tcbs[s.current] !in list
  {
    forall i | 0 <= i < |list| ensures list[i] != tcbs[s.current] { assert queue[i] in queue; }
  }

  /** The linked list follows the cancelling of a receive. */
  method CancelWaiter(ep: Endpoint, tcb: Tcb, ghost tcbs: map<nat, Tcb>, ghost s: State, ghost stacks: CallStacks,
                      ghost dest: nat)
    requires Inv(s, stacks) && dest in s.threads
    requires s.threads[dest].state.BlockedOnReceive? && s.threads[dest].state.ep in s.eps
    requires Represents(ep, tcbs, s, s.threads[dest].state.ep) && tcb == tcbs[dest]
    modifies ep, ep.list
    ensures Represents(ep, tcbs, CancelIpc(s, dest), s.threads[dest].state.ep)
  {
    hide Removed, Without, Endpoint.Valid, Inv;
    ghost var e := s.threads[dest].state.ep;
    ghost var list, queue := ep.list, s.eps[e].queue;
    CancelFacts(s, stacks, dest);
    ghost var k := WithoutIsRemoved(queue, dest);
    RemovedLists(list, tcbs, queue, k);
    ep.EPDequeue(tcb, k);
  }
}
