/**
 The queue of threads waiting on an endpoint: a doubly linked list threaded
 through the waiting threads, kept in priority order.
 */
module EndpointQueues {

  // ---------------------------------------------------------------------------
  // The order of the queue, on values

  /** Where a thread of priority `p` enters a queue: behind the last thread whose
      priority is at least `p`. */
  function Place(prios: seq<nat>, p: nat): (k: nat)
    ensures k <= |prios|
    ensures k > 0 ==> prios[k - 1] >= p
    ensures forall i :: k <= i < |prios| ==> prios[i] < p
  {
    if prios == [] || prios[|prios| - 1] >= p then |prios|
    else Place(prios[..|prios| - 1], p)
  }

  lemma {:induction false} PlaceUnique(prios: seq<nat>, p: nat, k: nat)
    requires k <= |prios| && (k > 0 ==> prios[k - 1] >= p)
    requires forall i :: k <= i < |prios| ==> prios[i] < p
    ensures k == Place(prios, p)
  {
    hide Place;
    var m := Place(prios, p);
    assert m > 0 ==> prios[m - 1] >= p;
  }

  /** `q` with `t` put in at index `k`. */
  function Inserted<T>(q: seq<T>, k: nat, t: T): (r: seq<T>)
    requires k <= |q|
    ensures |r| == |q| + 1
    ensures r[k] == t
    ensures forall i {:trigger r[i]} :: 0 <= i < k ==> r[i] == q[i]
    ensures forall i {:trigger r[i]} :: k < i < |r| ==> r[i] == q[i - 1]
  {
    q[..k] + [t] + q[k..]
  }

  /** `q` without its element at index `k`. */
  function Removed<T>(q: seq<T>, k: nat): (r: seq<T>)
    requires k < |q|
    ensures |r| == |q| - 1
    ensures forall i {:trigger r[i]} :: 0 <= i < |r| ==> r[i] == if i < k then q[i] else q[i + 1]
  {
    q[..k] + q[k + 1..]
  }

  /** A thread in the queue and the moment it arrived. */
  datatype Waiter = Waiter(id: nat, prio: nat, arrival: nat)

  function Prios(q: seq<Waiter>): (r: seq<nat>)
    ensures |r| == |q| && forall i :: 0 <= i < |q| ==> r[i] == q[i].prio
  {
    seq(|q|, i requires 0 <= i < |q| => q[i].prio)
  }

  function Insert(q: seq<Waiter>, w: Waiter): seq<Waiter> {
    Inserted(q, Place(Prios(q), w.prio), w)
  }

  datatype Event = Arrive(id: nat, prio: nat) | ServeHead | Cancel(index: nat)

  /** One queue operation at moment `now`; serving an empty queue or cancelling
      a thread that is not there does nothing. */
  function Apply(q: seq<Waiter>, now: nat, e: Event): seq<Waiter> {
    match e
    case Arrive(id, prio) => Insert(q, Waiter(id, prio, now))
    case ServeHead => if q == [] then q else Removed(q, 0)
    case Cancel(i) => if i < |q| then Removed(q, i) else q
  }

  function Run(events: seq<Event>): seq<Waiter> {
    if events == [] then []
    else Apply(Run(events[..|events| - 1]), |events|, events[|events| - 1])
  }

  /** Served before: higher priority, or the same and there first. */
  predicate Before(a: Waiter, b: Waiter) {
    a.prio > b.prio || (a.prio == b.prio && a.arrival < b.arrival)
  }

  ghost predicate InOrder(q: seq<Waiter>) {
    forall i, j :: 0 <= i < j < |q| ==> Before(q[i], q[j])
  }

  lemma {:induction false} InsertInOrder(q: seq<Waiter>, w: Waiter)
    requires InOrder(q) && forall i :: 0 <= i < |q| ==> q[i].arrival < w.arrival
    ensures InOrder(Insert(q, w))
  {
    hide Place, Inserted;
    var k := Place(Prios(q), w.prio);
    forall i | 0 <= i < k ensures Before(q[i], w) {
      assert q[k - 1].prio == Prios(q)[k - 1] >= w.prio;
      assert i < k - 1 ==> Before(q[i], q[k - 1]);
    }
    forall j | k <= j < |q| ensures Before(w, q[j]) {
      assert Prios(q)[j] < w.prio;
    }
  }

  lemma {:induction false} ApplyInOrder(q: seq<Waiter>, now: nat, e: Event)
    requires InOrder(q) && forall i :: 0 <= i < |q| ==> q[i].arrival < now
    ensures InOrder(Apply(q, now, e))
    ensures forall i :: 0 <= i < |Apply(q, now, e)| ==> Apply(q, now, e)[i].arrival <= now
  {
    hide Removed, Inserted, Before, Place;
    if e.Arrive? {
      InsertInOrder(q, Waiter(e.id, e.prio, now));
    }
  }

  /** After any run of arrivals, services and cancellations the queue is in
      priority order, first come first served among equals. */
  lemma {:induction false} RunInOrder(events: seq<Event>)
    ensures InOrder(Run(events))
    ensures forall i :: 0 <= i < |Run(events)| ==> Run(events)[i].arrival <= |events|
  {
    hide Apply, InOrder;
    if events != [] {
      var past := events[..|events| - 1];
      RunInOrder(past);
      ApplyInOrder(Run(past), |events|, events[|events| - 1]);
    } else {
      EmptyInOrder();
    }
  }

  lemma {:induction false} EmptyInOrder()
    ensures InOrder([])
  {
  }

  /** So the head is the thread that every other waiting thread yields to. */
  lemma {:induction false} HeadIsServedFirst(events: seq<Event>)
    ensures var q := Run(events);
            forall w :: w in q ==> w == q[0] || Before(q[0], w)
  {
    RunInOrder(events);
  }

  // ---------------------------------------------------------------------------
  // The linked list

  class Tcb {
    const tcbPriority: nat
    var tcbEPPrev: Tcb?
    var tcbEPNext: Tcb?

    constructor (priority: nat)
      ensures tcbPriority == priority
    {
      tcbPriority, tcbEPPrev, tcbEPNext := priority, null, null;
    }
  }

  ghost function Priorities(list: seq<Tcb>): (r: seq<nat>)
    ensures |r| == |list| && forall i :: 0 <= i < |list| ==> r[i] == list[i].tcbPriority
  {
    seq(|list|, i requires 0 <= i < |list| => list[i].tcbPriority)
  }

  ghost predicate Decreasing(prios: seq<nat>) {
    forall i, j :: 0 <= i < j < |prios| ==> prios[i] >= prios[j]
  }

  ghost function At(list: seq<Tcb>, i: int): Tcb? {
    if 0 <= i < |list| then list[i] else null
  }

  ghost predicate Distinct(list: seq<Tcb>) {
    forall i, j :: 0 <= i < j < |list| ==> list[i] != list[j]
  }

  ghost predicate Nexts(list: seq<Tcb>)
    reads list`tcbEPNext
  {
    forall i {:trigger list[i].tcbEPNext} :: 0 <= i < |list| ==> list[i].tcbEPNext == At(list, i + 1)
  }

  ghost predicate Prevs(list: seq<Tcb>)
    reads list`tcbEPPrev
  {
    forall i {:trigger list[i].tcbEPPrev} :: 0 <= i < |list| ==> list[i].tcbEPPrev == At(list, i - 1)
  }

  /** Distinct threads, each linked to its neighbours in the list. */
  ghost predicate Linked(list: seq<Tcb>)
    reads list
  {
    Distinct(list) && Nexts(list) && Prevs(list)
  }

  datatype EndpointState = Idle | Send | Recv

  class Endpoint {
    var head: Tcb?
    var end: Tcb?
    var state: EndpointState
    ghost var list: seq<Tcb>

    /** The list is what the links say, each thread once, in priority order; and
        the endpoint is idle exactly when nobody waits. */
    ghost predicate Valid()
      reads this, list
    {
      Listed() && (state == Idle <==> list == [])
    }

    ghost predicate Listed()
      reads this, list
    {
      head == At(list, 0) && end == At(list, |list| - 1) && Linked(list) && Decreasing(Priorities(list))
    }

    constructor ()
      ensures Valid() && list == []
    {
      head, end, state, list := null, null, Idle, [];
    }

    /** The scan of `tcbEPAppend`, from the back. */
    method FindPlace(tcb: Tcb) returns (before: Tcb?, after: Tcb?, ghost k: nat)
      requires Listed()
      ensures k == Place(Priorities(list), tcb.tcbPriority)
      ensures before == At(list, k - 1) && after == At(list, k)
    {
      hide Place, Priorities, Decreasing;
      before, after := end, null;
      k := |list|;
      while before != null && tcb.tcbPriority > before.tcbPriority
        invariant k <= |list| && before == At(list, k - 1) && after == At(list, k)
        invariant forall i :: k <= i < |list| ==> list[i].tcbPriority < tcb.tcbPriority
        decreases k
      {
        after := before;
        before := after.tcbEPPrev;
        k := k - 1;
      }
      PlaceUnique(Priorities(list), tcb.tcbPriority, k);
    }

    /** The current thread joins the receivers (`fastpath_reply_recv`): alone if
        nobody waits, by `tcbEPAppend` otherwise. */
    method Receive(tcb: Tcb)
      requires Valid() && state != Send && tcb !in list
      modifies this, tcb, list
      ensures Valid() && state == Recv
      ensures var k := Place(Priorities(old(list)), tcb.tcbPriority);
              list == Inserted(old(list), k, tcb)
    {
      if end == null {
        tcb.tcbEPPrev, tcb.tcbEPNext := null, null;
        head, end, state := tcb, tcb, Recv;
        list := [tcb];
      } else {
        EPAppend(tcb);
        state := Recv;
      }
    }

    /** `tcbEPAppend`; the endpoint's state is the caller's business. */
    method EPAppend(tcb: Tcb)
      requires Listed() && tcb !in list
      modifies this`head, this`end, this`list, tcb, list
      ensures Listed()
      ensures var k := Place(Priorities(old(list)), tcb.tcbPriority);
              list == Inserted(old(list), k, tcb)
    {
      hide Place, Inserted, Priorities, Decreasing, Linked;
      var before, after, k := FindPlace(tcb);
      InsertKeepsOrder(list, tcb);
      LinkBetween(tcb, before, after, k);
    }

    method LinkBetween(tcb: Tcb, before: Tcb?, after: Tcb?, ghost k: nat)
      requires head == At(list, 0) && end == At(list, |list| - 1) && Linked(list)
      requires tcb !in list && k <= |list| && before == At(list, k - 1) && after == At(list, k)
      modifies this`head, this`end, this`list, tcb, list
      ensures head == At(list, 0) && end == At(list, |list| - 1) && Linked(list)
      ensures list == Inserted(old(list), k, tcb)
    {
      hide Inserted, Nexts, Prevs;
      LinkForward(tcb, before, after, k);
      LinkBackward(tcb, before, after, k);
      list := Inserted(list, k, tcb);
    }

    /** The forward links of an insertion: the head or the thread before, and the
        thread itself. */
    method LinkForward(tcb: Tcb, before: Tcb?, after: Tcb?, ghost k: nat)
      requires head == At(list, 0) && Distinct(list) && Nexts(list)
      requires tcb !in list && k <= |list| && before == At(list, k - 1) && after == At(list, k)
      modifies this`head, tcb`tcbEPNext, list`tcbEPNext
      ensures head == At(Inserted(list, k, tcb), 0) && Nexts(Inserted(list, k, tcb))
    {
      hide Inserted;
      if before == null {
        head := tcb;
      } else {
        before.tcbEPNext := tcb;
      }
      tcb.tcbEPNext := after;
    }

    /** The backward links: the end or the thread after, and the thread itself. */
    method LinkBackward(tcb: Tcb, before: Tcb?, after: Tcb?, ghost k: nat)
      requires end == At(list, |list| - 1) && Distinct(list) && Prevs(list)
      requires tcb !in list && k <= |list| && before == At(list, k - 1) && after == At(list, k)
      modifies this`end, tcb`tcbEPPrev, list`tcbEPPrev
      ensures end == At(Inserted(list, k, tcb), |list|) && Prevs(Inserted(list, k, tcb))
    {
      hide Inserted;
      if after == null {
        end := tcb;
      } else {
        after.tcbEPPrev := tcb;
      }
      tcb.tcbEPPrev := before;
    }

    /** The fastpath's removal of the first receiver. */
    method DequeueHead() returns (dest: Tcb)
      requires Valid() && state != Idle
      modifies this, list
      ensures Valid()
      ensures dest == old(list)[0] && list == Removed(old(list), 0)
      ensures state == if list == [] then Idle else old(state)
      ensures forall t :: t in list ==> t.tcbPriority <= dest.tcbPriority
    {
      hide Removed, Priorities, Decreasing;
      ghost var q := list;
      HeadHasTopPriority(q);
      dest := head;
      head := dest.tcbEPNext;
      if dest.tcbEPNext != null {
        dest.tcbEPNext.tcbEPPrev := null;
      } else {
        end, state := null, Idle;
      }
      list := Removed(q, 0);
      RemoveKeepsOrder(q, 0);
      assert Linked(list);
    }

    /** `tcbEPDequeue` and the state update of `cancelIPC_fp`: any waiting thread
        leaves the queue. */
    method EPDequeue(tcb: Tcb, ghost k: nat)
      requires Valid() && k < |list| && list[k] == tcb
      modifies this, list
      ensures Valid()
      ensures list == Removed(old(list), k)
      ensures state == if list == [] then Idle else old(state)
    {
      hide Removed, Priorities, Decreasing, Nexts, Prevs, Distinct;
      ghost var q := list;
      RemoveKeepsDistinct(q, k);
      UnlinkForward(tcb, k);
      UnlinkBackward(tcb, k);
      list := Removed(q, k);
      if head == null {
        state := Idle;
      }
      RemoveKeepsOrder(q, k);
    }

    method UnlinkForward(tcb: Tcb, ghost k: nat)
      requires head == At(list, 0) && Linked(list) && k < |list| && list[k] == tcb
      modifies this`head, list`tcbEPNext
      ensures head == At(Removed(list, k), 0) && Nexts(Removed(list, k)) && tcb.tcbEPNext == At(list, k + 1)
    {
      hide Removed;
      if tcb.tcbEPPrev != null {
        tcb.tcbEPPrev.tcbEPNext := tcb.tcbEPNext;
      } else {
        head := tcb.tcbEPNext;
      }
    }

    method UnlinkBackward(tcb: Tcb, ghost k: nat)
      requires end == At(list, |list| - 1) && Distinct(list) && Prevs(list) && k < |list| && list[k] == tcb
      requires tcb.tcbEPNext == At(list, k + 1)
      modifies this`end, list`tcbEPPrev
      ensures end == At(Removed(list, k), |list| - 2) && Prevs(Removed(list, k))
    {
      hide Removed;
      if tcb.tcbEPNext != null {
        tcb.tcbEPNext.tcbEPPrev := tcb.tcbEPPrev;
      } else {
        end := tcb.tcbEPPrev;
      }
    }
  }

  lemma {:induction false} InsertKeepsOrder(list: seq<Tcb>, tcb: Tcb)
    requires Decreasing(Priorities(list))
    ensures Decreasing(Priorities(Inserted(list, Place(Priorities(list), tcb.tcbPriority), tcb)))
  {
    hide Place, Inserted;
    var p, k := Priorities(list), Place(Priorities(list), tcb.tcbPriority);
    InsertDecreasing(p, tcb.tcbPriority);
    assert Priorities(Inserted(list, k, tcb)) == Inserted(p, k, tcb.tcbPriority);
  }

  lemma {:induction false} HeadHasTopPriority(list: seq<Tcb>)
    requires Decreasing(Priorities(list))
    ensures forall i :: 0 <= i < |list| ==> list[i].tcbPriority <= list[0].tcbPriority
  {
    forall i | 0 < i < |list| ensures list[i].tcbPriority <= list[0].tcbPriority {
      assert Priorities(list)[0] >= Priorities(list)[i];
    }
  }

  lemma {:induction false} RemoveKeepsDistinct(list: seq<Tcb>, k: nat)
    requires Distinct(list) && k < |list|
    ensures Distinct(Removed(list, k))
  {
    hide Removed;
  }

  lemma {:induction false} RemoveKeepsOrder(list: seq<Tcb>, k: nat)
    requires Decreasing(Priorities(list)) && k < |list|
    ensures Decreasing(Priorities(Removed(list, k)))
  {
    hide Removed;
    assert Priorities(Removed(list, k)) == Removed(Priorities(list), k);
  }

  lemma {:induction false} InsertDecreasing(prios: seq<nat>, p: nat)
    requires Decreasing(prios)
    ensures var k := Place(prios, p);
            Decreasing(Inserted(prios, k, p))
  {
    hide Inserted, Place;
    var k := Place(prios, p);
    assert forall i :: 0 <= i < k ==> prios[i] >= prios[k - 1];
  }
}
