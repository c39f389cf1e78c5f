/** The fastpaths as the kernel runs them: a string of checks, then in-place
    updates in the order of the source. */
module FastpathKernel {
  import opened Options
  import opened EndpointQueues
  import opened Fastpath
  import opened FastpathProofs
  import opened FastpathRuns
  import opened Words
  import opened ReadyQueues
  import RefillQueue
  import SchedContexts

  /** The priorities of the ready threads of a domain. */
  function ReadyPrios(threads: map<nat, Thread>, ready: set<nat>, d: nat): set<nat> {
    set t | t in ready && t in threads && threads[t].domain == d :: threads[t].prio
  }

  /** The bitmap decides `IsHighestPrio`. */
  lemma {:induction false} BitmapDecides(s: State, prio: nat)
    ensures (forall p :: p in ReadyPrios(s.threads, s.ready, s.domain) ==> p <= prio) <==> IsHighestPrio(s, prio)
  {
    if forall p :: p in ReadyPrios(s.threads, s.ready, s.domain) ==> p <= prio {
      forall t | t in s.ready && t in s.threads && s.threads[t].domain == s.domain ensures s.threads[t].prio <= prio {
        assert s.threads[t].prio in ReadyPrios(s.threads, s.ready, s.domain);
      }
    }
  }

  ghost predicate SameRank(a: map<nat, Thread>, b: map<nat, Thread>) {
    a.Keys == b.Keys && forall t :: t in a ==> a[t].prio == b[t].prio && a[t].domain == b[t].domain
  }

  lemma {:induction false} TransferKeepsRank(s: State, e: nat, fault: FaultType)
    requires CanSwitch(s, e)
    ensures var t := Transfer(s, e, fault);
            SameRank(s.threads, t.threads) && t.ready == s.ready && t.domain == s.domain && t.maxDomain == s.maxDomain
  {
    hide Removed;
  }

  lemma {:induction false} ReplyKeepsRank(s: State, e: nat, r: nat)
    requires CanSwitchBack(s, e, r)
    ensures var t := ReplyTo(s, e, r);
            SameRank(s.threads, t.threads) && t.ready == s.ready && t.domain == s.domain && t.maxDomain == s.maxDomain
  {
    hide Enqueue;
  }

  lemma {:induction false} SameReadyPrios(a: map<nat, Thread>, b: map<nat, Thread>, ready: set<nat>, d: nat)
    requires SameRank(a, b)
    ensures ReadyPrios(a, ready, d) == ReadyPrios(b, ready, d)
  {
  }

  lemma {:induction false} EnqueuePrio(threads: map<nat, Thread>, ready: set<nat>, dest: nat, d: nat)
    requires dest in threads
    ensures ReadyPrios(threads, ready + {dest}, d)
         == ReadyPrios(threads, ready, d) + if threads[dest].domain == d then {threads[dest].prio} else {}
  {
    if threads[dest].domain == d {
      assert dest in ready + {dest};
    }
  }

  class Kernel {
    var threads: map<nat, Thread>
    var replies: map<nat, Reply>
    var scs: map<nat, SchedContext>
    var eps: map<nat, Ep>
    var ntfns: map<nat, Notification>
    var ready: set<nat>
    var current: nat
    var domain: nat
    var maxDomain: nat
    /** `ksReadyQueuesL1Bitmap` and `ksReadyQueuesL2Bitmap`, by domain */
    const bitmaps: seq<ReadyBitmap>
    const words: nat

    /** Separate bitmaps, one for each domain. */
    ghost predicate Separate() {
      && 0 < words <= WORD_BITS
      && (forall d :: 0 <= d < |bitmaps| ==> bitmaps[d].l2.Length == words)
      && (forall c, d :: 0 <= c < d < |bitmaps| ==> bitmaps[c] != bitmaps[d] && bitmaps[c].l2 != bitmaps[d].l2)
    }

    ghost function Arrays(): set<object> { set d | 0 <= d < |bitmaps| :: bitmaps[d].l2 }

    /** Every thread has a domain and a priority that the bitmaps cover, and each
        bitmap holds exactly the priorities of its domain's ready threads. */
    ghost predicate Encoded()
      reads this, bitmaps, Arrays()
    {
      && Separate() && domain < |bitmaps| && (maxDomain == 0 ==> domain == 0)
      && (forall t :: t in threads ==> threads[t].domain < |bitmaps| && Level(threads[t].prio) < words)
      && (forall d :: 0 <= d < |bitmaps| ==> bitmaps[d].l2 in Arrays() && BitmapOk(d))
    }

    ghost predicate BitmapOk(d: nat)
      requires d < |bitmaps|
      reads this, bitmaps[d], bitmaps[d].l2
    {
      bitmaps[d].Valid() && bitmaps[d].ready == ReadyPrios(threads, ready, d)
    }

    /** Updates that leave the ready threads, and all priorities and domains, alone. */
    twostate lemma StillEncoded()
      requires old(Encoded()) && unchanged(bitmaps) && unchanged(Arrays())
      requires ready == old(ready) && domain == old(domain) && maxDomain == old(maxDomain)
      requires SameRank(old(threads), threads)
      ensures Encoded()
    {
      hide ReadyPrios;
      forall d | 0 <= d < |bitmaps| ensures bitmaps[d].l2 in Arrays() && BitmapOk(d) {
        assert old(BitmapOk(d));
        SameReadyPrios(old(threads), threads, ready, d);
      }
    }

    /** `isHighestPrio(dom, prio)` for the domain that the fastpaths pass */
    method HighestPrio(prio: nat) returns (r: bool)
      requires Encoded()
      ensures r == IsHighestPrio(Snapshot(), prio) && Encoded()
    {
      hide IsHighestPrio, ReadyPrios;
      var dom := if maxDomain != 0 then domain else 0;
      assert BitmapOk(dom);
      r := bitmaps[dom].IsHighestPrio(prio);
      BitmapDecides(Snapshot(), prio);
    }

    function Snapshot(): State
      reads this
    {
      State(threads, replies, scs, eps, ntfns, ready, current, domain, maxDomain)
    }

    /** `fastpath_call` */
    method FastpathCall(cap: EndpointCap, messageOk: bool, archOk: bool, ghost stacks: CallStacks)
      returns (committed: bool, ghost after: CallStacks)
      requires Inv(Snapshot(), stacks) && Encoded()
      requires cap.EndpointCap? ==> cap.ep in eps
      modifies this
      ensures committed == old(CanCall(Snapshot(), cap, messageOk, archOk))
      ensures (Snapshot(), after) == Step(old(Snapshot()), stacks, Call(cap, messageOk, archOk))
      ensures Inv(Snapshot(), after) && Encoded()
    {
      hide Inv, Step, IsHighestPrio, Transfer, Encoded, CanSwitch;
      StepIs(Snapshot(), stacks, Call(cap, messageOk, archOk));
      committed, after := false, stacks;
      if !messageOk || threads[current].fault != NullFault { return; }
      if !cap.EndpointCap? || !cap.canSend { return; }
      if eps[cap.ep].state != Recv { return; }
      ReceiverWaits(Snapshot(), stacks, cap.ep);
      var dest := eps[cap.ep].queue[0];
      if !archOk { return; }
      var highest := HighestPrio(threads[dest].prio);
      if threads[dest].prio < threads[current].prio && !highest { return; }
      if !cap.canGrant && !cap.canGrantReply { return; }
      if threads[dest].domain != domain && 0 < maxDomain { return; }
      if threads[dest].sc != None { return; }
      if threads[dest].replyObject == None { return; }

      committed := true;
      CallIs(Snapshot(), stacks, cap, messageOk, archOk);
      after := Pushed(Snapshot(), stacks, cap.ep);
      TransferKeepsRank(Snapshot(), cap.ep, threads[current].fault);
      SwitchTo(cap.ep);
      StillEncoded();
    }

    /** `fastpath_vm_fault` */
    method FastpathVmFault(handler: EndpointCap, archOk: bool, ghost stacks: CallStacks)
      returns (committed: bool, ghost after: CallStacks)
      requires Inv(Snapshot(), stacks) && Encoded()
      requires handler.EndpointCap? ==> handler.ep in eps
      modifies this
      ensures committed == old(CanFault(Snapshot(), handler, archOk))
      ensures (Snapshot(), after) == Step(old(Snapshot()), stacks, VmFault(handler, archOk))
      ensures Inv(Snapshot(), after) && Encoded()
    {
      hide Inv, Step, IsHighestPrio, Transfer, Encoded, CanSwitch;
      StepIs(Snapshot(), stacks, VmFault(handler, archOk));
      committed, after := false, stacks;
      if !handler.EndpointCap? { return; }
      if eps[handler.ep].state != Recv { return; }
      ReceiverWaits(Snapshot(), stacks, handler.ep);
      var dest := eps[handler.ep].queue[0];
      if !archOk { return; }
      var highest := HighestPrio(threads[dest].prio);
      if threads[dest].prio < threads[current].prio && !highest { return; }
      if threads[dest].domain != domain && 0 < maxDomain { return; }
      if threads[dest].sc != None { return; }
      if threads[dest].replyObject == None { return; }

      committed := true;
      FaultIs(Snapshot(), stacks, handler, archOk);
      after := Pushed(Snapshot(), stacks, handler.ep);
      FaultFirst(Snapshot(), handler.ep);
      TransferKeepsRank(Snapshot(), handler.ep, VMFault);
      threads := threads[current := threads[current].(fault := VMFault)];
      SwitchTo(handler.ep);
      StillEncoded();
    }

    /** The updates after the point of no return of a call or a fault. */
    method SwitchTo(e: nat)
      requires CanSwitch(Snapshot(), e)
      modifies this
      ensures Snapshot() == Transfer(old(Snapshot()), e, old(threads[current].fault))
    {
      hide Removed;
      var dest := eps[e].queue[0];
      var reply := threads[dest].replyObject.value;
      var sc := threads[current].sc.value;
      DequeueReceiver(e);
      LinkCaller(dest, reply);
      Donate(dest, sc);
      PushReply(reply, sc);
      threads := threads[dest := threads[dest].(state := Running)];
      current := dest;
    }

    method DequeueReceiver(e: nat)
      requires e in eps && eps[e].queue != []
      modifies this`eps
      ensures var rest := Removed(old(eps[e].queue), 0);
              eps == old(eps)[e := if rest == [] then Ep(Idle, []) else old(eps[e]).(queue := rest)]
    {
      hide Removed;
      eps := eps[e := eps[e].(queue := Removed(eps[e].queue, 0))];
      if eps[e].queue == [] {
        eps := eps[e := eps[e].(state := Idle)];
      }
    }

    /** Unlink dest <-> reply, link the current thread <-> reply. */
    method LinkCaller(dest: nat, reply: nat)
      requires current in threads && dest in threads && dest != current && reply in replies
      modifies this`threads, this`replies
      ensures threads == old(threads)
                         [current := old(threads[current]).(state := BlockedOnReply, replyObject := Some(reply))]
                         [dest := old(threads[dest]).(replyObject := None)]
      ensures replies == old(replies)[reply := old(replies[reply]).(tcb := Some(current))]
    {
      threads := threads[current := threads[current].(state := BlockedOnReply)];
      threads := threads[dest := threads[dest].(replyObject := None)];
      threads := threads[current := threads[current].(replyObject := Some(reply))];
      replies := replies[reply := replies[reply].(tcb := Some(current))];
    }

    method Donate(dest: nat, sc: nat)
      requires current in threads && dest in threads && dest != current && sc in scs
      modifies this`threads, this`scs
      ensures threads == old(threads)
                         [current := old(threads[current]).(sc := None)]
                         [dest := old(threads[dest]).(sc := Some(sc))]
      ensures scs == old(scs)[sc := old(scs[sc]).(tcb := Some(dest))]
    {
      scs := scs[sc := scs[sc].(tcb := Some(dest))];
      threads := threads[dest := threads[dest].(sc := Some(sc))];
      threads := threads[current := threads[current].(sc := None)];
    }

    method PushReply(reply: nat, sc: nat)
      requires sc in scs && reply in replies && scs[sc].reply != Some(reply)
      modifies this`replies, this`scs
      ensures var top := old(scs[sc].reply);
              replies == (if top.Some? && top.value in old(replies)
                          then old(replies)[top.value := old(replies[top.value]).(next := ToReply(reply))]
                          else old(replies))
                         [reply := old(replies[reply]).(prev := top, next := ToSc(sc))]
      ensures scs == old(scs)[sc := old(scs[sc]).(reply := Some(reply))]
    {
      var oldCaller := scs[sc].reply;
      replies := replies[reply := replies[reply].(prev := oldCaller)];
      if oldCaller.Some? && oldCaller.value in replies {
        replies := replies[oldCaller.value := replies[oldCaller.value].(next := ToReply(reply))];
      }
      replies := replies[reply := replies[reply].(next := ToSc(sc))];
      scs := scs[sc := scs[sc].(reply := Some(reply))];
    }

    /** `fastpath_reply_recv` */
    method FastpathReplyRecv(cap: EndpointCap, replyCap: Option<nat>, messageOk: bool, archOk: bool,
                             ghost stacks: CallStacks)
      returns (committed: bool, ghost after: CallStacks)
      requires Inv(Snapshot(), stacks) && Encoded()
      requires cap.EndpointCap? ==> cap.ep in eps
      requires replyCap.Some? ==> replyCap.value in replies
      modifies this
      ensures committed == old(CanReplyRecv(Snapshot(), cap, replyCap, messageOk, archOk))
      ensures (Snapshot(), after) == Step(old(Snapshot()), stacks, ReplyRecv(cap, replyCap, messageOk, archOk))
      ensures Inv(Snapshot(), after) && Encoded()
    {
      hide Inv, Step, IsHighestPrio, ReplyTo, Encoded, CanSwitchBack;
      StepIs(Snapshot(), stacks, ReplyRecv(cap, replyCap, messageOk, archOk));
      committed, after := false, stacks;
      if !messageOk || threads[current].fault != NullFault { return; }
      if !cap.EndpointCap? || !cap.canReceive { return; }
      if replyCap == None { return; }
      if BoundActive(Snapshot()) { return; }
      if eps[cap.ep].state == Send { return; }
      var reply := replies[replyCap.value];
      if reply.tcb == None || !reply.next.ToSc? || Some(reply.next.sc) != threads[current].sc { return; }
      var caller := reply.tcb.value;
      ReplyTcbExists(Snapshot(), stacks, replyCap.value);
      if threads[caller].fault == OtherFault { return; }
      if !archOk { return; }
      var highest := HighestPrio(threads[caller].prio);
      if !highest { return; }
      if threads[caller].domain != domain && 0 < maxDomain { return; }
      if threads[caller].sc != None { return; }

      committed := true;
      ReplyIs(Snapshot(), stacks, cap, replyCap, messageOk, archOk);
      after := stacks[reply.next.sc := stacks[reply.next.sc][1..]];
      ReplyKeepsRank(Snapshot(), cap.ep, replyCap.value);
      SwitchBack(cap.ep, replyCap.value);
      StillEncoded();
    }

    method SwitchBack(e: nat, r: nat)
      requires CanSwitchBack(Snapshot(), e, r)
      modifies this
      ensures Snapshot() == ReplyTo(old(Snapshot()), e, r)
    {
      hide Inserted, Place, Enqueue;
      var caller := replies[r].tcb.value;
      var sc := threads[current].sc.value;
      LinkServer(caller, r, e);
      SamePlace(old(Snapshot()), Snapshot(), eps[e], current);
      EnqueueReceiver(e);
      Donate(caller, sc);
      PopReply(r, sc);
      threads := threads[caller := threads[caller].(fault := NullFault, state := Running)];
      current := caller;
      ghost var goal := ReplyTo(old(Snapshot()), e, r);
      assert replies == goal.replies && scs == goal.scs && eps == goal.eps;
      assert threads == goal.threads;
    }

    method LinkServer(caller: nat, r: nat, e: nat)
      requires current in threads && caller in threads && caller != current && r in replies
      modifies this`threads, this`replies
      ensures threads == old(threads)
                         [current := old(threads[current]).(state := BlockedOnReceive(e), replyObject := Some(r))]
                         [caller := old(threads[caller]).(replyObject := None)]
      ensures replies == old(replies)[r := old(replies[r]).(tcb := Some(current))]
    {
      threads := threads[current := threads[current].(state := BlockedOnReceive(e))];
      threads := threads[caller := threads[caller].(replyObject := None)];
      threads := threads[current := threads[current].(replyObject := Some(r))];
      replies := replies[r := replies[r].(tcb := Some(current))];
    }

    /** The linked-list form of this insertion is `Endpoint.Receive`. */
    method EnqueueReceiver(e: nat)
      requires e in eps && current in threads && forall i :: 0 <= i < |eps[e].queue| ==> eps[e].queue[i] in threads
      modifies this`eps
      ensures eps == old(eps)[e := Enqueue(old(Snapshot()), old(eps[e]), current)]
    {
      hide Inserted, Place;
      var q := eps[e].queue;
      var ts := threads;
      var prios: seq<nat> := seq(|q|, i requires 0 <= i < |q| => ts[q[i]].prio);
      var k := Place(prios, threads[current].prio);
      assert prios == QueuePrios(Snapshot(), q);
      eps := eps[e := Ep(Recv, Inserted(q, k, current))];
    }

    method PopReply(r: nat, sc: nat)
      requires sc in scs && r in replies && replies[r].prev != Some(r)
      modifies this`replies, this`scs
      ensures var prev := old(replies[r].prev);
              && replies == (if prev.Some? && prev.value in old(replies)
                             then old(replies)[prev.value := old(replies[prev.value]).(next := old(replies[r].next))]
                             else old(replies))
                            [r := old(replies[r]).(prev := None, next := NoLink)]
              && scs == old(scs)[sc := old(scs[sc]).(reply := prev)]
    {
      var prev := replies[r].prev;
      scs := scs[sc := scs[sc].(reply := prev)];
      if prev.Some? && prev.value in replies {
        replies := replies[prev.value := replies[prev.value].(next := replies[r].next)];
      }
      replies := replies[r := replies[r].(prev := None)];
      replies := replies[r := replies[r].(next := NoLink)];
    }

    /** `fastpath_signal`, with the refills of the scheduling contexts.  `roused` is the
        context of the thread woken: its refills are unblocked if it is sporadic, and
        if it is active it is released then. */
    method FastpathSignal(cap: NotificationCap, domainExpired: bool, contexts: map<nat, SchedContexts.SchedContext>,
                          now: int, ghost stacks: CallStacks)
      returns (roused: Option<nat>)
      requires Inv(Snapshot(), stacks) && Encoded()
      requires scs.Keys <= contexts.Keys && forall x :: x in contexts ==> ContextOk(contexts[x], now)
      requires cap.NotificationCap? ==> cap.ntfn in ntfns
      modifies this, bitmaps, Arrays(), Touched(Snapshot(), cap, contexts)
      ensures var refills := old(RefillsFor(Snapshot(), cap, contexts, now));
              && (Snapshot(), stacks) == Step(old(Snapshot()), stacks, Signal(cap, domainExpired, refills))
              && roused == Woken(old(Snapshot()), cap, domainExpired, refills)
      ensures Inv(Snapshot(), stacks) && Encoded()
      ensures var x := old(TargetSc(Snapshot(), cap));
              x.Some? && x.value in contexts ==>
                && var context := contexts[x.value];
                   && ContextOk(context, now)
                   && (roused.Some? ==>
                         FundsOf(context) == Unblock(old(FundsOf(context)), now) && ReleasedIfActive(context, now))
                   && (roused == None ==> FundsOf(context) == old(FundsOf(context)))
    {
      hide Inv, Step, Signalled, WakeSc, Encoded, Activate, Roused, CanRouse, ContextOk, FundsOf, ReleasedIfActive,
           RefillsOf;
      roused := None;
      ghost var refills := RefillsFor(Snapshot(), cap, contexts, now);
      SignalIs(Snapshot(), stacks, cap, domainExpired, refills);
      if threads[current].fault != NullFault { return; }
      if !cap.NotificationCap? || !cap.canSend || domainExpired { return; }
      var n := cap.ntfn;
      if ntfns[n].state == NtfnActive {
        SetActive(n);
        return;
      }
      var signalled := FindSignalled(n);
      if signalled == None {
        SetActive(n);
        return;
      }
      var dest := signalled.value;
      var sc := FindContext(n, dest);
      if sc == None { return; }
      if threads[current].prio < threads[dest].prio { return; }
      WokenContext(Snapshot(), stacks, n, dest);
      var context := contexts[sc.value];
      var active, released := TestRefills(context, now);
      if active && !released { return; }
      RouseFrom(n, dest, sc.value, active, context, now);
      roused := sc;
    }

    /** The bound thread if it waits to receive, or the first waiter. */
    method FindSignalled(n: nat) returns (dest: Option<nat>)
      requires n in ntfns && ntfns[n].state != NtfnActive
      requires ntfns[n].bound.Some? ==> ntfns[n].bound.value in threads
      requires ntfns[n].state == NtfnWaiting ==> ntfns[n].queue != []
      ensures dest == Signalled(Snapshot(), n)
    {
      if ntfns[n].state == NtfnIdle {
        var bound := ntfns[n].bound;
        if bound == None || !threads[bound.value].state.BlockedOnReceive? { return None; }
        return bound;
      }
      return Some(ntfns[n].queue[0]);
    }

    /** The thread's own scheduling context, or an unused one to donate. */
    method FindContext(n: nat, dest: nat) returns (sc: Option<nat>)
      requires n in ntfns && dest in threads && (ntfns[n].sc.Some? ==> ntfns[n].sc.value in scs)
      ensures sc == WakeSc(Snapshot(), n, dest)
    {
      sc := threads[dest].sc;
      if sc == None {
        sc := ntfns[n].sc;
        if sc == None || scs[sc.value].tcb != None { return None; }
      }
    }

    /** `ntfn_set_active` */
    method SetActive(n: nat)
      requires n in ntfns && Encoded()
      modifies this`ntfns
      ensures Snapshot() == Activate(old(Snapshot()), n) && Encoded()
    {
      ntfns := ntfns[n := ntfns[n].(state := NtfnActive)];
      StillEncoded();
    }

    /** The updates after the point of no return of a signal. */
    method RouseFrom(n: nat, dest: nat, sc: nat, schedulable: bool, context: SchedContexts.SchedContext, now: int)
      requires Encoded() && CanRouse(Snapshot(), n, dest, sc)
      requires ContextOk(context, now) && ReleasedIfActive(context, now)
      modifies this, bitmaps, Arrays(), context, context.refills
      ensures Encoded() && FundsOf(context) == Unblock(old(FundsOf(context)), now)
      ensures ContextOk(context, now) && ReleasedIfActive(context, now)
      ensures Snapshot() == Roused(old(Snapshot()), n, dest, sc, schedulable)
    {
      hide Without, ReadyPrios, Encoded, ContextOk, ReleasedIfActive, FundsOf;
      if ntfns[n].state == NtfnIdle {
        CancelIpcOf(dest);
      } else {
        var rest := Without(ntfns[n].queue, dest);
        ntfns := ntfns[n := ntfns[n].(queue := rest, state := if rest == [] then NtfnIdle else ntfns[n].state)];
      }
      StillEncoded();
      WakeOn(dest, sc, schedulable, context, now);
      ghost var s := old(Snapshot());
      ghost var left := if s.ntfns[n].state == NtfnIdle then CancelIpc(s, dest) else LeaveNotification(s, n, dest);
      assert threads == Wake(left, dest, sc, schedulable).threads;
    }

    /** `cancelIPC_fp`: unlinking a reply makes the thread inactive; without one its
        state is left for the caller to overwrite. */
    method CancelIpcOf(dest: nat)
      requires dest in threads && threads[dest].state.BlockedOnReceive? && threads[dest].state.ep in eps
      modifies this`eps, this`replies, this`threads
      ensures var goal := CancelIpc(old(Snapshot()), dest);
              && eps == goal.eps && replies == goal.replies
              && threads == if old(threads[dest].replyObject).Some? then goal.threads else old(threads)
    {
      hide Without;
      var e, r := threads[dest].state.ep, threads[dest].replyObject;
      var queue := Without(eps[e].queue, dest);
      eps := eps[e := eps[e].(queue := queue)];
      if queue == [] {
        eps := eps[e := eps[e].(state := Idle)];
      }
      if r.Some? {
        if r.value in replies {
          replies := replies[r.value := replies[r.value].(tcb := None)];
        }
        threads := threads[dest := threads[dest].(state := Inactive)];
      }
    }

    method WakeOn(dest: nat, sc: nat, schedulable: bool, context: SchedContexts.SchedContext, now: int)
      requires Encoded() && dest in threads && sc in scs
      requires threads[dest].sc == None || (threads[dest].sc == Some(sc) && scs[sc].tcb == Some(dest))
      requires ContextOk(context, now) && ReleasedIfActive(context, now)
      modifies this`threads, this`scs, this`ready, bitmaps, Arrays(), context, context.refills
      ensures Snapshot() == Wake(old(Snapshot()), dest, sc, schedulable) && Encoded()
      ensures FundsOf(context) == Unblock(old(FundsOf(context)), now)
      ensures ContextOk(context, now) && ReleasedIfActive(context, now)
    {
      hide Encoded, ContextOk, ReleasedIfActive, FundsOf;
      Resume(dest, sc);
      UnblockContext(context, now);
      StillEncoded();
      if schedulable {
        SchedEnqueue(dest);
      }
    }

    method Resume(dest: nat, sc: nat)
      requires Encoded() && dest in threads && sc in scs
      requires threads[dest].sc == None || (threads[dest].sc == Some(sc) && scs[sc].tcb == Some(dest))
      modifies this`threads, this`scs
      ensures Snapshot() == Wake(old(Snapshot()), dest, sc, false) && Encoded()
    {
      hide Encoded;
      threads := threads[dest := threads[dest].(state := Running)];
      if threads[dest].sc == None {
        scs := scs[sc := scs[sc].(tcb := Some(dest))];
        threads := threads[dest := threads[dest].(sc := Some(sc))];
      }
      StillEncoded();
    }

    /** `tcbSchedEnqueue`: a queue that was empty gets its bit. */
    method SchedEnqueue(dest: nat)
      requires Encoded() && dest in threads
      modifies this`ready, bitmaps, Arrays()
      ensures ready == old(ready) + {dest} && Encoded()
    {
      hide ReadyPrios;
      var dom, prio := threads[dest].domain, threads[dest].prio;
      assert BitmapOk(dom);
      EnqueuePrio(threads, ready, dest, dom);
      QueueEmpty(threads, ready, dom, prio);
      var empty := !exists t :: t in ready && t in threads && threads[t].domain == dom && threads[t].prio == prio;
      if empty {
        bitmaps[dom].AddToBitmap(prio);
      }
      ready := ready + {dest};
      forall d | 0 <= d < |bitmaps| ensures bitmaps[d].l2 in Arrays() && BitmapOk(d) {
        assert old(BitmapOk(d));
        EnqueuePrio(threads, old(ready), dest, d);
        if d != dom {
          assert bitmaps[d].Valid();
        }
      }
    }
  }

  ghost predicate ContextOk(sc: SchedContexts.SchedContext, now: int)
    reads sc, sc.refills
  {
    && (sc.scRefillMax > 0 ==> sc.Configured()) && (sc.scSporadic ==> sc.scRefillMax > 0)
    && 0 <= now < sc.Params().MaxReleaseTime()
  }

  /** What the signal fastpath reads of a scheduling context's refills. */
  ghost function RefillsOf(sc: SchedContexts.SchedContext, now: int): Refills
    reads sc, sc.refills
  {
    Refills(sc.scRefillMax > 0, sc.scRefillMax > 0 && sc.InBuffer() && sc.Ready(now) && sc.Sufficient(0))
  }

  /** An active context has enough in its first refill, which may be used now. */
  ghost predicate ReleasedIfActive(sc: SchedContexts.SchedContext, now: int)
    reads sc, sc.refills
  {
    sc.scRefillMax > 0 ==> sc.InBuffer() && sc.Ready(now) && sc.Sufficient(0)
  }

  /** The context that a signal would wake a thread on. */
  ghost function TargetSc(s: State, cap: NotificationCap): Option<nat> {
    if cap.NotificationCap? && cap.ntfn in s.ntfns then
      var dest := Signalled(s, cap.ntfn);
      if dest.Some? && dest.value in s.threads then WakeSc(s, cap.ntfn, dest.value) else None
    else None
  }

  ghost function RefillsFor(s: State, cap: NotificationCap, contexts: map<nat, SchedContexts.SchedContext>,
                            now: int): Refills
    reads Touched(s, cap, contexts)
  {
    var x := TargetSc(s, cap);
    if x.Some? && x.value in contexts then RefillsOf(contexts[x.value], now) else Refills(false, false)
  }

  /** The memory of that context. */
  ghost function Touched(s: State, cap: NotificationCap, contexts: map<nat, SchedContexts.SchedContext>): set<object> {
    var x := TargetSc(s, cap);
    if x.Some? && x.value in contexts then {contexts[x.value], contexts[x.value].refills} else {}
  }

  /** A scheduling context's parameters and refills. */
  datatype Funds = Funds(refillMax: int, period: int, sporadic: bool, queue: seq<RefillQueue.Refill>)

  ghost function FundsOf(context: SchedContexts.SchedContext): Funds
    reads context, context.refills
  {
    Funds(context.scRefillMax, context.scPeriod, context.scSporadic, if context.InBuffer() then context.Queue() else [])
  }

  /** `refill_unblock_check` on a sporadic context; round-robin contexts are left
      alone. */
  ghost function Unblock(f: Funds, now: int): Funds {
    if f.sporadic && f.period != 0 && f.queue != [] then f.(queue := RefillQueue.UnblockCheck(f.queue, now)) else f
  }

  /** The tests on the refills of a scheduling context. */
  method TestRefills(context: SchedContexts.SchedContext, now: int) returns (active: bool, released: bool)
    requires ContextOk(context, now)
    ensures Refills(active, released) == RefillsOf(context, now)
    ensures !active || released ==> ReleasedIfActive(context, now)
  {
    active := context.scRefillMax > 0;
    released := active && context.Ready(now) && context.Sufficient(0);
  }

  method UnblockContext(context: SchedContexts.SchedContext, now: int)
    requires ContextOk(context, now) && ReleasedIfActive(context, now)
    modifies context, context.refills
    ensures FundsOf(context) == Unblock(old(FundsOf(context)), now)
    ensures !old(context.scSporadic) || old(context.scPeriod) == 0 ==> FundsOf(context) == old(FundsOf(context))
    ensures old(context.scSporadic) && old(context.scPeriod) != 0 ==>
              && old(context.InBuffer()) && context.InBuffer()
              && context.Queue() == RefillQueue.UnblockCheck(old(context.Queue()), now)
    ensures ContextOk(context, now) && ReleasedIfActive(context, now)
  {
    if context.scSporadic {
      context.RefillUnblockCheck(now);
    }
  }

  /** The context of the thread that a signal wakes. */
  ghost function Woken(s: State, cap: NotificationCap, domainExpired: bool, refills: Refills): Option<nat> {
    if MaySignal(s, cap, domainExpired) && Signalled(s, cap.ntfn).Some?
       && CanWake(s, cap.ntfn, Signalled(s, cap.ntfn).value, refills) then TargetSc(s, cap)
    else None
  }

  lemma {:induction false} QueueEmpty(threads: map<nat, Thread>, ready: set<nat>, d: nat, prio: nat)
    ensures prio in ReadyPrios(threads, ready, d) <==>
            exists t :: t in ready && t in threads && threads[t].domain == d && threads[t].prio == prio
  {
  }

  // ---------------------------------------------------------------------------
  // What the checks and the invariant give the updates

  ghost predicate CanSwitch(s: State, e: nat) {
    && e in s.eps && s.eps[e].queue != [] && s.eps[e].queue[0] in s.threads && s.current in s.threads
    && var dest := s.eps[e].queue[0];
       && s.current != dest
       && s.threads[dest].replyObject.Some? && s.threads[dest].replyObject.value in s.replies
       && s.Cur().sc.Some? && s.Cur().sc.value in s.scs
       && s.scs[s.Cur().sc.value].reply != s.threads[dest].replyObject
  }

  lemma {:induction false} SendersCanSwitch(s: State, stacks: CallStacks, e: nat, archOk: bool)
    requires Inv(s, stacks) && CanSendTo(s, e, archOk)
    ensures CanSwitch(s, e)
  {
    hide ScLinks, ReplyLinks, Stacked, Queued, NtfnQueued, CurrentIsHighest, IsHighestPrio;
    var dest := s.eps[e].queue[0];
    SendFacts(s, stacks, e, archOk, dest, s.threads[dest].replyObject.value, s.Cur().sc.value);
  }

  /** The call stacks with the receiver's reply on the caller's. */
  ghost function Pushed(s: State, stacks: CallStacks, e: nat): CallStacks
    requires CanSwitch(s, e) && s.Cur().sc.value in stacks
  {
    stacks[s.Cur().sc.value := [s.threads[s.eps[e].queue[0]].replyObject.value] + stacks[s.Cur().sc.value]]
  }

  lemma {:induction false} CallIs(s: State, stacks: CallStacks, cap: EndpointCap, messageOk: bool, archOk: bool)
    requires Inv(s, stacks) && CanCall(s, cap, messageOk, archOk)
    ensures CanSwitch(s, cap.ep) && s.Cur().sc.value in stacks
    ensures Step(s, stacks, Call(cap, messageOk, archOk))
         == (Transfer(s, cap.ep, s.Cur().fault), Pushed(s, stacks, cap.ep))
  {
    hide ScLinks, ReplyLinks, Stacked, NtfnQueued, Queued, CurrentIsHighest, IsHighestPrio, Transfer, SendStep;
    SendIs(s, stacks, cap.ep, archOk, s.Cur().fault);
  }

  lemma {:induction false} FaultIs(s: State, stacks: CallStacks, handler: EndpointCap, archOk: bool)
    requires Inv(s, stacks) && CanFault(s, handler, archOk)
    ensures CanSwitch(s, handler.ep) && s.Cur().sc.value in stacks
    ensures Step(s, stacks, VmFault(handler, archOk))
         == (Transfer(s, handler.ep, VMFault), Pushed(s, stacks, handler.ep))
  {
    hide ScLinks, ReplyLinks, Stacked, NtfnQueued, Queued, CurrentIsHighest, IsHighestPrio, Transfer, SendStep;
    SendIs(s, stacks, handler.ep, archOk, VMFault);
  }

  lemma {:induction false} SendIs(s: State, stacks: CallStacks, e: nat, archOk: bool, fault: FaultType)
    requires Inv(s, stacks) && CanSendTo(s, e, archOk)
    ensures CanSwitch(s, e) && s.Cur().sc.value in stacks
    ensures SendStep(s, stacks, e, archOk, fault)
         == (Transfer(s, e, fault), Pushed(s, stacks, e))
  {
    hide ScLinks, ReplyLinks, Stacked, Queued, NtfnQueued, CurrentIsHighest, IsHighestPrio, Transfer;
    SendersCanSwitch(s, stacks, e, archOk);
    var dest := s.eps[e].queue[0];
    TransferInv(s, stacks, e, archOk, dest, s.threads[dest].replyObject.value, s.Cur().sc.value, fault);
  }

  /** Recording the fault first changes nothing else. */
  lemma {:induction false} FaultFirst(s: State, e: nat)
    requires CanSwitch(s, e)
    ensures var t := s.(threads := s.threads[s.current := s.Cur().(fault := VMFault)]);
            CanSwitch(t, e) && Transfer(t, e, VMFault) == Transfer(s, e, VMFault)
  {
    hide Removed;
    var t := s.(threads := s.threads[s.current := s.Cur().(fault := VMFault)]);
    assert Transfer(t, e, VMFault).threads == Transfer(s, e, VMFault).threads;
  }

  lemma {:induction false} ReceiverWaits(s: State, stacks: CallStacks, e: nat)
    requires Inv(s, stacks) && e in s.eps && s.eps[e].state == Recv
    ensures s.eps[e].queue != [] && s.eps[e].queue[0] in s.threads
  {
    hide ScLinks, ReplyLinks, Stacked, NtfnQueued, CurrentIsHighest, CurrentRuns;
    assert QueueOk(s, s.eps[e]);
  }

  ghost predicate CanSwitchBack(s: State, e: nat, r: nat) {
    && s.current in s.threads && e in s.eps && r in s.replies
    && s.Cur().sc.Some? && s.Cur().sc.value in s.scs
    && s.replies[r].tcb.Some? && s.replies[r].tcb.value in s.threads && s.replies[r].tcb.value != s.current
    && (forall i :: 0 <= i < |s.eps[e].queue| ==> s.eps[e].queue[i] in s.threads)
    && s.replies[r].prev != Some(r)
  }

  lemma {:induction false} SamePlace(s: State, t: State, ep: Ep, u: nat)
    requires SamePrios(s, t) && u in s.threads && forall i :: 0 <= i < |ep.queue| ==> ep.queue[i] in s.threads
    ensures Enqueue(s, ep, u) == Enqueue(t, ep, u)
  {
    hide Inserted, Place;
    assert QueuePrios(s, ep.queue) == QueuePrios(t, ep.queue);
  }

  lemma {:induction false} ReplyTcbExists(s: State, stacks: CallStacks, r: nat)
    requires Inv(s, stacks) && r in s.replies && s.replies[r].tcb.Some?
    ensures s.replies[r].tcb.value in s.threads
  {
    hide ScLinks, Stacked, NtfnQueued, Queued, CurrentIsHighest, CurrentRuns;
  }

  lemma {:induction false} ReplyIs(s: State, stacks: CallStacks, cap: EndpointCap, replyCap: Option<nat>,
                                   messageOk: bool, archOk: bool)
    requires Inv(s, stacks) && CanReplyRecv(s, cap, replyCap, messageOk, archOk)
    ensures var r := replyCap.value;
            var sc := s.replies[r].next.sc;
            && CanSwitchBack(s, cap.ep, r) && sc in stacks && stacks[sc] != []
            && Step(s, stacks, ReplyRecv(cap, replyCap, messageOk, archOk))
               == (ReplyTo(s, cap.ep, r), stacks[sc := stacks[sc][1..]])
  {
    hide ScLinks, ReplyLinks, Stacked, NtfnQueued, Queued, CurrentIsHighest, CurrentRuns, IsHighestPrio, ReplyTo;
    var e, r := cap.ep, replyCap.value;
    var sc, caller := s.replies[r].next.sc, s.replies[r].tcb.value;
    assert ReplyObjects(s, e, r, sc, caller);
    ReplyInv(s, stacks, e, r, sc, caller);
    ReplyFacts(s, stacks, e, r, sc, caller);
    ReplyPrev(s, stacks, r, sc);
  }

  /** A fastpath that declines changes nothing. */
  lemma {:induction false} StepIs(s: State, stacks: CallStacks, e: FastpathRuns.Event)
    requires Inv(s, stacks)
    ensures s.current in s.threads
    ensures Inv(Step(s, stacks, e).0, Step(s, stacks, e).1)
    ensures !Commits(s, e) ==> Step(s, stacks, e) == (s, stacks)
  {
    hide ScLinks, ReplyLinks, Stacked, NtfnQueued, Queued, CurrentIsHighest, IsHighestPrio, Transfer, ReplyTo,
         SignalStep;
    StepInv(s, stacks, e);
  }

  lemma {:induction false} ReplyPrev(s: State, stacks: CallStacks, r: nat, x: nat)
    requires Stacked(s, stacks) && r in s.replies && s.replies[r].next == ToSc(x)
    ensures s.replies[r].prev != Some(r)
  {
    HeadOfStack(s, stacks, r, x);
    assert IsStack(s, x, stacks[x]);
    assert s.replies[stacks[x][0]].prev == Down(stacks[x], 0);
  }

  /** The thread that a signal rouses, and the context that it runs on. */
  ghost predicate CanRouse(s: State, n: nat, dest: nat, sc: nat) {
    && n in s.ntfns && dest in s.threads && sc in s.scs
    && (s.threads[dest].sc == None || (s.threads[dest].sc == Some(sc) && s.scs[sc].tcb == Some(dest)))
    && (s.ntfns[n].state == NtfnIdle ==> s.threads[dest].state.BlockedOnReceive? && s.threads[dest].state.ep in s.eps)
  }

  lemma {:induction false} CanRouseFacts(s: State, stacks: CallStacks, n: nat, dest: nat, sc: nat)
    requires Inv(s, stacks) && n in s.ntfns && dest in s.threads && WakeSc(s, n, dest) == Some(sc)
    requires s.ntfns[n].state == NtfnIdle ==> s.threads[dest].state.BlockedOnReceive?
    ensures CanRouse(s, n, dest, sc)
  {
    hide ScLinks, ReplyLinks, Stacked, NtfnQueued, Queued, CurrentIsHighest, CurrentRuns;
    WokenContext(s, stacks, n, dest);
    if s.ntfns[n].state == NtfnIdle {
      CancelFacts(s, stacks, dest);
    }
  }

  ghost function Roused(s: State, n: nat, dest: nat, sc: nat, schedulable: bool): State
    requires CanRouse(s, n, dest, sc)
  {
    Wake(if s.ntfns[n].state == NtfnIdle then CancelIpc(s, dest) else LeaveNotification(s, n, dest),
         dest, sc, schedulable)
  }

  lemma {:induction false} CurrentExists(s: State, stacks: CallStacks)
    requires Inv(s, stacks)
    ensures s.current in s.threads && NtfnQueued(s)
  {
    hide ScLinks, ReplyLinks, Stacked, NtfnQueued, Queued, CurrentIsHighest;
  }

  /** What a signal comes to, check by check. */
  lemma {:induction false} SignalIs(s: State, stacks: CallStacks, cap: NotificationCap, domainExpired: bool,
                                    refills: Refills)
    requires Inv(s, stacks)
    ensures s.current in s.threads
    ensures var (t, after) := Step(s, stacks, Signal(cap, domainExpired, refills));
            && Inv(t, stacks) && after == stacks
            && (if !MaySignal(s, cap, domainExpired) then t == s else SignalOf(s, cap.ntfn, refills, t))
  {
    hide Inv, SignalStep, Signalled, WakeSc, Activate;
    SignalInv(s, cap, domainExpired, refills, stacks);
    CurrentExists(s, stacks);
    if MaySignal(s, cap, domainExpired) {
      SignalSteps(s, stacks, cap, domainExpired, refills);
    } else {
      assert SignalStep(s, cap, domainExpired, refills, stacks) == s by {
        NoSignal(s, stacks, cap, domainExpired, refills);
      }
    }
  }

  /** A signal never wakes a thread on the running thread's scheduling context. */
  lemma {:induction false} WokenIsNotCurrent(s: State, stacks: CallStacks, cap: NotificationCap,
                                             domainExpired: bool, refills: Refills)
    requires Inv(s, stacks) && Woken(s, cap, domainExpired, refills).Some?
    ensures s.current in s.threads && s.Cur().sc != Woken(s, cap, domainExpired, refills)
  {
    hide ReplyLinks, Stacked, Queued, CurrentIsHighest;
    var n := cap.ntfn;
    var dest := Signalled(s, n).value;
    NtfnFacts(s, n);
    if s.ntfns[n].state == NtfnWaiting { FirstWaiter(s, n); }
  }

  lemma {:induction false} NoSignal(s: State, stacks: CallStacks, cap: NotificationCap, domainExpired: bool,
                                    refills: Refills)
    requires Inv(s, stacks) && !MaySignal(s, cap, domainExpired)
    ensures SignalStep(s, cap, domainExpired, refills, stacks) == s
  {
    hide Inv;
  }

  ghost predicate SignalOf(s: State, n: nat, refills: Refills, t: State)
    requires n in s.ntfns && s.current in s.threads
  {
    && (s.ntfns[n].bound.Some? ==> s.ntfns[n].bound.value in s.threads)
    && (s.ntfns[n].state == NtfnWaiting ==> s.ntfns[n].queue != [])
    && (s.ntfns[n].sc.Some? ==> s.ntfns[n].sc.value in s.scs)
    && (s.ntfns[n].state == NtfnActive ==> Signalled(s, n) == None)
    && var dest := Signalled(s, n);
       if dest == None then t == Activate(s, n)
       else
         && dest.value in s.threads
         && var sc := WakeSc(s, n, dest.value);
            if sc == None || s.threads[dest.value].prio > s.Cur().prio || (refills.active && !refills.released) then
              t == s
            else CanRouse(s, n, dest.value, sc.value) && t == Roused(s, n, dest.value, sc.value, refills.active)
  }

  lemma {:induction false} SignalSteps(s: State, stacks: CallStacks, cap: NotificationCap, domainExpired: bool,
                                       refills: Refills)
    requires Inv(s, stacks) && MaySignal(s, cap, domainExpired)
    ensures SignalOf(s, cap.ntfn, refills, SignalStep(s, cap, domainExpired, refills, stacks))
  {
    hide Inv, Signalled, WakeSc, Activate, Wake, CancelIpc, LeaveNotification, CanRouse;
    var n := cap.ntfn;
    CurrentExists(s, stacks);
    NtfnFacts(s, n);
    SignalledFacts(s, n);
    var dest := Signalled(s, n);
    if dest.Some? && WakeSc(s, n, dest.value).Some? {
      CanRouseFacts(s, stacks, n, dest.value, WakeSc(s, n, dest.value).value);
    }
  }

  lemma {:induction false} SignalledFacts(s: State, n: nat)
    requires NtfnQueued(s) && n in s.ntfns
    ensures s.ntfns[n].state == NtfnActive ==> Signalled(s, n) == None
    ensures s.ntfns[n].state == NtfnWaiting ==> Signalled(s, n).Some?
    ensures Signalled(s, n).Some? ==> Signalled(s, n).value in s.threads
    ensures Signalled(s, n).Some? && s.ntfns[n].state == NtfnIdle ==>
              s.threads[Signalled(s, n).value].state.BlockedOnReceive?
  {
    NtfnFacts(s, n);
  }

  lemma {:induction false} NtfnFacts(s: State, n: nat)
    requires NtfnQueued(s) && n in s.ntfns
    ensures s.ntfns[n].state == NtfnWaiting <==> s.ntfns[n].queue != []
    ensures s.ntfns[n].queue != [] ==> s.ntfns[n].queue[0] in s.threads
    ensures s.ntfns[n].bound.Some? ==> s.ntfns[n].bound.value in s.threads
    ensures s.ntfns[n].sc.Some? ==> s.ntfns[n].sc.value in s.scs
  {
    if s.ntfns[n].queue != [] {
      assert s.ntfns[n].queue[0] in s.ntfns[n].queue;
    }
  }
}
