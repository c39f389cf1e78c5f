/** Every fastpath step keeps the kernel invariants. */
module FastpathProofs {
  import opened Options
  import opened EndpointQueues
  import opened Fastpath

  // ---------------------------------------------------------------------------
  // Queues

  ghost predicate SamePrios(s: State, t: State) {
    s.threads.Keys == t.threads.Keys && forall i :: i in s.threads ==> s.threads[i].prio == t.threads[i].prio
  }

  lemma {:induction false} QueueOkSame(s: State, t: State, ep: Ep)
    requires SamePrios(s, t) && QueueOk(s, ep)
    ensures QueueOk(t, ep)
  {
    assert QueuePrios(s, ep.queue) == QueuePrios(t, ep.queue);
  }

  lemma {:induction false} DropFirst(s: State, ep: Ep)
    requires QueueOk(s, ep) && ep.queue != []
    ensures var rest := Removed(ep.queue, 0);
            QueueOk(s, if rest == [] then Ep(Idle, []) else ep.(queue := rest))
    ensures forall t :: t in Removed(ep.queue, 0) <==> t in ep.queue && t != ep.queue[0]
  {
    hide Removed;
    var q, rest := ep.queue, Removed(ep.queue, 0);
    assert QueuePrios(s, rest) == Removed(QueuePrios(s, q), 0);
    forall t | t in q && t != q[0] ensures t in rest {
      var i :| 0 <= i < |q| && q[i] == t;
      assert rest[i - 1] == t;
    }
    if rest == [] { assert QueuePrios(s, []) == []; }
  }

  lemma {:induction false} EnqueueOk(s: State, ep: Ep, t: nat)
    requires QueueOk(s, ep) && t in s.threads && t !in ep.queue
    ensures QueueOk(s, Enqueue(s, ep, t))
    ensures forall u :: u in Enqueue(s, ep, t).queue <==> u in ep.queue || u == t
  {
    hide Inserted, Place;
    var q := ep.queue;
    var k := Place(QueuePrios(s, q), s.threads[t].prio);
    var r := Inserted(q, k, t);
    InsertDecreasing(QueuePrios(s, q), s.threads[t].prio);
    assert QueuePrios(s, r) == Inserted(QueuePrios(s, q), k, s.threads[t].prio);
    forall u | u in q ensures u in r {
      var i :| 0 <= i < |q| && q[i] == u;
      assert i < k ==> r[i] == u;
      assert i >= k ==> r[i + 1] == u;
    }
  }

  lemma {:induction false} WithoutIsRemoved(q: seq<nat>, t: nat) returns (k: nat)
    requires t in q
    ensures k < |q| && q[k] == t && Without(q, t) == Removed(q, k)
  {
    if q[0] == t {
      k := 0;
    } else {
      var j := WithoutIsRemoved(q[1..], t);
      k := j + 1;
    }
  }

  lemma {:induction false} WithoutMembers(q: seq<nat>, t: nat)
    requires NoDuplicates(q) && t in q
    ensures NoDuplicates(Without(q, t))
    ensures forall u :: u in Without(q, t) <==> u in q && u != t
  {
    hide Without, Removed;
    var k := WithoutIsRemoved(q, t);
    var r := Removed(q, k);
    forall u | u in q && u != t ensures u in r {
      var i :| 0 <= i < |q| && q[i] == u;
      assert i < k ==> r[i] == u;
      assert i > k ==> r[i - 1] == u;
    }
  }

  lemma {:induction false} WithoutOk(s: State, ep: Ep, t: nat)
    requires QueueOk(s, ep) && t in ep.queue
    ensures var rest := Without(ep.queue, t);
            QueueOk(s, Ep(if rest == [] then Idle else ep.state, rest))
  {
    hide Without, Removed;
    WithoutMembers(ep.queue, t);
    var k := WithoutIsRemoved(ep.queue, t);
    assert QueuePrios(s, Removed(ep.queue, k)) == Removed(QueuePrios(s, ep.queue), k);
  }

  ghost predicate Waits(state: ThreadState, e: nat) { state == BlockedOnReceive(e) || state == BlockedOnSend(e) }

  /** The queue of an endpoint holds exactly the threads that wait there. */
  ghost predicate Holds(s: State, e: nat, ep: Ep) {
    && (forall v :: v in ep.queue ==> v in s.threads && Waits(s.threads[v].state, e))
    && (forall v :: v in s.threads && Waits(s.threads[v].state, e) ==>
          v in ep.queue && ep.state == if s.threads[v].state.BlockedOnReceive? then Recv else Send)
  }

  lemma {:induction false} QueuedHolds(s: State, e: nat)
    requires Queued(s) && e in s.eps
    ensures QueueOk(s, s.eps[e]) && Holds(s, e, s.eps[e])
  {
    hide QueueOk;
    QueueOkFacts(s, s.eps[e]);
  }

  lemma {:induction false} HoldsQueued(s: State)
    requires forall e :: e in s.eps ==> QueueOk(s, s.eps[e]) && Holds(s, e, s.eps[e])
    requires forall v :: v in s.threads && OnEndpoint(s.threads[v].state) ==> s.threads[v].state.ep in s.eps
    ensures Queued(s)
  {
    hide QueueOk;
    forall v | v in s.threads && OnEndpoint(s.threads[v].state)
      ensures var e := s.threads[v].state.ep;
              v in s.eps[e].queue && s.eps[e].state == if s.threads[v].state.BlockedOnReceive? then Recv else Send
    {
      assert Holds(s, s.threads[v].state.ep, s.eps[s.threads[v].state.ep]);
    }
    forall e, v | e in s.eps && v in s.eps[e].queue
      ensures v in s.threads
      ensures s.threads[v].state == if s.eps[e].state == Recv then BlockedOnReceive(e) else BlockedOnSend(e)
    {
      assert Holds(s, e, s.eps[e]);
    }
  }

  /** A step that changes one queue, and no thread that waits elsewhere. */
  lemma {:induction false} OneQueueChanges(s: State, t: State, e: nat)
    requires Queued(s) && e in s.eps && e in t.eps && t.eps == s.eps[e := t.eps[e]] && SamePrios(s, t)
    requires QueueOk(s, t.eps[e]) && Holds(t, e, t.eps[e])
    requires forall v, f ::
               v in s.threads && f != e && (Waits(s.threads[v].state, f) || Waits(t.threads[v].state, f)) ==>
               t.threads[v].state == s.threads[v].state
    ensures Queued(t)
  {
    hide QueueOk, Queued;
    forall f | f in t.eps ensures QueueOk(t, t.eps[f]) && Holds(t, f, t.eps[f]) {
      QueuedHolds(s, f);
      QueueOkSame(s, t, t.eps[f]);
    }
    forall v | v in t.threads && OnEndpoint(t.threads[v].state) ensures t.threads[v].state.ep in t.eps {
      var f := t.threads[v].state.ep;
      assert Waits(t.threads[v].state, f);
      if f != e { WaitsSomewhere(s, v); }
    }
    HoldsQueued(t);
  }

  lemma {:induction false} WaitsSomewhere(s: State, v: nat)
    requires Queued(s) && v in s.threads && OnEndpoint(s.threads[v].state)
    ensures s.threads[v].state.ep in s.eps
  {
  }

  // ---------------------------------------------------------------------------
  // Call stacks

  /** A stack that a step does not touch stays a stack. */
  lemma {:induction false} StackUntouched(s: State, t: State, x: nat, q: seq<nat>)
    requires IsStack(s, x, q) && x in t.scs && t.scs[x].reply == s.scs[x].reply
    requires forall i :: 0 <= i < |q| ==> q[i] in t.replies && t.replies[q[i]] == s.replies[q[i]]
    requires forall u :: u in s.threads && s.threads[u].state == BlockedOnReply ==>
               u in t.threads && (t.threads[u].state == BlockedOnReply
                                  || forall i :: 0 <= i < |q| ==> s.replies[q[i]].tcb != Some(u))
    ensures IsStack(t, x, q)
  {
    forall i | 0 <= i < |q| ensures WaitsForReply(t, t.replies[q[i]].tcb) {
      assert WaitsForReply(s, s.replies[q[i]].tcb);
    }
    assert forall i {:trigger t.replies[q[i]].next} :: 0 <= i < |q| ==> t.replies[q[i]].next == s.replies[q[i]].next;
    assert forall i {:trigger t.replies[q[i]].prev} :: 0 <= i < |q| ==> t.replies[q[i]].prev == s.replies[q[i]].prev;
  }

  lemma {:induction false} MemberWaits(s: State, x: nat, q: seq<nat>, r: nat)
    requires IsStack(s, x, q) && r in q
    ensures r in s.replies && WaitsForReply(s, s.replies[r].tcb)
  {
    var i :| 0 <= i < |q| && q[i] == r;
    assert WaitsForReply(s, s.replies[q[i]].tcb);
  }

  /** A reply whose thread is not blocked on reply is in no stack. */
  lemma {:induction false} FreeReply(s: State, stacks: CallStacks, r: nat, x: nat)
    requires Stacked(s, stacks) && r in s.replies && !WaitsForReply(s, s.replies[r].tcb)
    ensures s.replies[r].next == NoLink && s.replies[r].prev == None
    ensures x in stacks ==> r !in stacks[x]
  {
    forall y | y in stacks ensures r !in stacks[y] {
      if r in stacks[y] {
        MemberWaits(s, y, stacks[y], r);
        assert false;
      }
    }
  }

  /** Pushing: the new head in front of the old stack. */
  lemma {:induction false} PushStack(s: State, t: State, x: nat, q: seq<nat>, r: nat)
    requires IsStack(s, x, q) && r !in q && r in t.replies
    requires x in t.scs && t.scs[x].reply == Some(r)
    requires t.replies[r].prev == Top(q) && t.replies[r].next == ToSc(x) && WaitsForReply(t, t.replies[r].tcb)
    requires forall i :: 0 < i < |q| ==> q[i] in t.replies && t.replies[q[i]] == s.replies[q[i]]
    requires q != [] ==> q[0] in t.replies && t.replies[q[0]] == s.replies[q[0]].(next := ToReply(r))
    requires forall u :: u in s.threads && s.threads[u].state == BlockedOnReply ==>
               u in t.threads && t.threads[u].state == BlockedOnReply
    ensures IsStack(t, x, [r] + q)
  {
    var p := [r] + q;
    assert forall i, j :: 0 <= i < j < |p| ==> p[i] != p[j] by { assert forall i :: 0 < i < |p| ==> p[i] == q[i - 1]; }
    forall i | 0 <= i < |p|
      ensures p[i] in t.replies
      ensures t.replies[p[i]].next == Up(x, p, i)
      ensures t.replies[p[i]].prev == Down(p, i)
      ensures WaitsForReply(t, t.replies[p[i]].tcb)
    {
      hide IsStack;
      if i > 0 {
        assert p[i] == q[i - 1];
        StackedAt(s, x, q, i - 1);
      }
    }
  }

  lemma {:induction false} StackedAt(s: State, x: nat, q: seq<nat>, i: nat)
    requires IsStack(s, x, q) && i < |q|
    ensures q[i] in s.replies && s.replies[q[i]].next == Up(x, q, i) && s.replies[q[i]].prev == Down(q, i)
    ensures WaitsForReply(s, s.replies[q[i]].tcb)
  {
  }

  /** Popping: the second reply becomes the head. */
  lemma {:induction false} PopStack(s: State, t: State, x: nat, q: seq<nat>)
    requires IsStack(s, x, q) && q != []
    requires x in t.scs && t.scs[x].reply == Top(q[1..])
    requires forall i :: 1 < i < |q| ==> q[i] in t.replies && t.replies[q[i]] == s.replies[q[i]]
    requires |q| > 1 ==> q[1] in t.replies && t.replies[q[1]] == s.replies[q[1]].(next := ToSc(x))
    requires forall u :: u in s.threads && s.threads[u].state == BlockedOnReply && s.replies[q[0]].tcb != Some(u) ==>
               u in t.threads && t.threads[u].state == BlockedOnReply
    requires forall i :: 0 < i < |q| ==> s.replies[q[i]].tcb != s.replies[q[0]].tcb
    ensures IsStack(t, x, q[1..])
  {
    var p := q[1..];
    assert forall i :: 0 <= i < |p| ==> p[i] == q[i + 1];
    forall i | 0 <= i < |p|
      ensures p[i] in t.replies
      ensures t.replies[p[i]].next == Up(x, p, i)
      ensures t.replies[p[i]].prev == Down(p, i)
      ensures WaitsForReply(t, t.replies[p[i]].tcb)
    {
      assert p[i] == q[i + 1];
      assert s.replies[q[i + 1]].next == Up(x, q, i + 1);
      assert s.replies[q[i + 1]].prev == Down(q, i + 1);
      assert WaitsForReply(s, s.replies[q[i + 1]].tcb);
    }
  }

  // ---------------------------------------------------------------------------
  // Calls and faults

  /** The objects of a send: receiver, its reply, the sender's context. */
  ghost predicate SendObjects(s: State, e: nat, archOk: bool, dest: nat, r: nat, x: nat) {
    && CanSendTo(s, e, archOk)
    && dest == s.eps[e].queue[0]
    && Some(r) == s.threads[dest].replyObject
    && Some(x) == s.Cur().sc
  }

  lemma {:induction false} SendFacts(s: State, stacks: CallStacks, e: nat, archOk: bool, dest: nat, r: nat, x: nat)
    requires Inv(s, stacks) && SendObjects(s, e, archOk, dest, r, x)
    ensures dest in s.threads && s.threads[dest].state == BlockedOnReceive(e) && dest != s.current
    ensures r in s.replies && s.replies[r].tcb == Some(dest)
    ensures x in s.scs && x in stacks && s.scs[x].tcb == Some(s.current)
    ensures forall y :: y in stacks ==> r !in stacks[y]
    ensures s.scs[x].reply == Top(stacks[x])
    ensures s.scs[x].reply.Some? ==> s.scs[x].reply.value in s.replies && s.scs[x].reply.value in stacks[x]
  {
    hide IsStack, NtfnQueued, QueueOk, CurrentIsHighest, IsHighestPrio;
    assert dest in s.eps[e].queue;
    StackFacts(s, x, stacks[x]);
    forall y | y in stacks ensures r !in stacks[y] {
      FreeReply(s, stacks, r, y);
    }
  }

  lemma {:induction false} TransferScLinks(s: State, stacks: CallStacks, e: nat, archOk: bool, dest: nat, r: nat,
                                           x: nat, fault: FaultType)
    requires Inv(s, stacks) && SendObjects(s, e, archOk, dest, r, x)
    requires r in s.replies && x in s.scs
    ensures ScLinks(Transfer(s, e, fault))
  {
    hide Stacked, Queued, NtfnQueued, IsHighestPrio, ReplyLinks, Removed;
    SendFacts(s, stacks, e, archOk, dest, r, x);
  }

  lemma {:induction false} TransferReplyLinks(s: State, stacks: CallStacks, e: nat, archOk: bool, dest: nat,
                                              r: nat, x: nat,
                                              fault: FaultType)
    requires Inv(s, stacks) && SendObjects(s, e, archOk, dest, r, x)
    requires r in s.replies && x in s.scs
    ensures ReplyLinks(Transfer(s, e, fault))
  {
    hide Stacked, Queued, NtfnQueued, IsHighestPrio, ScLinks, Removed;
    SendFacts(s, stacks, e, archOk, dest, r, x);
  }

  lemma {:induction false} TransferStackShapes(s: State, stacks: CallStacks, e: nat, archOk: bool, dest: nat,
                                               r: nat, x: nat,
                                               fault: FaultType, y: nat)
    requires Inv(s, stacks) && SendObjects(s, e, archOk, dest, r, x)
    requires r in s.replies && x in s.scs && x in stacks && y in stacks
    ensures IsStack(Transfer(s, e, fault), y, if y == x then [r] + stacks[x] else stacks[y])
  {
    hide IsStack, Queued, NtfnQueued, Removed, ScLinks, ReplyLinks, IsHighestPrio;
    SendFacts(s, stacks, e, archOk, dest, r, x);
    var t := Transfer(s, e, fault);
    assert forall u :: u in s.threads && s.threads[u].state == BlockedOnReply ==>
      u in t.threads && t.threads[u].state == BlockedOnReply;
    StackFacts(s, y, stacks[y]);
    if y == x {
      PushStack(s, t, x, stacks[x], r);
    } else {
      assert forall i :: 0 <= i < |stacks[y]| ==> stacks[y][i] in stacks[y];
      StackUntouched(s, t, y, stacks[y]);
    }
  }

  lemma {:induction false} TransferStacks(s: State, stacks: CallStacks, e: nat, archOk: bool, dest: nat, r: nat,
                                          x: nat, fault: FaultType)
    requires Inv(s, stacks) && SendObjects(s, e, archOk, dest, r, x)
    requires r in s.replies && x in s.scs && x in stacks
    ensures Stacked(Transfer(s, e, fault), stacks[x := [r] + stacks[x]])
  {
    hide IsStack, Queued, NtfnQueued, Removed, ScLinks, ReplyLinks, IsHighestPrio;
    SendFacts(s, stacks, e, archOk, dest, r, x);
    var t, after := Transfer(s, e, fault), stacks[x := [r] + stacks[x]];
    forall y | y in after ensures IsStack(t, y, after[y]) {
      TransferStackShapes(s, stacks, e, archOk, dest, r, x, fault, y);
    }
    forall u | u in t.replies && t.replies[u].next != NoLink ensures exists y :: y in after && u in after[y] {
      if u == r {
        assert r in after[x];
      } else {
        var y :| y in stacks && u in stacks[y];
        assert u in after[y];
      }
    }
  }

  lemma {:induction false} StackFacts(s: State, x: nat, q: seq<nat>)
    requires IsStack(s, x, q)
    ensures forall i :: 0 <= i < |q| ==> q[i] in s.replies
    ensures forall i, j :: 0 <= i < j < |q| ==> q[i] != q[j]
    ensures x in s.scs && s.scs[x].reply == Top(q)
  {
  }

  lemma {:induction false} TransferQueues(s: State, stacks: CallStacks, e: nat, archOk: bool, dest: nat, r: nat,
                                          x: nat, fault: FaultType)
    requires Inv(s, stacks) && SendObjects(s, e, archOk, dest, r, x)
    requires r in s.replies && x in s.scs
    ensures Queued(Transfer(s, e, fault)) && NtfnQueued(Transfer(s, e, fault))
  {
    hide Removed, Stacked, QueueOk, Queued, NtfnQueued, ScLinks, ReplyLinks, IsHighestPrio;
    SendFacts(s, stacks, e, archOk, dest, r, x);
    var t := Transfer(s, e, fault);
    QueuedHolds(s, e);
    DropFirst(s, s.eps[e]);
    OneQueueChanges(s, t, e);
    NtfnsUntouched(s, t);
  }

  lemma {:induction false} TransferCurrent(s: State, stacks: CallStacks, e: nat, archOk: bool, dest: nat, r: nat,
                                           x: nat, fault: FaultType)
    requires Inv(s, stacks) && SendObjects(s, e, archOk, dest, r, x)
    requires r in s.replies && x in s.scs
    ensures CurrentRuns(Transfer(s, e, fault)) && CurrentIsHighest(Transfer(s, e, fault))
  {
    hide Removed, Stacked, Queued, NtfnQueued, ScLinks, ReplyLinks;
    SendFacts(s, stacks, e, archOk, dest, r, x);
  }

  lemma {:induction false} TransferInv(s: State, stacks: CallStacks, e: nat, archOk: bool, dest: nat, r: nat,
                                       x: nat, fault: FaultType)
    requires Inv(s, stacks) && SendObjects(s, e, archOk, dest, r, x)
    ensures r in s.replies && x in s.scs && x in stacks
    ensures Inv(Transfer(s, e, fault), stacks[x := [r] + stacks[x]])
  {
    hide ScLinks, ReplyLinks, Stacked, Queued, NtfnQueued, CurrentRuns, CurrentIsHighest;
    SendFacts(s, stacks, e, archOk, dest, r, x);
    TransferScLinks(s, stacks, e, archOk, dest, r, x, fault);
    TransferReplyLinks(s, stacks, e, archOk, dest, r, x, fault);
    TransferStacks(s, stacks, e, archOk, dest, r, x, fault);
    TransferQueues(s, stacks, e, archOk, dest, r, x, fault);
    TransferCurrent(s, stacks, e, archOk, dest, r, x, fault);
  }

  // ---------------------------------------------------------------------------
  // Replies

  ghost predicate ReplyObjects(s: State, e: nat, r: nat, x: nat, caller: nat) {
    && s.current in s.threads && e in s.eps && s.eps[e].state != Send
    && r in s.replies && s.replies[r].tcb == Some(caller)
    && s.replies[r].next == ToSc(x) && s.Cur().sc == Some(x)
    && caller in s.threads && s.threads[caller].sc == None
    && IsHighestPrio(s, s.threads[caller].prio)
    && !(s.threads[caller].domain != s.domain && 0 < s.maxDomain)
  }

  /** A reply that points at a scheduling context is the head of its stack. */
  lemma {:induction false} HeadOfStack(s: State, stacks: CallStacks, r: nat, x: nat)
    requires Stacked(s, stacks) && r in s.replies && s.replies[r].next == ToSc(x)
    ensures x in stacks && stacks[x] != [] && stacks[x][0] == r
  {
    var y :| y in stacks && r in stacks[y];
    var q := stacks[y];
    assert IsStack(s, y, q);
    var i :| 0 <= i < |q| && q[i] == r;
    assert s.replies[q[i]].next == Up(y, q, i);
  }

  lemma {:induction false} ReplyFacts(s: State, stacks: CallStacks, e: nat, r: nat, x: nat, caller: nat)
    requires Inv(s, stacks) && ReplyObjects(s, e, r, x, caller)
    ensures x in stacks && x in s.scs && stacks[x] != [] && stacks[x][0] == r
    ensures s.scs[x].tcb == Some(s.current)
    ensures s.threads[caller].state == BlockedOnReply && caller != s.current
    ensures s.replies[r].prev == Top(stacks[x][1..])
    ensures s.replies[r].prev.Some? ==> s.replies[r].prev.value in s.replies
    ensures forall f :: f in s.eps ==> QueueOk(s, s.eps[f]) && s.current !in s.eps[f].queue && caller !in s.eps[f].queue
  {
    hide NtfnQueued, QueueOk, CurrentIsHighest, IsHighestPrio, IsStack;
    HeadOfStack(s, stacks, r, x);
    HeadLinks(s, x, stacks[x]);
    MemberWaits(s, x, stacks[x], r);
    NotQueued(s, s.current);
    NotQueued(s, caller);
  }

  lemma {:induction false} NotQueued(s: State, t: nat)
    requires Queued(s) && t in s.threads && !s.threads[t].state.BlockedOnReceive? && !s.threads[t].state.BlockedOnSend?
    ensures forall f :: f in s.eps ==> t !in s.eps[f].queue
  {
    forall f | f in s.eps ensures t !in s.eps[f].queue {
      QueueOkFacts(s, s.eps[f]);
    }
  }

  lemma {:induction false} HeadLinks(s: State, x: nat, q: seq<nat>)
    requires IsStack(s, x, q) && q != []
    ensures q[0] in s.replies && s.replies[q[0]].prev == Top(q[1..])
    ensures |q| > 1 ==> q[1] in s.replies
  {
    assert s.replies[q[0]].prev == Down(q, 0);
  }

  lemma {:induction false} ReplyScLinks(s: State, stacks: CallStacks, e: nat, r: nat, x: nat, caller: nat)
    requires Inv(s, stacks) && ReplyObjects(s, e, r, x, caller) && x in s.scs
    requires forall i :: 0 <= i < |s.eps[e].queue| ==> s.eps[e].queue[i] in s.threads
    ensures ScLinks(ReplyTo(s, e, r))
  {
    hide Stacked, Queued, NtfnQueued, IsHighestPrio, ReplyLinks, Enqueue;
    ReplyFacts(s, stacks, e, r, x, caller);
  }

  lemma {:induction false} ReplyReplyLinks(s: State, stacks: CallStacks, e: nat, r: nat, x: nat, caller: nat)
    requires Inv(s, stacks) && ReplyObjects(s, e, r, x, caller) && x in s.scs
    requires forall i :: 0 <= i < |s.eps[e].queue| ==> s.eps[e].queue[i] in s.threads
    ensures ReplyLinks(ReplyTo(s, e, r))
  {
    hide Stacked, Queued, NtfnQueued, IsHighestPrio, ScLinks, Enqueue;
    ReplyFacts(s, stacks, e, r, x, caller);
  }

  /** Other call stacks share no reply and no caller with the one replied to. */
  lemma {:induction false} ReplyOtherStack(s: State, stacks: CallStacks, e: nat, r: nat, x: nat, caller: nat, y: nat)
    requires Inv(s, stacks) && ReplyObjects(s, e, r, x, caller) && x in s.scs && x in stacks && stacks[x] != []
    requires forall i :: 0 <= i < |s.eps[e].queue| ==> s.eps[e].queue[i] in s.threads
    requires y in stacks && y != x
    ensures IsStack(ReplyTo(s, e, r), y, stacks[y])
  {
    hide IsStack, Queued, NtfnQueued, Enqueue, ScLinks, IsHighestPrio;
    ReplyFacts(s, stacks, e, r, x, caller);
    StackFacts(s, y, stacks[y]);
    assert forall i :: 0 <= i < |stacks[y]| ==> stacks[y][i] in stacks[y];
    assert |stacks[x]| > 1 ==> stacks[x][1] in stacks[x];
    StackUntouched(s, ReplyTo(s, e, r), y, stacks[y]);
  }

  lemma {:induction false} ReplyPopsStack(s: State, stacks: CallStacks, e: nat, r: nat, x: nat, caller: nat)
    requires Inv(s, stacks) && ReplyObjects(s, e, r, x, caller) && x in s.scs && x in stacks && stacks[x] != []
    requires forall i :: 0 <= i < |s.eps[e].queue| ==> s.eps[e].queue[i] in s.threads
    ensures IsStack(ReplyTo(s, e, r), x, stacks[x][1..])
  {
    hide IsStack, Queued, NtfnQueued, Enqueue, ScLinks, IsHighestPrio;
    ReplyFacts(s, stacks, e, r, x, caller);
    StackFacts(s, x, stacks[x]);
    PopStack(s, ReplyTo(s, e, r), x, stacks[x]);
  }

  lemma {:induction false} ReplyStacks(s: State, stacks: CallStacks, e: nat, r: nat, x: nat, caller: nat)
    requires Inv(s, stacks) && ReplyObjects(s, e, r, x, caller) && x in s.scs && x in stacks && stacks[x] != []
    requires forall i :: 0 <= i < |s.eps[e].queue| ==> s.eps[e].queue[i] in s.threads
    ensures Stacked(ReplyTo(s, e, r), stacks[x := stacks[x][1..]])
  {
    hide IsStack, Queued, NtfnQueued, Enqueue, ScLinks, ReplyLinks, IsHighestPrio;
    ReplyFacts(s, stacks, e, r, x, caller);
    var t, q := ReplyTo(s, e, r), stacks[x];
    var after := stacks[x := q[1..]];
    assert forall u :: u in q ==> u == r || u in q[1..];
    forall y | y in after ensures IsStack(t, y, after[y]) {
      if y == x {
        ReplyPopsStack(s, stacks, e, r, x, caller);
      } else {
        ReplyOtherStack(s, stacks, e, r, x, caller, y);
      }
    }
    forall u | u in t.replies && t.replies[u].next != NoLink ensures exists y :: y in after && u in after[y] {
      assert u != r;
      var y :| y in stacks && u in stacks[y];
      assert u in after[y];
    }
  }

  lemma {:induction false} ReplyQueues(s: State, stacks: CallStacks, e: nat, r: nat, x: nat, caller: nat)
    requires Inv(s, stacks) && ReplyObjects(s, e, r, x, caller) && x in s.scs
    requires forall i :: 0 <= i < |s.eps[e].queue| ==> s.eps[e].queue[i] in s.threads
    ensures Queued(ReplyTo(s, e, r)) && NtfnQueued(ReplyTo(s, e, r))
  {
    hide Stacked, QueueOk, Queued, NtfnQueued, ScLinks, ReplyLinks, IsHighestPrio, Inserted, Place;
    ReplyFacts(s, stacks, e, r, x, caller);
    var t := ReplyTo(s, e, r);
    QueuedHolds(s, e);
    EnqueueOk(s, s.eps[e], s.current);
    QueueOkFacts(s, s.eps[e]);
    OneQueueChanges(s, t, e);
    NtfnsUntouched(s, t);
  }

  lemma {:induction false} QueueOkFacts(s: State, ep: Ep)
    requires QueueOk(s, ep)
    ensures ep.state == Idle <==> ep.queue == []
    ensures forall i :: 0 <= i < |ep.queue| ==> ep.queue[i] in s.threads
  {
  }

  lemma {:induction false} ReplyCurrent(s: State, stacks: CallStacks, e: nat, r: nat, x: nat, caller: nat)
    requires Inv(s, stacks) && ReplyObjects(s, e, r, x, caller) && x in s.scs
    requires forall i :: 0 <= i < |s.eps[e].queue| ==> s.eps[e].queue[i] in s.threads
    ensures CurrentRuns(ReplyTo(s, e, r)) && CurrentIsHighest(ReplyTo(s, e, r))
  {
    hide Stacked, Queued, NtfnQueued, ScLinks, ReplyLinks, Enqueue;
    ReplyFacts(s, stacks, e, r, x, caller);
  }

  lemma {:induction false} ReplyInv(s: State, stacks: CallStacks, e: nat, r: nat, x: nat, caller: nat)
    requires Inv(s, stacks) && ReplyObjects(s, e, r, x, caller)
    ensures x in s.scs && x in stacks && stacks[x] != []
    ensures forall i :: 0 <= i < |s.eps[e].queue| ==> s.eps[e].queue[i] in s.threads
    ensures Inv(ReplyTo(s, e, r), stacks[x := stacks[x][1..]])
  {
    hide ScLinks, ReplyLinks, Stacked, Queued, NtfnQueued, CurrentRuns, CurrentIsHighest;
    ReplyFacts(s, stacks, e, r, x, caller);
    QueueOkFacts(s, s.eps[e]);
    ReplyScLinks(s, stacks, e, r, x, caller);
    ReplyReplyLinks(s, stacks, e, r, x, caller);
    ReplyStacks(s, stacks, e, r, x, caller);
    ReplyQueues(s, stacks, e, r, x, caller);
    ReplyCurrent(s, stacks, e, r, x, caller);
  }

  // ---------------------------------------------------------------------------
  // Signals

  /** Steps that leave the replies alone leave the call stacks alone. */
  lemma {:induction false} StacksUntouched(s: State, t: State, stacks: CallStacks)
    requires Stacked(s, stacks) && t.replies == s.replies && t.scs.Keys == s.scs.Keys
    requires forall x :: x in s.scs ==> t.scs[x].reply == s.scs[x].reply
    requires forall u :: u in s.threads && s.threads[u].state == BlockedOnReply ==>
               u in t.threads && t.threads[u].state == BlockedOnReply
    ensures Stacked(t, stacks)
  {
    hide IsStack;
    forall x | x in stacks ensures IsStack(t, x, stacks[x]) {
      StackFacts(s, x, stacks[x]);
      StackUntouched(s, t, x, stacks[x]);
    }
  }

  ghost predicate OnEndpoint(state: ThreadState) { state.BlockedOnReceive? || state.BlockedOnSend? }

  /** Steps that neither block a thread on an endpoint nor wake one from it leave
      the endpoint queues alone. */
  lemma {:induction false} QueuesUntouched(s: State, t: State)
    requires Queued(s) && t.eps == s.eps && SamePrios(s, t)
    requires forall u :: u in s.threads && (OnEndpoint(s.threads[u].state) || OnEndpoint(t.threads[u].state)) ==>
               t.threads[u].state == s.threads[u].state
    ensures Queued(t)
  {
    hide QueueOk;
    forall e | e in t.eps ensures QueueOk(t, t.eps[e]) {
      QueueOkSame(s, t, t.eps[e]);
      QueueOkFacts(s, s.eps[e]);
    }
    forall e, u | e in t.eps && u in t.eps[e].queue ensures u in s.threads {
      QueueOkFacts(s, s.eps[e]);
    }
  }

  lemma {:induction false} ScLinksUntouched(s: State, t: State)
    requires ScLinks(s) && t.scs == s.scs && t.threads.Keys == s.threads.Keys
    requires forall u :: u in s.threads ==> t.threads[u].sc == s.threads[u].sc
    ensures ScLinks(t)
  {
  }

  lemma {:induction false} ReplyLinksUntouched(s: State, t: State)
    requires ReplyLinks(s) && t.replies == s.replies && t.threads.Keys == s.threads.Keys
    requires forall u :: u in s.threads ==> t.threads[u].replyObject == s.threads[u].replyObject
    requires forall u :: u in s.threads ==> t.threads[u].HoldsReply() == s.threads[u].HoldsReply()
    ensures ReplyLinks(t)
  {
  }

  lemma {:induction false} CurrentUntouched(s: State, t: State)
    requires CurrentRuns(s) && CurrentIsHighest(s)
    requires t.current == s.current && t.domain == s.domain && t.maxDomain == s.maxDomain && t.ready == s.ready
    requires SamePrios(s, t) && t.threads[t.current].sc == s.Cur().sc
    requires forall u :: u in s.threads ==> t.threads[u].domain == s.threads[u].domain
    requires forall u :: u in s.threads && s.threads[u].Runnable() ==> t.threads[u].state == s.threads[u].state
    ensures CurrentRuns(t) && CurrentIsHighest(t)
  {
  }

  lemma {:induction false} NtfnsUntouched(s: State, t: State)
    requires NtfnQueued(s) && t.ntfns == s.ntfns && t.threads.Keys == s.threads.Keys && t.scs.Keys == s.scs.Keys
    requires forall u ::
               && u in s.threads
               && (s.threads[u].state.BlockedOnNotification? || t.threads[u].state.BlockedOnNotification?) ==>
               t.threads[u].state == s.threads[u].state
    ensures NtfnQueued(t)
  {
  }

  lemma {:induction false} ActivateInv(s: State, stacks: CallStacks, n: nat)
    requires Inv(s, stacks) && n in s.ntfns && s.ntfns[n].state != NtfnWaiting
    ensures Inv(Activate(s, n), stacks)
  {
    hide Stacked, Queued, ScLinks, ReplyLinks, CurrentRuns, CurrentIsHighest, NtfnQueued;
    var t := Activate(s, n);
    ActivateNtfnQueued(s, n);
    StacksUntouched(s, t, stacks);
    QueuesUntouched(s, t);
    ScLinksUntouched(s, t);
    ReplyLinksUntouched(s, t);
    CurrentHere(s);
    CurrentUntouched(s, t);
  }

  lemma {:induction false} ActivateNtfnQueued(s: State, n: nat)
    requires NtfnQueued(s) && n in s.ntfns && s.ntfns[n].state != NtfnWaiting
    ensures NtfnQueued(Activate(s, n))
  {
    hide NoDuplicates;
  }

  lemma {:induction false} CurrentHere(s: State)
    requires CurrentRuns(s)
    ensures s.current in s.threads && s.Cur().state == Running
  {
  }

  lemma {:induction false} CancelFacts(s: State, stacks: CallStacks, dest: nat)
    requires Inv(s, stacks) && dest in s.threads && s.threads[dest].state.BlockedOnReceive?
    ensures s.threads[dest].state.ep in s.eps
    ensures s.eps[s.threads[dest].state.ep].state == Recv
    ensures dest in s.eps[s.threads[dest].state.ep].queue && QueueOk(s, s.eps[s.threads[dest].state.ep])
    ensures dest != s.current
    ensures s.threads[dest].replyObject.Some? ==>
              var r := s.threads[dest].replyObject.value;
              r in s.replies && s.replies[r].tcb == Some(dest)
              && s.replies[r].next == NoLink && s.replies[r].prev == None
              && forall y :: y in stacks ==> r !in stacks[y]
  {
    hide IsStack, QueueOk;
    if s.threads[dest].replyObject.Some? {
      var r := s.threads[dest].replyObject.value;
      FreeReply(s, stacks, r, 0);
      forall y | y in stacks ensures r !in stacks[y] {
        FreeReply(s, stacks, r, y);
      }
    }
  }

  lemma {:induction false} CancelQueues(s: State, stacks: CallStacks, dest: nat)
    requires Inv(s, stacks) && dest in s.threads && s.threads[dest].state.BlockedOnReceive?
    requires s.threads[dest].state.ep in s.eps
    ensures Queued(CancelIpc(s, dest)) && NtfnQueued(CancelIpc(s, dest))
  {
    hide Stacked, QueueOk, Queued, NtfnQueued, ScLinks, ReplyLinks, IsHighestPrio, Without, NoDuplicates;
    CancelFacts(s, stacks, dest);
    var t, e := CancelIpc(s, dest), s.threads[dest].state.ep;
    QueuedHolds(s, e);
    WithoutOk(s, s.eps[e], dest);
    QueueNoDuplicates(s, s.eps[e]);
    WithoutMembers(s.eps[e].queue, dest);
    OneQueueChanges(s, t, e);
    NtfnsUntouched(s, t);
  }

  lemma {:induction false} QueueNoDuplicates(s: State, ep: Ep)
    requires QueueOk(s, ep)
    ensures NoDuplicates(ep.queue)
  {
  }

  lemma {:induction false} CancelReplyLinks(s: State, dest: nat)
    requires ReplyLinks(s) && dest in s.threads && s.threads[dest].state.BlockedOnReceive?
    requires s.threads[dest].state.ep in s.eps
    ensures ReplyLinks(CancelIpc(s, dest))
  {
    hide Without;
  }

  lemma {:induction false} CancelOthers(s: State, stacks: CallStacks, dest: nat)
    requires Inv(s, stacks) && dest in s.threads && s.threads[dest].state.BlockedOnReceive?
    requires s.threads[dest].state.ep in s.eps
    ensures ScLinks(CancelIpc(s, dest)) && ReplyLinks(CancelIpc(s, dest))
    ensures CurrentRuns(CancelIpc(s, dest)) && CurrentIsHighest(CancelIpc(s, dest))
  {
    hide Stacked, Queued, NtfnQueued, Without, CurrentIsHighest, ScLinks, ReplyLinks, CurrentRuns;
    CurrentHere(s);
    ScLinksUntouched(s, CancelIpc(s, dest));
    CancelReplyLinks(s, dest);
    CurrentUntouched(s, CancelIpc(s, dest));
  }

  lemma {:induction false} CancelStacks(s: State, stacks: CallStacks, dest: nat)
    requires Inv(s, stacks) && dest in s.threads && s.threads[dest].state.BlockedOnReceive?
    requires s.threads[dest].state.ep in s.eps
    ensures Stacked(CancelIpc(s, dest), stacks)
  {
    hide IsStack, Queued, NtfnQueued, Without, ScLinks, IsHighestPrio, ReplyLinks;
    CancelFacts(s, stacks, dest);
    var t := CancelIpc(s, dest);
    forall x | x in stacks ensures IsStack(t, x, stacks[x]) {
      StackFacts(s, x, stacks[x]);
      assert forall i :: 0 <= i < |stacks[x]| ==> stacks[x][i] in stacks[x];
      StackUntouched(s, t, x, stacks[x]);
    }
  }

  lemma {:induction false} CancelInv(s: State, stacks: CallStacks, dest: nat)
    requires Inv(s, stacks) && dest in s.threads && s.threads[dest].state.BlockedOnReceive?
    ensures s.threads[dest].state.ep in s.eps && Inv(CancelIpc(s, dest), stacks)
  {
    hide ScLinks, ReplyLinks, Stacked, Queued, NtfnQueued, CurrentRuns, CurrentIsHighest;
    CancelFacts(s, stacks, dest);
    CancelQueues(s, stacks, dest);
    CancelOthers(s, stacks, dest);
    CancelStacks(s, stacks, dest);
  }

  lemma {:induction false} LeaveNtfnQueued(s: State, n: nat, dest: nat)
    requires NtfnQueued(s) && n in s.ntfns && dest in s.ntfns[n].queue && dest in s.threads
    ensures NtfnQueued(LeaveNotification(s, n, dest))
  {
    hide Without, NoDuplicates;
    WithoutMembers(s.ntfns[n].queue, dest);
  }

  lemma {:induction false} LeaveInv(s: State, stacks: CallStacks, n: nat)
    requires Inv(s, stacks) && n in s.ntfns && s.ntfns[n].queue != []
    ensures s.ntfns[n].queue[0] in s.threads
    ensures s.threads[s.ntfns[n].queue[0]].state == BlockedOnNotification(n)
    ensures Inv(LeaveNotification(s, n, s.ntfns[n].queue[0]), stacks)
  {
    hide Stacked, Queued, Without, ScLinks, ReplyLinks, CurrentRuns, CurrentIsHighest, NtfnQueued;
    var dest := s.ntfns[n].queue[0];
    FirstWaiter(s, n);
    var t := LeaveNotification(s, n, dest);
    CurrentHere(s);
    LeaveNtfnQueued(s, n, dest);
    StacksUntouched(s, t, stacks);
    QueuesUntouched(s, t);
    ScLinksUntouched(s, t);
    ReplyLinksUntouched(s, t);
    CurrentUntouched(s, t);
  }

  lemma {:induction false} FirstWaiter(s: State, n: nat)
    requires NtfnQueued(s) && n in s.ntfns && s.ntfns[n].queue != []
    ensures var dest := s.ntfns[n].queue[0];
            dest in s.ntfns[n].queue && dest in s.threads && s.threads[dest].state == BlockedOnNotification(n)
  {
    assert s.ntfns[n].queue[0] in s.ntfns[n].queue;
  }

  lemma {:induction false} WakeScLinks(s: State, dest: nat, x: nat, schedulable: bool)
    requires ScLinks(s) && dest in s.threads && x in s.scs
    requires s.threads[dest].sc == Some(x) || (s.threads[dest].sc == None && s.scs[x].tcb == None)
    ensures ScLinks(Wake(s, dest, x, schedulable))
  {
  }

  /** An inactive thread starts to run without being switched to. */
  lemma {:induction false} WakeInv(s: State, stacks: CallStacks, dest: nat, x: nat, schedulable: bool)
    requires Inv(s, stacks) && dest in s.threads && s.threads[dest].state == Inactive && x in s.scs
    requires s.threads[dest].sc == Some(x) || (s.threads[dest].sc == None && s.scs[x].tcb == None)
    requires s.threads[dest].prio <= s.Cur().prio
    ensures Inv(Wake(s, dest, x, schedulable), stacks)
  {
    hide Stacked, Queued, ScLinks, ReplyLinks, NtfnQueued, CurrentRuns, CurrentIsHighest;
    var t := Wake(s, dest, x, schedulable);
    WakeScLinks(s, dest, x, schedulable);
    StacksUntouched(s, t, stacks);
    QueuesUntouched(s, t);
    NtfnsUntouched(s, t);
    ReplyLinksUntouched(s, t);
    WakeCurrent(s, dest, x, schedulable);
  }

  lemma {:induction false} WakeCurrent(s: State, dest: nat, x: nat, schedulable: bool)
    requires CurrentRuns(s) && CurrentIsHighest(s)
    requires dest in s.threads && s.threads[dest].state == Inactive && x in s.scs
    requires s.threads[dest].prio <= s.Cur().prio
    ensures CurrentRuns(Wake(s, dest, x, schedulable)) && CurrentIsHighest(Wake(s, dest, x, schedulable))
  {
  }
}
