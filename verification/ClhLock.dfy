/**
 The CLH queue lock that serialises the kernel across cores, as an interleaving
 of the cores' shared-memory steps.  Each core is at a program point of
 `clh_lock_acquire` or `clh_lock_release`; a schedule is any sequence of cores.
 */
module ClhLock {

  datatype RequestState = Granted | Pending

  /** Where a core is:
      Idle      outside the lock,
      Marked    its request is pending, not yet in the queue,
      Waiting   in the queue, spinning on the request it watches,
      Holding   past the spin loop, not yet releasing,
      Releasing its request is granted, the watched request not yet adopted. */
  datatype Point = Idle | Marked | Waiting | Holding | Releasing

  type Core = nat
  type Cell = nat

  datatype State = State(
    request: seq<RequestState>,
    watch: seq<Cell>,
    myreq: seq<Cell>,
    tail: Cell,
    point: seq<Point>)
  {
    /** N cores, N + 1 request cells, every pointer inside the request array. */
    ghost predicate WellFormed() {
      && |watch| == |myreq| == |point|
      && |request| == |point| + 1
      && (forall c :: 0 <= c < |watch| ==> watch[c] < |request|)
      && (forall c :: 0 <= c < |myreq| ==> myreq[c] < |request|)
      && tail < |request|
    }
  }

  /** The next shared-memory step of core `c`. */
  function Step(s: State, c: Core): (t: State)
    requires s.WellFormed() && c < |s.point|
    ensures t.WellFormed() && |t.point| == |s.point|
  {
    match s.point[c]
    case Idle =>
      s.(request := s.request[s.myreq[c] := Pending], point := s.point[c := Marked])
    case Marked =>
      s.(watch := s.watch[c := s.tail], tail := s.myreq[c], point := s.point[c := Waiting])
    case Waiting =>
      if s.request[s.watch[c]] == Granted then s.(point := s.point[c := Holding]) else s
    case Holding =>
      s.(request := s.request[s.myreq[c] := Granted], point := s.point[c := Releasing])
    case Releasing =>
      s.(myreq := s.myreq[c := s.watch[c]], point := s.point[c := Idle])
  }

  ghost predicate Initial(s: State) {
    && s.WellFormed()
    && (forall c :: 0 <= c < |s.point| ==> s.point[c] == Idle)
    && (forall c :: 0 <= c < |s.point| ==> s.myreq[c] == c)
    && (forall r :: 0 <= r < |s.request| ==> s.request[r] == Granted)
    && s.tail == |s.point|
  }

  /** `clh_is_self_in_queue` */
  predicate SelfInQueue(s: State, c: Core)
    requires s.WellFormed() && c < |s.point|
  {
    s.request[s.myreq[c]] == Pending
  }

  // ---------------------------------------------------------------------------
  // Schedules and what happens along them

  /** The cores in the order of their tail exchanges, of their lock grants, and
      of their releases. */
  datatype History = History(exchanged: seq<Core>, granted: seq<Core>, released: seq<Core>)

  ghost function Record(s: State, h: History, c: Core): History
    requires s.WellFormed() && c < |s.point|
  {
    match s.point[c]
    case Marked => h.(exchanged := h.exchanged + [c])
    case Waiting => if Step(s, c).point[c] == Holding then h.(granted := h.granted + [c]) else h
    case Holding => h.(released := h.released + [c])
    case _ => h
  }

  ghost predicate Schedule(s: State, cores: seq<Core>) {
    forall i :: 0 <= i < |cores| ==> cores[i] < |s.point|
  }

  ghost function Run(s: State, h: History, cores: seq<Core>): (r: (State, History))
    requires s.WellFormed() && Schedule(s, cores)
    ensures r.0.WellFormed() && |r.0.point| == |s.point|
    decreases |cores|
  {
    if cores == [] then (s, h)
    else
      assert forall i :: 0 <= i < |cores[1..]| ==> cores[1..][i] == cores[i + 1];
      Run(Step(s, cores[0]), Record(s, h, cores[0]), cores[1..])
  }

  const NOTHING_YET := History([], [], [])

  // ---------------------------------------------------------------------------
  // The invariant

  /** Cores that have exchanged the tail and not yet released, oldest first. */
  ghost function Queue(h: History): seq<Core>
    requires |h.released| <= |h.exchanged|
  {
    h.exchanged[|h.released|..]
  }

  /** The request cell that belongs to a core.  From the moment a releasing core
      has granted its own request that request is its successor's, and the one
      it watched is its own. */
  function Owned(s: State, c: Core): Cell
    requires s.WellFormed() && c < |s.point|
  {
    if s.point[c] == Releasing then s.watch[c] else s.myreq[c]
  }

  /** The one request cell that belongs to no core. */
  ghost function Free(s: State, q: seq<Core>): Cell
    requires s.WellFormed() && (q != [] ==> q[0] < |s.watch|)
  {
    if q == [] then s.tail else s.watch[q[0]]
  }

  ghost predicate Queued(p: Point) { p == Waiting || p == Holding }

  ghost predicate Distinct(q: seq<Core>) {
    forall i, j :: 0 <= i < j < |q| ==> q[i] != q[j]
  }

  /** The queue holds the queued cores, each once. */
  ghost predicate Members(s: State, q: seq<Core>) {
    && (forall i :: 0 <= i < |q| ==> q[i] < |s.point| && Queued(s.point[q[i]]))
    && (forall c :: 0 <= c < |s.point| && Queued(s.point[c]) ==> c in q)
    && Distinct(q)
  }

  /** Every queued core watches the request of the one before it. */
  ghost predicate Links(s: State, q: seq<Core>)
    requires s.WellFormed() && Members(s, q)
  {
    && (forall i, j :: 0 <= i < |q| && j == i + 1 < |q| ==> s.watch[q[j]] == s.myreq[q[i]])
    && (q != [] ==> s.tail == s.myreq[q[|q| - 1]])
  }

  ghost predicate Chain(s: State, q: seq<Core>)
    requires s.WellFormed()
  {
    Members(s, q) && Links(s, q)
  }

  /** The cores that want or hold the lock are those whose requests are pending. */
  ghost predicate PendingMatches(s: State)
    requires s.WellFormed()
  {
    forall c :: 0 <= c < |s.point| ==>
      (s.request[Owned(s, c)] == Pending <==> s.point[c] in {Marked, Waiting, Holding})
  }

  ghost predicate Ownership(s: State, q: seq<Core>)
    requires s.WellFormed() && Chain(s, q)
  {
    && (forall a, b :: 0 <= a < b < |s.point| ==> Owned(s, a) != Owned(s, b))
    && (forall c :: 0 <= c < |s.point| ==> Owned(s, c) != Free(s, q))
    && s.request[Free(s, q)] == Granted
    && PendingMatches(s)
  }

  /** Only the head of the queue can be past the spin loop. */
  ghost predicate HolderIsHead(s: State, q: seq<Core>) {
    forall c :: 0 <= c < |s.point| && s.point[c] == Holding ==> q != [] && c == q[0]
  }

  /** How the cores' program points and the cells fit a queue of cores. */
  ghost predicate Arranged(s: State, q: seq<Core>) {
    s.WellFormed() && Chain(s, q) && Ownership(s, q) && HolderIsHead(s, q)
  }

  ghost predicate HeadHolds(s: State, q: seq<Core>) {
    q != [] && q[0] < |s.point| && s.point[q[0]] == Holding
  }

  ghost predicate Fifo(s: State, h: History) {
    && h.released <= h.granted <= h.exchanged
    && |h.granted| == |h.released| + (if HeadHolds(s, Queue(h)) then 1 else 0)
  }

  ghost predicate Inv(s: State, h: History) {
    && |h.released| <= |h.exchanged|
    && Arranged(s, Queue(h))
    && Fifo(s, h)
  }

  lemma {:induction false} InitialInv(s: State)
    requires Initial(s)
    ensures Inv(s, NOTHING_YET)
  {
  }

  /** Behind the head of the queue every watched request is still pending. */
  lemma {:induction false} OnlyHeadIsGranted(s: State, q: seq<Core>, c: Core)
    requires Arranged(s, q) && c < |s.point| && s.point[c] == Waiting
    ensures q != [] && (s.request[s.watch[c]] == Granted <==> c == q[0])
  {
    var i :| 0 <= i < |q| && q[i] == c;
    if i > 0 {
      assert s.watch[q[i]] == s.myreq[q[i - 1]] == Owned(s, q[i - 1]);
    }
  }

  lemma {:induction false} NotQueued(s: State, q: seq<Core>, c: Core)
    requires Members(s, q) && c < |s.point| && !Queued(s.point[c])
    ensures c !in q
  {
  }

  /** A step of a core outside the queue, or one that stays in it, keeps the
      members. */
  lemma {:induction false} SameMembers(s: State, t: State, q: seq<Core>)
    requires Members(s, q) && |t.point| == |s.point|
    requires forall c :: 0 <= c < |s.point| ==> Queued(t.point[c]) == Queued(s.point[c])
    ensures Members(t, q)
  {
  }

  lemma {:induction false} SameLinks(s: State, t: State, q: seq<Core>)
    requires s.WellFormed() && t.WellFormed() && Members(s, q) && Members(t, q) && Links(s, q) && t.tail == s.tail
    requires forall i :: 0 <= i < |q| ==> t.watch[q[i]] == s.watch[q[i]] && t.myreq[q[i]] == s.myreq[q[i]]
    ensures Links(t, q) && Free(t, q) == Free(s, q)
  {
  }

  /** A step that gives no cell to another core. */
  lemma {:induction false} SameOwners(s: State, q: seq<Core>, t: State, r: seq<Core>)
    requires Arranged(s, q) && t.WellFormed() && |t.point| == |s.point| && Chain(t, r)
    requires Free(t, r) == Free(s, q) && forall c :: 0 <= c < |s.point| ==> Owned(t, c) == Owned(s, c)
    requires t.request[Free(t, r)] == Granted && PendingMatches(t)
    ensures Ownership(t, r)
  {
    hide Chain, Free, Owned;
  }

  lemma {:induction false} MarkArranged(s: State, q: seq<Core>, c: Core)
    requires Arranged(s, q) && c < |s.point| && s.point[c] == Idle
    ensures Arranged(Step(s, c), q)
  {
    hide Distinct;
    var t := Step(s, c);
    NotQueued(s, q, c);
    SameMembers(s, t, q);
    SameLinks(s, t, q);
    assert forall d :: 0 <= d < |s.point| ==> Owned(t, d) == Owned(s, d);
    assert t.request == s.request[Owned(s, c) := Pending] && t.point == s.point[c := Marked];
    hide Members, Links, Free, Owned, Step;
    SameOwners(s, q, t, q);
  }

  lemma {:induction false} ExchangeMembers(s: State, q: seq<Core>, c: Core)
    requires s.WellFormed() && Members(s, q) && c < |s.point| && s.point[c] == Marked
    ensures Members(Step(s, c), q + [c])
  {
    NotQueued(s, q, c);
    var t := Step(s, c);
    assert t.point == s.point[c := Waiting];
    forall d | 0 <= d < |s.point| && Queued(t.point[d]) ensures d in q + [c] { assert d == c || Queued(s.point[d]); }
  }

  lemma {:induction false} ExchangeLinks(s: State, q: seq<Core>, c: Core)
    requires s.WellFormed() && Chain(s, q) && c < |s.point| && s.point[c] == Marked
    requires c !in q && Members(Step(s, c), q + [c])
    ensures Links(Step(s, c), q + [c]) && Free(Step(s, c), q + [c]) == Free(s, q)
  {
    hide Distinct;
    var t, r := Step(s, c), q + [c];
    assert forall i :: 0 <= i < |q| ==> q[i] in q;
    forall i, j | 0 <= i < |r| && j == i + 1 < |r| ensures t.watch[r[j]] == t.myreq[r[i]] {
      assert r[i] == q[i];
      if j < |q| { assert r[j] == q[j]; }
    }
  }

  lemma {:induction false} ExchangeArranged(s: State, q: seq<Core>, c: Core)
    requires Arranged(s, q) && c < |s.point| && s.point[c] == Marked
    ensures Arranged(Step(s, c), q + [c])
  {
    var t, r := Step(s, c), q + [c];
    ExchangeMembers(s, q, c);
    NotQueued(s, q, c);
    ExchangeLinks(s, q, c);
    assert forall d :: 0 <= d < |s.point| ==> Owned(t, d) == Owned(s, d);
    assert t.request == s.request && t.point == s.point[c := Waiting];
    hide Members, Links, Free, Owned, Step;
    SameOwners(s, q, t, r);
  }

  lemma {:induction false} PollArranged(s: State, q: seq<Core>, c: Core)
    requires Arranged(s, q) && c < |s.point| && s.point[c] == Waiting
    ensures Arranged(Step(s, c), q)
  {
    hide Distinct;
    OnlyHeadIsGranted(s, q, c);
    var t := Step(s, c);
    SameMembers(s, t, q);
    SameLinks(s, t, q);
    assert forall d :: 0 <= d < |s.point| ==> Owned(t, d) == Owned(s, d);
    assert t.request == s.request && (t.point == s.point || t.point == s.point[c := Holding]);
    assert t.point[c] == Holding ==> c == q[0];
    hide Members, Links, Free, Owned, Step;
    SameOwners(s, q, t, q);
  }

  lemma {:induction false} PassMembers(s: State, q: seq<Core>, c: Core)
    requires s.WellFormed() && Members(s, q) && q != [] && q[0] == c && s.point[c] == Holding
    ensures Members(Step(s, c), q[1..])
  {
    var t, r := Step(s, c), q[1..];
    assert t.point == s.point[c := Releasing];
    assert forall i :: 0 <= i < |r| ==> r[i] == q[i + 1];
    forall d | 0 <= d < |s.point| && Queued(t.point[d]) ensures d in r {
      assert Queued(s.point[d]) && d != c && q == [c] + r;
    }
  }

  /** The cell that the core watched becomes its own, and its own becomes free. */
  lemma {:induction false} PassLinks(s: State, q: seq<Core>, c: Core)
    requires s.WellFormed() && Chain(s, q) && q != [] && q[0] == c && s.point[c] == Holding
    requires Members(Step(s, c), q[1..])
    ensures Links(Step(s, c), q[1..]) && Free(Step(s, c), q[1..]) == s.myreq[c]
  {
    hide Distinct;
    var t, r := Step(s, c), q[1..];
    assert t.watch == s.watch && t.myreq == s.myreq && t.tail == s.tail;
    forall i, j | 0 <= i < |r| && j == i + 1 < |r| ensures t.watch[r[j]] == t.myreq[r[i]] {
      assert r[i] == q[i + 1] && r[j] == q[j + 1];
    }
    if r != [] { assert r[|r| - 1] == q[|q| - 1] && s.watch[q[1]] == s.myreq[q[0]]; }
  }

  lemma {:induction false} PassOwners(s: State, q: seq<Core>, c: Core, t: State, r: seq<Core>)
    requires Arranged(s, q) && t.WellFormed() && |t.point| == |s.point| && Chain(t, r) && c < |s.point|
    requires Free(s, q) == Owned(t, c) && Free(t, r) == Owned(s, c)
    requires forall d :: 0 <= d < |s.point| && d != c ==> Owned(t, d) == Owned(s, d)
    requires t.request == s.request[Owned(s, c) := Granted] && t.point == s.point[c := Releasing]
    ensures Ownership(t, r)
  {
    hide Links, Distinct, Free;
  }

  lemma {:induction false} PassArranged(s: State, q: seq<Core>, c: Core)
    requires Arranged(s, q) && c < |s.point| && s.point[c] == Holding
    ensures q != [] && q[0] == c && Arranged(Step(s, c), q[1..])
  {
    hide Distinct, Ownership;
    var t, r := Step(s, c), q[1..];
    PassMembers(s, q, c);
    PassLinks(s, q, c);
    assert Free(s, q) == s.watch[c] == Owned(t, c) && Free(t, r) == s.myreq[c] == Owned(s, c);
    assert forall d :: 0 <= d < |s.point| && d != c ==> Owned(t, d) == Owned(s, d);
    assert t.request == s.request[Owned(s, c) := Granted] && t.point == s.point[c := Releasing];
    hide Members, Links, Free, Owned, Step;
    PassOwners(s, q, c, t, r);
  }

  lemma {:induction false} AdoptArranged(s: State, q: seq<Core>, c: Core)
    requires Arranged(s, q) && c < |s.point| && s.point[c] == Releasing
    ensures Arranged(Step(s, c), q)
  {
    hide Distinct;
    var t := Step(s, c);
    NotQueued(s, q, c);
    SameMembers(s, t, q);
    SameLinks(s, t, q);
    assert forall d :: 0 <= d < |s.point| ==> Owned(t, d) == Owned(s, d);
    assert t.request == s.request && t.point == s.point[c := Idle];
    hide Members, Links, Free, Owned, Step;
    SameOwners(s, q, t, q);
  }

  lemma {:induction false} StepInv(s: State, h: History, c: Core)
    requires Inv(s, h) && c < |s.point|
    ensures Inv(Step(s, c), Record(s, h, c))
  {
    hide Chain, Ownership, HolderIsHead, Fifo;
    var q, k := Queue(h), Record(s, h, c);
    match s.point[c] {
      case Idle => MarkArranged(s, q, c);
      case Marked =>
        ExchangeArranged(s, q, c);
        assert Queue(k) == q + [c];
      case Waiting =>
        PollArranged(s, q, c);
        OnlyHeadIsGranted(s, q, c);
        assert Queue(k) == q;
      case Holding =>
        PassArranged(s, q, c);
        assert Queue(k) == q[1..];
      case Releasing => AdoptArranged(s, q, c);
    }
    StepFifo(s, h, c);
  }

  lemma {:induction false} QueueFacts(s: State, q: seq<Core>, c: Core)
    requires Arranged(s, q) && c < |s.point|
    ensures forall i :: 0 <= i < |q| ==> q[i] < |s.point|
    ensures q != [] && q[0] == c ==> s.point[c] == Waiting || s.point[c] == Holding
    ensures s.point[c] == Holding ==> q != [] && q[0] == c
    ensures |q| > 1 ==> q[1] != q[0] && s.point[q[1]] != Holding
  {
    hide Ownership;
  }

  lemma {:induction false} StepFifo(s: State, h: History, c: Core)
    requires Inv(s, h) && c < |s.point|
    ensures Fifo(Step(s, c), Record(s, h, c))
  {
    hide Ownership, Chain, HolderIsHead;
    var q, k := Queue(h), Record(s, h, c);
    QueueFacts(s, q, c);
    match s.point[c] {
      case Waiting =>
        OnlyHeadIsGranted(s, q, c);
        assert h.exchanged[|h.released|] == q[0];
        assert Queue(k) == q;
      case Holding =>
        assert h.exchanged[|h.released|] == q[0] == c;
        assert Queue(k) == q[1..];
      case Marked =>
        assert Queue(k) == q + [c];
      case _ =>
    }
  }

  lemma {:induction false} RunInv(s: State, h: History, cores: seq<Core>)
    requires Inv(s, h) && Schedule(s, cores)
    ensures Inv(Run(s, h, cores).0, Run(s, h, cores).1)
    decreases |cores|
  {
    if cores != [] {
      StepInv(s, h, cores[0]);
      assert forall i :: 0 <= i < |cores[1..]| ==> cores[1..][i] == cores[i + 1];
      RunInv(Step(s, cores[0]), Record(s, h, cores[0]), cores[1..]);
    }
  }

  // ---------------------------------------------------------------------------
  // Theorems over every schedule

  /** At most one core is between acquiring and releasing. */
  lemma {:induction false} MutualExclusion(s: State, cores: seq<Core>, a: Core, b: Core)
    requires Initial(s) && Schedule(s, cores) && a < |s.point| && b < |s.point|
    ensures var t := Run(s, NOTHING_YET, cores).0;
            t.point[a] == Holding && t.point[b] == Holding ==> a == b
  {
    InitialInv(s);
    RunInv(s, NOTHING_YET, cores);
  }

  /** The lock is granted, and released, in the order of the tail exchanges, and
      at most one grant is outstanding. */
  lemma {:induction false} GrantedInExchangeOrder(s: State, cores: seq<Core>)
    requires Initial(s) && Schedule(s, cores)
    ensures var h := Run(s, NOTHING_YET, cores).1;
            && h.released <= h.granted <= h.exchanged
            && |h.granted| <= |h.released| + 1
  {
    InitialInv(s);
    RunInv(s, NOTHING_YET, cores);
  }

  /** No two cores ever own one request cell, and one cell is owned by none. */
  lemma {:induction false} CellsKeepDistinctOwners(s: State, cores: seq<Core>)
    requires Initial(s) && Schedule(s, cores)
    ensures var t := Run(s, NOTHING_YET, cores).0;
            && (forall a, b :: 0 <= a < b < |t.point| ==> Owned(t, a) != Owned(t, b))
            && (exists free: Cell :: free < |t.request| && t.request[free] == Granted
                                     && forall c :: 0 <= c < |t.point| ==> Owned(t, c) != free)
  {
    InitialInv(s);
    RunInv(s, NOTHING_YET, cores);
    var (t, h) := Run(s, NOTHING_YET, cores);
    var free := Free(t, Queue(h));
    assert free < |t.request| && t.request[free] == Granted
           && forall c :: 0 <= c < |t.point| ==> Owned(t, c) != free;
  }

  /** Outside acquire and release, a core finds itself in the queue exactly when
      it holds the lock. */
  lemma {:induction false} SelfInQueueIffHolding(s: State, cores: seq<Core>, c: Core)
    requires Initial(s) && Schedule(s, cores) && c < |s.point|
    ensures var t := Run(s, NOTHING_YET, cores).0;
            t.point[c] in {Idle, Holding} ==> (SelfInQueue(t, c) <==> t.point[c] == Holding)
  {
    InitialInv(s);
    RunInv(s, NOTHING_YET, cores);
    var t := Run(s, NOTHING_YET, cores).0;
    assert t.point[c] in {Idle, Holding} ==> Owned(t, c) == t.myreq[c];
  }

  lemma {:induction false} RunCons(s: State, h: History, c: Core, cores: seq<Core>)
    requires s.WellFormed() && c < |s.point| && Schedule(s, cores)
    ensures Schedule(s, [c] + cores)
    ensures Run(s, h, [c] + cores) == Run(Step(s, c), Record(s, h, c), cores)
  {
    assert ([c] + cores)[1..] == cores;
  }

  /** A core at the head of the queue needs one step at most to hold the lock. */
  lemma {:induction false} HeadIsServed(s: State, h: History) returns (cores: seq<Core>)
    requires Inv(s, h) && Queue(h) != []
    ensures Queue(h)[0] < |s.point| && (cores == [] || cores == [Queue(h)[0]])
    ensures var (t, k) := Run(s, h, cores);
            Inv(t, k) && Queue(k) == Queue(h) && t.point[Queue(h)[0]] == Holding
  {
    var c := Queue(h)[0];
    if s.point[c] == Holding {
      cores := [];
    } else {
      OnlyHeadIsGranted(s, Queue(h), c);
      StepInv(s, h, c);
      cores := [c];
      assert Queue(Record(s, h, c)) == Queue(h);
    }
  }

  lemma {:induction false} RunAppend(s: State, h: History, a: seq<Core>, b: seq<Core>)
    requires s.WellFormed() && Schedule(s, a) && Schedule(s, b)
    ensures Schedule(s, a + b)
    ensures Run(s, h, a + b) == Run(Run(s, h, a).0, Run(s, h, a).1, b)
    decreases |a|
  {
    if a == [] {
      assert a + b == b;
    } else {
      assert (a + b)[1..] == a[1..] + b;
      assert forall i :: 0 <= i < |a[1..]| ==> a[1..][i] == a[i + 1];
      RunAppend(Step(s, a[0]), Record(s, h, a[0]), a[1..], b);
    }
  }

  /** No wake-up is ever lost: a waiting core reaches the lock by steps of itself
      and of the cores queued before it, and of no other core. */
  lemma {:induction false} WaiterIsServed(s: State, h: History, i: nat) returns (cores: seq<Core>)
    requires Inv(s, h) && i < |Queue(h)|
    ensures Schedule(s, cores) && |cores| <= 2 * i + 1
    ensures forall k :: 0 <= k < |cores| ==> cores[k] in Queue(h)[..i + 1]
    ensures Run(s, h, cores).0.point[Queue(h)[i]] == Holding
    decreases i
  {
    hide Members, Links, Ownership, HolderIsHead, Fifo, Step, Record, Run;
    var q := Queue(h);
    var c := q[0];
    cores := HeadIsServed(s, h);
    if i > 0 {
      var (t, k) := Run(s, h, cores);
      assert c < |t.point|;
      var u, l := Step(t, c), Record(t, k, c);
      ReleaseShortensQueue(t, k, c);
      assert q[1..][..i] == q[1..i + 1];
      var rest := WaiterIsServed(u, l, i - 1);
      RunCons(t, k, c, rest);
      RunAppend(s, h, cores, [c] + rest);
      assert q[1..][i - 1] == q[i];
      cores := cores + ([c] + rest);
    }
  }

  lemma {:induction false} ReleaseShortensQueue(s: State, h: History, c: Core)
    requires Inv(s, h) && c < |s.point| && s.point[c] == Holding
    ensures Inv(Step(s, c), Record(s, h, c))
    ensures Queue(h) != [] && Queue(Record(s, h, c)) == Queue(h)[1..]
  {
    hide Members, Links, Ownership, HolderIsHead, Fifo, Step;
    StepInv(s, h, c);
    PassArranged(s, Queue(h), c);
  }

  // ---------------------------------------------------------------------------
  // Every fair schedule

  /** Grants and releases so far. */
  ghost function Progress(h: History): nat { |h.granted| + |h.released| }

  /** A step of the core at the head is a grant or a release; no step undoes one. */
  lemma {:induction false} StepProgress(s: State, h: History, c: Core)
    requires Inv(s, h) && c < |s.point|
    ensures var k := Record(s, h, c);
            h.exchanged <= k.exchanged && Progress(h) <= Progress(k) && Inv(Step(s, c), k)
    ensures Queue(h) != [] && Queue(h)[0] == c ==> Progress(Record(s, h, c)) == Progress(h) + 1
  {
    hide Ownership, Chain, HolderIsHead, Fifo, Arranged;
    StepInv(s, h, c);
    assert Arranged(s, Queue(h));
    QueueFacts(s, Queue(h), c);
    if s.point[c] == Waiting { OnlyHeadIsGranted(s, Queue(h), c); }
  }

  lemma {:induction false} RunProgress(s: State, h: History, cores: seq<Core>)
    requires s.WellFormed() && Inv(s, h) && Schedule(s, cores)
    ensures var (t, k) := Run(s, h, cores);
            Inv(t, k) && h.exchanged <= k.exchanged && Progress(h) <= Progress(k)
    decreases |cores|
  {
    hide Inv, Progress, Record, Step;
    if cores != [] {
      StepProgress(s, h, cores[0]);
      assert forall i :: 0 <= i < |cores[1..]| ==> cores[1..][i] == cores[i + 1];
      RunProgress(Step(s, cores[0]), Record(s, h, cores[0]), cores[1..]);
    }
  }

  /** The head of the queue is the core whose turn the progress says it is. */
  lemma {:induction false} HeadsTurn(s: State, h: History)
    requires Inv(s, h) && |h.exchanged| > |h.released|
    ensures Queue(h) != [] && Progress(h) / 2 == |h.released| && h.exchanged[Progress(h) / 2] == Queue(h)[0]
  {
  }

  /** A schedule with a step of the head makes progress. */
  lemma {:induction false} RoundProgress(s: State, h: History, cores: seq<Core>)
    requires s.WellFormed() && Inv(s, h) && Schedule(s, cores)
    requires |h.released| < |h.exchanged| && Queue(h)[0] in cores
    ensures Progress(Run(s, h, cores).1) > Progress(h)
    decreases |cores|
  {
    hide Inv, Step, Record;
    var c, t, k := cores[0], Step(s, cores[0]), Record(s, h, cores[0]);
    StepProgress(s, h, c);
    assert forall i :: 0 <= i < |cores[1..]| ==> cores[1..][i] == cores[i + 1];
    if Progress(k) > Progress(h) {
      RunProgress(t, k, cores[1..]);
    } else {
      SameHead(s, h, t, k);
      assert cores == [c] + cores[1..];
      RoundProgress(t, k, cores[1..]);
    }
  }

  lemma {:induction false} SameHead(s: State, h: History, t: State, k: History)
    requires Inv(s, h) && Inv(t, k) && Queue(h) != []
    requires h.exchanged <= k.exchanged && Progress(h) == Progress(k)
    ensures |k.released| < |k.exchanged| && Queue(k)[0] == Queue(h)[0]
  {
    hide Arranged;
    HeadsTurn(s, h);
  }

  ghost function Flat(rounds: seq<seq<Core>>): seq<Core> {
    if rounds == [] then [] else rounds[0] + Flat(rounds[1..])
  }

  ghost predicate Schedules(s: State, rounds: seq<seq<Core>>) {
    forall r :: 0 <= r < |rounds| ==> Schedule(s, rounds[r])
  }

  lemma {:induction false} FlatSchedule(s: State, rounds: seq<seq<Core>>)
    requires Schedules(s, rounds)
    ensures Schedule(s, Flat(rounds))
  {
    if rounds != [] {
      assert Schedule(s, rounds[0]);
      FlatSchedule(s, rounds[1..]);
    }
  }

  lemma {:induction false} FairProgress(s: State, h: History, goal: nat, rounds: seq<seq<Core>>)
    requires s.WellFormed() && Inv(s, h) && Schedules(s, rounds) && goal / 2 < |h.exchanged|
    requires forall r, j :: 0 <= r < |rounds| && Progress(h) / 2 <= j <= goal / 2 ==> h.exchanged[j] in rounds[r]
    requires Progress(h) + |rounds| > goal
    ensures Schedule(s, Flat(rounds)) && Progress(Run(s, h, Flat(rounds)).1) > goal
    decreases |rounds|
  {
    hide Inv, Run, Progress, Schedule;
    FlatSchedule(s, rounds);
    if Progress(h) > goal {
      RunProgress(s, h, Flat(rounds));
    } else {
      var first := rounds[0];
      assert Schedule(s, first);
      FairRound(s, h, first);
      var (t, k) := Run(s, h, first);
      RunProgress(s, h, first);
      assert forall r :: 0 <= r < |rounds[1..]| ==> rounds[1..][r] == rounds[r + 1];
      SameCores(s, t, rounds[1..]);
      FairProgress(t, k, goal, rounds[1..]);
      FlatSchedule(s, rounds[1..]);
      RunAppend(s, h, first, Flat(rounds[1..]));
    }
  }

  lemma {:induction false} SameCores(s: State, t: State, rounds: seq<seq<Core>>)
    requires |s.point| == |t.point| && Schedules(s, rounds)
    ensures Schedules(t, rounds)
  {
    forall r | 0 <= r < |rounds| ensures Schedule(t, rounds[r]) { assert Schedule(s, rounds[r]); }
  }

  lemma {:induction false} FairRound(s: State, h: History, round: seq<Core>)
    requires Inv(s, h) && Schedule(s, round) && Progress(h) / 2 < |h.exchanged| && h.exchanged[Progress(h) / 2] in round
    ensures Progress(Run(s, h, round).1) > Progress(h)
  {
    assert |h.exchanged| > |h.released|;
    HeadsTurn(s, h);
    RoundProgress(s, h, round);
  }

  /** No core starves: in every schedule of 2i + 1 rounds, in each of which the
      first i + 1 queued cores step, whatever the other cores do and in any order,
      the core at place i is granted the lock. */
  lemma {:induction false} FairlyServed(s: State, h: History, i: nat, rounds: seq<seq<Core>>)
    requires Inv(s, h) && i < |Queue(h)| && Schedules(s, rounds) && |rounds| > 2 * i
    requires forall r, j :: 0 <= r < |rounds| && 0 <= j <= i ==> Queue(h)[j] in rounds[r]
    ensures Schedule(s, Flat(rounds))
    ensures var k := Run(s, h, Flat(rounds)).1;
            |k.granted| > |h.released| + i && k.granted[|h.released| + i] == Queue(h)[i]
  {
    hide Run, Schedules;
    var n := |h.released|;
    var goal := 2 * (n + i);
    assert n <= Progress(h) / 2;
    forall r, j | 0 <= r < |rounds| && Progress(h) / 2 <= j <= goal / 2 ensures h.exchanged[j] in rounds[r] {
      assert h.exchanged[j] == Queue(h)[j - n];
    }
    FairProgress(s, h, goal, rounds);
    RunProgress(s, h, Flat(rounds));
  }

  // ---------------------------------------------------------------------------
  // The lock in memory

  class BigKernelLock {
    const request: array<RequestState>
    const watch: array<Cell>
    const myreq: array<Cell>
    var tail: Cell
    ghost var point: seq<Point>

    ghost predicate Valid()
      reads this, request, watch, myreq
    {
      && request != watch as object && request != myreq as object && watch != myreq
      && Snapshot().WellFormed()
    }

    ghost function Snapshot(): State
      reads this, request, watch, myreq
    {
      State(request[..], watch[..], myreq[..], tail, point)
    }

    /** `clh_lock_init`, on memory that starts out zero. */
    constructor (cores: nat)
      ensures Valid() && Initial(Snapshot()) && |point| == cores
      ensures fresh(request) && fresh(watch) && fresh(myreq)
    {
      request := new RequestState[cores + 1](_ => Granted);
      watch := new Cell[cores](_ => 0);
      myreq := new Cell[cores](_ => 0);
      tail := 0;
      point := seq(cores, _ => Idle);
      new;
      for i := 0 to cores
        invariant forall c :: 0 <= c < i ==> myreq[c] == c
        invariant forall r :: 0 <= r < request.Length ==> request[r] == Granted
        invariant forall c :: 0 <= c < cores ==> watch[c] == 0
        modifies myreq
      {
        myreq[i] := i;
      }
      request[cores] := Granted;
      tail := cores;
    }

    /** First write of `clh_lock_acquire`. */
    method TellSuccessorToWait(cpu: Core)
      requires Valid() && cpu < |point| && point[cpu] == Idle
      modifies request, this`point
      ensures Valid() && Snapshot() == Step(old(Snapshot()), cpu)
    {
      request[myreq[cpu]] := Pending;
      point := point[cpu := Marked];
    }

    /** The atomic exchange of `clh_lock_acquire`. */
    method Enqueue(cpu: Core)
      requires Valid() && cpu < |point| && point[cpu] == Marked
      modifies watch, this`tail, this`point
      ensures Valid() && Snapshot() == Step(old(Snapshot()), cpu)
    {
      var previous := tail;
      tail := myreq[cpu];
      watch[cpu] := previous;
      point := point[cpu := Waiting];
    }

    /** One test of the spin loop of `clh_lock_acquire`. */
    method Poll(cpu: Core) returns (acquired: bool)
      requires Valid() && cpu < |point| && point[cpu] == Waiting
      modifies this`point
      ensures Valid() && Snapshot() == Step(old(Snapshot()), cpu)
      ensures acquired <==> point[cpu] == Holding
    {
      acquired := request[watch[cpu]] == Granted;
      if acquired {
        point := point[cpu := Holding];
      }
    }

    /** First write of `clh_lock_release`. */
    method PassToSuccessor(cpu: Core)
      requires Valid() && cpu < |point| && point[cpu] == Holding
      modifies request, this`point
      ensures Valid() && Snapshot() == Step(old(Snapshot()), cpu)
    {
      request[myreq[cpu]] := Granted;
      point := point[cpu := Releasing];
    }

    /** Second write of `clh_lock_release`. */
    method AdoptWatched(cpu: Core)
      requires Valid() && cpu < |point| && point[cpu] == Releasing
      modifies myreq, this`point
      ensures Valid() && Snapshot() == Step(old(Snapshot()), cpu)
    {
      myreq[cpu] := watch[cpu];
      point := point[cpu := Idle];
    }

    method IsSelfInQueue(cpu: Core) returns (inQueue: bool)
      requires Valid() && cpu < |point|
      ensures inQueue == SelfInQueue(Snapshot(), cpu)
    {
      inQueue := request[myreq[cpu]] == Pending;
    }
  }
}
