/** runBlockTxScheduler of daemon/processing/block_scheduler.go over every order of results, retries and
    cancellation. */
module Scheduler {
  import opened Collections
  import opened TxGraph
  import opened BlockTxGraphs

  datatype Graph = Graph(order: seq<TxId>, edges: set<Edge>, children: map<TxId, seq<Edge>>) {
    ghost predicate WellFormed() {
      && Distinct(order) && ListsEdges(edges, children)
      && (forall e :: e in edges ==> e.parent in order && e.child in order && e.parent != e.child)
    }
    function ChildrenOf(t: TxId): seq<Edge> {
      if t in children then children[t] else []
    }
  }

  /** Where a transaction is; Dropped is failed for good, or finished after the run was given up. */
  datatype Phase = Blocked | Ready | Active | Retrying | Completed | Dropped

  datatype Sched = Sched(
    unresolved: map<TxId, int>,
    ready: seq<TxId>,
    phase: map<TxId, Phase>,
    attempts: map<TxId, nat>, // failed attempts
    starts: map<TxId, nat>, // times handed to a worker
    terminal: bool) // terminalErr is set
  {
    predicate In(t: TxId, p: Phase) { t in phase && phase[t] == p }
    /** Transactions with a worker whose result has not been received. */
    function ActiveSet(): set<TxId> { set t | t in phase && phase[t] == Active }
    function PhasesReleased(r: seq<TxId>): map<TxId, Phase> {
      map t | t in phase :: if phase[t] == Blocked && t in r then Ready else phase[t]
    }
  }

  datatype Step =
    | Dispatch
    | Succeeds(t: TxId)
    | FailsRetryably(t: TxId)
    | FailsForGood(t: TxId)
    | RetryDue(t: TxId)
    | Cancelled
    | Stall
    | Drain(t: TxId) // a result received after terminalErr is set

  datatype Limits = Limits(workers: nat, maxFailures: nat)

  /** Nothing is running, ready or waiting for a retry. */
  predicate Quiet(s: Sched) {
    s.ready == [] && forall t :: t in s.phase ==> s.phase[t] != Active && s.phase[t] != Retrying
  }

  predicate Can(g: Graph, l: Limits, s: Sched, a: Step) {
    match a
    case Dispatch => !s.terminal && s.ready != [] && |s.ActiveSet()| < l.workers
    case Succeeds(t) => !s.terminal && s.In(t, Active) && forall e :: e in g.ChildrenOf(t) ==> e.child in s.unresolved
    case FailsRetryably(t) => !s.terminal && s.In(t, Active)
    case FailsForGood(t) => !s.terminal && s.In(t, Active)
    case RetryDue(t) => !s.terminal && s.In(t, Retrying)
    case Cancelled => !s.terminal && exists t :: t in g.order && !s.In(t, Completed) // the loop is still running
    case Stall => !s.terminal && Quiet(s) && exists t :: t in g.order && !s.In(t, Completed)
    case Drain(t) => s.terminal && s.In(t, Active)
  }

  function Count(m: map<TxId, nat>, t: TxId): nat {
    if t in m then m[t] else 0
  }

  function Move(s: Sched, t: TxId, p: Phase): Sched {
    s.(phase := s.phase[t := p])
  }

  /** The result of t is a success: releaseChildren. */
  function Complete(g: Graph, s: Sched, t: TxId): Sched
    requires forall e :: e in g.ChildrenOf(t) ==> e.child in s.unresolved
  {
    var r := Release(g.ChildrenOf(t), s.unresolved, s.ready);
    var u := Move(s, t, Completed);
    u.(unresolved := r.0, ready := r.1, phase := u.PhasesReleased(r.1))
  }

  function Do(g: Graph, l: Limits, s: Sched, a: Step): Sched
    requires Can(g, l, s, a)
  {
    match a
    case Dispatch =>
      var t := s.ready[0];
      Move(s, t, Active).(ready := s.ready[1..], starts := s.starts[t := Count(s.starts, t) + 1])
    case Succeeds(t) =>
      Complete(g, s, t)
    case FailsRetryably(t) =>
      var failed := Count(s.attempts, t) + 1;
      if failed > l.maxFailures then Move(s, t, Dropped).(attempts := s.attempts[t := failed], terminal := true)
      else Move(s, t, Retrying).(attempts := s.attempts[t := failed])
    case FailsForGood(t) =>
      Move(s, t, Dropped).(attempts := s.attempts[t := Count(s.attempts, t) + 1], terminal := true)
    case RetryDue(t) => Move(s, t, Ready).(ready := s.ready + [t])
    case Cancelled => s.(terminal := true)
    case Stall => s.(terminal := true)
    case Drain(t) => Move(s, t, Dropped)
  }

  /** The state in which buildDependencies leaves the graph. */
  ghost predicate Start(g: Graph, s: Sched) {
    && g.WellFormed() && CountsEdges(g.order, g.edges, s.unresolved)
    && Distinct(s.ready) && (forall id :: id in s.ready <==> id in g.order && s.unresolved[id] == 0)
    && s.phase == (map id | id in s.unresolved :: if id in s.ready then Ready else Blocked)
    && s.attempts == map[] && s.starts == map[] && !s.terminal
  }

  predicate Runs(g: Graph, l: Limits, s: Sched, run: seq<Step>)
    decreases run
  {
    run == [] || (Can(g, l, s, run[0]) && Runs(g, l, Do(g, l, s, run[0]), run[1..]))
  }

  function After(g: Graph, l: Limits, s: Sched, run: seq<Step>): Sched
    requires Runs(g, l, s, run)
    decreases run
  {
    if run == [] then s else After(g, l, Do(g, l, s, run[0]), run[1..])
  }

  // ---- what releaseChildren does ----

  function Into(es: seq<Edge>, c: TxId): set<Edge> {
    set e | e in es && e.child == c
  }

  lemma IntoTail(es: seq<Edge>, c: TxId)
    requires es != [] && Distinct(es)
    ensures |Into(es, c)| == |Into(es[1..], c)| + if es[0].child == c then 1 else 0
  {
    assert es[0] !in es[1..];
    assert es == [es[0]] + es[1..];
    if es[0].child == c {
      assert Into(es, c) == Into(es[1..], c) + {es[0]};
    } else {
      assert Into(es, c) == Into(es[1..], c);
    }
  }

  /** c loses one unresolved parent edge for each edge, and is made ready when none is left. */
  ghost predicate ReleasesAt(es: seq<Edge>, unresolved: map<TxId, int>, ready: seq<TxId>, u: map<TxId, int>,
                             r: seq<TxId>, c: TxId)
    requires u.Keys == unresolved.Keys
  {
    && (c in unresolved ==> u[c] == unresolved[c] - |Into(es, c)|)
    && (c in r <==> c in ready || (c in unresolved && Into(es, c) != {} && u[c] == 0))
  }

  ghost predicate Releases(es: seq<Edge>, unresolved: map<TxId, int>, ready: seq<TxId>, u: map<TxId, int>,
                           r: seq<TxId>) {
    && u.Keys == unresolved.Keys && Distinct(r)
    && forall c :: ReleasesAt(es, unresolved, ready, u, r, c)
  }

  lemma ReleasesStepAt(es: seq<Edge>, unresolved: map<TxId, int>, ready: seq<TxId>, u: map<TxId, int>, r: seq<TxId>,
                       c: TxId)
    requires es != [] && Distinct(es) && es[0].child in unresolved && es[0].child !in ready
    requires c in unresolved ==> |Into(es, c)| <= unresolved[c]
    requires u.Keys == unresolved.Keys
    requires var c0 := es[0].child; var u0 := unresolved[c0 := unresolved[c0] - 1];
             ReleasesAt(es[1..], u0, if u0[c0] == 0 then ready + [c0] else ready, u, r, c)
    ensures ReleasesAt(es, unresolved, ready, u, r, c)
  {
    var c0 := es[0].child;
    IntoTail(es, c);
    if c == c0 {
      assert es[0] in Into(es, c0);
      if unresolved[c0] == 1 {
        assert Into(es[1..], c0) == {};
      }
    } else {
      assert es == [es[0]] + es[1..];
      assert Into(es, c) == Into(es[1..], c);
    }
  }

  /** No child loses more edges than it has. */
  ghost predicate Covers(es: seq<Edge>, unresolved: map<TxId, int>) {
    && (forall e :: e in es ==> e.child in unresolved)
    && (forall c :: c in unresolved ==> |Into(es, c)| <= unresolved[c])
  }

  lemma CoversTail(es: seq<Edge>, unresolved: map<TxId, int>, ready: seq<TxId>)
    requires es != [] && Distinct(es) && Covers(es, unresolved) && (forall e :: e in es ==> e.child !in ready)
    ensures var c0 := es[0].child;
            var u0 := unresolved[c0 := unresolved[c0] - 1];
            && Covers(es[1..], u0)
            && (forall e :: e in es[1..] ==> e.child !in if u0[c0] == 0 then ready + [c0] else ready)
  {
    var c0 := es[0].child;
    var u0 := unresolved[c0 := unresolved[c0] - 1];
    forall c | c in unresolved
      ensures |Into(es[1..], c)| <= u0[c]
    {
      IntoTail(es, c);
    }
    forall e | e in es[1..]
      ensures e.child in u0 && (u0[c0] == 0 ==> e.child != c0) && e.child !in ready
    {
      assert e in es && e in Into(es[1..], e.child);
    }
  }

  lemma ReleasesFirst(es: seq<Edge>, unresolved: map<TxId, int>, ready: seq<TxId>, u: map<TxId, int>, r: seq<TxId>)
    requires es != [] && Distinct(es) && Covers(es, unresolved) && es[0].child in unresolved && es[0].child !in ready
    requires var c0 := es[0].child; var u0 := unresolved[c0 := unresolved[c0] - 1];
             Releases(es[1..], u0, if u0[c0] == 0 then ready + [c0] else ready, u, r)
    ensures Releases(es, unresolved, ready, u, r)
  {
    var c0 := es[0].child;
    var u0 := unresolved[c0 := unresolved[c0] - 1];
    forall c
      ensures ReleasesAt(es, unresolved, ready, u, r, c)
    {
      assert ReleasesAt(es[1..], u0, if u0[c0] == 0 then ready + [c0] else ready, u, r, c);
      ReleasesStepAt(es, unresolved, ready, u, r, c);
    }
  }

  lemma {:induction false} ReleaseCounts(es: seq<Edge>, unresolved: map<TxId, int>, ready: seq<TxId>)
    requires Distinct(es) && Covers(es, unresolved)
    requires Distinct(ready) && (forall e :: e in es ==> e.child !in ready)
    ensures var ur := Release(es, unresolved, ready); Releases(es, unresolved, ready, ur.0, ur.1)
  {
    if es == [] {
      assert forall c :: Into(es, c) == {};
    } else {
      var c0 := es[0].child;
      var u0 := unresolved[c0 := unresolved[c0] - 1];
      var r0 := if u0[c0] == 0 then ready + [c0] else ready;
      CoversTail(es, unresolved, ready);
      ReleaseCounts(es[1..], u0, r0);
      ReleasesFirst(es, unresolved, ready, Release(es[1..], u0, r0).0, Release(es[1..], u0, r0).1);
    }
  }

  // ---- the invariant ----

  /** The edges into t whose parent has not completed. */
  function Open(g: Graph, s: Sched, t: TxId): set<Edge> {
    set e | e in g.edges && e.child == t && !s.In(e.parent, Completed)
  }

  /** ready lists exactly the transactions in that phase, once each. */
  ghost predicate Queued(s: Sched) {
    Distinct(s.ready) && forall t :: t in s.ready <==> s.In(t, Ready)
  }

  /** unresolved counts the open edges, and a transaction is blocked exactly while it has some. */
  ghost predicate Tracked(g: Graph, s: Sched) {
    && (forall t :: t in s.unresolved <==> t in g.order)
    && (forall t :: t in s.phase <==> t in g.order)
    && (forall t :: t in g.order ==> s.unresolved[t] == |Open(g, s, t)|)
    && (forall t :: t in g.order ==> (s.phase[t] == Blocked <==> s.unresolved[t] != 0))
  }

  predicate BoundedAt(l: Limits, s: Sched, t: TxId)
    requires t in s.phase
  {
    var failed, started := Count(s.attempts, t), Count(s.starts, t);
    match s.phase[t]
    case Blocked => failed == started == 0
    case Ready => failed == started <= l.maxFailures
    case Retrying => failed == started <= l.maxFailures
    case Active => started == failed + 1 && failed <= l.maxFailures
    case Completed => started == failed + 1 && failed <= l.maxFailures
    case Dropped => started <= l.maxFailures + 1
  }

  ghost predicate Bounded(l: Limits, s: Sched) {
    && (forall t :: t in s.phase ==> BoundedAt(l, s, t))
    && (forall t :: t in s.phase && s.phase[t] == Dropped ==> s.terminal)
  }

  ghost predicate Inv(g: Graph, l: Limits, s: Sched) {
    g.WellFormed() && Queued(s) && Tracked(g, s) && Bounded(l, s)
  }

  lemma StartTracked(g: Graph, s: Sched)
    requires Start(g, s)
    ensures Tracked(g, s) && Queued(s)
  {
    forall t | t in g.order
      ensures s.unresolved[t] == |Open(g, s, t)|
      ensures s.phase[t] == Blocked <==> s.unresolved[t] != 0
    {
      assert Open(g, s, t) == EdgesInto(g.edges, t);
    }
  }

  lemma StartInv(g: Graph, l: Limits, s: Sched)
    requires Start(g, s)
    ensures Inv(g, l, s)
  {
    StartTracked(g, s);
    forall t | t in s.phase
      ensures BoundedAt(l, s, t) && s.phase[t] != Dropped
    {
    }
  }

  /** Completing t closes exactly the edges releaseChildren walks over. */
  lemma ClosesChildren(g: Graph, s: Sched, u: Sched, t: TxId, c: TxId)
    requires g.WellFormed() && s.In(t, Active) && u.In(t, Completed)
    requires forall x :: x != t ==> (s.In(x, Completed) <==> u.In(x, Completed))
    ensures var es := g.ChildrenOf(t);
            Into(es, c) <= Open(g, s, c) && Open(g, u, c) == Open(g, s, c) - Into(es, c)
            && |Open(g, u, c)| == |Open(g, s, c)| - |Into(es, c)|
  {
    var es := g.ChildrenOf(t);
    forall e
      ensures e in Into(es, c) <==> e in g.edges && e.child == c && e.parent == t
    {
    }
    assert Open(g, u, c) == Open(g, s, c) - Into(es, c);
    SubsetSize(Into(es, c), Open(g, s, c));
  }

  lemma ChildrenAreBlocked(g: Graph, l: Limits, s: Sched, t: TxId)
    requires Inv(g, l, s) && s.In(t, Active)
    ensures var es := g.ChildrenOf(t);
            && (forall c :: c in s.unresolved ==> |Into(es, c)| <= s.unresolved[c])
            && (forall e :: e in es ==> e.child in s.unresolved && e.child !in s.ready && s.phase[e.child] == Blocked)
  {
    var es := g.ChildrenOf(t);
    var u := Move(s, t, Completed);
    forall c | c in s.unresolved
      ensures |Into(es, c)| <= s.unresolved[c]
    {
      ClosesChildren(g, s, u, t, c);
    }
    forall e | e in es
      ensures e.child in s.unresolved && e.child !in s.ready && s.phase[e.child] == Blocked
    {
      assert e in g.edges && e in Open(g, s, e.child);
      assert s.unresolved[e.child] != 0;
    }
  }

  /** What one completion does to one other transaction. */
  lemma ReleasedAt(s: Sched, es: seq<Edge>, u: Sched, t: TxId, c: TxId)
    requires Queued(s) && s.In(t, Active) && c in s.phase && s.phase.Keys == s.unresolved.Keys
    requires s.phase[c] == Blocked <==> s.unresolved[c] != 0
    requires s.unresolved[t] == 0 && |Into(es, c)| <= s.unresolved[c]
    requires Releases(es, s.unresolved, s.ready, u.unresolved, u.ready)
    requires u.phase == Move(s, t, Completed).PhasesReleased(u.ready)
    ensures u.phase[c] == Blocked <==> u.unresolved[c] != 0
    ensures c in u.ready <==> u.phase[c] == Ready
  {
    assert ReleasesAt(es, s.unresolved, s.ready, u.unresolved, u.ready, c);
    assert c in s.ready <==> s.In(c, Ready);
    if s.unresolved[c] == 0 {
      assert Into(es, c) == {};
    }
  }

  lemma CompleteReleases(g: Graph, l: Limits, s: Sched, t: TxId)
    requires Inv(g, l, s) && Can(g, l, s, Succeeds(t))
    ensures var u := Complete(g, s, t);
            Releases(g.ChildrenOf(t), s.unresolved, s.ready, u.unresolved, u.ready)
  {
    ChildrenAreBlocked(g, l, s, t);
    ReleaseCounts(g.ChildrenOf(t), s.unresolved, s.ready);
  }

  lemma CompletesOnly(g: Graph, l: Limits, s: Sched, t: TxId)
    requires Inv(g, l, s) && Can(g, l, s, Succeeds(t))
    ensures var u := Complete(g, s, t);
            s.In(t, Active) && u.In(t, Completed) && forall x :: x != t ==> (s.In(x, Completed) <==> u.In(x, Completed))
  {
  }

  lemma CompletesCount(g: Graph, l: Limits, s: Sched, t: TxId, c: TxId)
    requires Inv(g, l, s) && Can(g, l, s, Succeeds(t)) && c in g.order
    ensures var u := Complete(g, s, t);
            c in u.unresolved && u.unresolved[c] == |Open(g, u, c)| && |Into(g.ChildrenOf(t), c)| <= s.unresolved[c]
  {
    var u := Complete(g, s, t);
    CompleteReleases(g, l, s, t);
    assert ReleasesAt(g.ChildrenOf(t), s.unresolved, s.ready, u.unresolved, u.ready, c);
    CompletesOnly(g, l, s, t);
    ClosesChildren(g, s, u, t, c);
  }

  lemma CompletesPhase(g: Graph, l: Limits, s: Sched, t: TxId, c: TxId)
    requires Inv(g, l, s) && Can(g, l, s, Succeeds(t)) && c in g.order
    ensures var u := Complete(g, s, t);
            && c in u.unresolved && c in u.phase
            && (u.phase[c] == Blocked <==> u.unresolved[c] != 0)
            && (c in u.ready <==> u.phase[c] == Ready)
  {
    CompleteReleases(g, l, s, t);
    CompletesCount(g, l, s, t, c);
    assert s.phase.Keys == s.unresolved.Keys;
    ReleasedAt(s, g.ChildrenOf(t), Complete(g, s, t), t, c);
  }

  lemma CompleteTracked(g: Graph, l: Limits, s: Sched, t: TxId)
    requires Inv(g, l, s) && Can(g, l, s, Succeeds(t))
    ensures Queued(Complete(g, s, t)) && Tracked(g, Complete(g, s, t))
  {
    var u := Complete(g, s, t);
    CompleteReleases(g, l, s, t);
    forall c | c in g.order
      ensures c in u.unresolved && c in u.phase && u.unresolved[c] == |Open(g, u, c)|
      ensures u.phase[c] == Blocked <==> u.unresolved[c] != 0
      ensures c in u.ready <==> u.phase[c] == Ready
    {
      CompletesCount(g, l, s, t, c);
      CompletesPhase(g, l, s, t, c);
    }
    forall c
      ensures c in u.ready <==> u.In(c, Ready)
    {
      assert ReleasesAt(g.ChildrenOf(t), s.unresolved, s.ready, u.unresolved, u.ready, c);
      assert c in s.ready <==> s.In(c, Ready);
    }
  }

  lemma CompleteBounded(g: Graph, l: Limits, s: Sched, t: TxId)
    requires Inv(g, l, s) && Can(g, l, s, Succeeds(t))
    ensures Bounded(l, Complete(g, s, t))
  {
    var u := Complete(g, s, t);
    forall c | c in u.phase
      ensures BoundedAt(l, u, c) && (u.phase[c] == Dropped ==> u.terminal)
    {
      assert BoundedAt(l, s, c);
    }
  }

  /** Steps that neither complete a transaction nor change what is unresolved. */
  lemma SameOpen(g: Graph, s: Sched, u: Sched)
    requires Tracked(g, s) && s.unresolved == u.unresolved && s.phase.Keys == u.phase.Keys
    requires forall t :: t in s.phase ==>
               (s.phase[t] == Completed <==> u.phase[t] == Completed)
                 && (s.phase[t] == Blocked <==> u.phase[t] == Blocked)
    ensures Tracked(g, u)
  {
    forall t | t in g.order
      ensures Open(g, u, t) == Open(g, s, t)
    {
    }
  }

  lemma DispatchInv(g: Graph, l: Limits, s: Sched)
    requires Inv(g, l, s) && Can(g, l, s, Dispatch)
    ensures Inv(g, l, Do(g, l, s, Dispatch))
  {
    var u := Do(g, l, s, Dispatch);
    var t0 := s.ready[0];
    assert s.ready == [t0] + u.ready;
    assert t0 !in u.ready;
    assert s.In(t0, Ready);
    SameOpen(g, s, u);
    forall t
      ensures t in u.ready <==> u.In(t, Ready)
    {
      assert t in s.ready <==> s.In(t, Ready);
      assert t in u.ready <==> t in s.ready && t != t0;
    }
    forall t | t in u.phase
      ensures BoundedAt(l, u, t) && (u.phase[t] == Dropped ==> u.terminal)
    {
      assert BoundedAt(l, s, t);
    }
  }

  lemma RetryInv(g: Graph, l: Limits, s: Sched, t0: TxId)
    requires Inv(g, l, s) && Can(g, l, s, RetryDue(t0))
    ensures Inv(g, l, Do(g, l, s, RetryDue(t0)))
  {
    var u := Do(g, l, s, RetryDue(t0));
    SameOpen(g, s, u);
    assert !s.In(t0, Ready);
    assert t0 !in s.ready;
    forall t
      ensures t in u.ready <==> u.In(t, Ready)
    {
      assert t in s.ready <==> s.In(t, Ready);
    }
    forall t | t in u.phase
      ensures BoundedAt(l, u, t) && (u.phase[t] == Dropped ==> u.terminal)
    {
      assert BoundedAt(l, s, t);
    }
  }

  /** A result that is not a success, and the end of the run. */
  predicate Fails(a: Step) {
    !a.Dispatch? && !a.Succeeds? && !a.RetryDue?
  }

  lemma LeavesActive(g: Graph, s: Sched, u: Sched, t0: TxId, p: Phase)
    requires Queued(s) && Tracked(g, s) && u.ready == s.ready && u.unresolved == s.unresolved
    requires u.phase == s.phase || (s.In(t0, Active) && (p == Retrying || p == Dropped) && u.phase == s.phase[t0 := p])
    ensures Queued(u) && Tracked(g, u)
  {
    SameOpen(g, s, u);
    forall t
      ensures t in u.ready <==> u.In(t, Ready)
    {
      assert t in s.ready <==> s.In(t, Ready);
    }
  }

  lemma FailsTracked(g: Graph, l: Limits, s: Sched, a: Step)
    requires Inv(g, l, s) && Can(g, l, s, a) && Fails(a)
    ensures Queued(Do(g, l, s, a)) && Tracked(g, Do(g, l, s, a))
  {
    var u := Do(g, l, s, a);
    match a
    case FailsRetryably(t) => LeavesActive(g, s, u, t, u.phase[t]);
    case FailsForGood(t) => LeavesActive(g, s, u, t, Dropped);
    case Drain(t) => LeavesActive(g, s, u, t, Dropped);
    case _ => LeavesActive(g, s, u, "", Dropped);
  }

  lemma FailsBounded(g: Graph, l: Limits, s: Sched, a: Step)
    requires Inv(g, l, s) && Can(g, l, s, a) && Fails(a)
    ensures Bounded(l, Do(g, l, s, a))
  {
    var u := Do(g, l, s, a);
    forall t | t in u.phase
      ensures BoundedAt(l, u, t) && (u.phase[t] == Dropped ==> u.terminal)
    {
      assert BoundedAt(l, s, t);
    }
  }

  lemma StepInv(g: Graph, l: Limits, s: Sched, a: Step)
    requires Inv(g, l, s) && Can(g, l, s, a)
    ensures Inv(g, l, Do(g, l, s, a))
  {
    match a
    case Dispatch => DispatchInv(g, l, s);
    case Succeeds(t) => CompleteTracked(g, l, s, t); CompleteBounded(g, l, s, t);
    case RetryDue(t) => RetryInv(g, l, s, t);
    case _ => FailsTracked(g, l, s, a); FailsBounded(g, l, s, a);
  }

  lemma {:induction false} InvHolds(g: Graph, l: Limits, s: Sched, run: seq<Step>)
    requires Inv(g, l, s) && Runs(g, l, s, run)
    ensures Inv(g, l, After(g, l, s, run))
    decreases run
  {
    if run == [] {
    } else {
      StepInv(g, l, s, run[0]);
      InvHolds(g, l, Do(g, l, s, run[0]), run[1..]);
    }
  }

  // ---- what the workers may rely on ----

  /** Everything that depends on an incomplete transaction is blocked. */
  lemma BehindIsBlocked(g: Graph, l: Limits, s: Sched, a: TxId, t: TxId)
    requires Inv(g, l, s) && Before(g.edges, a, t) && !s.In(a, Completed)
    ensures s.In(t, Blocked)
  {
    var behind := {a} + set x | x in s.phase && s.phase[x] == Blocked;
    forall e | e in g.edges && e.parent in behind
      ensures s.In(e.child, Blocked)
    {
      assert e in Open(g, s, e.child);
      assert s.unresolved[e.child] != 0;
    }
    assert Closed(g.edges, behind);
  }

  /** A transaction leaves Blocked only when everything it depends on, directly or not, has completed. */
  lemma PredecessorsCompleted(g: Graph, l: Limits, s: Sched, a: TxId, t: TxId)
    requires Inv(g, l, s) && Before(g.edges, a, t) && !s.In(t, Blocked)
    ensures s.In(a, Completed)
  {
    if !s.In(a, Completed) {
      BehindIsBlocked(g, l, s, a, t);
    }
  }

  lemma {:induction false} CompletedBySucceeds(g: Graph, l: Limits, s: Sched, run: seq<Step>, t: TxId)
    requires Runs(g, l, s, run) && !s.In(t, Completed) && After(g, l, s, run).In(t, Completed)
    ensures Succeeds(t) in run
    decreases run
  {
    if run == [] {
    } else {
      var u := Do(g, l, s, run[0]);
      if u.In(t, Completed) {
        assert run[0] == Succeeds(t);
      } else {
        CompletedBySucceeds(g, l, u, run[1..], t);
      }
    }
  }

  /** When a transaction is no longer blocked, everything it depends on, directly or not, has succeeded before. */
  lemma DependenciesSucceeded(g: Graph, l: Limits, s: Sched, run: seq<Step>, a: TxId, t: TxId)
    requires Start(g, s) && Runs(g, l, s, run)
    ensures Before(g.edges, a, t) && t in g.order && !After(g, l, s, run).In(t, Blocked) ==> Succeeds(a) in run
  {
    StartInv(g, l, s);
    InvHolds(g, l, s, run);
    if Before(g.edges, a, t) && t in g.order && !After(g, l, s, run).In(t, Blocked) {
      PredecessorsCompleted(g, l, After(g, l, s, run), a, t);
      CompletedBySucceeds(g, l, s, run, a);
    }
  }

  /** The state in which a block's graph enters the scheduler. */
  function GraphOf(b: BlockTxGraph): Graph
    reads b
  {
    Graph(b.order, b.edgeSet, b.children)
  }

  function Initially(b: BlockTxGraph): Sched
    reads b
  {
    Sched(b.unresolved, b.ready, map id | id in b.unresolved :: if id in b.ready then Ready else Blocked, map[], map[],
          false)
  }

  lemma BuiltStarts(b: BlockTxGraph)
    requires b.Built()
    ensures Start(GraphOf(b), Initially(b))
  {
  }

  /** The parallel run of a block is serializable in block order: when a transaction is handed to a worker, every
      earlier transaction of the block that reads or writes a claim it writes, or writes a claim it reads, has
      succeeded. */
  lemma ConflictsInBlockOrder(b: BlockTxGraph, l: Limits, run: seq<Step>, i: nat, k: nat, j: nat, m: nat)
    requires b.Built() && Runs(GraphOf(b), l, Initially(b), run)
    requires i < j < |b.order|
    requires var e, f := b.txById[b.order[i]].events, b.txById[b.order[j]].events;
             k < |e| && m < |f| && e[k].claimId == f[m].claimId && (e[k].writer || f[m].writer)
    requires After(GraphOf(b), l, Initially(b), run).In(b.order[j], Active)
    ensures Succeeds(b.order[i]) in run
  {
    var g, s := GraphOf(b), Initially(b);
    BuiltStarts(b);
    assert EventsConflict(b.order, b.txById, i, k, j, m);
    BeforeIsReaches(g.edges, b.order[i], b.order[j]);
    DependenciesSucceeded(g, l, s, run, b.order[i], b.order[j]);
  }

  /** The same for outputs: when a transaction is handed to a worker, the transactions of the block it spends have
      succeeded. */
  lemma InputsSucceeded(b: BlockTxGraph, l: Limits, run: seq<Step>, parent: TxId, t: TxId)
    requires b.Built() && Runs(GraphOf(b), l, Initially(b), run)
             && After(GraphOf(b), l, Initially(b), run).In(t, Active)
    requires t in b.txById && parent in b.txById[t].inputs && parent in b.txById && parent != t
    ensures Succeeds(parent) in run
  {
    var g := GraphOf(b);
    BuiltStarts(b);
    var i :| 0 <= i < |b.order| && b.order[i] == t;
    var e := Edge(parent, t, Utxo);
    assert b.IsUtxoEdge(e, |b.order|);
    assert Reaches(g.edges, parent, e.parent);
    assert Before(g.edges, parent, t);
    DependenciesSucceeded(g, l, Initially(b), run, parent, t);
  }

  /** No transaction is handed to a worker more than maxFailures + 1 times, nor again once it has succeeded. */
  lemma StartsAreBounded(g: Graph, l: Limits, s: Sched, run: seq<Step>, t: TxId)
    requires Start(g, s) && Runs(g, l, s, run) && t in g.order
    ensures var u := After(g, l, s, run);
            && Count(u.starts, t) <= l.maxFailures + 1
            && (u.In(t, Completed) ==> Count(u.starts, t) == Count(u.attempts, t) + 1)
            && (u.In(t, Ready) || u.In(t, Retrying) ==> Count(u.starts, t) == Count(u.attempts, t) <= l.maxFailures)
  {
    StartInv(g, l, s);
    InvHolds(g, l, s, run);
    assert BoundedAt(l, After(g, l, s, run), t);
  }

  lemma ActiveStep(g: Graph, l: Limits, s: Sched, a: Step)
    requires Can(g, l, s, a) && |s.ActiveSet()| <= l.workers
    ensures |Do(g, l, s, a).ActiveSet()| <= l.workers
  {
    var u := Do(g, l, s, a);
    if a.Dispatch? {
      SubsetSize(u.ActiveSet(), s.ActiveSet() + {s.ready[0]});
    } else {
      SubsetSize(u.ActiveSet(), s.ActiveSet());
    }
  }

  /** In every run at most as many transactions are with a worker as there are workers. */
  lemma {:induction false} ActiveIsBounded(g: Graph, l: Limits, s: Sched, run: seq<Step>)
    requires Runs(g, l, s, run) && |s.ActiveSet()| <= l.workers
    ensures |After(g, l, s, run).ActiveSet()| <= l.workers
    decreases run
  {
    if run == [] {
    } else {
      ActiveStep(g, l, s, run[0]);
      ActiveIsBounded(g, l, Do(g, l, s, run[0]), run[1..]);
    }
  }

  // ---- when the graph stalls ----

  ghost predicate HasParentIn(edges: set<Edge>, t: TxId, s: set<TxId>) {
    exists e :: e in edges && e.child == t && e.parent in s
  }

  ghost function Above(edges: set<Edge>, stuck: set<TxId>, t: TxId): set<TxId> {
    set a | a in stuck && Before(edges, a, t)
  }

  lemma ParentAbove(edges: set<Edge>, stuck: set<TxId>, a: TxId, t: TxId)
    requires HasParentIn(edges, a, stuck) && (a == t || Before(edges, a, t))
    ensures HasParentIn(edges, a, Above(edges, stuck, t))
  {
    var e :| e in edges && e.child == a && e.parent in stuck;
    assert Reaches(edges, e.parent, e.parent);
    assert Before(edges, e.parent, a);
    if a != t { BeforeTransitive(edges, e.parent, a, t); }
  }

  ghost predicate AllHaveParents(edges: set<Edge>, s: set<TxId>) {
    forall t {:trigger HasParentIn(edges, t, s)} :: t in s ==> HasParentIn(edges, t, s)
  }

  lemma OneAbove(edges: set<Edge>, stuck: set<TxId>, t: TxId)
    requires HasParentIn(edges, t, stuck) && !Before(edges, t, t)
    ensures Above(edges, stuck, t) != {} && t !in Above(edges, stuck, t)
  {
    ParentAbove(edges, stuck, t, t);
  }

  lemma Climb(edges: set<Edge>, stuck: set<TxId>, t: TxId)
    requires AllHaveParents(edges, stuck)
    ensures AllHaveParents(edges, Above(edges, stuck, t))
  {
    forall a | a in Above(edges, stuck, t)
      ensures HasParentIn(edges, a, Above(edges, stuck, t))
    {
      assert HasParentIn(edges, a, stuck);
      ParentAbove(edges, stuck, a, t);
    }
  }

  /** Finitely many transactions, each with a parent among them, contain a cycle. */
  lemma {:induction false} FindCycle(edges: set<Edge>, stuck: set<TxId>)
    requires stuck != {} && AllHaveParents(edges, stuck)
    ensures Cyclic(edges)
    decreases |stuck|
  {
    var t :| t in stuck;
    if !Before(edges, t, t) {
      var above := Above(edges, stuck, t);
      assert HasParentIn(edges, t, stuck);
      OneAbove(edges, stuck, t);
      Climb(edges, stuck, t);
      SubsetSize(above, stuck);
      FindCycle(edges, above);
    }
  }

  /** A transaction on a cycle stays blocked. */
  lemma CycleIsBlocked(g: Graph, l: Limits, s: Sched, x: TxId)
    requires Inv(g, l, s) && Before(g.edges, x, x) && !s.In(x, Completed)
    ensures s.In(x, Blocked)
  {
    if !s.In(x, Blocked) {
      PredecessorsCompleted(g, l, s, x, x);
    }
  }

  lemma BlockedIsNotCompleted(g: Graph, l: Limits, s: Sched, a: Step, x: TxId)
    requires Can(g, l, s, a) && s.In(x, Blocked)
    ensures !Do(g, l, s, a).In(x, Completed)
  {
  }

  lemma {:induction false} CycleStaysBlocked(g: Graph, l: Limits, s: Sched, run: seq<Step>, x: TxId)
    requires Inv(g, l, s) && Runs(g, l, s, run) && Before(g.edges, x, x) && s.In(x, Blocked)
    ensures After(g, l, s, run).In(x, Blocked)
    decreases run
  {
    if run == [] {
    } else {
      StepInv(g, l, s, run[0]);
      BlockedIsNotCompleted(g, l, s, run[0], x);
      CycleIsBlocked(g, l, Do(g, l, s, run[0]), x);
      CycleStaysBlocked(g, l, Do(g, l, s, run[0]), run[1..], x);
    }
  }

  /** With nothing running, ready or retrying, the run is given up as stalled exactly when the edges have a cycle. */
  lemma StallsIffCyclic(g: Graph, l: Limits, s: Sched, run: seq<Step>)
    requires Start(g, s) && Runs(g, l, s, run)
    requires !After(g, l, s, run).terminal && Quiet(After(g, l, s, run))
    ensures Can(g, l, After(g, l, s, run), Stall) <==> Cyclic(g.edges)
  {
    StartInv(g, l, s);
    InvHolds(g, l, s, run);
    if Can(g, l, After(g, l, s, run), Stall) {
      StalledHasCycle(g, l, After(g, l, s, run));
    }
    if x :| Before(g.edges, x, x) {
      CycleIsBlocked(g, l, s, x);
      CycleStaysBlocked(g, l, s, run, x);
      BlockedStalls(g, l, After(g, l, s, run), x);
    }
  }

  lemma BlockedStalls(g: Graph, l: Limits, u: Sched, x: TxId)
    requires Inv(g, l, u) && !u.terminal && Quiet(u) && u.In(x, Blocked)
    ensures Can(g, l, u, Stall)
  {
    assert x in g.order && !u.In(x, Completed);
  }

  lemma StalledHasCycle(g: Graph, l: Limits, u: Sched)
    requires Inv(g, l, u) && Can(g, l, u, Stall)
    ensures Cyclic(g.edges)
  {
    var stuck := set t | t in u.phase && u.phase[t] != Completed;
    forall t | t in stuck
      ensures HasParentIn(g.edges, t, stuck)
    {
      assert t in u.ready <==> u.In(t, Ready);
      assert |Open(g, u, t)| != 0;
      var e :| e in Open(g, u, t);
      assert e.parent in stuck;
    }
    var t0 :| t0 in g.order && !u.In(t0, Completed);
    assert t0 in stuck;
    FindCycle(g.edges, stuck);
  }

  // ---- a block in spending order cannot stall ----

  ghost predicate Forward(order: seq<TxId>, e: Edge) {
    exists p, c :: 0 <= p < c < |order| && order[p] == e.parent && order[c] == e.child
  }

  lemma NotLater(order: seq<TxId>, p: nat, c: nat)
    requires Distinct(order) && p < c <= |order|
    ensures order[p] !in order[c..]
  {
  }

  lemma ReachesLater(order: seq<TxId>, edges: set<Edge>, c: nat, b: TxId)
    requires Distinct(order) && (forall e :: e in edges ==> Forward(order, e))
    requires c < |order| && Reaches(edges, order[c], b)
    ensures b in order[c..]
  {
    var later := set x | x in order[c..];
    forall f | f in edges && f.parent in later
      ensures f.child in later
    {
      var k :| c <= k < |order| && order[k] == f.parent;
      var p', c' :| 0 <= p' < c' < |order| && order[p'] == f.parent && order[c'] == f.child;
      assert p' == k;
      assert order[c..][c' - c] == f.child;
    }
    assert order[c..][0] == order[c];
    assert Closed(edges, later);
  }

  lemma ForwardIsAcyclic(order: seq<TxId>, edges: set<Edge>)
    requires Distinct(order) && forall e :: e in edges ==> Forward(order, e)
    ensures !Cyclic(edges)
  {
    if t :| Before(edges, t, t) {
      var e :| e in edges && Reaches(edges, t, e.parent) && e.child == t;
      var p, c :| 0 <= p < c < |order| && order[p] == e.parent && order[c] == t;
      NotLater(order, p, c);
      ReachesLater(order, edges, c, e.parent);
    }
  }

  /** No transaction of the block spends an output of a later one; a consensus rule of the chain. */
  ghost predicate InSpendingOrder(order: seq<TxId>, txById: map<TxId, Tx>)
    requires IsBlock(order, txById)
  {
    forall i, j :: 0 <= i <= j < |order| ==> i == j || order[j] !in txById[order[i]].inputs
  }

  /** The graph built for a block in spending order has no cycle, so its run never stalls. */
  lemma BlockGraphIsAcyclic(b: BlockTxGraph)
    requires b.Built() && InSpendingOrder(b.order, b.txById)
    ensures !Cyclic(b.edgeSet)
  {
    forall e | e in b.edgeSet
      ensures Forward(b.order, e)
    {
      if b.IsUtxoEdge(e, |b.order|) {
        var i :| 0 <= i < |b.order| && b.order[i] == e.child && e.parent in b.txById[b.order[i]].inputs;
        var j :| 0 <= j < |b.order| && b.order[j] == e.parent;
      } else {
        var i, k, j, m :| EventsConflict(b.order, b.txById, i, k, j, m) && b.order[i] == e.parent
                          && b.order[j] == e.child;
      }
    }
    ForwardIsAcyclic(b.order, b.edgeSet);
  }

  // ---- every run ends ----

  /** The steps t may still take. */
  function Weight(l: Limits, s: Sched, t: TxId): int {
    var left := 3 * (l.maxFailures + 2 - Count(s.attempts, t));
    if t !in s.phase then 0
    else match s.phase[t]
      case Blocked => left + 1
      case Ready => left
      case Active => left - 1
      case Retrying => left + 1
      case _ => 0
  }

  function Load(l: Limits, s: Sched, order: seq<TxId>): int {
    if order == [] then 0 else Weight(l, s, order[0]) + Load(l, s, order[1..])
  }

  function Left(g: Graph, l: Limits, s: Sched): int {
    Load(l, s, g.order) + if s.terminal then 0 else 1
  }

  lemma {:induction false} LoadFalls(l: Limits, s: Sched, u: Sched, order: seq<TxId>)
    requires forall t :: t in order ==> Weight(l, u, t) <= Weight(l, s, t)
    ensures Load(l, u, order) <= Load(l, s, order)
    ensures (exists t :: t in order && Weight(l, u, t) < Weight(l, s, t)) ==> Load(l, u, order) < Load(l, s, order)
  {
    if order == [] {
    } else {
      assert order == [order[0]] + order[1..];
      LoadFalls(l, s, u, order[1..]);
    }
  }

  lemma {:induction false} LoadIsNatural(l: Limits, s: Sched, order: seq<TxId>)
    requires forall t :: t in s.phase ==> BoundedAt(l, s, t)
    ensures Load(l, s, order) >= 0
  {
    if order == [] {
    } else {
      assert order[0] in s.phase ==> BoundedAt(l, s, order[0]);
      LoadIsNatural(l, s, order[1..]);
    }
  }

  lemma CompleteIsLighter(g: Graph, l: Limits, s: Sched, t: TxId, c: TxId)
    requires Inv(g, l, s) && Can(g, l, s, Succeeds(t)) && c in g.order
    ensures Weight(l, Complete(g, s, t), c) <= Weight(l, s, c)
    ensures c == t ==> Weight(l, Complete(g, s, t), c) < Weight(l, s, c)
  {
    assert BoundedAt(l, s, c);
  }

  /** The transaction a step is about, of those but completions, cancellations and stalls. */
  function Target(s: Sched, a: Step): TxId
    requires !a.Succeeds? && !a.Cancelled? && !a.Stall? && (a.Dispatch? ==> s.ready != [])
  {
    if a.Dispatch? then s.ready[0] else a.t
  }

  lemma TargetIsLighter(g: Graph, l: Limits, s: Sched, a: Step)
    requires Inv(g, l, s) && Can(g, l, s, a) && !a.Succeeds? && !a.Cancelled? && !a.Stall?
    ensures Weight(l, Do(g, l, s, a), Target(s, a)) < Weight(l, s, Target(s, a))
  {
    assert a.Dispatch? ==> s.In(s.ready[0], Ready);
    assert BoundedAt(l, s, Target(s, a));
  }

  lemma OthersWeighTheSame(g: Graph, l: Limits, s: Sched, a: Step, c: TxId)
    requires Can(g, l, s, a) && !a.Succeeds? && (!a.Cancelled? && !a.Stall? ==> c != Target(s, a))
    ensures Weight(l, Do(g, l, s, a), c) == Weight(l, s, c)
  {
  }

  lemma StepIsLighter(g: Graph, l: Limits, s: Sched, a: Step, c: TxId)
    requires Inv(g, l, s) && Can(g, l, s, a) && c in g.order && !a.Succeeds?
    ensures Weight(l, Do(g, l, s, a), c) <= Weight(l, s, c)
    ensures !a.Cancelled? && !a.Stall? && c == Target(s, a) ==> Weight(l, Do(g, l, s, a), c) < Weight(l, s, c)
  {
    if !a.Cancelled? && !a.Stall? && c == Target(s, a) {
      TargetIsLighter(g, l, s, a);
    } else {
      OthersWeighTheSame(g, l, s, a, c);
    }
  }

  lemma StepUsesUp(g: Graph, l: Limits, s: Sched, a: Step)
    requires Inv(g, l, s) && Can(g, l, s, a)
    ensures Left(g, l, Do(g, l, s, a)) < Left(g, l, s)
  {
    var u := Do(g, l, s, a);
    forall c | c in g.order
      ensures Weight(l, u, c) <= Weight(l, s, c)
    {
      if a.Succeeds? { CompleteIsLighter(g, l, s, a.t, c); } else { StepIsLighter(g, l, s, a, c); }
    }
    LoadFalls(l, s, u, g.order);
    if !a.Cancelled? && !a.Stall? {
      var t := if a.Dispatch? then s.ready[0] else a.t;
      assert a.Dispatch? ==> s.In(s.ready[0], Ready);
      assert t in g.order;
      if a.Succeeds? { CompleteIsLighter(g, l, s, t, t); } else { StepIsLighter(g, l, s, a, t); }
    }
  }

  lemma {:induction false} LeftBoundsRun(g: Graph, l: Limits, s: Sched, run: seq<Step>)
    requires Inv(g, l, s) && Runs(g, l, s, run)
    ensures |run| <= Left(g, l, s)
    decreases run
  {
    if run == [] {
      LoadIsNatural(l, s, g.order);
    } else {
      StepUsesUp(g, l, s, run[0]);
      StepInv(g, l, s, run[0]);
      LeftBoundsRun(g, l, Do(g, l, s, run[0]), run[1..]);
    }
  }

  lemma {:induction false} FullLoad(l: Limits, s: Sched, order: seq<TxId>)
    requires s.attempts == map[]
    ensures Load(l, s, order) <= |order| * (3 * l.maxFailures + 7)
  {
    if order == [] {
    } else {
      FullLoad(l, s, order[1..]);
      assert |order| * (3 * l.maxFailures + 7) == |order[1..]| * (3 * l.maxFailures + 7) + (3 * l.maxFailures + 7);
    }
  }

  /** The scheduler always ends, whatever fails and however often. */
  lemma RunsEnd(g: Graph, l: Limits, s: Sched, run: seq<Step>)
    requires Start(g, s) && Runs(g, l, s, run)
    ensures |run| <= |g.order| * (3 * l.maxFailures + 7) + 1
  {
    StartInv(g, l, s);
    LeftBoundsRun(g, l, s, run);
    FullLoad(l, s, g.order);
  }

  /** It never waits for nothing: until every transaction has completed or the run is given up, the scheduler can
      hand out a transaction or stall, or a worker or a retry timer can report. */
  lemma NeverStuck(g: Graph, l: Limits, s: Sched, run: seq<Step>) returns (a: Step)
    requires Start(g, s) && Runs(g, l, s, run) && l.workers >= 1
    requires var u := After(g, l, s, run); !u.terminal && exists t :: t in g.order && !u.In(t, Completed)
    ensures Can(g, l, After(g, l, s, run), a) && a != Cancelled
  {
    StartInv(g, l, s);
    InvHolds(g, l, s, run);
    a := Enabled(g, l, After(g, l, s, run));
  }

  lemma Enabled(g: Graph, l: Limits, u: Sched) returns (a: Step)
    requires Inv(g, l, u) && l.workers >= 1 && !u.terminal && exists t :: t in g.order && !u.In(t, Completed)
    ensures Can(g, l, u, a) && a != Cancelled
  {
    if t :| t in u.phase && u.phase[t] == Active {
      ChildrenAreBlocked(g, l, u, t);
      a := Succeeds(t);
    } else if t :| t in u.phase && u.phase[t] == Retrying {
      a := RetryDue(t);
    } else if u.ready == [] {
      a := Stall;
    } else {
      assert u.ActiveSet() == {};
      a := Dispatch;
    }
  }

  // ---- when a run is given up ----

  /** How often the transaction fails retryably. */
  function Failures(run: seq<Step>, t: TxId): nat {
    multiset(run)[FailsRetryably(t)]
  }

  /** A transaction fails for good, or fails retryably more often than the limit, or the run stalls or is
      cancelled. */
  ghost predicate GivesUp(l: Limits, run: seq<Step>) {
    (exists a :: a in run && IsFatal(a)) || exists t :: Failures(run, t) > l.maxFailures
  }

  predicate IsFatal(a: Step) {
    a.Cancelled? || a.Stall? || a.FailsForGood?
  }

  /** The same, counting on from the attempts that have failed before. */
  ghost predicate TooMany(l: Limits, attempts: map<TxId, nat>, run: seq<Step>) {
    exists t :: Count(attempts, t) + Failures(run, t) > l.maxFailures
  }

  ghost predicate Ends(l: Limits, attempts: map<TxId, nat>, run: seq<Step>) {
    (exists a :: a in run && IsFatal(a)) || TooMany(l, attempts, run)
  }

  ghost predicate WithinLimit(l: Limits, s: Sched) {
    s.terminal || forall t :: Count(s.attempts, t) <= l.maxFailures
  }

  lemma FailuresFirst(run: seq<Step>, t: TxId)
    requires run != []
    ensures Failures(run, t) == Failures(run[1..], t) + if run[0] == FailsRetryably(t) then 1 else 0
  {
    assert run == [run[0]] + run[1..];
  }

  lemma FatalFirst(run: seq<Step>)
    requires run != []
    ensures (exists a :: a in run && IsFatal(a)) <==> IsFatal(run[0]) || exists a :: a in run[1..] && IsFatal(a)
  {
    assert run == [run[0]] + run[1..];
    assert run[0] in run;
    if a :| a in run[1..] && IsFatal(a) {
      assert a in run;
    }
  }

  /** Failures are counted where they happen. */
  lemma TooManyFirst(g: Graph, l: Limits, s: Sched, run: seq<Step>)
    requires run != [] && Can(g, l, s, run[0]) && !run[0].FailsForGood?
    ensures TooMany(l, s.attempts, run) <==> TooMany(l, Do(g, l, s, run[0]).attempts, run[1..])
  {
    var u := Do(g, l, s, run[0]);
    forall t
      ensures Count(s.attempts, t) + Failures(run, t) == Count(u.attempts, t) + Failures(run[1..], t)
    {
      FailuresFirst(run, t);
    }
  }

  lemma StaysWithin(g: Graph, l: Limits, s: Sched, a: Step)
    requires Can(g, l, s, a) && WithinLimit(l, s)
    ensures WithinLimit(l, Do(g, l, s, a))
  {
    var u := Do(g, l, s, a);
    if !u.terminal {
      forall t
        ensures Count(u.attempts, t) <= l.maxFailures
      {
        assert Count(u.attempts, t) == Count(s.attempts, t) + if a == FailsRetryably(t) then 1 else 0;
      }
    }
  }

  /** A step gives the run up exactly if it is fatal or one failure too many. */
  lemma EndsFirst(g: Graph, l: Limits, s: Sched, run: seq<Step>)
    requires run != [] && Can(g, l, s, run[0]) && !s.terminal && WithinLimit(l, s)
    ensures var u := Do(g, l, s, run[0]);
            Ends(l, s.attempts, run) <==> u.terminal || Ends(l, u.attempts, run[1..])
  {
    var u := Do(g, l, s, run[0]);
    FatalFirst(run);
    if !run[0].FailsForGood? {
      TooManyFirst(g, l, s, run);
      if run[0].FailsRetryably? && u.terminal {
        assert Count(u.attempts, run[0].t) + Failures(run[1..], run[0].t) > l.maxFailures;
      }
    }
  }

  lemma {:induction false} GivenUpFrom(g: Graph, l: Limits, s: Sched, run: seq<Step>)
    requires Runs(g, l, s, run) && WithinLimit(l, s)
    ensures After(g, l, s, run).terminal <==> s.terminal || Ends(l, s.attempts, run)
    decreases run
  {
    if run == [] {
    } else {
      if !s.terminal { EndsFirst(g, l, s, run); }
      StaysWithin(g, l, s, run[0]);
      GivenUpFrom(g, l, Do(g, l, s, run[0]), run[1..]);
    }
  }

  /** A run is given up exactly if a transaction fails for good, one fails retryably more often than the limit, the
      graph stalls, or the run is cancelled: any other failure is followed by a retry. */
  lemma GivenUpIff(g: Graph, l: Limits, s: Sched, run: seq<Step>)
    requires Start(g, s) && Runs(g, l, s, run)
    ensures After(g, l, s, run).terminal <==> GivesUp(l, run)
  {
    GivenUpFrom(g, l, s, run);
    assert forall t :: Count(s.attempts, t) + Failures(run, t) == Failures(run, t);
  }

  /** A failed transaction that does not end the run is waiting for its retry, and no other step than the end of the
      wait makes it ready. */
  lemma RetriedAfterFailure(g: Graph, l: Limits, s: Sched, run: seq<Step>, t: TxId)
    requires Start(g, s) && Runs(g, l, s, run) && Can(g, l, After(g, l, s, run), FailsRetryably(t))
    ensures var u := After(g, l, s, run); var f := Do(g, l, u, FailsRetryably(t));
            !GivesUp(l, run + [FailsRetryably(t)]) ==>
              && f.In(t, Retrying) && Can(g, l, f, RetryDue(t))
              && t in Do(g, l, f, RetryDue(t)).ready && u.ready <= Do(g, l, f, RetryDue(t)).ready
  {
    var a := FailsRetryably(t);
    StartInv(g, l, s);
    InvHolds(g, l, s, run);
    OneMore(g, l, s, run, a);
    GivenUpIff(g, l, s, run + [a]);
  }

  lemma {:induction false} OneMore(g: Graph, l: Limits, s: Sched, run: seq<Step>, a: Step)
    requires Runs(g, l, s, run) && Can(g, l, After(g, l, s, run), a)
    ensures Runs(g, l, s, run + [a]) && After(g, l, s, run + [a]) == Do(g, l, After(g, l, s, run), a)
    decreases run
  {
    if run == [] {
      assert [a][1..] == [];
    } else {
      assert (run + [a])[1..] == run[1..] + [a];
      OneMore(g, l, Do(g, l, s, run[0]), run[1..], a);
    }
  }

  ghost predicate Incomplete(g: Graph, s: Sched) {
    exists t :: t in g.order && !s.In(t, Completed)
  }

  lemma {:induction false} GivenUpIsIncomplete(g: Graph, l: Limits, s: Sched, run: seq<Step>)
    requires Inv(g, l, s) && Runs(g, l, s, run) && (s.terminal ==> Incomplete(g, s))
    ensures After(g, l, s, run).terminal ==> Incomplete(g, After(g, l, s, run))
    decreases run
  {
    if run == [] {
    } else {
      StepInv(g, l, s, run[0]);
      StaysIncomplete(g, l, s, run[0]);
      GivenUpIsIncomplete(g, l, Do(g, l, s, run[0]), run[1..]);
    }
  }

  lemma StaysIncomplete(g: Graph, l: Limits, s: Sched, a: Step)
    requires Inv(g, l, s) && Can(g, l, s, a) && (s.terminal ==> Incomplete(g, s))
    ensures Do(g, l, s, a).terminal ==> Incomplete(g, Do(g, l, s, a))
  {
    var u := Do(g, l, s, a);
    if u.terminal {
      if a.Cancelled? || a.Stall? {
        var t :| t in g.order && !s.In(t, Completed);
        assert !u.In(t, Completed);
      } else {
        assert a.t in g.order && !u.In(a.t, Completed);
      }
    }
  }

  /** A block in spending order never stalls. When its run cannot go on, every transaction has completed exactly if
      none failed for good, none failed retryably more often than the limit, and the run was not cancelled. */
  lemma BlockCompletes(b: BlockTxGraph, l: Limits, run: seq<Step>)
    requires b.Built() && InSpendingOrder(b.order, b.txById) && Runs(GraphOf(b), l, Initially(b), run) && l.workers >= 1
    ensures Stall !in run
    ensures var u := After(GraphOf(b), l, Initially(b), run);
            (forall a :: Can(GraphOf(b), l, u, a) ==> a == Cancelled) ==>
              ((forall t :: t in b.order ==> u.In(t, Completed)) <==> !GivesUp(l, run))
  {
    var g, s := GraphOf(b), Initially(b);
    BuiltStarts(b);
    BlockGraphIsAcyclic(b);
    NeverStalls(g, l, s, run);
    GivenUpIff(g, l, s, run);
    StartInv(g, l, s);
    GivenUpIsIncomplete(g, l, s, run);
    if !After(g, l, s, run).terminal && exists t :: t in g.order && !After(g, l, s, run).In(t, Completed) {
      var a := NeverStuck(g, l, s, run);
    }
  }

  lemma NeverStalls(g: Graph, l: Limits, s: Sched, run: seq<Step>)
    requires Start(g, s) && Runs(g, l, s, run) && !Cyclic(g.edges)
    ensures Stall !in run
  {
    StartInv(g, l, s);
    NoStallFrom(g, l, s, run);
  }

  lemma {:induction false} NoStallFrom(g: Graph, l: Limits, s: Sched, run: seq<Step>)
    requires Inv(g, l, s) && Runs(g, l, s, run) && !Cyclic(g.edges)
    ensures Stall !in run
    decreases run
  {
    if run == [] {
    } else {
      if run[0] == Stall {
        StalledHasCycle(g, l, s);
      }
      StepInv(g, l, s, run[0]);
      NoStallFrom(g, l, Do(g, l, s, run[0]), run[1..]);
    }
  }
}
