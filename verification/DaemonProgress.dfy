/** Where an iteration of the daemon ends, and that it ends: what the catch-up loop does before any stop signal. */
module DaemonProgress {
  import opened Collections
  import opened BlockChain
  import opened Daemon
  import opened DaemonProofs

  // ---- where an iteration ends ----

  /** The height the node was last asked for, if it answered; was is the answer before the run. */
  function Asked(run: seq<Action>, was: Option<nat>): Option<nat>
    decreases run
  {
    if run == [] then was else Asked(run[1..], if run[0].GetCount? then run[0].height else was)
  }

  /** While the flag is down the last iteration has caught up with the height it was told, or the genesis block is the
      last one processed. */
  predicate RestsCaughtUp(s: State, asked: Option<nat>) {
    asked.Some? && !s.iter.Begin? ==>
      s.target == asked.value && (!s.running ==> s.last >= s.target || s.last == 0)
  }

  lemma RestsStep(c: Config, s: State, asked: Option<nat>, a: Action)
    requires Inv(c, s) && Enabled(c, s, a) && RestsCaughtUp(s, asked)
    ensures RestsCaughtUp(Next(c, s, a), if a.GetCount? then a.height else asked)
  {
  }

  lemma {:induction false} RestsFrom(c: Config, s: State, run: seq<Action>, asked: Option<nat>)
    requires Inv(c, s) && Runs(c, s, run) && RestsCaughtUp(s, asked)
    ensures RestsCaughtUp(After(c, s, run), Asked(run, asked))
    decreases run
  {
    if run == [] {
    } else {
      RestsStep(c, s, asked, run[0]);
      InvStep(c, s, run[0]);
      RestsFrom(c, Next(c, s, run[0]), run[1..], if run[0].GetCount? then run[0].height else asked);
    }
  }

  /** Whenever an iteration has returned with the flag down, the node gave no height, or the daemon has processed
      everything up to the height the node gave, or only the genesis block. */
  lemma ReturnsCaughtUp(c: Config, s0: State, run: seq<Action>)
    requires Init(c, s0) && Runs(c, s0, run) && !After(c, s0, run).running
    ensures var s, asked := After(c, s0, run), Asked(run, None);
            asked.Some? ==> s.target == asked.value && (s.last >= asked.value || s.last == 0)
  {
    InitInv(c, s0);
    InvHolds(c, s0, run);
    RestsFrom(c, s0, run, None);
  }

  // ---- that it ends ----

  /** The iteration's own steps; waiting on after a timeout is none. */
  predicate IterStep(a: Action) {
    || a.LoopTop? || a.LoopCheck? || a.Send? || a.Answer? || a.Store?
    || a.SendStopped? || a.SendTimeout? || a.WaitStopped?
  }

  function IterSteps(run: seq<Action>): nat {
    if run == [] then 0 else (if IterStep(run[0]) then 1 else 0) + IterSteps(run[1..])
  }

  /** By how much the answers of a run roll the daemon back. */
  function RolledBack(c: Config, s: State, run: seq<Action>): nat
    requires Runs(c, s, run)
    decreases run
  {
    if run == [] then 0
    else (if run[0].Store? then Depth(s.iter.h, s.iter.r) else 0) + RolledBack(c, Next(c, s, run[0]), run[1..])
  }

  function Behind(s: State): nat {
    if s.target > s.last then s.target - s.last else 0
  }

  /** The own steps an iteration has left unless it is rolled back. */
  function ToGo(s: State): int {
    match s.iter
    case NoIter => 0
    case Begin => 0
    case Top => 5 * Behind(s) + 2
    case Sending(h, _) => if h == 0 then 5 * Behind(s) + 5 else 5 * Behind(s) + 1
    case Waiting(h, _) => if h == 0 then 5 * Behind(s) + 4 else 5 * Behind(s)
    case Received(h, _) => if h == 0 then 5 * Behind(s) + 3 else 5 * Behind(s) - 1
    case Check => if Behind(s) == 0 then 1 else 5 * Behind(s) + 3
  }

  lemma StoreLowers(c: Config, s: State)
    requires Inv(c, s) && Counted(s) && Enabled(c, s, Store)
    ensures ToGo(Next(c, s, Store)) + 1 <= ToGo(s) + 5 * Depth(s.iter.h, s.iter.r)
  {
    assert Stored(c, s) && s.iter.r <= s.iter.h;
    assert Handshake(s) && NextHeight(s, s.iter.h);
  }

  lemma OwnStepLowers(c: Config, s: State, a: Action)
    requires Inv(c, s) && Counted(s) && Enabled(c, s, a) && IterStep(a) && !a.Store?
    ensures ToGo(Next(c, s, a)) + 1 <= ToGo(s) && !Next(c, s, a).iter.Begin?
  {
    assert Handshake(s) && (s.iter.HasHeight() ==> NextHeight(s, s.iter.h));
  }

  lemma OtherStepKeeps(c: Config, s: State, a: Action)
    requires Enabled(c, s, a) && !IterStep(a) && a != StartIteration && !a.GetCount?
    ensures ToGo(Next(c, s, a)) == ToGo(s) && (Next(c, s, a).iter.Begin? ==> s.iter.Begin?)
  {
  }

  lemma {:induction false} ToGoBounds(c: Config, s: State, run: seq<Action>)
    requires Inv(c, s) && Counted(s) && Runs(c, s, run) && StartIteration !in run && !s.iter.Begin?
    ensures IterSteps(run) + ToGo(After(c, s, run)) <= ToGo(s) + 5 * RolledBack(c, s, run)
    ensures !After(c, s, run).iter.Begin?
    decreases run
  {
    if run == [] {
    } else {
      var a := run[0];
      assert a in run && forall x :: x in run[1..] ==> x in run;
      if a.Store? {
        StoreLowers(c, s);
      } else if IterStep(a) {
        OwnStepLowers(c, s, a);
      } else {
        OtherStepKeeps(c, s, a);
      }
      InvStep(c, s, a);
      CountedStep(c, s, a);
      ToGoBounds(c, Next(c, s, a), run[1..]);
    }
  }

  lemma ToGoIsNatural(c: Config, s: State)
    requires Inv(c, s) && Counted(s)
    ensures ToGo(s) >= 0 && (!s.iter.NoIter? && !s.iter.Begin? ==> ToGo(s) > 0)
  {
    assert Handshake(s) && (s.iter.HasHeight() ==> NextHeight(s, s.iter.h));
  }

  /** An iteration that is told a height takes at most five steps of its own for each height it is behind, and for each
      it is rolled back, and five more: it never loops without progress. */
  lemma IterationIsBounded(c: Config, s0: State, run: seq<Action>, height: nat, more: seq<Action>)
    requires Init(c, s0) && Runs(c, s0, run + [GetCount(Some(height))])
    requires StartIteration !in more && Runs(c, After(c, s0, run + [GetCount(Some(height))]), more)
    ensures var s := After(c, s0, run + [GetCount(Some(height))]);
            IterSteps(more) <= 5 * (if height > s.last then height - s.last else 0) + 5 + 5 * RolledBack(c, s, more)
  {
    var told := run + [GetCount(Some(height))];
    InitInv(c, s0);
    InvHolds(c, s0, told);
    CountedHolds(c, s0, told);
    LastAction(c, s0, run, GetCount(Some(height)));
    var s := After(c, s0, told);
    ToGoBounds(c, s, more);
    InvHolds(c, s, more);
    CountedHolds(c, s, more);
    ToGoIsNatural(c, After(c, s, more));
  }

  lemma {:induction false} LastAction(c: Config, s: State, run: seq<Action>, a: Action)
    requires Runs(c, s, run + [a])
    ensures Runs(c, s, run) && Enabled(c, After(c, s, run), a) && After(c, s, run + [a]) == Next(c, After(c, s, run), a)
    decreases run
  {
    if run == [] {
      assert [a][1..] == [];
      assert [] + [a] == [a];
    } else {
      assert (run + [a])[1..] == run[1..] + [a];
      LastAction(c, Next(c, s, run[0]), run[1..], a);
    }
  }

  // ---- what the counters count ----

  function Sends(run: seq<Action>): nat {
    if run == [] then 0 else (if run[0].Send? then 1 else 0) + Sends(run[1..])
  }

  /** The heights sent after the stop signal. */
  function SendsStopped(run: seq<Action>, stopped: bool): nat
    decreases run
  {
    if run == [] then 0
    else (if run[0].Send? && stopped then 1 else 0) + SendsStopped(run[1..], stopped || run[0].Stop?)
  }

  lemma {:induction false} AfterStopCounts(c: Config, s: State, run: seq<Action>)
    requires Runs(c, s, run)
    ensures After(c, s, run).log.afterStop == s.log.afterStop + SendsStopped(run, s.stopped)
    decreases run
  {
    if run == [] {
    } else {
      AfterStopCounts(c, Next(c, s, run[0]), run[1..]);
    }
  }

  /** In every run at most two heights are sent after the stop signal. */
  lemma AtMostTwoAfterStop(c: Config, s0: State, run: seq<Action>)
    requires Init(c, s0) && Runs(c, s0, run)
    ensures SendsStopped(run, false) <= 2
  {
    SendsAreAccountedFor(c, s0, run);
    AfterStopCounts(c, s0, run);
  }

  lemma LeftLoop(c: Config, s: State, a: Action)
    requires Enabled(c, s, a) && a != StartIteration && (InLoop(s) || s.iter.NoIter?)
    ensures InLoop(Next(c, s, a)) || Next(c, s, a).iter.NoIter?
    ensures s.iter.NoIter? ==> Next(c, s, a).iter.NoIter?
  {
  }

  lemma Progress(c: Config, s: State, a: Action)
    requires Inv(c, s) && Enabled(c, s, a) && a != StartIteration && InLoop(s) && InLoop(Next(c, s, a))
    ensures var t := Next(c, s, a);
            t.last + Pending(t) + (if a.Store? then Depth(s.iter.h, s.iter.r) else 0) ==
            s.last + Pending(s) + if a.Send? then 1 else 0
  {
    if a.Store? { StoreCounts(c, s); }
  }

  lemma StoreCounts(c: Config, s: State)
    requires Inv(c, s) && Enabled(c, s, Store) && s.iter.h > 0
    ensures Next(c, s, Store).last + Depth(s.iter.h, s.iter.r) == s.last + 1
  {
    assert Stored(c, s) && s.iter.r <= s.iter.h;
    assert Handshake(s) && NextHeight(s, s.iter.h);
  }

  lemma {:induction false} StaysOut(c: Config, s: State, run: seq<Action>)
    requires Runs(c, s, run) && s.iter.NoIter? && StartIteration !in run
    ensures After(c, s, run).iter.NoIter?
    decreases run
  {
    if run == [] {
    } else {
      assert run[0] in run && forall x :: x in run[1..] ==> x in run;
      StaysOut(c, Next(c, s, run[0]), run[1..]);
    }
  }

  /** Inside a catch-up loop the heights sent number the progress made and the depths rolled back. */
  lemma {:induction false} SendsAreProgress(c: Config, s: State, run: seq<Action>)
    requires Inv(c, s) && Runs(c, s, run) && StartIteration !in run && InLoop(s) && InLoop(After(c, s, run))
    ensures var t := After(c, s, run);
            Sends(run) + s.last + Pending(s) == t.last + Pending(t) + RolledBack(c, s, run)
    decreases run
  {
    if run == [] {
    } else {
      var a, u := run[0], Next(c, s, run[0]);
      assert a in run && forall x :: x in run[1..] ==> x in run;
      LeftLoop(c, s, a);
      if u.iter.NoIter? { StaysOut(c, u, run[1..]); }
      Progress(c, s, a);
      InvStep(c, s, a);
      SendsAreProgress(c, u, run[1..]);
    }
  }

  // ---- catching up with a node ----

  /** A step on which nothing fails and the node answers from its chain. */
  ghost predicate FromNode(node: Chain, a: Action) {
    && !a.Stop? && !a.SendTimeout? && !a.WaitTimeout?
    && (a.GetCount? ==> a.height == Some(|node| - 1))
    && (a.Process? ==> exists h: nat {:trigger NodeEnv(node, h)} :: h < |node| && a.env == NodeEnv(node, h))
  }

  ghost predicate AllFromNode(node: Chain, run: seq<Action>) {
    forall k :: 0 <= k < |run| ==> FromNode(node, run[k])
  }

  /** Some run with such steps leads from s to t. */
  ghost predicate Leads(c: Config, node: Chain, s: State, run: seq<Action>, t: State) {
    Runs(c, s, run) && AllFromNode(node, run) && After(c, s, run) == t
  }

  lemma LeadsOn(c: Config, node: Chain, s: State, run: seq<Action>, t: State, more: seq<Action>, u: State)
    requires Leads(c, node, s, run, t) && Leads(c, node, t, more, u)
    ensures Leads(c, node, s, run + more, u)
  {
    RunsOn(c, s, run, more);
  }

  lemma StepLeads(c: Config, node: Chain, s: State, a: Action)
    requires Enabled(c, s, a) && FromNode(node, a)
    ensures Leads(c, node, s, [a], Next(c, s, a))
  {
    OneMore(c, s, [], a);
    assert [] + [a] == [a];
  }

  /** At work, with no stop signal and nothing left beside the chain, which is stored up to the last processed
      height. */
  ghost predicate AtWork(c: Config, s: State, node: Chain) {
    && Inv(c, s) && !s.stopped && s.runnerAlive && s.left.NoRow? && s.target == |node| - 1
    && |s.chain| == s.last + 1
  }

  /** Between iterations. */
  ghost predicate Resting(c: Config, s: State) {
    && Inv(c, s) && !s.stopped && s.runnerAlive && s.left.NoRow? && s.iter.NoIter? && !s.running
    && Full(s.chain, s.last)
  }

  /** A chain that starts with the genesis block. */
  ghost predicate IsNode(c: Config, node: Chain) {
    Linked(node) && node != [] && node[0] == c.genesis
  }

  /** One height of a node is sent, processed and its answer stored. */
  lemma NodeHeight(c: Config, s: State, node: Chain) returns (run: seq<Action>, t: State)
    requires IsNode(c, node) && Inv(c, s) && !s.stopped && s.runnerAlive && s.left.NoRow? && s.iter.Sending?
             && s.target == |node| - 1 && s.iter.h < |node|
    requires FairEnv(s.chain, NodeEnv(node, s.iter.h))
    ensures Leads(c, node, s, run, t) && Inv(c, t) && !t.stopped && t.runnerAlive && t.left.NoRow?
    ensures var r := ProcessHeight(s.chain, c.genesis, s.iter.h, NodeEnv(node, s.iter.h));
            t.chain == r.chain && t.last == r.height && t.target == s.target
              && t.iter == if s.iter.h == 0 then Top else Check
  {
    var env := NodeEnv(node, s.iter.h);
    run := SendAndStore(c, s, s.iter.h, env);
    t := After(c, s, run);
    InvHolds(c, s, run);
    assert FromNode(node, Process(0, env));
  }

  /** An iteration starts, is told the node's height and comes to its loop; from the genesis block or none it first
      processes height 0. */
  lemma ToTop(c: Config, s: State, node: Chain) returns (run: seq<Action>, t: State)
    requires IsNode(c, node) && Resting(c, s)
    ensures Leads(c, node, s, run, t) && AtWork(c, t, node) && t.iter.Top?
    ensures t.chain == if s.last == 0 then [c.genesis] else s.chain
  {
    StepLeads(c, node, s, StartIteration);
    var begun := Next(c, s, StartIteration);
    StepLeads(c, node, begun, GetCount(Some(|node| - 1)));
    t := Next(c, begun, GetCount(Some(|node| - 1)));
    LeadsOn(c, node, s, [StartIteration], begun, [GetCount(Some(|node| - 1))], t);
    run := [StartIteration] + [GetCount(Some(|node| - 1))];
    InvHolds(c, s, run);
    if s.last == 0 {
      var more, u := NodeHeight(c, t, node);
      LeadsOn(c, node, s, run, t, more, u);
      run, t := run + more, u;
    }
  }

  /** At the top of its loop, with heights left to fetch, the iteration fetches one. */
  lemma OneHeight(c: Config, s: State, node: Chain, p: nat) returns (run: seq<Action>, t: State)
    requires IsNode(c, node) && AtWork(c, s, node) && s.iter.Top? && |s.chain| < |node|
    requires HashesCommit(s.chain, node) && Near(s.chain, node, p)
    ensures Leads(c, node, s, run, t) && AtWork(c, t, node) && t.iter.Check? && t.chain <= node
    ensures if s.chain <= node then |t.chain| == |s.chain| + 1 else |t.chain| <= |s.chain|
  {
    StepLeads(c, node, s, LoopTop);
    var sending := Next(c, s, LoopTop);
    InvStep(c, s, LoopTop);
    FollowsNode(s.chain, c.genesis, node, p);
    var more;
    more, t := NodeHeight(c, sending, node);
    LeadsOn(c, node, s, [LoopTop], sending, more, t);
    run := [LoopTop] + more;
  }

  /** After a height the loop goes on, unless it has caught up or is back at the genesis block. */
  lemma AtCheck(c: Config, s: State, node: Chain) returns (run: seq<Action>, t: State)
    requires AtWork(c, s, node) && s.iter.Check? && |s.chain| <= |node|
    ensures Leads(c, node, s, run, t) && t.chain == s.chain && t.last == s.last
    ensures if s.last < |node| - 1 && s.last != 0 then AtWork(c, t, node) && t.iter.Top? else Resting(c, t)
  {
    StepLeads(c, node, s, LoopCheck);
    InvStep(c, s, LoopCheck);
    run, t := [LoopCheck], Next(c, s, LoopCheck);
  }

  /** The daemon has what the node has, and waits for its next iteration. */
  ghost predicate InSync(c: Config, s: State, node: Chain) {
    Resting(c, s) && s.chain == node && s.last == |node| - 1
  }

  lemma {:induction false} FromTop(c: Config, s: State, node: Chain) returns (run: seq<Action>, t: State)
    requires IsNode(c, node) && AtWork(c, s, node) && s.iter.Top? && s.chain <= node
    ensures Leads(c, node, s, run, t) && InSync(c, t, node)
    decreases |node| - |s.chain|
  {
    var u;
    if |s.chain| == |node| {
      StepLeads(c, node, s, LoopTop);
      InvStep(c, s, LoopTop);
      run, u := [LoopTop], Next(c, s, LoopTop);
    } else {
      PrefixCommits(s.chain, node);
      run, u := OneHeight(c, s, node, |s.chain|);
    }
    var check, v := AtCheck(c, u, node);
    LeadsOn(c, node, s, run, u, check, v);
    run, t := run + check, v;
    if |v.chain| < |node| {
      var rest, w := FromTop(c, v, node);
      LeadsOn(c, node, s, run, v, rest, w);
      run, t := run + rest, w;
    }
  }

  /** From a start of the node's chain the daemon catches up in one iteration. */
  lemma Extends(c: Config, s: State, node: Chain) returns (run: seq<Action>, t: State)
    requires IsNode(c, node) && Resting(c, s) && (s.last == 0 || s.chain <= node)
    ensures Leads(c, node, s, run, t) && InSync(c, t, node)
  {
    var top, u := ToTop(c, s, node);
    var rest, v := FromTop(c, u, node);
    LeadsOn(c, node, s, top, u, rest, v);
    run, t := top + rest, v;
  }

  /** From every state between iterations, with a node that answers and whose chain continues the stored one, or is
      longer and parts from it no deeper than a reorg may go, the daemon can run until it holds exactly the node's
      blocks, has processed the node's height and waits for its next iteration. */
  lemma CatchesUp(c: Config, s: State, node: Chain, p: nat) returns (run: seq<Action>, t: State)
    requires IsNode(c, node) && Resting(c, s)
    requires s.chain <= node || (|s.chain| < |node| && HashesCommit(s.chain, node) && Near(s.chain, node, p))
    ensures Leads(c, node, s, run, t) && InSync(c, t, node)
  {
    if s.last == 0 || s.chain <= node {
      run, t := Extends(c, s, node);
    } else {
      var top, u := ToTop(c, s, node);
      var one, v := OneHeight(c, u, node, p);
      var check, w := AtCheck(c, v, node);
      LeadsOn(c, node, s, top, u, one, v);
      LeadsOn(c, node, s, top + one, v, check, w);
      run := top + one + check;
      var rest;
      if w.iter.Top? {
        rest, t := FromTop(c, w, node);
      } else {
        rest, t := Extends(c, w, node);
      }
      LeadsOn(c, node, s, run, w, rest, t);
      run := run + rest;
    }
  }

  /** A started daemon rests until its first iteration. */
  lemma InitRests(c: Config, s: State)
    requires Init(c, s)
    ensures Resting(c, s)
  {
    InitInv(c, s);
  }
}
