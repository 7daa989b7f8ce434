/** What holds in every reachable state of the daemon, over every interleaving. */
module DaemonProofs {
  import opened Collections
  import opened BlockChain
  import BlockTable
  import opened Watchdog
  import opened Daemon

  // ---- the handshake ----

  /** A height that may be sent from s. */
  predicate NextHeight(s: State, h: nat) {
    h == s.last + 1 || (h == 0 && s.last == 0)
  }

  /** At most one worker holds a height, and it is the one the iteration waits for or has given up on for good. */
  ghost predicate Handshake(s: State) {
    && |s.workers| >= 1
    && (forall i, j :: 0 <= i < |s.workers| && 0 <= j < |s.workers| && s.workers[i].Holds() && s.workers[j].Holds() ==>
        i == j)
    && (forall i :: 0 <= i < |s.workers| && s.workers[i].Holds() ==>
          NextHeight(s, s.workers[i].h)
          && ((s.iter.Waiting? && s.iter.h == s.workers[i].h) || (s.iter.NoIter? && s.running && s.stopped)))
    && (forall i :: 0 <= i < |s.workers| && s.workers[i].Exited? ==> s.stopped)
    && (s.iter.Waiting? && !s.stopped ==> exists i :: 0 <= i < |s.workers| && s.workers[i].Holds())
    && (s.iter.HasHeight() ==> NextHeight(s, s.iter.h))
    && (!s.iter.NoIter? ==> s.running)
  }

  /** No answer is under way and none has been given up on. */
  predicate Settled(s: State) {
    !s.iter.Waiting? && !s.iter.Received? && !(s.iter.NoIter? && s.running)
  }

  /** The stored chain lies below height n, and a row left beside it does not. */
  ghost predicate Parted(s: State, n: nat) {
    |s.chain| <= n && BlockTable.Aside(s.left, s.chain, n)
  }

  /** The stored chain is linked and reaches at most the last processed height, or the answer under way; a row left
      beside it lies above that. */
  ghost predicate Stored(c: Config, s: State) {
    && Linked(s.chain) && (s.chain != [] ==> s.chain[0].hash == c.genesis.hash)
    && (s.left.LeftRow? ==> s.chain != [])
    && (Settled(s) ==> Parted(s, s.last + 1))
    && (s.iter.Received? ==> s.iter.r <= s.iter.h && Parted(s, s.iter.r + 1))
    && (forall i :: 0 <= i < |s.workers| && s.workers[i].Busy? ==> Parted(s, s.last + 1))
    && (forall i :: 0 <= i < |s.workers| && s.workers[i].Answering? ==>
          s.workers[i].r <= s.workers[i].h && Parted(s, s.workers[i].r + 1))
  }

  ghost predicate Inv(c: Config, s: State) {
    Handshake(s) && Stored(c, s)
  }

  lemma InitInv(c: Config, s: State)
    requires Init(c, s)
    ensures Inv(c, s)
  {
  }

  predicate OnWorkers(a: Action) {
    a.Send? || a.Process? || a.Answer? || a.AnswerStopped? || a.WorkerExit?
  }

  /** Steps that only move the iteration along. */
  predicate Control(a: Action) {
    a.StartIteration? || a.GetCount? || a.LoopTop? || a.LoopCheck? || a.Store?
  }

  /** Steps on which the iteration stops sending or waiting, or waits longer. */
  predicate GivesUp(a: Action) {
    a.SendStopped? || a.SendTimeout? || a.WaitStopped? || a.WaitTimeout?
  }

  /** Steps of the clock, the stop signal, the ticker and the watchdog. */
  predicate Outside(a: Action) {
    a.Advance? || a.Stop? || a.RunnerExit? || a.WatchdogTick?
  }

  lemma HandshakeStep(c: Config, s: State, a: Action)
    requires Handshake(s) && Enabled(c, s, a)
    ensures Handshake(Next(c, s, a))
  {
    if OnWorkers(a) {
      HandshakeOnWorkers(c, s, a);
    } else if Control(a) {
      HandshakeControl(c, s, a);
    } else if GivesUp(a) {
      HandshakeGivesUp(c, s, a);
    } else {
      HandshakeOutside(c, s, a);
    }
  }

  lemma HandshakeOnWorkers(c: Config, s: State, a: Action)
    requires Handshake(s) && Enabled(c, s, a) && OnWorkers(a)
    ensures Handshake(Next(c, s, a))
  {
    match a
    case Send(i) => HandshakeSend(c, s, i);
    case Process(i, env) => HandshakeProcess(c, s, i, env);
    case Answer(i) => HandshakeAnswer(c, s, i);
    case AnswerStopped(i) => HandshakeExit(c, s, a, i);
    case WorkerExit(i) => HandshakeExit(c, s, a, i);
  }

  lemma HandshakeControl(c: Config, s: State, a: Action)
    requires Handshake(s) && Enabled(c, s, a) && Control(a)
    ensures Handshake(Next(c, s, a))
  {
    assert Next(c, s, a).workers == s.workers;
  }

  lemma HandshakeGivesUp(c: Config, s: State, a: Action)
    requires Handshake(s) && Enabled(c, s, a) && GivesUp(a)
    ensures Handshake(Next(c, s, a))
  {
    assert Next(c, s, a).workers == s.workers;
  }

  lemma HandshakeOutside(c: Config, s: State, a: Action)
    requires Handshake(s) && Enabled(c, s, a) && Outside(a)
    ensures Handshake(Next(c, s, a))
  {
    assert Next(c, s, a).workers == s.workers;
  }

  lemma HandshakeSend(c: Config, s: State, i: nat)
    requires Handshake(s) && Enabled(c, s, Send(i))
    ensures Handshake(Next(c, s, Send(i)))
  {
    assert Next(c, s, Send(i)).workers[i].Holds();
  }

  lemma HandshakeProcess(c: Config, s: State, i: nat, env: Env)
    requires Handshake(s) && Enabled(c, s, Process(i, env))
    ensures Handshake(Next(c, s, Process(i, env)))
  {
    var t := Next(c, s, Process(i, env));
    assert s.workers[i].Holds() && t.workers[i].Holds() && t.workers[i].h == s.workers[i].h;
    assert forall j :: 0 <= j < |s.workers| ==> (t.workers[j].Holds() <==> s.workers[j].Holds());
  }

  lemma HandshakeAnswer(c: Config, s: State, i: nat)
    requires Handshake(s) && Enabled(c, s, Answer(i))
    ensures Handshake(Next(c, s, Answer(i)))
  {
    assert s.workers[i].Holds();
  }

  lemma HandshakeExit(c: Config, s: State, a: Action, i: nat)
    requires Handshake(s) && Enabled(c, s, a) && (a == AnswerStopped(i) || a == WorkerExit(i))
    ensures Handshake(Next(c, s, a))
  {
  }

  /** Whatever height a worker is processing may be processed on the stored chain, and on its table. */
  lemma BusyIsSendable(c: Config, s: State, i: nat)
    requires Inv(c, s) && i < |s.workers| && s.workers[i].Busy?
    ensures Sendable(s.chain, c.genesis, s.workers[i].h) && BlockTable.Aside(s.left, s.chain, s.workers[i].h)
  {
    assert s.workers[i].Holds();
  }

  lemma StoredStep(c: Config, s: State, a: Action)
    requires Inv(c, s) && Enabled(c, s, a)
    ensures Stored(c, Next(c, s, a))
  {
    if OnWorkers(a) {
      StoredOnWorkers(c, s, a);
    } else if Control(a) {
      StoredControl(c, s, a);
    } else if GivesUp(a) {
      StoredGivesUp(c, s, a);
    } else {
      StoredOutside(c, s, a);
    }
  }

  lemma StoredOnWorkers(c: Config, s: State, a: Action)
    requires Inv(c, s) && Enabled(c, s, a) && OnWorkers(a)
    ensures Stored(c, Next(c, s, a))
  {
    match a
    case Process(i, env) => StoredProcess(c, s, i, env);
    case Answer(i) => StoredAnswer(c, s, i);
    case Send(i) => StoredSend(c, s, i);
    case AnswerStopped(i) => StoredExit(c, s, a, i);
    case WorkerExit(i) => StoredExit(c, s, a, i);
  }

  lemma StoredExit(c: Config, s: State, a: Action, i: nat)
    requires Inv(c, s) && Enabled(c, s, a) && (a == AnswerStopped(i) || a == WorkerExit(i))
    ensures Stored(c, Next(c, s, a))
  {
  }

  lemma SamePlace(s: State, t: State)
    requires t.chain == s.chain && t.left == s.left
    ensures forall n: nat :: Parted(t, n) <==> Parted(s, n)
  {
  }

  lemma StoredControl(c: Config, s: State, a: Action)
    requires Inv(c, s) && Enabled(c, s, a) && Control(a)
    ensures Stored(c, Next(c, s, a))
  {
    SamePlace(s, Next(c, s, a));
    assert Next(c, s, a).workers == s.workers;
  }

  lemma StoredGivesUp(c: Config, s: State, a: Action)
    requires Inv(c, s) && Enabled(c, s, a) && GivesUp(a)
    ensures Stored(c, Next(c, s, a))
  {
    SamePlace(s, Next(c, s, a));
    assert Next(c, s, a).workers == s.workers;
  }

  lemma StoredOutside(c: Config, s: State, a: Action)
    requires Inv(c, s) && Enabled(c, s, a) && Outside(a)
    ensures Stored(c, Next(c, s, a))
  {
    SamePlace(s, Next(c, s, a));
    assert Next(c, s, a).workers == s.workers;
  }

  lemma StoredSend(c: Config, s: State, i: nat)
    requires Inv(c, s) && Enabled(c, s, Send(i))
    ensures Stored(c, Next(c, s, Send(i)))
  {
  }

  lemma GenesisStays(c: Config, s: State, env: Env)
    requires Linked(s.chain) && s.chain != [] && s.chain[0].hash == c.genesis.hash && |s.chain| <= 1
    requires BlockTable.Aside(s.left, s.chain, 1) && !BlockTable.Panics(env.ending)
    ensures BlockTable.Aside(s.left, ProcessHeight(s.chain, c.genesis, 0, env).chain, 1)
  {
    assert forall k :: Has([c.genesis], k) ==> s.chain[0].hash == k;
  }

  /** The table after a block, and where it is parted. */
  lemma ProcessParts(c: Config, s: State, i: nat, env: Env)
    requires Inv(c, s) && Enabled(c, s, Process(i, env))
    ensures var t := Next(c, s, Process(i, env)); var r := t.workers[i].r;
            && Linked(t.chain) && (t.chain != [] ==> t.chain[0].hash == c.genesis.hash)
            && (t.left.LeftRow? ==> t.chain != []) && r <= s.workers[i].h && Parted(t, r + 1)
  {
    var h := s.workers[i].h;
    assert s.workers[i].Holds();
    KeepsChain(s.chain, c.genesis, h, env);
    if h > 0 {
      BlockTable.StaysAside(s.chain, s.left, c.genesis, h, env);
    } else if s.left.LeftRow? {
      GenesisStays(c, s, env);
    }
  }

  lemma StoredProcess(c: Config, s: State, i: nat, env: Env)
    requires Inv(c, s) && Enabled(c, s, Process(i, env))
    ensures Stored(c, Next(c, s, Process(i, env)))
  {
    ProcessParts(c, s, i, env);
    assert s.workers[i].Holds();
    var t := Next(c, s, Process(i, env));
    assert forall j :: 0 <= j < |s.workers| && j != i ==> !s.workers[j].Holds() && t.workers[j] == s.workers[j];
  }

  lemma StoredAnswer(c: Config, s: State, i: nat)
    requires Inv(c, s) && Enabled(c, s, Answer(i))
    ensures Stored(c, Next(c, s, Answer(i)))
  {
    assert s.workers[i].Holds();
    var t := Next(c, s, Answer(i));
    assert forall j :: 0 <= j < |s.workers| && j != i ==> !s.workers[j].Holds() && t.workers[j] == s.workers[j];
  }

  lemma InvStep(c: Config, s: State, a: Action)
    requires Inv(c, s) && Enabled(c, s, a)
    ensures Inv(c, Next(c, s, a))
  {
    HandshakeStep(c, s, a);
    StoredStep(c, s, a);
  }

  /** Every reachable state satisfies the invariant. */
  lemma {:induction false} InvHolds(c: Config, s: State, run: seq<Action>)
    requires Inv(c, s) && Runs(c, s, run)
    ensures Inv(c, After(c, s, run))
    decreases run
  {
    if run == [] {
    } else {
      InvStep(c, s, run[0]);
      InvHolds(c, Next(c, s, run[0]), run[1..]);
    }
  }

  /** What a worker does in a run is what the code does on the table: it may be called there, and leaves the rows of
      the chain and the row beside it that the next state has. */
  lemma WorksOnTable(c: Config, s: State, i: nat, env: Env)
    requires Inv(c, s) && Enabled(c, s, Process(i, env)) && s.workers[i].h > 0
    ensures var h, t := s.workers[i].h, Next(c, s, Process(i, env));
            && Sendable(s.chain, c.genesis, h) && BlockTable.Aside(s.left, s.chain, h) && FairEnv(s.chain, env)
            && BlockTable.WithRow(BlockTable.RowsOf(t.chain), t.left) ==
               BlockTable.TableAfter(s.chain, s.left, c.genesis, h, env)
  {
    BusyIsSendable(c, s, i);
  }

  /** A height a worker holds is the one sent last. */
  ghost predicate HeldIsLast(s: State) {
    forall i :: 0 <= i < |s.workers| && s.workers[i].Holds() ==>
                  s.log.sent != [] && s.workers[i].h == s.log.sent[|s.log.sent| - 1]
  }

  lemma HeldStep(c: Config, s: State, a: Action)
    requires Inv(c, s) && HeldIsLast(s) && Enabled(c, s, a)
    ensures HeldIsLast(Next(c, s, a))
  {
    if OnWorkers(a) {
      HeldOnWorkers(c, s, a);
    } else {
      assert Next(c, s, a).log.sent == s.log.sent && Next(c, s, a).workers == s.workers;
    }
  }

  lemma HeldOnWorkers(c: Config, s: State, a: Action)
    requires Inv(c, s) && HeldIsLast(s) && Enabled(c, s, a) && OnWorkers(a)
    ensures HeldIsLast(Next(c, s, a))
  {
    if a.Process? {
      assert s.workers[a.i].Holds();
    }
  }

  lemma {:induction false} HeldHolds(c: Config, s: State, run: seq<Action>)
    requires Inv(c, s) && HeldIsLast(s) && Runs(c, s, run)
    ensures HeldIsLast(After(c, s, run))
    decreases run
  {
    if run == [] {
    } else {
      HeldStep(c, s, run[0]);
      InvStep(c, s, run[0]);
      HeldHolds(c, Next(c, s, run[0]), run[1..]);
    }
  }

  /**
   * Safety over whole runs: the table is one linked chain without gaps; at most one height is out; it is the one sent
   * last and the next after the last processed, and the iteration waits for its answer unless it has left on the stop
   * signal; and while the flag is down nothing touches heights.
   */
  lemma Safety(c: Config, s0: State, run: seq<Action>)
    requires Init(c, s0) && Runs(c, s0, run)
    ensures var s := After(c, s0, run);
            && Linked(s.chain)
            && (forall i, j :: 0 <= i < j < |s.workers| ==> !(s.workers[i].Holds() && s.workers[j].Holds()))
            && (forall i :: 0 <= i < |s.workers| && s.workers[i].Holds() ==>
                  && NextHeight(s, s.workers[i].h)
                  && s.log.sent != [] && s.workers[i].h == s.log.sent[|s.log.sent| - 1]
                  && ((s.iter.Waiting? && s.iter.h == s.workers[i].h) || (s.iter.NoIter? && s.running && s.stopped)))
            && (!s.running ==> s.iter.NoIter? && (forall i :: 0 <= i < |s.workers| ==> !s.workers[i].Holds())
                               && |s.chain| <= s.last + 1)
  {
    InitInv(c, s0);
    InvHolds(c, s0, run);
    HeldHolds(c, s0, run);
  }

  /** A height is sent only when every worker is free, and it is the one after the last processed height. */
  lemma SendsNextHeight(c: Config, s: State, i: nat)
    requires Inv(c, s) && Enabled(c, s, Send(i))
    ensures NextHeight(s, s.iter.h)
    ensures forall j :: 0 <= j < |s.workers| ==> !s.workers[j].Holds()
    ensures Next(c, s, Send(i)).log.sent == s.log.sent + [s.iter.h]
  {
  }

  // ---- no deadlock ----

  /** Before the stop signal a send finds a free worker, and a wait finds the one worker that will answer it. */
  lemma HandshakeProgress(c: Config, s: State)
    requires Inv(c, s) && !s.stopped
    ensures s.iter.Sending? ==> exists i :: 0 <= i < |s.workers| && Enabled(c, s, Send(i))
    ensures s.iter.Waiting? ==> exists i :: 0 <= i < |s.workers|
                                            && (s.workers[i] == Busy(s.iter.h)
                                                || (Enabled(c, s, Answer(i)) && s.workers[i].h == s.iter.h))
  {
    if s.iter.Sending? {
      assert !s.workers[0].Holds();
      assert Enabled(c, s, Send(0));
    }
    if s.iter.Waiting? {
      var i :| 0 <= i < |s.workers| && s.workers[i].Holds();
      assert s.workers[i] == Busy(s.iter.h) || Enabled(c, s, Answer(i));
    }
  }

  /** Everything the daemon started has returned. */
  predicate AllDone(s: State) {
    !s.runnerAlive && s.iter.NoIter? && forall i :: 0 <= i < |s.workers| ==> s.workers[i].Exited?
  }

  /** At most this many steps of the iteration are still to come once the stop signal is out; a send counts twice,
      for it makes a worker busy. */
  function IterLeft(iter: Iter): nat {
    match iter
    case NoIter => 0
    case Top => 1
    case Check => 2
    case Received(_, _) => 3
    case Waiting(_, _) => 4
    case Sending(_, _) => 6
    case Begin => 7
  }

  function WorkersLeft(ws: seq<Worker>): nat {
    if ws == [] then 0
    else
      WorkersLeft(ws[..|ws| - 1])
      + match ws[|ws| - 1] { case Exited => 0 case Idle => 1 case Answering(_, _) => 1 case Busy(_) => 2 }
  }

  function Left(s: State): nat {
    IterLeft(s.iter) + WorkersLeft(s.workers) + if s.runnerAlive then 1 else 0
  }

  lemma {:induction false} WorkersLeftUpdate(ws: seq<Worker>, i: nat, w: Worker)
    requires i < |ws|
    ensures WorkersLeft(ws[i := w]) == WorkersLeft(ws) - WorkersLeft([ws[i]]) + WorkersLeft([w])
  {
    var n := |ws| - 1;
    assert [w][..0] == [] && [ws[i]][..0] == [];
    if i == n {
      assert ws[i := w][..n] == ws[..n];
    } else {
      WorkersLeftUpdate(ws[..n], i, w);
      assert ws[i := w][..n] == ws[..n][i := w];
    }
  }

  /** Steps of the daemon's own, other than taking up another iteration or waiting on. */
  predicate Own(a: Action) {
    !a.Advance? && !a.Stop? && !a.StartIteration? && !a.WaitTimeout? && !a.WatchdogTick?
  }

  lemma StoppedOnWorkers(c: Config, s: State, a: Action)
    requires Enabled(c, s, a) && OnWorkers(a)
    ensures Left(Next(c, s, a)) < Left(s)
  {
    var t := Next(c, s, a);
    WorkersLeftUpdate(s.workers, a.i, t.workers[a.i]);
    assert t.workers == s.workers[a.i := t.workers[a.i]];
  }

  /** After the stop signal every step of the daemon's own brings it nearer its end, whatever the node and the
      database answer. */
  lemma StoppedStep(c: Config, s: State, a: Action)
    requires Inv(c, s) && s.stopped && Enabled(c, s, a)
    ensures Own(a) ==> Left(Next(c, s, a)) < Left(s)
    ensures !Own(a) ==> Left(Next(c, s, a)) <= Left(s) + if a.StartIteration? then 7 else 0
  {
    if OnWorkers(a) {
      StoppedOnWorkers(c, s, a);
    } else {
      assert Next(c, s, a).workers == s.workers;
    }
  }

  function OwnSteps(run: seq<Action>): nat {
    if run == [] then 0 else (if Own(run[0]) then 1 else 0) + OwnSteps(run[1..])
  }

  function Starts(run: seq<Action>): nat {
    if run == [] then 0 else (if run[0].StartIteration? then 1 else 0) + Starts(run[1..])
  }

  /** In every run after the stop signal, whatever is answered and however the steps interleave, the daemon takes
      a bounded number of steps of its own for each iteration that the ticker still starts; without another
      iteration at most Left(s). */
  lemma {:induction false} ShutdownIsBounded(c: Config, s: State, run: seq<Action>)
    requires Inv(c, s) && s.stopped && Runs(c, s, run)
    ensures OwnSteps(run) + Left(After(c, s, run)) <= Left(s) + 7 * Starts(run)
    decreases run
  {
    if run == [] {
    } else {
      StoppedStep(c, s, run[0]);
      InvStep(c, s, run[0]);
      ShutdownIsBounded(c, Next(c, s, run[0]), run[1..]);
    }
  }

  /** After the stop signal each component that has not returned has a step of its own for every answer it may get. */
  lemma StoppedComponentSteps(c: Config, s: State)
    requires Inv(c, s) && s.stopped
    ensures s.runnerAlive ==> Enabled(c, s, RunnerExit)
    ensures !s.iter.NoIter? ==> forall height :: Enabled(c, s, IterExit(s, height)) && Own(IterExit(s, height))
    ensures forall i, env :: 0 <= i < |s.workers| && !s.workers[i].Exited? && Fair(s, i, env) ==>
                               Enabled(c, s, WorkerStep(s, i, env)) && Own(WorkerStep(s, i, env))
  {
    forall i, env | 0 <= i < |s.workers| && !s.workers[i].Exited? && Fair(s, i, env)
      ensures Enabled(c, s, WorkerStep(s, i, env))
    {
      if s.workers[i].Busy? { BusyIsSendable(c, s, i); }
    }
  }

  /** A step on which an iteration leaves, or comes nearer to it, once the stop signal is out; height is what the
      node answers. */
  function IterExit(s: State, height: Option<nat>): Action {
    match s.iter
    case Begin => GetCount(height)
    case Top => LoopTop
    case Check => LoopCheck
    case Sending(_, _) => SendStopped
    case Waiting(_, _) => WaitStopped
    case _ => Store
  }

  /** The next step of a worker on its way out; a busy one first returns from RunBlockProcessing. */
  function WorkerStep(s: State, i: nat, env: Env): Action
    requires i < |s.workers|
  {
    match s.workers[i]
    case Busy(_) => Process(i, env)
    case Answering(_, _) => AnswerStopped(i)
    case _ => WorkerExit(i)
  }

  /** What the node and the database answer in each state. */
  datatype Answers = Answers(height: State -> Option<nat>, env: (State, nat) -> Env)

  ghost predicate AlwaysFair(answers: Answers) {
    forall s, i :: Fair(s, i, answers.env(s, i))
  }

  /** The run got these answers. */
  predicate Answered(c: Config, s: State, run: seq<Action>, answers: Answers)
    requires Runs(c, s, run)
    decreases run
  {
    run == [] ||
    (&& (run[0].GetCount? ==> run[0].height == answers.height(s))
     && (run[0].Process? ==> run[0].env == answers.env(s, run[0].i))
     && Answered(c, Next(c, s, run[0]), run[1..], answers))
  }

  /** From every state after the stop signal, and for all answers, the daemon can run to its end, in at most
      Left(s) steps. */
  lemma {:induction false} ShutdownCompletes(c: Config, s: State, answers: Answers) returns (run: seq<Action>)
    requires Inv(c, s) && s.stopped && AlwaysFair(answers)
    ensures Runs(c, s, run) && Answered(c, s, run, answers) && AllDone(After(c, s, run)) && |run| <= Left(s)
    decreases Left(s)
  {
    if AllDone(s) {
      run := [];
    } else {
      StoppedComponentSteps(c, s);
      var a;
      if s.runnerAlive {
        a := RunnerExit;
      } else if !s.iter.NoIter? {
        a := IterExit(s, answers.height(s));
      } else {
        var i :| 0 <= i < |s.workers| && !s.workers[i].Exited?;
        assert Fair(s, i, answers.env(s, i));
        a := WorkerStep(s, i, answers.env(s, i));
      }
      StoppedStep(c, s, a);
      InvStep(c, s, a);
      var rest := ShutdownCompletes(c, Next(c, s, a), answers);
      run := [a] + rest;
      assert run[1..] == rest;
    }
  }

  // ---- counting what is sent ----

  /** Inside the catch-up loop. */
  predicate InLoop(s: State) {
    s.iter.Top? || s.iter.Check? || (s.iter.HasHeight() && s.iter.h > 0)
  }

  /** One for a height of the loop that has been sent and whose answer is not stored yet. */
  function Pending(s: State): nat {
    if (s.iter.Waiting? || s.iter.Received?) && s.iter.h > 0 then 1 else 0
  }

  /** How many heights may still be sent after the stop signal, in all and by the current iteration. */
  function MayStillSend(s: State): nat {
    match s.iter
    case NoIter => if s.running then 0 else 1
    case Begin => 1
    case Top => 0
    case Check => 1
    case Sending(h, _) => if h == 0 then 1 else 2
    case Waiting(h, _) => if h == 0 then 0 else 1
    case Received(h, _) => if h == 0 then 0 else 1
  }

  function IterMayStillSend(s: State): nat {
    if s.iter.Begin? || s.iter.Sending? then 1 else 0
  }

  predicate Counted(s: State) {
    && ((s.iter.Waiting? || s.iter.Received?) ==> s.log.sent != [] && s.log.sent[|s.log.sent| - 1] == s.iter.h)
    && (InLoop(s) ==>
          && s.log.loopSent == s.last - s.log.loopStart + s.log.loopBack + Pending(s)
          && (s.last <= s.target || s.last <= s.log.loopStart)
          && (s.iter.HasHeight() ==> s.iter.h <= s.target))
    && (s.iter.Top? || (s.iter.Sending? && s.iter.h > 0) ==> s.log.loopSent > 0 ==> s.last > 0)
    && (s.stopped ==> s.log.afterStop + MayStillSend(s) <= 2)
    && (!s.stopped ==> s.log.afterStop == 0 && s.log.iterAfterStop == 0)
    && (s.stopped && !s.iter.NoIter? ==> s.log.iterAfterStop + IterMayStillSend(s) <= 1)
  }

  lemma CountedStep(c: Config, s: State, a: Action)
    requires Inv(c, s) && Counted(s) && Enabled(c, s, a)
    ensures Counted(Next(c, s, a))
  {
    if a.Send? {
      CountedSend(c, s, a.i);
    } else if a.Store? {
      CountedStore(c, s);
    } else if Control(a) {
      CountedControl(c, s, a);
    } else if OnWorkers(a) {
      CountedWorkers(c, s, a);
    } else if GivesUp(a) {
      CountedGivesUp(c, s, a);
    } else {
      CountedOutside(c, s, a);
    }
  }

  lemma CountedSend(c: Config, s: State, i: nat)
    requires Inv(c, s) && Counted(s) && Enabled(c, s, Send(i))
    ensures Counted(Next(c, s, Send(i)))
  {
  }

  lemma CountedStore(c: Config, s: State)
    requires Inv(c, s) && Counted(s) && Enabled(c, s, Store)
    ensures Counted(Next(c, s, Store))
  {
  }

  lemma CountedControl(c: Config, s: State, a: Action)
    requires Inv(c, s) && Counted(s) && Enabled(c, s, a) && Control(a) && !a.Store?
    ensures Counted(Next(c, s, a))
  {
  }

  lemma CountedWorkers(c: Config, s: State, a: Action)
    requires Inv(c, s) && Counted(s) && Enabled(c, s, a) && OnWorkers(a) && !a.Send?
    ensures Counted(Next(c, s, a))
  {
    if a.Answer? { assert s.workers[a.i].Holds(); }
  }

  lemma CountedGivesUp(c: Config, s: State, a: Action)
    requires Inv(c, s) && Counted(s) && Enabled(c, s, a) && GivesUp(a)
    ensures Counted(Next(c, s, a))
  {
  }

  lemma CountedOutside(c: Config, s: State, a: Action)
    requires Inv(c, s) && Counted(s) && Enabled(c, s, a) && Outside(a)
    ensures Counted(Next(c, s, a))
  {
  }

  lemma {:induction false} CountedHolds(c: Config, s: State, run: seq<Action>)
    requires Inv(c, s) && Counted(s) && Runs(c, s, run)
    ensures Counted(After(c, s, run))
    decreases run
  {
    if run == [] {
    } else {
      CountedStep(c, s, run[0]);
      InvStep(c, s, run[0]);
      CountedHolds(c, Next(c, s, run[0]), run[1..]);
    }
  }

  /**
   * Over whole runs: an answer taken belongs to the height sent last; the heights sent by a catch-up loop number its
   * progress plus its rollbacks, so that bounded rollbacks bound the loop; it sends no more once it is rolled back to
   * the genesis block; and after the stop signal one iteration sends at most one more height, the daemon at most two.
   */
  lemma SendsAreAccountedFor(c: Config, s0: State, run: seq<Action>)
    requires Init(c, s0) && Runs(c, s0, run)
    ensures var s := After(c, s0, run);
            && (forall i :: 0 <= i < |s.workers| && Enabled(c, s, Answer(i)) ==>
                  s.log.sent != [] && s.workers[i].h == s.iter.h == s.log.sent[|s.log.sent| - 1])
            && (s.iter.Top? || s.iter.Check? ==> s.log.loopSent == s.last - s.log.loopStart + s.log.loopBack)
            && (InLoop(s) && s.log.loopStart <= s.target ==>
                s.log.loopSent <= s.target - s.log.loopStart + s.log.loopBack)
            && (s.iter.Sending? && s.iter.h > 0 && s.log.loopSent > 0 ==> s.last > 0)
            && s.log.afterStop <= 2 && (!s.iter.NoIter? ==> s.log.iterAfterStop <= 1)
  {
    InitInv(c, s0);
    InvHolds(c, s0, run);
    CountedHolds(c, s0, run);
    var s := After(c, s0, run);
    forall i | 0 <= i < |s.workers| && Enabled(c, s, Answer(i))
      ensures s.workers[i].h == s.iter.h
    {
      assert s.workers[i].Holds();
    }
  }

  // ---- gaps ----

  /** The stored blocks are exactly 0..l (or none yet, for l = 0). */
  predicate Full(chain: Chain, l: nat) {
    |chain| == l + 1 || (l == 0 && chain == [])
  }

  /** Unless a reorg failed after deleting, the stored blocks are the processed ones; if one did, blocks stay
      missing. */
  predicate GapIffLost(s: State) {
    if s.log.lost then
      && 1 <= s.last && 0 < |s.chain| <= s.last
      && (s.iter.Received? ==> s.iter.r == s.last)
      && (forall i :: 0 <= i < |s.workers| && s.workers[i].Answering? ==> s.workers[i].r == s.last)
    else
      && (Settled(s) ==> Full(s.chain, s.last))
      && (s.iter.Received? ==> Full(s.chain, s.iter.r))
      && (forall i :: 0 <= i < |s.workers| && s.workers[i].Busy? ==> Full(s.chain, s.last))
      && (forall i :: 0 <= i < |s.workers| && s.workers[i].Answering? ==> Full(s.chain, s.workers[i].r))
  }

  /** What processing does to a store with or without a gap. */
  lemma GapChain(chain: Chain, genesis: ChainBlock, h: nat, env: Env)
    requires 0 < h && Sendable(chain, genesis, h) && FairEnv(chain, env)
    ensures var r := ProcessHeight(chain, genesis, h, env); var lost := LosesBlocks(chain, h, env);
            && (|chain| < h ==> r == BlockResult(chain, h - 1) && !lost)
            && (|chain| == h && !lost ==> |r.chain| == r.height + 1)
            && (lost ==> |chain| == h > 1 && r.height == h - 1 && 0 < |r.chain| < h)
  {
    if |chain| == h {
      InStepIff(chain, genesis, h, env);
      KeepsChain(chain, genesis, h, env);
      if LosesBlocks(chain, h, env) { LosesIff(chain, h, env); }
    } else {
      GapIsNeverFilled(chain, genesis, h, env);
    }
  }

  lemma GapProcess(c: Config, s: State, i: nat, env: Env)
    requires Inv(c, s) && GapIffLost(s) && Enabled(c, s, Process(i, env))
    ensures GapIffLost(Next(c, s, Process(i, env)))
    ensures s.log.lost ==> Next(c, s, Process(i, env)).chain == s.chain
  {
    var h := s.workers[i].h;
    assert s.workers[i].Holds();
    var t := Next(c, s, Process(i, env));
    assert forall j :: 0 <= j < |s.workers| && j != i ==> !s.workers[j].Holds() && t.workers[j] == s.workers[j];
    if h > 0 {
      GapChain(s.chain, c.genesis, h, env);
    }
  }

  lemma GapStep(c: Config, s: State, a: Action)
    requires Inv(c, s) && GapIffLost(s) && Enabled(c, s, a)
    ensures GapIffLost(Next(c, s, a))
  {
    if OnWorkers(a) {
      GapOnWorkers(c, s, a);
    } else if Control(a) {
      GapControl(c, s, a);
    } else if GivesUp(a) {
      GapGivesUp(c, s, a);
    } else {
      GapOutside(c, s, a);
    }
  }

  lemma GapOnWorkers(c: Config, s: State, a: Action)
    requires Inv(c, s) && GapIffLost(s) && Enabled(c, s, a) && OnWorkers(a)
    ensures GapIffLost(Next(c, s, a))
  {
    match a
    case Process(i, env) => GapProcess(c, s, i, env);
    case Send(i) => GapSend(c, s, i);
    case Answer(i) => GapAnswer(c, s, i);
    case AnswerStopped(i) => GapExit(c, s, a, i);
    case WorkerExit(i) => GapExit(c, s, a, i);
  }

  lemma GapSend(c: Config, s: State, i: nat)
    requires Inv(c, s) && GapIffLost(s) && Enabled(c, s, Send(i))
    ensures GapIffLost(Next(c, s, Send(i)))
  {
  }

  lemma GapAnswer(c: Config, s: State, i: nat)
    requires Inv(c, s) && GapIffLost(s) && Enabled(c, s, Answer(i))
    ensures GapIffLost(Next(c, s, Answer(i)))
  {
    assert s.workers[i].Holds();
    var t := Next(c, s, Answer(i));
    assert forall j :: 0 <= j < |s.workers| && j != i ==> !s.workers[j].Holds() && t.workers[j] == s.workers[j];
  }

  lemma GapExit(c: Config, s: State, a: Action, i: nat)
    requires Inv(c, s) && GapIffLost(s) && Enabled(c, s, a) && (a == AnswerStopped(i) || a == WorkerExit(i))
    ensures GapIffLost(Next(c, s, a))
  {
  }

  lemma GapControl(c: Config, s: State, a: Action)
    requires Inv(c, s) && GapIffLost(s) && Enabled(c, s, a) && Control(a)
    ensures GapIffLost(Next(c, s, a))
  {
    if a.Store? {
      GapStore(c, s);
    } else {
      GapFlow(c, s, a);
    }
  }

  lemma GapStore(c: Config, s: State)
    requires Inv(c, s) && GapIffLost(s) && Enabled(c, s, Store)
    ensures GapIffLost(Next(c, s, Store))
  {
    assert Next(c, s, Store).workers == s.workers;
  }

  lemma GapFlow(c: Config, s: State, a: Action)
    requires Inv(c, s) && GapIffLost(s) && Enabled(c, s, a) && Control(a) && !a.Store?
    ensures GapIffLost(Next(c, s, a))
  {
    assert Next(c, s, a).workers == s.workers;
  }

  lemma GapGivesUp(c: Config, s: State, a: Action)
    requires Inv(c, s) && GapIffLost(s) && Enabled(c, s, a) && GivesUp(a)
    ensures GapIffLost(Next(c, s, a))
  {
    assert Next(c, s, a).workers == s.workers;
  }

  lemma GapOutside(c: Config, s: State, a: Action)
    requires Inv(c, s) && GapIffLost(s) && Enabled(c, s, a) && Outside(a)
    ensures GapIffLost(Next(c, s, a))
  {
    assert Next(c, s, a).workers == s.workers;
  }

  lemma LostStep(c: Config, s: State, a: Action)
    requires Inv(c, s) && GapIffLost(s) && s.log.lost && Enabled(c, s, a)
    ensures var t := Next(c, s, a); t.log.lost && t.chain == s.chain && t.last == s.last
  {
    if a.Process? { GapProcess(c, s, a.i, a.env); }
  }

  lemma {:induction false} GapHolds(c: Config, s: State, run: seq<Action>)
    requires Inv(c, s) && GapIffLost(s) && Runs(c, s, run)
    ensures GapIffLost(After(c, s, run))
    ensures s.log.lost ==> After(c, s, run).chain == s.chain && After(c, s, run).last == s.last
    decreases run
  {
    if run == [] {
    } else {
      if s.log.lost { LostStep(c, s, run[0]); }
      GapStep(c, s, run[0]);
      InvStep(c, s, run[0]);
      GapHolds(c, Next(c, s, run[0]), run[1..]);
    }
  }

  /** Some block of the run meets answers on which its reorg loses blocks. */
  predicate LossInRun(c: Config, s: State, run: seq<Action>)
    requires Runs(c, s, run)
    decreases run
  {
    run != [] &&
    (|| (run[0].Process? && LosesBlocks(s.chain, s.workers[run[0].i].h, run[0].env))
     || LossInRun(c, Next(c, s, run[0]), run[1..]))
  }

  lemma {:induction false} LostIff(c: Config, s: State, run: seq<Action>)
    requires Runs(c, s, run)
    ensures After(c, s, run).log.lost <==> s.log.lost || LossInRun(c, s, run)
    decreases run
  {
    if run == [] {
    } else {
      LostIff(c, Next(c, s, run[0]), run[1..]);
    }
  }

  /** Between blocks the table holds exactly the heights 0..lastHeightProcessed if and only if no reorg has lost
      blocks. */
  lemma StoredExactlyIff(c: Config, s0: State, run: seq<Action>)
    requires Init(c, s0) && Runs(c, s0, run) && Settled(After(c, s0, run))
    ensures Full(After(c, s0, run).chain, After(c, s0, run).last) <==> !LossInRun(c, s0, run)
  {
    InitInv(c, s0);
    GapHolds(c, s0, run);
    LostIff(c, s0, run);
  }

  lemma ReachesBusy(c: Config, s0: State) returns (run: seq<Action>)
    requires Init(c, s0) && |s0.chain| >= 2
    ensures Runs(c, s0, run)
    ensures var s := After(c, s0, run);
            && s.chain == s0.chain && s.left.NoRow? && s.workers != [] && s.workers[0] == Busy(|s0.chain|)
            && Sendable(s.chain, c.genesis, |s0.chain|)
  {
    run := StartsSending(c, s0, |s0.chain|);
    OneMore(c, s0, run, Send(0));
    run := run + [Send(0)];
    InitInv(c, s0);
    InvHolds(c, s0, run);
    BusyIsSendable(c, After(c, s0, run), 0);
  }

  /** From every table of two blocks or more a row can be left: the next block fails, and its row cannot be removed. */
  lemma LeftReachable(c: Config, s0: State, b: ChainBlock) returns (run: seq<Action>)
    requires Init(c, s0) && |s0.chain| >= 2 && b.prev == BlockChain.Top(s0.chain).hash && !Has(s0.chain, b.hash)
    ensures Runs(c, s0, run)
    ensures var s := After(c, s0, run);
            && s.chain == s0.chain
            && s.left == BlockTable.LeftRow(b.hash, BlockTable.Row(|s0.chain|, b.prev, BlockTable.Processing))
  {
    var env := Working(b).(ending := FailsAfterRow, deleteFails := {|s0.chain|});
    run := ReachesBusy(c, s0);
    OneMore(c, s0, run, Process(0, env));
    run := run + [Process(0, env)];
  }

  /** From every table of two blocks or more a loss can happen: the node names a block of another branch and
      answers no more. */
  lemma LossReachable(c: Config, s0: State, n: ChainBlock) returns (run: seq<Action>)
    requires Init(c, s0) && |s0.chain| >= 2 && n.prev != BlockChain.Top(s0.chain).hash && !Has(s0.chain, n.hash)
    ensures Runs(c, s0, run) && After(c, s0, run).log.lost
  {
    var env := Working(n);
    run := ReachesBusy(c, s0);
    OneMore(c, s0, run, Process(0, env));
    run := run + [Process(0, env)];
    assert !Stale(s0.chain, n.prev, |s0.chain| - 1, env);
    assert LosesBlocks(s0.chain, |s0.chain|, env);
  }

  /** Once a reorg has lost blocks, nothing the process does before it ends stores or processes another height. */
  lemma LostForever(c: Config, s0: State, run: seq<Action>, more: seq<Action>)
    requires Init(c, s0) && Runs(c, s0, run) && LossInRun(c, s0, run) && Runs(c, After(c, s0, run), more)
    ensures var s := After(c, s0, run);
            After(c, s, more).chain == s.chain && After(c, s, more).last == s.last && |s.chain| <= s.last
  {
    InitInv(c, s0);
    InvHolds(c, s0, run);
    LostIff(c, s0, run);
    GapHolds(c, s0, run);
    GapHolds(c, After(c, s0, run), more);
  }

  // ---- a restart ----

  /** The daemon started again on the same table. */
  function Restarted(s: State): State {
    var last := if s.chain == [] then 0 else |s.chain| - 1;
    State(last, 0, false, false, true, NoIter, seq(|s.workers|, _ => Idle), s.chain, BlockTable.NoRow, s.now,
          if s.chain == [] then NothingYet else Succeeded(NothingYet, last, s.now), Log([], [], 0, 0, 0, 0, 0, false))
  }

  /** Before anything is sent nothing has changed, and the height about to be sent follows the highest stored block. */
  predicate Unsent(s0: State, s: State) {
    s.log.sent == [] ==>
      && s.last == s0.last && s.chain == s0.chain && !s.iter.Waiting? && !s.iter.Received?
      && (forall i :: 0 <= i < |s.workers| ==> !s.workers[i].Holds())
      && (s.iter.Sending? ==> s.iter.h == if s0.last == 0 then 0 else s0.last + 1)
      && (s0.last == 0 ==> !s.iter.Top? && !s.iter.Check?)
  }

  lemma UnsentControl(c: Config, s0: State, s: State, a: Action)
    requires Unsent(s0, s) && Enabled(c, s, a) && Control(a)
    ensures Unsent(s0, Next(c, s, a))
  {
    assert Next(c, s, a).workers == s.workers;
  }

  lemma UnsentStep(c: Config, s0: State, s: State, a: Action)
    requires Unsent(s0, s) && Enabled(c, s, a)
    ensures Unsent(s0, Next(c, s, a))
  {
    if Control(a) {
      UnsentControl(c, s0, s, a);
    } else if !OnWorkers(a) {
      assert Next(c, s, a).workers == s.workers && Next(c, s, a).log.sent == s.log.sent;
    }
  }

  lemma {:induction false} UnsentHolds(c: Config, s0: State, s: State, run: seq<Action>)
    requires Unsent(s0, s) && Runs(c, s, run)
    ensures Unsent(s0, After(c, s, run))
    decreases run
  {
    if run == [] {
    } else {
      UnsentStep(c, s0, s, run[0]);
      UnsentHolds(c, s0, Next(c, s, run[0]), run[1..]);
    }
  }

  /** After a restart the first height sent is the first missing one (with at most the genesis block stored, it is
      0 first). */
  lemma RestartSendsFirstMissing(c: Config, s0: State, run: seq<Action>, more: seq<Action>, i: nat)
    requires Init(c, s0) && Runs(c, s0, run) && Runs(c, Restarted(After(c, s0, run)), more)
    requires var t := After(c, Restarted(After(c, s0, run)), more); t.log.sent == [] && Enabled(c, t, Send(i))
    ensures Init(c, Restarted(After(c, s0, run)))
    ensures var s := After(c, s0, run);
            After(c, Restarted(s), more).iter.h == if |s.chain| <= 1 then 0 else |s.chain|
  {
    RestartIsInit(c, s0, run);
    UnsentHolds(c, Restarted(After(c, s0, run)), Restarted(After(c, s0, run)), more);
  }

  lemma RestartIsInit(c: Config, s0: State, run: seq<Action>)
    requires Init(c, s0) && Runs(c, s0, run)
    ensures Init(c, Restarted(After(c, s0, run)))
  {
    InitInv(c, s0);
    InvHolds(c, s0, run);
  }

  lemma {:induction false} OneMore(c: Config, s: State, run: seq<Action>, a: Action)
    requires Runs(c, s, run) && Enabled(c, After(c, s, run), a)
    ensures Runs(c, s, run + [a]) && After(c, s, run + [a]) == Next(c, After(c, s, run), a)
    decreases run
  {
    if run == [] {
      assert [a][1..] == [];
    } else {
      assert (run + [a])[1..] == run[1..] + [a];
      OneMore(c, Next(c, s, run[0]), run[1..], a);
    }
  }

  /** A node that answers, and a database that works. */
  function Working(b: ChainBlock): Env {
    Env(Some(b), map[], {}, {}, Commits, Recovery(false, false))
  }

  lemma SendAndProcess(c: Config, s: State, h: nat, env: Env) returns (run: seq<Action>)
    requires Inv(c, s) && !s.stopped && s.iter.Sending? && s.iter.h == h
    requires FairEnv(s.chain, env) && env.ending.Commits? && s.left.NoRow?
    ensures Runs(c, s, run) && run == [Send(0), Process(0, env)]
    ensures var t := After(c, s, run); var r := ProcessHeight(s.chain, c.genesis, h, env);
            && t.chain == r.chain && t.left.NoRow? && t.iter.Waiting? && t.iter.h == h && !t.stopped
            && t.target == s.target && t.runnerAlive == s.runnerAlive
            && t.workers != [] && t.workers[0] == Answering(h, r.height)
  {
    assert !s.workers[0].Holds();
    OneMore(c, s, [], Send(0));
    InvHolds(c, s, [Send(0)]);
    BusyIsSendable(c, After(c, s, [Send(0)]), 0);
    OneMore(c, s, [Send(0)], Process(0, env));
    run := [Send(0)] + [Process(0, env)];
  }

  /** Sending h, processing and storing the answer, in a state in which h is about to be sent. */
  lemma SendAndStore(c: Config, s: State, h: nat, env: Env) returns (run: seq<Action>)
    requires Inv(c, s) && !s.stopped && s.iter.Sending? && s.iter.h == h
    requires FairEnv(s.chain, env) && env.ending.Commits? && s.left.NoRow?
    ensures Runs(c, s, run) && run == [Send(0), Process(0, env), Answer(0), Store]
    ensures var t := After(c, s, run); var r := ProcessHeight(s.chain, c.genesis, h, env);
            && t.chain == r.chain && t.left.NoRow? && t.last == r.height && !t.stopped && t.target == s.target
            && t.runnerAlive == s.runnerAlive && t.iter == if h == 0 then Top else Check
  {
    run := SendAndProcess(c, s, h, env);
    OneMore(c, s, run, Answer(0));
    OneMore(c, s, run + [Answer(0)], Store);
    run := run + [Answer(0)] + [Store];
  }

  /** The gap a lost reorg leaves is filled after a restart: from the table it left, with a node that answers with
      the next block b of the stored chain, the daemon stores b. */
  lemma RestartFillsGap(c: Config, s0: State, run: seq<Action>, b: ChainBlock) returns (more: seq<Action>)
    requires Init(c, s0) && Runs(c, s0, run)
    requires var chain := After(c, s0, run).chain;
             chain != [] && b.prev == BlockChain.Top(chain).hash && !Has(chain, b.hash)
    ensures var s := After(c, s0, run); var t := Restarted(s);
            && Init(c, t) && Runs(c, t, more)
            && After(c, t, more).last == |s.chain| && |After(c, t, more).chain| == |s.chain| + 1
            && BlockChain.Top(After(c, t, more).chain) == b
  {
    RestartIsInit(c, s0, run);
    var t := Restarted(After(c, s0, run));
    more := StoresNext(c, t, b);
  }

  lemma {:induction false} RunsOn(c: Config, s: State, run: seq<Action>, more: seq<Action>)
    requires Runs(c, s, run) && Runs(c, After(c, s, run), more)
    ensures Runs(c, s, run + more) && After(c, s, run + more) == After(c, After(c, s, run), more)
    decreases run
  {
    if run == [] {
      assert run + more == more;
    } else {
      assert (run + more)[1..] == run[1..] + more;
      RunsOn(c, Next(c, s, run[0]), run[1..], more);
    }
  }

  /** From the start up to the first height about to be sent. */
  lemma StartsSending(c: Config, s: State, target: nat) returns (run: seq<Action>)
    requires Init(c, s) && target > s.last
    ensures Runs(c, s, run)
    ensures var t := After(c, s, run);
            && t.iter == Sending(if s.last == 0 then 0 else s.last + 1, s.now + c.settings.timeout)
            && t.chain == s.chain && t.left == s.left && t.last == s.last && t.target == target && t.now == s.now
            && !t.stopped && t.running && t.runnerAlive && t.workers == s.workers
  {
    OneMore(c, s, [], StartIteration);
    OneMore(c, s, [StartIteration], GetCount(Some(target)));
    run := [StartIteration] + [GetCount(Some(target))];
    if s.last > 0 {
      OneMore(c, s, run, LoopTop);
      run := run + [LoopTop];
    }
  }

  /** Up to the sending of the next height: with only the genesis block stored, height 0 comes first. */
  lemma ReachesNext(c: Config, s: State, b: ChainBlock) returns (run: seq<Action>)
    requires Init(c, s) && s.chain != [] && !Has(s.chain, b.hash)
    ensures Runs(c, s, run)
    ensures var t := After(c, s, run);
            && t.iter.Sending? && t.iter.h == |s.chain| && t.left.NoRow? && !t.stopped
            && |t.chain| == |s.chain| && BlockChain.Top(t.chain).hash == BlockChain.Top(s.chain).hash
            && !Has(t.chain, b.hash)
  {
    InitInv(c, s);
    run := StartsSending(c, s, |s.chain|);
    if s.last == 0 {
      InvHolds(c, s, run);
      var first := SendAndStore(c, After(c, s, run), 0, Working(b));
      RunsOn(c, s, run, first);
      OneMore(c, s, run + first, LoopTop);
      run := run + first + [LoopTop];
    }
  }

  lemma StoresNext(c: Config, s: State, b: ChainBlock) returns (run: seq<Action>)
    requires Init(c, s) && s.chain != [] && b.prev == BlockChain.Top(s.chain).hash && !Has(s.chain, b.hash)
    ensures Runs(c, s, run)
    ensures var t := After(c, s, run);
            t.last == |s.chain| && |t.chain| == |s.chain| + 1 && BlockChain.Top(t.chain) == b
  {
    InitInv(c, s);
    run := ReachesNext(c, s, b);
    InvHolds(c, s, run);
    var next := SendAndStore(c, After(c, s, run), |s.chain|, Working(b));
    RunsOn(c, s, run, next);
    run := run + next;
  }

  // ---- giving up ----

  /** An iteration that gave up with the flag still up, as after a send timeout, was the last: nothing is sent any
      more. */
  lemma {:induction false} GivenUpForever(c: Config, s: State, run: seq<Action>)
    requires s.iter.NoIter? && s.running && Runs(c, s, run)
    ensures var t := After(c, s, run);
            t.iter.NoIter? && t.running && t.log.sent == s.log.sent && t.last == s.last
    decreases run
  {
    if run == [] {
    } else {
      GivenUpForever(c, Next(c, s, run[0]), run[1..]);
    }
  }

  lemma {:induction false} StaysStopped(c: Config, s: State, run: seq<Action>)
    requires Runs(c, s, run) && s.stopped
    ensures After(c, s, run).stopped
    decreases run
  {
    if run == [] {
    } else {
      StaysStopped(c, Next(c, s, run[0]), run[1..]);
    }
  }

  lemma GivesUpStep(c: Config, s: State, a: Action)
    requires Inv(c, s) && Enabled(c, s, a) && !s.stopped
    ensures var t := Next(c, s, a); t.iter.NoIter? && t.running <==> (s.iter.NoIter? && s.running) || a == SendTimeout
  {
  }

  /** Without the stop signal the daemon gives up exactly when a send times out. */
  lemma {:induction false} GivesUpIff(c: Config, s: State, run: seq<Action>)
    requires Inv(c, s) && Runs(c, s, run) && !After(c, s, run).stopped
    ensures var t := After(c, s, run); t.iter.NoIter? && t.running <==>
              (s.iter.NoIter? && s.running) || SendTimeout in run
    decreases run
  {
    if run == [] {
    } else {
      if s.stopped { StaysStopped(c, s, run); }
      GivesUpStep(c, s, run[0]);
      InvStep(c, s, run[0]);
      GivesUpIff(c, Next(c, s, run[0]), run[1..]);
      assert SendTimeout in run <==> run[0] == SendTimeout || SendTimeout in run[1..];
    }
  }

  /** With a timeout set this happens: a height that no worker takes in time ends the daemon's work until the process
      is started again, although all its workers are free. */
  lemma GivesUpReachable(c: Config, s0: State) returns (run: seq<Action>)
    requires Init(c, s0) && c.settings.timeout > 0
    ensures Runs(c, s0, run) && SendTimeout in run
    ensures var s := After(c, s0, run);
            && s.iter.NoIter? && s.running && !s.stopped && s.runnerAlive && s.target > s.last
            && (forall i :: 0 <= i < |s.workers| ==> s.workers[i].Idle?)
            && forall more :: Runs(c, s, more) ==> After(c, s, more).log.sent == s.log.sent
  {
    run := StartsSending(c, s0, s0.last + 1);
    OneMore(c, s0, run, Advance(c.settings.timeout));
    OneMore(c, s0, run + [Advance(c.settings.timeout)], SendTimeout);
    run := run + [Advance(c.settings.timeout)] + [SendTimeout];
    var s := After(c, s0, run);
    forall more | Runs(c, s, more)
      ensures After(c, s, more).log.sent == s.log.sent
    {
      GivenUpForever(c, s, more);
    }
  }

  lemma {:induction false} TimeoutIsSet(c: Config, s: State, run: seq<Action>)
    requires Runs(c, s, run) && SendTimeout in run
    ensures c.settings.timeout > 0
    decreases run
  {
    if run[0] == SendTimeout {
    } else {
      assert run == [run[0]] + run[1..];
      TimeoutIsSet(c, Next(c, s, run[0]), run[1..]);
    }
  }

  ghost predicate GivenUp(s: State) {
    s.iter.NoIter? && s.running && !s.stopped
  }

  /** From every start, some run gives up without the stop signal exactly if a timeout is set. */
  lemma GivesUpIffTimeout(c: Config, s0: State)
    requires Init(c, s0)
    ensures (exists run :: Runs(c, s0, run) && GivenUp(After(c, s0, run))) <==> c.settings.timeout > 0
  {
    InitInv(c, s0);
    if run :| Runs(c, s0, run) && GivenUp(After(c, s0, run)) {
      GivesUpIff(c, s0, run);
      TimeoutIsSet(c, s0, run);
    }
    if c.settings.timeout > 0 {
      var run := GivesUpReachable(c, s0);
    }
  }

  // ---- the watchdog ----

  /** Between unforced dumps: the delay that is set, or else the timeout. */
  function DumpInterval(c: Config): int {
    if c.settings.dumpDelay > 0 then c.settings.dumpDelay else c.settings.timeout
  }

  /** Dumps are in order, each of a block long outstanding, and the unforced ones keep their distance. */
  predicate DumpsKept(c: Config, dumps: seq<Dump>, lastDumpAt: Option<int>, now: int) {
    && (lastDumpAt == if dumps == [] then None else Some(dumps[|dumps| - 1].at))
    && (forall k :: 0 <= k < |dumps| ==> dumps[k].at <= now && dumps[k].seen.elapsed >= c.settings.timeout > 0)
    && (forall k :: 0 < k < |dumps| && !dumps[k].forced ==> dumps[k].at - dumps[k - 1].at >= DumpInterval(c))
  }

  /** What the watchdog holds agrees with where the protocol is. */
  predicate Watched(c: Config, s: State) {
    && (s.watch.startedAt.Some? <==> s.iter.Outstanding())
    && (s.iter.Outstanding() ==> s.watch.inflightHeight == s.iter.h && s.watch.startedAt.value <= s.now)
    && (s.iter.Outstanding() ==> s.iter.deadline >= s.watch.startedAt.value + c.settings.timeout)
    && (s.iter.Sending? ==> s.iter.deadline == s.watch.startedAt.value + c.settings.timeout)
    && (!s.iter.NoIter? && !s.iter.Begin? ==> s.watch.targetHeight == s.target)
    && s.watch.lastSuccessHeight == (if s.iter.Received? then s.iter.r else s.last)
    && DumpsKept(c, s.log.dumps, s.watch.lastDumpAt, s.now)
  }

  lemma MaybeDumpKeeps(c: Config, s: State, force: bool)
    requires Watched(c, s)
    ensures Watched(c, MaybeDump(c, s, force))
    ensures s.iter.Outstanding() && force && c.settings.timeout > 0 && s.now >= s.iter.deadline ==>
              Due(s.watch, c.settings, force, s.now)
  {
    var t := MaybeDump(c, s, force);
    if t != s {
      var dumps := t.log.dumps;
      forall k | 0 < k < |dumps| && !dumps[k].forced
        ensures dumps[k].at - dumps[k - 1].at >= DumpInterval(c)
      {
        assert k < |s.log.dumps| ==> dumps[k] == s.log.dumps[k];
      }
    }
  }

  lemma WatchedStep(c: Config, s: State, a: Action)
    requires Inv(c, s) && Watched(c, s) && Enabled(c, s, a)
    ensures Watched(c, Next(c, s, a))
  {
    if a.Store? || a.LoopCheck? || a.StartIteration? {
      WatchedFlow(c, s, a);
    } else if Control(a) {
      WatchedControl(c, s, a);
    } else if OnWorkers(a) {
      WatchedWorkers(c, s, a);
    } else if GivesUp(a) {
      WatchedGivesUp(c, s, a);
    } else {
      MaybeDumpKeeps(c, s, false);
    }
  }

  lemma WatchedControl(c: Config, s: State, a: Action)
    requires Inv(c, s) && Watched(c, s) && Enabled(c, s, a) && (a.GetCount? || a.LoopTop?)
    ensures Watched(c, Next(c, s, a))
  {
    assert Next(c, s, a).log.dumps == s.log.dumps;
  }

  lemma WatchedFlow(c: Config, s: State, a: Action)
    requires Inv(c, s) && Watched(c, s) && Enabled(c, s, a) && (a.Store? || a.LoopCheck? || a.StartIteration?)
    ensures Watched(c, Next(c, s, a))
  {
    assert Next(c, s, a).log.dumps == s.log.dumps;
  }

  lemma WatchedWorkers(c: Config, s: State, a: Action)
    requires Inv(c, s) && Watched(c, s) && Enabled(c, s, a) && OnWorkers(a)
    ensures Watched(c, Next(c, s, a))
  {
  }

  lemma WatchedGivesUp(c: Config, s: State, a: Action)
    requires Watched(c, s) && Enabled(c, s, a) && GivesUp(a)
    ensures Watched(c, Next(c, s, a))
  {
    MaybeDumpKeeps(c, s, true);
  }

  /** A step changes the list of dumps only by one more dump, and only when one is due; a fired timer makes one due. */
  lemma WhoDumps(c: Config, s: State, a: Action)
    requires Watched(c, s) && Enabled(c, s, a)
    ensures var t := Next(c, s, a); var force := a.WaitTimeout? || a.SendTimeout?;
            && t.log.dumps == (if (force || a.WatchdogTick?) && Due(s.watch, c.settings, force, s.now)
                               then s.log.dumps + [Dump(s.now, force, Seen(s.watch, s.now))] else s.log.dumps)
            && (force ==> Due(s.watch, c.settings, true, s.now))
  {
  }

  lemma TickDumpsIff(c: Config, s: State)
    requires Watched(c, s) && Enabled(c, s, WatchdogTick)
    ensures Next(c, s, WatchdogTick).log.dumps != s.log.dumps <==>
            && c.settings.timeout > 0 && s.iter.Outstanding()
            && s.now - s.watch.startedAt.value >= c.settings.timeout
            && (s.log.dumps == [] || s.now - s.log.dumps[|s.log.dumps| - 1].at >= DumpInterval(c))
  {
    WhoDumps(c, s, WatchdogTick);
  }

  /** What a dump says. */
  lemma DumpSays(c: Config, s: State, a: Action)
    requires Watched(c, s) && Enabled(c, s, a) && Next(c, s, a).log.dumps != s.log.dumps
    ensures var dumps := Next(c, s, a).log.dumps;
            && s.iter.Outstanding() && s.watch.startedAt.Some?
            && dumps != [] && dumps[..|dumps| - 1] == s.log.dumps
            && var d := dumps[|dumps| - 1];
               d.seen == Snapshot(s.iter.h, s.target, s.last, s.now - s.watch.startedAt.value)
                 && d.seen.elapsed >= c.settings.timeout && d.at == s.now
  {
    WhoDumps(c, s, a);
  }

  lemma {:induction false} WatchedHolds(c: Config, s: State, run: seq<Action>)
    requires Inv(c, s) && Watched(c, s) && Runs(c, s, run)
    ensures Watched(c, After(c, s, run))
    decreases run
  {
    if run == [] {
    } else {
      WatchedStep(c, s, run[0]);
      InvStep(c, s, run[0]);
      WatchedHolds(c, Next(c, s, run[0]), run[1..]);
    }
  }

  /**
   * Between blocks the watchdog's last success is lastHeightProcessed. A step that dumps finds a block outstanding for
   * at least the timeout, and the dump says which, since when, and the target; a tick dumps exactly if it does and the
   * last dump is far enough back; a fired wait or send timer always dumps. A wait is timed from the send, and then by
   * the interval of the dumps.
   */
  predicate WatchesRightly(c: Config, s: State, a: Action)
    requires Enabled(c, s, a)
  {
    var dumps, dumps' := s.log.dumps, Next(c, s, a).log.dumps;
    && (!s.iter.Received? ==> s.watch.lastSuccessHeight == s.last)
    && (s.iter.Outstanding() ==> s.watch.startedAt.Some?)
    && (dumps' != dumps ==>
          && s.iter.Outstanding() && dumps' != [] && dumps'[..|dumps'| - 1] == dumps
          && var d := dumps'[|dumps'| - 1];
             d.seen == Snapshot(s.iter.h, s.target, s.last, s.now - s.watch.startedAt.value)
               && d.seen.elapsed >= c.settings.timeout && d.at == s.now)
    && (a.WatchdogTick? ==>
          (dumps' != dumps <==>
             && c.settings.timeout > 0 && s.iter.Outstanding()
             && s.now - s.watch.startedAt.value >= c.settings.timeout
             && (dumps == [] || s.now - dumps[|dumps| - 1].at >= DumpInterval(c))))
    && (a.WaitTimeout? || a.SendTimeout? ==> |dumps'| == |dumps| + 1)
    && (a.Send? ==> Next(c, s, a).iter == Waiting(s.iter.h, s.now + c.settings.timeout))
    && (a.WaitTimeout? ==> Next(c, s, a).iter == Waiting(s.iter.h, s.now + DumpInterval(c)))
    && (forall k :: 0 < k < |dumps'| && !dumps'[k].forced ==> dumps'[k].at - dumps'[k - 1].at >= DumpInterval(c))
  }

  lemma WatchedRightly(c: Config, s: State, a: Action)
    requires Inv(c, s) && Watched(c, s) && Enabled(c, s, a)
    ensures WatchesRightly(c, s, a)
  {
    KeepsDistance(c, s, a);
    WhoDumps(c, s, a);
    if a.WatchdogTick? { TickDumpsIff(c, s); }
    if Next(c, s, a).log.dumps != s.log.dumps { DumpSays(c, s, a); }
  }

  lemma KeepsDistance(c: Config, s: State, a: Action)
    requires Inv(c, s) && Watched(c, s) && Enabled(c, s, a)
    ensures var dumps := Next(c, s, a).log.dumps;
            forall k :: 0 < k < |dumps| && !dumps[k].forced ==> dumps[k].at - dumps[k - 1].at >= DumpInterval(c)
  {
    WatchedStep(c, s, a);
  }

  /** So it is with every step of every run. */
  lemma WatchdogAgrees(c: Config, s0: State, run: seq<Action>, a: Action)
    requires Init(c, s0) && Runs(c, s0, run) && Enabled(c, After(c, s0, run), a)
    ensures WatchesRightly(c, After(c, s0, run), a)
  {
    InitInv(c, s0);
    InvHolds(c, s0, run);
    WatchedHolds(c, s0, run);
    WatchedRightly(c, After(c, s0, run), a);
  }
}
