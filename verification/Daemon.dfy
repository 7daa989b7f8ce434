/**
 * The block daemon of daemon/daemon.go as a step relation: the ticker, one iteration at a time, the block workers on
 * two unbuffered channels, the stop signal and the watchdog.
 */
module Daemon {
  import opened Collections
  import opened BlockChain
  import BlockTable
  import opened Watchdog

  /** Where the current iteration is; NoIter also stands for an iteration that has returned. */
  datatype Iter =
    | NoIter
    | Begin // before the node is asked for its height
    | Top // before the select at the head of the loop
    | Sending(h: nat, deadline: int)
    | Waiting(h: nat, deadline: int)
    | Received(h: nat, r: nat) // the answer is recorded by the watchdog but not yet stored
    | Check // before the test for more work
  {
    predicate Outstanding() { Sending? || Waiting? }
    predicate HasHeight() { Sending? || Waiting? || Received? }
  }

  datatype Worker = Idle | Busy(h: nat) | Answering(h: nat, r: nat) | Exited {
    predicate Holds() { Busy? || Answering? }
  }

  datatype Dump = Dump(at: int, forced: bool, seen: Snapshot)

  datatype State = State(
    last: nat, // lastHeightProcessed
    target: nat, // blockHeight
    running: bool,
    stopped: bool,
    runnerAlive: bool, // runDaemon itself
    iter: Iter,
    workers: seq<Worker>,
    chain: Chain, // what the block table holds
    left: BlockTable.Leftover, // and the row of a failed block that could not be removed
    now: int,
    watch: Watch,
    log: Log)

  /** What has happened so far; nothing in the daemon reads it. */
  datatype Log = Log(
    sent: seq<nat>, // heights taken by a worker
    dumps: seq<Dump>,
    loopStart: nat, // lastHeightProcessed when the catch-up loop was entered
    loopSent: nat, // heights sent by that loop
    loopBack: nat, // sum over its answers of height sent minus height answered
    afterStop: nat, // heights sent after the stop signal
    iterAfterStop: nat, // of these, by the current iteration
    lost: bool) // some reorg failed after deleting blocks

  datatype Config = Config(settings: Settings, genesis: ChainBlock)

  datatype Action =
    | Advance(ticks: nat)
    | Stop
    | StartIteration
    | RunnerExit
    | GetCount(height: Option<nat>)
    | LoopTop
    | LoopCheck
    | Send(i: nat)
    | SendStopped
    | SendTimeout
    | Process(i: nat, env: Env)
    | Answer(i: nat)
    | AnswerStopped(i: nat)
    | WorkerExit(i: nat)
    | WaitStopped
    | WaitTimeout
    | Store
    | WatchdogTick

  /** Answers that a busy worker may get: hashes do not repeat, and no second row is left beside the chain. */
  predicate Fair(s: State, i: nat, env: Env) {
    i < |s.workers| && s.workers[i].Busy? ==>
      FairEnv(s.chain, env) && BlockTable.OneRowAtMost(s.chain, s.left, s.workers[i].h, env)
  }

  predicate Enabled(c: Config, s: State, a: Action) {
    match a
    case Advance(_) => true
    case Stop => true
    case StartIteration => s.runnerAlive && !s.running
    case RunnerExit => s.runnerAlive && s.stopped
    case GetCount(_) => s.iter.Begin?
    case LoopTop => s.iter.Top?
    case LoopCheck => s.iter.Check?
    case Send(i) => s.iter.Sending? && i < |s.workers| && s.workers[i].Idle?
    case SendStopped => s.iter.Sending? && s.stopped
    case SendTimeout => s.iter.Sending? && c.settings.timeout > 0 && s.now >= s.iter.deadline
    case Process(i, env) =>
      // Sendable holds whenever a worker is busy (BusyIsSendable), so it keeps no step back
      && i < |s.workers| && s.workers[i].Busy?
      && Sendable(s.chain, c.genesis, s.workers[i].h) && Fair(s, i, env)
    case Answer(i) => s.iter.Waiting? && i < |s.workers| && s.workers[i].Answering?
    case AnswerStopped(i) => i < |s.workers| && s.workers[i].Answering? && s.stopped
    case WorkerExit(i) => i < |s.workers| && s.workers[i].Idle? && s.stopped
    case WaitStopped => s.iter.Waiting? && s.stopped
    case WaitTimeout => s.iter.Waiting? && c.settings.timeout > 0 && s.now >= s.iter.deadline
    case Store => s.iter.Received?
    case WatchdogTick => !s.stopped
  }

  /** processBlockHeight up to the send: recordBlockStart and the send timer. */
  function StartSending(c: Config, s: State, h: nat): State {
    s.(iter := Sending(h, s.now + c.settings.timeout), watch := Started(s.watch, h, s.now))
  }

  /** Entering the loop of daemonIteration. */
  function EnterLoop(s: State): State {
    s.(iter := Top, log := s.log.(loopStart := s.last, loopSent := 0, loopBack := 0))
  }

  /** A dump if one is due. */
  function MaybeDump(c: Config, s: State, force: bool): State {
    if Due(s.watch, c.settings, force, s.now) then
      s.(watch := Dumped(s.watch, s.now),
         log := s.log.(dumps := s.log.dumps + [Dump(s.now, force, Seen(s.watch, s.now))]))
    else s
  }

  function CountSend(s: State, h: nat): Log {
    var log := s.log.(sent := s.log.sent + [h]);
    var log' := if h > 0 then log.(loopSent := log.loopSent + 1) else log;
    if s.stopped then log'.(afterStop := log'.afterStop + 1, iterAfterStop := log'.iterAfterStop + 1) else log'
  }

  /** How far an answer lies below the height sent. */
  function Depth(h: nat, r: nat): nat {
    if r <= h then h - r else 0
  }

  function Next(c: Config, s: State, a: Action): State
    requires Enabled(c, s, a)
  {
    match a
    case Advance(ticks) => s.(now := s.now + ticks)
    case Stop => s.(stopped := true)
    case StartIteration => s.(running := true, iter := Begin, log := s.log.(iterAfterStop := 0))
    case RunnerExit => s.(runnerAlive := false)
    case GetCount(height) =>
      if height.None? then s.(running := false, iter := NoIter)
      else
        var t := s.(target := height.value, watch := Targeted(s.watch, height.value, s.last, s.now));
        if s.last == 0 then StartSending(c, t, 0) else EnterLoop(t)
    case LoopTop =>
      if s.stopped then s.(iter := NoIter)
      else if s.target >= s.last + 1 then StartSending(c, s, s.last + 1)
      else s.(iter := Check)
    case LoopCheck =>
      if s.last < s.target && s.last != 0 then s.(iter := Top)
      else s.(running := false, iter := NoIter)
    case Send(i) =>
      s.(iter := Waiting(s.iter.h, s.now + c.settings.timeout),
         workers := s.workers[i := Busy(s.iter.h)],
         log := CountSend(s, s.iter.h))
    case SendStopped => s.(iter := NoIter, watch := Cleared(s.watch, s.iter.h))
    case SendTimeout =>
      var t := MaybeDump(c, s, true);
      t.(iter := NoIter, watch := Cleared(t.watch, s.iter.h))
    case Process(i, env) =>
      var h := s.workers[i].h;
      var r := ProcessHeight(s.chain, c.genesis, h, env);
      s.(chain := r.chain, left := BlockTable.LeftAfter(s.chain, s.left, h, env),
         workers := s.workers[i := Answering(h, r.height)],
         log := s.log.(lost := s.log.lost || (0 < h && LosesBlocks(s.chain, h, env))))
    case Answer(i) =>
      s.(iter := Received(s.iter.h, s.workers[i].r),
         workers := s.workers[i := Idle],
         watch := Finished(s.watch, s.iter.h, s.workers[i].r, s.now))
    case AnswerStopped(i) => s.(workers := s.workers[i := Exited])
    case WorkerExit(i) => s.(workers := s.workers[i := Exited])
    case WaitStopped => s.(iter := NoIter, watch := Cleared(s.watch, s.iter.h))
    case WaitTimeout =>
      var t := MaybeDump(c, s, true);
      t.(iter := Waiting(s.iter.h, s.now + c.settings.NextDumpDelay()))
    case Store =>
      if s.iter.h == 0 then EnterLoop(s.(last := s.iter.r))
      else
        s.(last := s.iter.r, iter := Check,
           log := s.log.(loopBack := s.log.loopBack + Depth(s.iter.h, s.iter.r)))
    case WatchdogTick => MaybeDump(c, s, false)
  }

  /** runDaemon has started its workers and taken lastHeightProcessed from the highest stored block. */
  predicate Init(c: Config, s: State) {
    && Linked(s.chain) && (s.chain != [] ==> s.chain[0].hash == c.genesis.hash)
    && s.last == (if s.chain == [] then 0 else |s.chain| - 1)
    && !s.running && !s.stopped && s.runnerAlive && s.iter.NoIter? && s.left.NoRow? // the start cleans the head
    && |s.workers| >= 1 && (forall i :: 0 <= i < |s.workers| ==> s.workers[i].Idle?)
    && s.watch == (if s.chain == [] then NothingYet else Succeeded(NothingYet, s.last, s.now))
    && s.log == Log([], [], 0, 0, 0, 0, 0, false)
  }

  /** Every action of the run is enabled when its turn comes. */
  predicate Runs(c: Config, s: State, run: seq<Action>)
    decreases run
  {
    run == [] || (Enabled(c, s, run[0]) && Runs(c, Next(c, s, run[0]), run[1..]))
  }

  function After(c: Config, s: State, run: seq<Action>): State
    requires Runs(c, s, run)
    decreases run
  {
    if run == [] then s else After(c, Next(c, s, run[0]), run[1..])
  }
}
