/** The block watchdog of daemon/daemon.go: what is in flight, since when, and when stacks were last dumped. */
module Watchdog {
  import opened Collections
  import opened BlockChain

  /** Processing timeout and dump interval; a timeout of zero or less switches the watchdog off. */
  datatype Settings = Settings(timeout: int, dumpDelay: int) {
    function NextDumpDelay(): int {
      if dumpDelay > 0 then dumpDelay else timeout
    }
  }

  /** Times are None where the source keeps the zero time. */
  datatype Watch = Watch(
    lastSuccessAt: Option<int>,
    startedAt: Option<int>,
    lastDumpAt: Option<int>,
    lastSuccessHeight: nat,
    targetHeight: nat,
    inflightHeight: nat)

  datatype Snapshot = Snapshot(height: nat, target: nat, lastSuccessHeight: nat, elapsed: int)

  const NothingYet := Watch(None, None, None, 0, 0, 0)

  function Targeted(w: Watch, height: nat, last: nat, now: int): Watch {
    var t := w.(targetHeight := height);
    if w.lastSuccessAt.None? then t.(lastSuccessAt := Some(now), lastSuccessHeight := last) else t
  }

  function Started(w: Watch, height: nat, now: int): Watch {
    w.(inflightHeight := height, startedAt := Some(now))
  }

  function Cleared(w: Watch, height: nat): Watch {
    if w.inflightHeight == height then w.(inflightHeight := 0, startedAt := None) else w
  }

  function Succeeded(w: Watch, height: nat, now: int): Watch {
    w.(lastSuccessHeight := height, lastSuccessAt := Some(now))
  }

  function Finished(w: Watch, height: nat, processed: nat, now: int): Watch {
    Succeeded(Cleared(w, height), processed, now)
  }

  /** The block in flight has been so for at least the timeout, and an unforced dump keeps its distance to the
      last one. */
  predicate Due(w: Watch, cfg: Settings, force: bool, now: int) {
    && cfg.timeout > 0 && w.startedAt.Some? && now - w.startedAt.value >= cfg.timeout
    && (force || w.lastDumpAt.None? || now - w.lastDumpAt.value >= cfg.NextDumpDelay())
  }

  function Dumped(w: Watch, now: int): Watch {
    w.(lastDumpAt := Some(now))
  }

  function Seen(w: Watch, now: int): Snapshot
    requires w.startedAt.Some?
  {
    Snapshot(w.inflightHeight, w.targetHeight, w.lastSuccessHeight, now - w.startedAt.value)
  }

  class BlockWatchdog {
    var lastSuccessAt: Option<int>
    var inflightStartedAt: Option<int>
    var lastDumpAt: Option<int>
    var lastSuccessHeight: nat
    var targetHeight: nat
    var inflightHeight: nat

    ghost function State(): Watch
      reads this
    {
      Watch(lastSuccessAt, inflightStartedAt, lastDumpAt, lastSuccessHeight, targetHeight, inflightHeight)
    }

    constructor ()
      ensures State() == NothingYet
    {
      lastSuccessAt, inflightStartedAt, lastDumpAt := None, None, None;
      lastSuccessHeight, targetHeight, inflightHeight := 0, 0, 0;
    }

    method RecordDaemonTarget(height: nat, lastHeightProcessed: nat, now: int)
      modifies this
      ensures State() == Targeted(old(State()), height, lastHeightProcessed, now)
      ensures targetHeight == height && inflightStartedAt == old(inflightStartedAt) && lastDumpAt == old(lastDumpAt)
      ensures (lastSuccessAt, lastSuccessHeight) ==
              if old(lastSuccessAt).None? then (Some(now), lastHeightProcessed)
              else old((lastSuccessAt, lastSuccessHeight))
    {
      targetHeight := height;
      if lastSuccessAt.None? {
        lastSuccessAt := Some(now);
        lastSuccessHeight := lastHeightProcessed;
      }
    }

    method RecordBlockStart(height: nat, now: int)
      modifies this
      ensures State() == Started(old(State()), height, now)
      ensures inflightHeight == height && inflightStartedAt == Some(now)
    {
      inflightHeight := height;
      inflightStartedAt := Some(now);
    }

    method RecordBlockSuccess(height: nat, now: int)
      modifies this
      ensures State() == Succeeded(old(State()), height, now)
      ensures lastSuccessHeight == height && lastSuccessAt == Some(now)
    {
      lastSuccessHeight := height;
      lastSuccessAt := Some(now);
    }

    method RecordBlockFinished(height: nat, processedHeight: nat, now: int)
      modifies this
      ensures State() == Finished(old(State()), height, processedHeight, now)
      ensures lastSuccessHeight == processedHeight && lastSuccessAt == Some(now)
      ensures inflightStartedAt == if old(inflightHeight) == height then None else old(inflightStartedAt)
    {
      if inflightHeight == height {
        inflightHeight := 0;
        inflightStartedAt := None;
      }
      lastSuccessHeight := processedHeight;
      lastSuccessAt := Some(now);
    }

    method ClearInFlightBlock(height: nat)
      modifies this
      ensures State() == Cleared(old(State()), height)
      ensures if old(inflightHeight) == height then inflightStartedAt.None? else State() == old(State())
    {
      if inflightHeight == height {
        inflightHeight := 0;
        inflightStartedAt := None;
      }
    }

    method BlockTimeoutSnapshot(cfg: Settings, force: bool, now: int) returns (snapshot: Option<Snapshot>)
      modifies this
      ensures if Due(old(State()), cfg, force, now)
              then State() == Dumped(old(State()), now) && snapshot == Some(Seen(old(State()), now))
              else State() == old(State()) && snapshot == None
    {
      if cfg.timeout <= 0 || inflightStartedAt.None? {
        return None;
      }
      var elapsed := now - inflightStartedAt.value;
      if elapsed < cfg.timeout {
        return None;
      }
      if !force && lastDumpAt.Some? && now - lastDumpAt.value < cfg.NextDumpDelay() {
        return None;
      }
      lastDumpAt := Some(now);
      return Some(Snapshot(inflightHeight, targetHeight, lastSuccessHeight, elapsed));
    }
  }
}
