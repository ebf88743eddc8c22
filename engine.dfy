/** One run of the monitoring job: the mode dispatch of the main routine, the
    report management that the lock file gates, the recovery notice and the
    stale-share check.  The functions below say what a run does; the class
    `Monitor` does it step by step on its lock state and outbox, and each of
    its methods is proved to agree with the function of the same part. */
module Engine {
  import opened Domain
  import opened Problems
  import opened Messages

  /** What one run does: how it ends, whether the lock file exists afterwards,
      and the messages delivered during the run, in order. */
  datatype Cycle = Cycle(outcome: Outcome, locked: bool, sent: seq<string>)

  function Abort(e: Error, locked: bool): Cycle {
    Cycle(Aborted(e), locked, [])
  }

  /** One send after the messages `sent`: delivered, or the send throws and
      the run ends with what was delivered before. */
  function Deliver(locked: bool, sent: seq<string>, msg: string, accepts: string -> bool): Cycle {
    if accepts(msg) then Cycle(Completed, locked, sent + [msg])
    else Cycle(Aborted(DeliveryFailed), locked, sent)
  }

  /** Report management for a non-empty problem map: the lock file is
      (re)created before anything is sent, and the digest goes out only when
      there was no lock file or continuous reporting is on. */
  function ReportStep(locked: bool, p: seq<Entry>, continuous: bool, d: Display, accepts: string -> bool): Cycle {
    if !locked || continuous then Deliver(true, [], DigestText(p, d.showReal), accepts)
    else Cycle(Completed, true, [])
  }

  /** Nothing is wrong any more: a present lock file is deleted and then the
      recovery notice is sent; without a lock file nothing happens. */
  function RecoveryStep(locked: bool, accepts: string -> bool): Cycle {
    if locked then Deliver(false, [], Recovery, accepts)
    else Cycle(Completed, false, [])
  }

  /** The stale check that ends TOTAL and MIX runs, reached only when nothing
      before it aborted. */
  function StaleStep(c: Cycle, cfg: Config, s: Stats, d: Display, accepts: string -> bool): Cycle {
    if c.outcome == Completed && cfg.staleCheck && StaleExceeded(s, cfg.staleTolerance)
    then Deliver(c.locked, c.sent, StaleText(s, cfg.staleTolerance, d), accepts)
    else c
  }

  /** Fetching the worker list and evaluating it. */
  function WorkerProblems(mode: Mode, cfg: Config, workers: Fetched<seq<Worker>>, d: Display): Result<seq<Entry>, Error> {
    match workers
    case ApiDown => Err(ApiNotWorking)
    case Fetched(ws) =>
      if ws == [] then Err(NoActiveWorkers)
      else Evaluate(mode, ws, cfg.expectedHash, d.toMHs)
  }

  function TotalStep(locked: bool, cfg: Config, env: Env, d: Display): Cycle {
    if cfg.totalExpected <= 0.0 then Abort(InvalidExpectedHash, locked)
    else match env.stats
      case ApiDown => Abort(ApiNotWorking, locked)
      case Fetched(s) =>
        var c := if s.reported < cfg.totalExpected
                 then Deliver(locked, [], LowTotalText(s.reported, d), env.accepts)
                 else Cycle(Completed, locked, []);
        StaleStep(c, cfg, s, d, env.accepts)
  }

  function IndividualStep(locked: bool, cfg: Config, env: Env, d: Display): Cycle {
    match WorkerProblems(Individual, cfg, env.workers, d)
    case Err(e) => Abort(e, locked)
    case Ok(p) =>
      if p != [] then ReportStep(locked, p, cfg.continuousReport, d, env.accepts)
      else RecoveryStep(locked, env.accepts)
  }

  /** The part of a MIX run between fetching the statistics and the stale
      check: the workers are fetched and evaluated only when the pool-wide
      hashrate is below its threshold. */
  function MixMain(locked: bool, cfg: Config, env: Env, d: Display, s: Stats): Cycle {
    if s.reported < cfg.totalExpected then
      match WorkerProblems(Mix, cfg, env.workers, d)
      case Err(e) => Abort(e, locked)
      case Ok(p) =>
        if p != [] then ReportStep(locked, p, cfg.continuousReport, d, env.accepts)
        else Cycle(Completed, locked, [])
    else RecoveryStep(locked, env.accepts)
  }

  function MixStep(locked: bool, cfg: Config, env: Env, d: Display): Cycle {
    if cfg.totalExpected <= 0.0 then Abort(InvalidExpectedHash, locked)
    else match env.stats
      case ApiDown => Abort(ApiNotWorking, locked)
      case Fetched(s) => StaleStep(MixMain(locked, cfg, env, d, s), cfg, s, d, env.accepts)
  }

  /** One run of the job, from the lock state it finds. */
  function Step(locked: bool, cfg: Config, env: Env, d: Display): Cycle {
    if !cfg.enabled then Cycle(Disabled, locked, [])
    else if cfg.wallet == [] then Abort(WalletNotSet, locked)
    else match cfg.mode
      case Total => TotalStep(locked, cfg, env, d)
      case Individual => IndividualStep(locked, cfg, env, d)
      case Mix => MixStep(locked, cfg, env, d)
      case Unrecognized => Cycle(Completed, locked, [])
  }

  /** Fetching the worker list and running the evaluation loop over it. */
  method EvaluateWorkers(mode: Mode, cfg: Config, workers: Fetched<seq<Worker>>, d: Display)
    returns (r: Result<seq<Entry>, Error>)
    ensures r == WorkerProblems(mode, cfg, workers, d)
  {
    if workers.ApiDown? {
      return Err(ApiNotWorking);
    }
    var ws := workers.data;
    if ws == [] {
      return Err(NoActiveWorkers);
    }
    r := CollectProblems(mode, ws, cfg.expectedHash, d.toMHs);
  }

  /** The job's persistent and outward state: whether the lock file
      `reported.lock` exists, and every message delivered so far. */
  class Monitor {
    var locked: bool
    var outbox: seq<string>

    constructor (locked: bool)
      ensures this.locked == locked && outbox == []
    {
      this.locked := locked;
      outbox := [];
    }

    /** Hands one message to the sink.  `ok` is false when the send throws;
        nothing is delivered then. */
    method Send(msg: string, accepts: string -> bool) returns (ok: bool)
      modifies this`outbox
      ensures ok == accepts(msg)
      ensures outbox == if ok then old(outbox) + [msg] else old(outbox)
    {
      ok := accepts(msg);
      if ok {
        outbox := outbox + [msg];
      }
    }

    /** Report management: the lock file is deleted if present (and then
        only continuous reporting lets the digest out), created again, and
        the digest is sent when allowed. */
    method ManageReport(p: seq<Entry>, continuous: bool, d: Display, accepts: string -> bool) returns (ok: bool)
      modifies this
      ensures var c := ReportStep(old(locked), p, continuous, d, accepts);
        ok == (c.outcome == Completed) && locked == c.locked && outbox == old(outbox) + c.sent
    {
      var reportFlag := true;
      if locked {
        locked := false;
        reportFlag := continuous;
      }
      locked := true;
      ok := true;
      if reportFlag {
        var msg := BuildDigest(p, d.showReal);
        ok := Send(msg, accepts);
      }
    }

    /** A present lock file is deleted and the recovery notice is sent. */
    method Recover(accepts: string -> bool) returns (ok: bool)
      modifies this
      ensures var c := RecoveryStep(old(locked), accepts);
        ok == (c.outcome == Completed) && locked == c.locked && outbox == old(outbox) + c.sent
    {
      ok := true;
      if locked {
        locked := false;
        ok := Send(Recovery, accepts);
      }
    }

    /** The stale-share check: sends the stale alert when the rule fires. */
    method CheckStale(s: Stats, tolerance: real, d: Display, accepts: string -> bool) returns (ok: bool)
      modifies this`outbox
      ensures ok == (!StaleExceeded(s, tolerance) || accepts(StaleText(s, tolerance, d)))
      ensures outbox == if StaleExceeded(s, tolerance) && ok
                        then old(outbox) + [StaleText(s, tolerance, d)] else old(outbox)
    {
      ok := true;
      if StaleExceeded(s, tolerance) {
        ok := Send(StaleText(s, tolerance, d), accepts);
      }
    }

    method RunTotal(cfg: Config, env: Env, d: Display) returns (outcome: Outcome)
      modifies this
      ensures var c := TotalStep(old(locked), cfg, env, d);
        outcome == c.outcome && locked == c.locked && outbox == old(outbox) + c.sent
    {
      if cfg.totalExpected <= 0.0 {
        return Aborted(InvalidExpectedHash);
      }
      if env.stats.ApiDown? {
        return Aborted(ApiNotWorking);
      }
      var s := env.stats.data;
      if s.reported < cfg.totalExpected {
        var ok := Send(LowTotalText(s.reported, d), env.accepts);
        if !ok {
          return Aborted(DeliveryFailed);
        }
      }
      if cfg.staleCheck {
        var ok := CheckStale(s, cfg.staleTolerance, d, env.accepts);
        if !ok {
          return Aborted(DeliveryFailed);
        }
      }
      return Completed;
    }

    method RunIndividual(cfg: Config, env: Env, d: Display) returns (outcome: Outcome)
      modifies this
      ensures var c := IndividualStep(old(locked), cfg, env, d);
        outcome == c.outcome && locked == c.locked && outbox == old(outbox) + c.sent
    {
      var r := EvaluateWorkers(Individual, cfg, env.workers, d);
      if r.Err? {
        return Aborted(r.error);
      }
      var problems := r.value;
      var ok;
      if problems != [] {
        ok := ManageReport(problems, cfg.continuousReport, d, env.accepts);
      } else {
        ok := Recover(env.accepts);
      }
      outcome := if ok then Completed else Aborted(DeliveryFailed);
    }

    method RunMix(cfg: Config, env: Env, d: Display) returns (outcome: Outcome)
      modifies this
      ensures var c := MixStep(old(locked), cfg, env, d);
        outcome == c.outcome && locked == c.locked && outbox == old(outbox) + c.sent
    {
      if cfg.totalExpected <= 0.0 {
        return Aborted(InvalidExpectedHash);
      }
      if env.stats.ApiDown? {
        return Aborted(ApiNotWorking);
      }
      var s := env.stats.data;
      var ok := true;
      if s.reported < cfg.totalExpected {
        var r := EvaluateWorkers(Mix, cfg, env.workers, d);
        if r.Err? {
          return Aborted(r.error);
        }
        var problems := r.value;
        if problems != [] {
          ok := ManageReport(problems, cfg.continuousReport, d, env.accepts);
        }
      } else {
        ok := Recover(env.accepts);
      }
      if !ok {
        return Aborted(DeliveryFailed);
      }
      if cfg.staleCheck {
        ok := CheckStale(s, cfg.staleTolerance, d, env.accepts);
        if !ok {
          return Aborted(DeliveryFailed);
        }
      }
      return Completed;
    }

    /** One run of the job.  Every error ends the run early and is caught;
        what was delivered and the lock file stay as they were left. */
    method RunCycle(cfg: Config, env: Env, d: Display) returns (outcome: Outcome)
      modifies this
      ensures var c := Step(old(locked), cfg, env, d);
        outcome == c.outcome && locked == c.locked && outbox == old(outbox) + c.sent
    {
      if !cfg.enabled {
        return Disabled;
      }
      if cfg.wallet == [] {
        return Aborted(WalletNotSet);
      }
      match cfg.mode
      case Total => outcome := RunTotal(cfg, env, d);
      case Individual => outcome := RunIndividual(cfg, env, d);
      case Mix => outcome := RunMix(cfg, env, d);
      case Unrecognized => outcome := Completed;
    }
  }
}
