/** What a run of the job does, stated per mode, and what a sequence of runs
    does to the lock file and the messages. */
module Properties {
  import opened Domain
  import opened Problems
  import opened Messages
  import opened Engine

  /** The job is switched on and has a wallet address. */
  predicate Ready(cfg: Config) {
    cfg.enabled && cfg.wallet != []
  }

  /** The message sink delivers everything. */
  ghost predicate AcceptsAll(env: Env) {
    forall m :: env.accepts(m)
  }

  // ---------------------------------------------------------------------------
  // Every run

  /** Errors other than a failed send happen before anything is sent or the
      lock file is touched; a failed send keeps what was delivered before it.
      Nothing is delivered that the sink did not accept, and a run sends at
      most two messages. */
  lemma StepErrors(locked: bool, cfg: Config, env: Env, d: Display)
    ensures var c := Step(locked, cfg, env, d);
      (c.outcome.Aborted? && c.outcome.error != DeliveryFailed ==> c.sent == [] && c.locked == locked)
      && (c.outcome == Disabled ==> c.sent == [] && c.locked == locked)
      && (forall m :: m in c.sent ==> env.accepts(m))
      && |c.sent| <= 2
  {
    if Ready(cfg) {
      match cfg.mode
      case Total => TotalErrors(locked, cfg, env, d);
      case Individual => IndividualErrors(locked, cfg, env, d);
      case Mix => MixErrors(locked, cfg, env, d);
      case Unrecognized =>
    }
  }

  /** The stale check adds at most the stale alert, accepted by the sink, and
      fails, if at all, only by a failed send. */
  lemma StaleStepAppends(c: Cycle, cfg: Config, s: Stats, d: Display, accepts: string -> bool)
    ensures var c' := StaleStep(c, cfg, s, d, accepts);
      c'.locked == c.locked
      && (c'.sent == c.sent || (c'.sent == c.sent + [StaleText(s, cfg.staleTolerance, d)] && accepts(StaleText(s, cfg.staleTolerance, d))))
      && (c'.outcome.Aborted? ==> c'.outcome.error == DeliveryFailed || c' == c)
  {
  }

  lemma TotalErrors(locked: bool, cfg: Config, env: Env, d: Display)
    ensures var c := TotalStep(locked, cfg, env, d);
      (c.outcome.Aborted? && c.outcome.error != DeliveryFailed ==> c.sent == [] && c.locked == locked)
      && (forall m :: m in c.sent ==> env.accepts(m))
      && |c.sent| <= 2
  {
    if cfg.totalExpected > 0.0 && env.stats.Fetched? {
      var s := env.stats.data;
      var c := if s.reported < cfg.totalExpected
               then Deliver(locked, [], LowTotalText(s.reported, d), env.accepts)
               else Cycle(Completed, locked, []);
      StaleStepAppends(c, cfg, s, d, env.accepts);
    }
  }

  lemma IndividualErrors(locked: bool, cfg: Config, env: Env, d: Display)
    ensures var c := IndividualStep(locked, cfg, env, d);
      (c.outcome.Aborted? && c.outcome.error != DeliveryFailed ==> c.sent == [] && c.locked == locked)
      && (forall m :: m in c.sent ==> env.accepts(m))
      && |c.sent| <= 1
  {
  }

  lemma MixErrors(locked: bool, cfg: Config, env: Env, d: Display)
    ensures var c := MixStep(locked, cfg, env, d);
      (c.outcome.Aborted? && c.outcome.error != DeliveryFailed ==> c.sent == [] && c.locked == locked)
      && (forall m :: m in c.sent ==> env.accepts(m))
      && |c.sent| <= 2
  {
    if cfg.totalExpected > 0.0 && env.stats.Fetched? {
      var s := env.stats.data;
      var c := MixMain(locked, cfg, env, d, s);
      assert c.outcome.Aborted? && c.outcome.error != DeliveryFailed ==> c.sent == [] && c.locked == locked;
      assert |c.sent| <= 1 && forall m :: m in c.sent ==> env.accepts(m);
      StaleStepAppends(c, cfg, s, d, env.accepts);
    }
  }

  /** A failed fetch or an empty worker list ends the run before anything is
      sent or the lock file is touched: the statistics in TOTAL and MIX, the
      worker list in INDIVIDUAL and, below the pool-wide threshold, in MIX. */
  lemma FetchErrors(locked: bool, cfg: Config, env: Env, d: Display)
    requires Ready(cfg)
    ensures (cfg.mode == Total || cfg.mode == Mix) && cfg.totalExpected > 0.0 && env.stats == ApiDown ==>
      Step(locked, cfg, env, d) == Cycle(Aborted(ApiNotWorking), locked, [])
    ensures cfg.mode == Individual && env.workers == ApiDown ==>
      Step(locked, cfg, env, d) == Cycle(Aborted(ApiNotWorking), locked, [])
    ensures cfg.mode == Individual && env.workers == Fetched([]) ==>
      Step(locked, cfg, env, d) == Cycle(Aborted(NoActiveWorkers), locked, [])
    ensures (cfg.mode == Mix && env.stats.Fetched? && 0.0 < cfg.totalExpected
             && env.stats.data.reported < cfg.totalExpected && env.workers == ApiDown) ==>
      Step(locked, cfg, env, d) == Cycle(Aborted(ApiNotWorking), locked, [])
    ensures (cfg.mode == Mix && env.stats.Fetched? && 0.0 < cfg.totalExpected
             && env.stats.data.reported < cfg.totalExpected && env.workers == Fetched([])) ==>
      Step(locked, cfg, env, d) == Cycle(Aborted(NoActiveWorkers), locked, [])
  {
  }

  /** A send that fails after the recovery notice went out leaves the notice
      delivered and the lock file deleted. */
  lemma FailedSendKeepsEarlierWork(cfg: Config, env: Env, d: Display, s: Stats)
    requires Ready(cfg) && cfg.mode == Mix && cfg.staleCheck
    requires 0.0 < cfg.totalExpected <= s.reported
    requires env.stats == Fetched(s)
    requires StaleExceeded(s, cfg.staleTolerance)
    requires env.accepts(Recovery) && !env.accepts(StaleText(s, cfg.staleTolerance, d))
    ensures Step(true, cfg, env, d) == Cycle(Aborted(DeliveryFailed), false, [Recovery])
  {
  }

  // ---------------------------------------------------------------------------
  // TOTAL mode

  /** TOTAL mode never reads or changes the lock file: the run does the same
      from either lock state and leaves the lock state as it found it. */
  lemma TotalIgnoresLock(cfg: Config, env: Env, d: Display)
    requires cfg.mode == Total
    ensures Step(true, cfg, env, d).locked && !Step(false, cfg, env, d).locked
    ensures Step(true, cfg, env, d).sent == Step(false, cfg, env, d).sent
    ensures Step(true, cfg, env, d).outcome == Step(false, cfg, env, d).outcome
  {
  }

  /** A pool-wide threshold that is not positive ends the TOTAL and MIX runs
      before anything is fetched: the run is the same whatever the API
      answers. */
  lemma NonPositiveThresholdAborts(locked: bool, cfg: Config, env: Env, d: Display)
    requires Ready(cfg) && (cfg.mode == Total || cfg.mode == Mix)
    requires cfg.totalExpected <= 0.0
    ensures Step(locked, cfg, env, d) == Cycle(Aborted(InvalidExpectedHash), locked, [])
  {
  }

  /** In TOTAL mode the hashrate alert goes out exactly when the reported
      hashrate is strictly below the threshold (equality sends nothing), and
      the stale alert exactly when the stale rule fires with the check on. */
  lemma TotalAlerts(locked: bool, cfg: Config, env: Env, d: Display, s: Stats)
    requires Ready(cfg) && cfg.mode == Total && cfg.totalExpected > 0.0
    requires env.stats == Fetched(s) && AcceptsAll(env)
    ensures var c := Step(locked, cfg, env, d);
      c.outcome == Completed && c.locked == locked
      && (LowTotalText(s.reported, d) in c.sent <==> s.reported < cfg.totalExpected)
      && (StaleText(s, cfg.staleTolerance, d) in c.sent <==> cfg.staleCheck && StaleExceeded(s, cfg.staleTolerance))
      && |c.sent| == (if s.reported < cfg.totalExpected then 1 else 0)
                     + (if cfg.staleCheck && StaleExceeded(s, cfg.staleTolerance) then 1 else 0)
  {
    var c := Step(locked, cfg, env, d);
    MessagesDistinct([], s, cfg.staleTolerance, s.reported, d);
    assert StaleText(s, cfg.staleTolerance, d) != LowTotalText(s.reported, d);
  }

  /** In TOTAL mode, whatever the sink does, the messages are exactly the
      hashrate alert (when the hashrate is strictly below the threshold and
      the sink accepts it) followed by the stale alert, which is reached only
      when the hashrate alert was not due or was delivered. */
  lemma TotalSends(locked: bool, cfg: Config, env: Env, d: Display, s: Stats)
    requires Ready(cfg) && cfg.mode == Total && cfg.totalExpected > 0.0
    requires env.stats == Fetched(s)
    ensures var c, lo, st := Step(locked, cfg, env, d), LowTotalText(s.reported, d), StaleText(s, cfg.staleTolerance, d);
      var low := s.reported < cfg.totalExpected;
      c.locked == locked
      && c.sent == (if low && env.accepts(lo) then [lo] else [])
                   + (if !(low && !env.accepts(lo)) && cfg.staleCheck && StaleExceeded(s, cfg.staleTolerance) && env.accepts(st)
                      then [st] else [])
  {
  }

  // ---------------------------------------------------------------------------
  // Report management and recovery

  /** After report management the lock file exists, whatever happened to the
      send; the digest is sent exactly when there was no lock file or
      continuous reporting is on (and the sink accepts it). */
  lemma ReportGate(locked: bool, p: seq<Entry>, continuous: bool, d: Display, accepts: string -> bool)
    ensures var c := ReportStep(locked, p, continuous, d, accepts);
      c.locked
      && c.sent == (if (!locked || continuous) && accepts(DigestText(p, d.showReal)) then [DigestText(p, d.showReal)] else [])
      && (c.outcome == Completed <==> (locked && !continuous) || accepts(DigestText(p, d.showReal)))
  {
  }

  /** INDIVIDUAL mode with problem workers runs report management. */
  lemma IndividualReports(locked: bool, cfg: Config, env: Env, d: Display, p: seq<Entry>)
    requires Ready(cfg) && cfg.mode == Individual
    requires WorkerProblems(Individual, cfg, env.workers, d) == Ok(p) && p != []
    ensures var c := Step(locked, cfg, env, d);
      c.locked
      && c.sent == (if (!locked || cfg.continuousReport) && env.accepts(DigestText(p, d.showReal))
                    then [DigestText(p, d.showReal)] else [])
  {
  }

  /** INDIVIDUAL mode without problem workers: a present lock file is deleted
      and exactly one recovery notice is sent; without a lock file nothing is
      sent.  Either way no lock file is left. */
  lemma IndividualRecovers(locked: bool, cfg: Config, env: Env, d: Display)
    requires Ready(cfg) && cfg.mode == Individual
    requires WorkerProblems(Individual, cfg, env.workers, d) == Ok([])
    ensures var c := Step(locked, cfg, env, d);
      !c.locked && c.sent == (if locked && env.accepts(Recovery) then [Recovery] else [])
  {
  }

  /** A second clean INDIVIDUAL run in a row is silent and changes nothing. */
  lemma CleanRunIdempotent(locked: bool, cfg: Config, env1: Env, env2: Env, d: Display)
    requires Ready(cfg) && cfg.mode == Individual
    requires WorkerProblems(Individual, cfg, env1.workers, d) == Ok([])
    requires WorkerProblems(Individual, cfg, env2.workers, d) == Ok([])
    ensures var c := Step(Step(locked, cfg, env1, d).locked, cfg, env2, d);
      c == Cycle(Completed, false, [])
  {
    IndividualRecovers(locked, cfg, env1, d);
  }

  /** INDIVIDUAL mode never looks at the pool-wide statistics or the stale
      settings, so it never sends the stale alert. */
  lemma IndividualSkipsStale(locked: bool, cfg: Config, env: Env, d: Display)
    requires cfg.mode == Individual
    ensures Step(locked, cfg, env, d) ==
      Step(locked, cfg.(staleCheck := false, staleTolerance := 0.0, totalExpected := 0.0), env.(stats := ApiDown), d)
    ensures forall m :: m in Step(locked, cfg, env, d).sent ==> !(StalePrefix <= m)
  {
    var c := Step(locked, cfg, env, d);
    if Ready(cfg) {
      match WorkerProblems(Individual, cfg, env.workers, d)
      case Err(_) =>
      case Ok(p) =>
        MessagesDistinct(p, Stats(0.0, 0, 0), 0.0, 0.0, d);
    }
  }

  /** The threshold rules differ: INDIVIDUAL refuses a worker threshold only
      when it is zero, MIX whenever it is not positive. */
  lemma ThresholdRules(ws: seq<Worker>, expected: string -> real, toMHs: real -> real)
    ensures Evaluate(Individual, ws, expected, toMHs).Err? <==> exists i :: 0 <= i < |ws| && expected(ws[i].id) == 0.0
    ensures Evaluate(Mix, ws, expected, toMHs).Err? <==> exists i :: 0 <= i < |ws| && expected(ws[i].id) <= 0.0
  {
  }

  /** A negative worker threshold: INDIVIDUAL evaluates the worker (a silent
      worker is still offline), MIX refuses the configuration. */
  lemma NegativeThresholdExample(toMHs: real -> real)
    ensures var ws := [Worker("rig1", None)];
      Evaluate(Individual, ws, _ => -1.0, toMHs) == Ok([Entry("rig1", Offline)])
      && Evaluate(Mix, ws, _ => -1.0, toMHs) == Err(InvalidWorkerExpectedHash)
  {
    var ws := [Worker("rig1", None)];
    assert ws[..0] == [];
  }

  // ---------------------------------------------------------------------------
  // MIX mode

  /** MIX mode with the pool-wide hashrate at or above its threshold: the
      workers are not looked at (the run is the same whatever the worker API
      answers), no lock file is left, and the messages are exactly the one
      recovery notice (when there was a lock file and the sink accepted it)
      followed by the stale alert (when the check fires and nothing failed
      before it). */
  lemma MixHealthy(locked: bool, cfg: Config, env: Env, d: Display, s: Stats, other: Fetched<seq<Worker>>)
    requires Ready(cfg) && cfg.mode == Mix && 0.0 < cfg.totalExpected
    requires env.stats == Fetched(s) && s.reported >= cfg.totalExpected
    ensures Step(locked, cfg, env, d) == Step(locked, cfg, env.(workers := other), d)
    ensures var c := Step(locked, cfg, env, d);
      !c.locked
      && (Recovery in c.sent <==> locked && env.accepts(Recovery))
      && (forall m :: m in c.sent ==> m == Recovery || m == StaleText(s, cfg.staleTolerance, d))
    ensures var c, st := Step(locked, cfg, env, d), StaleText(s, cfg.staleTolerance, d);
      c.sent == (if locked && env.accepts(Recovery) then [Recovery] else [])
                + (if (!locked || env.accepts(Recovery)) && cfg.staleCheck && StaleExceeded(s, cfg.staleTolerance) && env.accepts(st)
                   then [st] else [])
  {
    MessagesDistinct([], s, cfg.staleTolerance, 0.0, d);
  }

  /** MIX mode with the pool-wide hashrate below threshold but no problem
      worker: nothing but the stale alert can be sent, and the lock file is
      left as it was. */
  lemma MixLowWithoutCulprit(locked: bool, cfg: Config, env: Env, d: Display, s: Stats)
    requires Ready(cfg) && cfg.mode == Mix && 0.0 < cfg.totalExpected
    requires env.stats == Fetched(s) && s.reported < cfg.totalExpected
    requires WorkerProblems(Mix, cfg, env.workers, d) == Ok([])
    ensures var c := Step(locked, cfg, env, d);
      c.locked == locked
      && c.sent == (if cfg.staleCheck && StaleExceeded(s, cfg.staleTolerance) && env.accepts(StaleText(s, cfg.staleTolerance, d))
                    then [StaleText(s, cfg.staleTolerance, d)] else [])
  {
  }

  /** MIX mode with problem workers runs report management and then the
      stale check; the lock file is left in place either way, and the messages
      are exactly the gated digest followed by the stale alert (when the check
      fires and the digest send, if any, did not fail). */
  lemma MixReports(locked: bool, cfg: Config, env: Env, d: Display, s: Stats, p: seq<Entry>)
    requires Ready(cfg) && cfg.mode == Mix && 0.0 < cfg.totalExpected
    requires env.stats == Fetched(s) && s.reported < cfg.totalExpected
    requires WorkerProblems(Mix, cfg, env.workers, d) == Ok(p) && p != []
    ensures var c := Step(locked, cfg, env, d);
      c.locked
      && (DigestText(p, d.showReal) in c.sent <==>
            (!locked || cfg.continuousReport) && env.accepts(DigestText(p, d.showReal)))
    ensures var c, dg, st := Step(locked, cfg, env, d), DigestText(p, d.showReal), StaleText(s, cfg.staleTolerance, d);
      var gate := !locked || cfg.continuousReport;
      c.sent == (if gate && env.accepts(dg) then [dg] else [])
                + (if !(gate && !env.accepts(dg)) && cfg.staleCheck && StaleExceeded(s, cfg.staleTolerance) && env.accepts(st)
                   then [st] else [])
  {
    MessagesDistinct(p, s, cfg.staleTolerance, 0.0, d);
  }

  // ---------------------------------------------------------------------------
  // The stale-share rule

  /** With every send accepted, a TOTAL or MIX run that completes sends the
      stale alert exactly when the check is on and the rule fires, and whether
      it completes does not depend on the lock file. */
  lemma StaleNotGated(locked: bool, cfg: Config, env: Env, d: Display, s: Stats)
    requires Ready(cfg) && (cfg.mode == Total || cfg.mode == Mix)
    requires env.stats == Fetched(s) && AcceptsAll(env)
    ensures Step(true, cfg, env, d).outcome == Step(false, cfg, env, d).outcome
    ensures Step(locked, cfg, env, d).outcome == Completed ==>
      (StaleText(s, cfg.staleTolerance, d) in Step(locked, cfg, env, d).sent <==>
         cfg.staleCheck && StaleExceeded(s, cfg.staleTolerance))
  {
    var c := Step(locked, cfg, env, d);
    if cfg.mode == Mix && cfg.totalExpected > 0.0 && s.reported < cfg.totalExpected {
      match WorkerProblems(Mix, cfg, env.workers, d)
      case Err(_) =>
      case Ok(p) => MessagesDistinct(p, s, cfg.staleTolerance, s.reported, d);
    } else {
      MessagesDistinct([], s, cfg.staleTolerance, s.reported, d);
    }
  }

  /** The rule is a strict comparison: 12 stale shares against 100 valid ones
      at 10 percent fire, 10 (the boundary) and 9 do not. */
  lemma StaleBoundary()
    ensures StaleExceeded(Stats(0.0, 12, 100), 10.0)
    ensures !StaleExceeded(Stats(0.0, 10, 100), 10.0)
    ensures !StaleExceeded(Stats(0.0, 9, 100), 10.0)
  {
  }

  // ---------------------------------------------------------------------------
  // Sequences of runs

  /** The lock state after a sequence of runs and every message they sent. */
  datatype Trace = Trace(locked: bool, sent: seq<string>)

  function Run(locked: bool, cfg: Config, envs: seq<Env>, d: Display): Trace
    decreases |envs|
  {
    if envs == [] then Trace(locked, [])
    else
      var c := Step(locked, cfg, envs[0], d);
      var rest := Run(c.locked, cfg, envs[1..], d);
      Trace(rest.locked, c.sent + rest.sent)
  }

  /** In TOTAL mode a sequence of runs sends, run by run, what each run sends
      on its own: there is no deduplication, the alert repeats every run. */
  lemma {:induction false} TotalRunsIndependent(locked: bool, cfg: Config, envs: seq<Env>, d: Display, i: nat)
    requires cfg.mode == Total
    requires i <= |envs|
    ensures Run(locked, cfg, envs, d).locked == locked
    ensures Run(locked, cfg, envs, d).sent ==
      Run(locked, cfg, envs[..i], d).sent + Run(locked, cfg, envs[i..], d).sent
  {
    if envs != [] {
      TotalIgnoresLock(cfg, envs[0], d);
      var j := if i == 0 then 0 else i - 1;
      TotalRunsIndependent(locked, cfg, envs[1..], d, j);
      if i == 0 {
        assert envs[..0] == [] && envs[0..] == envs;
      } else {
        assert envs[..i][0] == envs[0] && envs[..i][1..] == envs[1..][..i - 1];
        assert envs[i..] == envs[1..][i - 1..];
      }
    }
  }

  /** Every run of `envs` finds the problem map `ps[i]`, non-empty, and
      every send is accepted. */
  ghost predicate ProblemRuns(cfg: Config, envs: seq<Env>, d: Display, ps: seq<seq<Entry>>) {
    |ps| == |envs| &&
    forall i :: 0 <= i < |envs| ==>
      AcceptsAll(envs[i]) && ps[i] != [] && WorkerProblems(Individual, cfg, envs[i].workers, d) == Ok(ps[i])
  }

  lemma ProblemRunsTail(cfg: Config, envs: seq<Env>, d: Display, ps: seq<seq<Entry>>)
    requires ProblemRuns(cfg, envs, d, ps) && envs != []
    ensures ProblemRuns(cfg, envs[1..], d, ps[1..])
  {
    var es, qs := envs[1..], ps[1..];
    forall i | 0 <= i < |es|
      ensures AcceptsAll(es[i]) && qs[i] != [] && WorkerProblems(Individual, cfg, es[i].workers, d) == Ok(qs[i])
    {
      assert es[i] == envs[i + 1] && qs[i] == ps[i + 1];
    }
  }

  /** An INDIVIDUAL problem that persists while the lock file exists:
      without continuous reporting the runs are silent, with it each run
      sends its digest. */
  lemma {:induction false} PersistentProblem(cfg: Config, envs: seq<Env>, d: Display, ps: seq<seq<Entry>>)
    requires Ready(cfg) && cfg.mode == Individual
    requires ProblemRuns(cfg, envs, d, ps)
    ensures Run(true, cfg, envs, d).locked
    ensures !cfg.continuousReport ==> Run(true, cfg, envs, d).sent == []
    ensures cfg.continuousReport ==>
      |Run(true, cfg, envs, d).sent| == |envs| &&
      forall i :: 0 <= i < |envs| ==> Run(true, cfg, envs, d).sent[i] == DigestText(ps[i], d.showReal)
  {
    if envs != [] {
      IndividualReports(true, cfg, envs[0], d, ps[0]);
      var c := Step(true, cfg, envs[0], d);
      assert c.locked;
      assert c.sent == if cfg.continuousReport then [DigestText(ps[0], d.showReal)] else [];
      var es, qs := envs[1..], ps[1..];
      ProblemRunsTail(cfg, envs, d, ps);
      PersistentProblem(cfg, es, d, qs);
      var rest := Run(true, cfg, es, d);
      assert Run(true, cfg, envs, d) == Trace(rest.locked, c.sent + rest.sent);
      if cfg.continuousReport {
        forall i | 0 < i < |envs| ensures (c.sent + rest.sent)[i] == DigestText(ps[i], d.showReal) {
          assert (c.sent + rest.sent)[i] == rest.sent[i - 1] && qs[i - 1] == ps[i];
        }
      }
    }
  }

  /** An INDIVIDUAL problem that starts from no lock file: the first run
      sends its digest; after that only continuous reporting sends more, one
      digest per run. */
  lemma ProblemFromNormal(cfg: Config, envs: seq<Env>, d: Display, ps: seq<seq<Entry>>)
    requires Ready(cfg) && cfg.mode == Individual
    requires envs != []
    requires ProblemRuns(cfg, envs, d, ps)
    ensures var t := Run(false, cfg, envs, d);
      t.locked
      && |t.sent| == (if cfg.continuousReport then |envs| else 1)
      && t.sent[0] == DigestText(ps[0], d.showReal)
      && (cfg.continuousReport ==> forall i :: 0 <= i < |envs| ==> t.sent[i] == DigestText(ps[i], d.showReal))
  {
    IndividualReports(false, cfg, envs[0], d, ps[0]);
    var c := Step(false, cfg, envs[0], d);
    assert c.locked && c.sent == [DigestText(ps[0], d.showReal)];
    var es, qs := envs[1..], ps[1..];
    ProblemRunsTail(cfg, envs, d, ps);
    PersistentProblem(cfg, es, d, qs);
    var rest := Run(true, cfg, es, d);
    assert Run(false, cfg, envs, d) == Trace(rest.locked, c.sent + rest.sent);
    if cfg.continuousReport {
      forall i | 0 < i < |envs| ensures (c.sent + rest.sent)[i] == DigestText(ps[i], d.showReal) {
        assert (c.sent + rest.sent)[i] == rest.sent[i - 1] && qs[i - 1] == ps[i];
      }
    }
  }

  /** The sequence problem, problem, clean, clean from no lock file: one
      digest and one recovery notice without continuous reporting, two
      digests and one recovery notice with it; no lock file is left. */
  lemma AlertThenRecover(cfg: Config, envs: seq<Env>, d: Display, p1: seq<Entry>, p2: seq<Entry>)
    requires Ready(cfg) && cfg.mode == Individual
    requires |envs| == 4
    requires forall i :: 0 <= i < 4 ==> AcceptsAll(envs[i])
    requires WorkerProblems(Individual, cfg, envs[0].workers, d) == Ok(p1) && p1 != []
    requires WorkerProblems(Individual, cfg, envs[1].workers, d) == Ok(p2) && p2 != []
    requires WorkerProblems(Individual, cfg, envs[2].workers, d) == Ok([])
    requires WorkerProblems(Individual, cfg, envs[3].workers, d) == Ok([])
    ensures !Run(false, cfg, envs, d).locked
    ensures Run(false, cfg, envs, d).sent ==
      if cfg.continuousReport then [DigestText(p1, d.showReal), DigestText(p2, d.showReal), Recovery]
      else [DigestText(p1, d.showReal), Recovery]
  {
    var d1, d2 := DigestText(p1, d.showReal), DigestText(p2, d.showReal);
    var c1 := Step(false, cfg, envs[0], d);
    IndividualReports(false, cfg, envs[0], d, p1);
    assert c1.locked && c1.sent == [d1];
    var c2 := Step(true, cfg, envs[1], d);
    IndividualReports(true, cfg, envs[1], d, p2);
    assert c2.locked && c2.sent == if cfg.continuousReport then [d2] else [];
    var c3 := Step(true, cfg, envs[2], d);
    IndividualRecovers(true, cfg, envs[2], d);
    assert !c3.locked && c3.sent == [Recovery];
    var c4 := Step(false, cfg, envs[3], d);
    IndividualRecovers(false, cfg, envs[3], d);
    assert !c4.locked && c4.sent == [];
    var e3 := envs[3..];
    assert e3 == [envs[3]] && e3[1..] == [];
    assert Run(false, cfg, e3, d) == Trace(false, []);
    var e2 := envs[2..];
    assert e2[0] == envs[2] && e2[1..] == e3;
    assert Run(true, cfg, e2, d) == Trace(false, [Recovery]);
    var e1 := envs[1..];
    assert e1[0] == envs[1] && e1[1..] == e2;
    assert Run(true, cfg, e1, d) == Trace(false, c2.sent + [Recovery]);
    assert envs[1..] == e1;
  }

  /** Three TOTAL runs in a row whose stale rule fires send three stale
      alerts, whatever the lock file says. */
  lemma StaleEveryRun(locked: bool, cfg: Config, envs: seq<Env>, d: Display, s: Stats)
    requires Ready(cfg) && cfg.mode == Total && cfg.staleCheck
    requires 0.0 < cfg.totalExpected <= s.reported
    requires StaleExceeded(s, cfg.staleTolerance)
    requires |envs| == 3
    requires forall i :: 0 <= i < 3 ==> AcceptsAll(envs[i]) && envs[i].stats == Fetched(s)
    ensures Run(locked, cfg, envs, d).sent == [StaleText(s, cfg.staleTolerance, d), StaleText(s, cfg.staleTolerance, d), StaleText(s, cfg.staleTolerance, d)]
  {
    var m := StaleText(s, cfg.staleTolerance, d);
    forall i | 0 <= i < 3 ensures Step(locked, cfg, envs[i], d) == Cycle(Completed, locked, [m]) {
      TotalAlerts(locked, cfg, envs[i], d, s);
    }
    var e2, e1 := envs[2..], envs[1..];
    assert e2 == [envs[2]] && e2[1..] == [];
    assert e1[0] == envs[1] && e1[1..] == e2;
    assert Run(locked, cfg, e2, d) == Trace(locked, [m]);
    assert Run(locked, cfg, e1, d) == Trace(locked, [m, m]);
  }
}
