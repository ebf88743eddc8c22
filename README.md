# EthermomBatchJob — the per-run decision engine, in Dafny

EthermomBatchJob is a batch job, started periodically from outside, that polls
the ethermine.org pool API for a wallet's hashrate and sends an alert to an
IFTTT or Telegram channel when the hashrate drops. All of its decision logic
sits in `App.java`. The job has three modes:

- TOTAL compares the pool-wide reported hashrate with a threshold. It alerts
  on every run that is below the threshold.
- INDIVIDUAL evaluates each worker. It builds an insertion-ordered problem
  map, with -1 meaning offline.
- MIX runs the pool-wide check first. It looks at the workers only when that
  check fails.

A lock file, `reported.lock`, records that an alert is outstanding. Report
management uses it so that a problem is reported once, unless continuous
reporting is on. When nothing is wrong any more, the file is deleted and one
"back to normal" notice is sent. When stale shares exceed a percentage of the
valid shares, TOTAL and MIX runs with the stale check switched on send a
stale alert, whatever the lock file says. The check comes last in those
runs, so it is skipped when anything earlier in the run threw (a failed
fetch, an empty worker list, a refused worker threshold or a failed send).

The project has five modules:

- `domain.dfy` (`Domain`): the inputs of a run. These are the configuration
  (`Config`), the two API answers and the sink's behaviour (`Env`), and the
  display conversions (`Display`). It also holds the errors and the outcome
  of a run.
- `problems.dfy` (`Problems`): the worker evaluation loop (`CollectProblems`)
  over a model of Java's `LinkedHashMap` (`Put`, `Lookup`). The map is
  characterised by an independent definition (`Filtered`).
- `messages.dfy` (`Messages`): the exact texts sent and the digest built
  line by line (`BuildDigest`). It also holds the stale rule
  (`StaleExceeded`).
- `engine.dfy` (`Engine`): `Step`, a function giving what one run does: the
  outcome, the lock state afterwards and the messages delivered. The class
  `Monitor` holds the lock state (`locked`) and the delivered messages
  (`outbox`). Its `RunCycle` method performs a run step by step, as
  `App.main` does, and is proved to agree with `Step`.
- `properties.dfy` (`Properties`): what runs and sequences of runs do, per
  mode. `Run` folds `Step` over a sequence of runs.

Inputs from the outside world are parameters:

- the configuration;
- the answer of each API call (`ApiDown` for no response or a status other
  than OK);
- whether the sink accepts a message (`accepts`; a rejected send throws and
  ends the run);
- the display conversions: `toMHs` for `ConversionUtil.convertToMHs`, and
  Java's rendering of a `double` and of an integer in a string.

## Model

| member | source | states |
|---|---|---|
| Problems.Lookup | src/main/java/com/mno/ethermom/App.java:208-212 | `get` on the problem map finds a value exactly when the key is present |
| Problems.PutKeys | src/main/java/com/mno/ethermom/App.java:93-99 | `put` adds its key and changes no other key's presence |
| Problems.PutAppends | src/main/java/com/mno/ethermom/App.java:93-99 | `put` of a new key appends it at the end, so insertion order is kept |
| Problems.PutInPlace | src/main/java/com/mno/ethermom/App.java:93-99 | `put` of a present key keeps every key in its position; `get` then answers the new value for it and the old value for every other key |
| Problems.PutDistinct | src/main/java/com/mno/ethermom/App.java:93-99 | `put` keeps the keys of the map distinct |
| Problems.CollectProblems | src/main/java/com/mno/ethermom/App.java:84-101 | the loop yields the error for a refused threshold exactly when some worker's threshold is refused; otherwise it yields the problem map of the whole list |
| Problems.ProblemsAreFiltered | src/main/java/com/mno/ethermom/App.java:84-101 | with distinct worker ids, the map lists exactly the problem workers, in worker-list order, each with -1 (offline) or its converted hashrate |
| Problems.LookupAt | src/main/java/com/mno/ethermom/App.java:208-212 | in a map with distinct keys, `get` of the key at position i answers the value at position i, so the digest's walk over `keySet()` with `get` sees each entry's own value |
| Problems.ProblemValue | src/main/java/com/mno/ethermom/App.java:92-100 | with distinct worker ids: a worker with no hashrate is recorded as -1 whatever its threshold; a worker strictly below its threshold is recorded with its converted value; any other worker is absent |
| Problems.LastProblemWins | src/main/java/com/mno/ethermom/App.java:92-100 | with repeated worker ids, an id's value is that of its last problem occurrence; later occurrences that are not problems leave it |
| Problems.RepeatedIdExample | src/main/java/com/mno/ethermom/App.java:92-100 | an offline entry for "a" followed by a low entry for "a" leaves the single entry "a" with the converted low value |
| Problems.ProblemKeys | src/main/java/com/mno/ethermom/App.java:139-156 | for any worker list, even one with repeated ids, the keys are exactly the ids of problem workers, each once |
| Messages.BuildDigest | src/main/java/com/mno/ethermom/App.java:206-214 | the message built by the loop is the header followed by one line per map entry |
| Messages.DigestLineAt | src/main/java/com/mno/ethermom/App.java:207-214 | entry i's line ("%0A<id> is offline" or "%0A<id> @<value>MH/s") comes right after the lines of the entries before it |
| Messages.MessagesDistinct | src/main/java/com/mno/ethermom/App.java:62-216 | the digest, the TOTAL alert, the recovery notice and the stale alert can be told apart, and only the stale alert starts with the stale prefix |
| Messages.StaleCrossMultiplied | src/main/java/com/mno/ethermom/App.java:187 | the stale rule is the strict comparison 100 * stale > valid * tolerance |
| Engine.EvaluateWorkers | src/main/java/com/mno/ethermom/App.java:72-101 | links the worker fetch and the evaluation loop to `WorkerProblems`, the function `Step` uses; what the fetch errors do to a run is stated by `Properties.FetchErrors` |
| Engine.Monitor.constructor | src/main/java/com/mno/ethermom/App.java:27 | a run starts from whether the lock file exists, with nothing delivered yet |
| Engine.Monitor.Send | src/main/java/com/mno/ethermom/App.java:216 | a message the sink accepts is appended to the outbox; a rejected send delivers nothing and reports failure |
| Engine.Monitor.ManageReport | src/main/java/com/mno/ethermom/App.java:195-218 | the lock state afterwards, the messages delivered and the result agree with `ReportStep` |
| Engine.Monitor.Recover | src/main/java/com/mno/ethermom/App.java:105-107 | a present lock is cleared before the recovery notice is sent; with no lock, nothing happens |
| Engine.Monitor.CheckStale | src/main/java/com/mno/ethermom/App.java:186-193 | the stale alert is delivered exactly when the rule fires and the sink accepts it; the lock state is not touched |
| Engine.Monitor.RunTotal | src/main/java/com/mno/ethermom/App.java:46-68 | the outcome, lock state and new outbox of a TOTAL run agree with `TotalStep` |
| Engine.Monitor.RunIndividual | src/main/java/com/mno/ethermom/App.java:70-108 | the outcome, lock state and new outbox of an INDIVIDUAL run agree with `IndividualStep` |
| Engine.Monitor.RunMix | src/main/java/com/mno/ethermom/App.java:110-168 | the outcome, lock state and new outbox of a MIX run agree with `MixStep` |
| Engine.Monitor.RunCycle | src/main/java/com/mno/ethermom/App.java:30-183 | one run of the job (disabled, no wallet, mode dispatch, every error caught) agrees with `Step` |
| Properties.StepErrors | src/main/java/com/mno/ethermom/App.java:171-182 | every error except a failed send happens before anything is sent or the lock is touched; only accepted messages are delivered; a run sends at most two |
| Properties.FetchErrors | src/main/java/com/mno/ethermom/App.java:53-82 | a failed statistics fetch in TOTAL or MIX (also lines 117-123) aborts with "API not working"; in INDIVIDUAL, and in MIX below the pool-wide threshold (lines 127-137), a failed worker fetch aborts with "API not working" and an empty worker list with "No active workers"; each time nothing is sent and the lock is unchanged |
| Properties.FailedSendKeepsEarlierWork | src/main/java/com/mno/ethermom/App.java:161-168 | when the stale send fails after a MIX recovery, the run aborts with the recovery notice delivered and the lock cleared |
| Properties.TotalIgnoresLock | src/main/java/com/mno/ethermom/App.java:46-68 | a TOTAL run behaves the same from either lock state and leaves the lock as it was |
| Properties.NonPositiveThresholdAborts | src/main/java/com/mno/ethermom/App.java:48-51 | in TOTAL and MIX, a pool-wide threshold <= 0 aborts the run with nothing sent, whatever the API would answer |
| Properties.TotalAlerts | src/main/java/com/mno/ethermom/App.java:61-68 | with every send accepted, TOTAL sends the hashrate alert iff reported < threshold (equality is silent) and the stale alert iff the check is on and the rule fires, and nothing else |
| Properties.TotalSends | src/main/java/com/mno/ethermom/App.java:61-68 | for any sink, TOTAL leaves the lock alone and sends exactly the hashrate alert (iff reported < threshold and the sink accepts it) followed by the stale alert (iff the check is on, the rule fires, the sink accepts it and no hashrate-alert send failed) |
| Properties.ReportGate | src/main/java/com/mno/ethermom/App.java:197-216 | after report management the lock is always set, even if the send fails; the digest is sent iff the lock was absent or continuous reporting is on, and the sink accepts it |
| Properties.IndividualReports | src/main/java/com/mno/ethermom/App.java:103-104 | an INDIVIDUAL run with problem workers leaves the lock set and delivers the digest under the report-management gate |
| Properties.IndividualRecovers | src/main/java/com/mno/ethermom/App.java:103-108 | an INDIVIDUAL run without problem workers leaves no lock; it delivers one recovery notice iff the lock was present and the sink accepts it, and nothing otherwise |
| Properties.CleanRunIdempotent | src/main/java/com/mno/ethermom/App.java:105-108 | a second clean INDIVIDUAL run in a row completes silently with no lock |
| Properties.IndividualSkipsStale | src/main/java/com/mno/ethermom/App.java:70-108 | an INDIVIDUAL run does not depend on the pool-wide statistics, the pool-wide threshold or the stale settings (check and tolerance), and never sends a stale alert |
| Properties.ThresholdRules | src/main/java/com/mno/ethermom/App.java:86-90 | INDIVIDUAL refuses a worker threshold iff it is zero, MIX iff it is <= 0 (MIX's rule is at lines 141-145) |
| Properties.NegativeThresholdExample | src/main/java/com/mno/ethermom/App.java:141-145 | a negative worker threshold is evaluated in INDIVIDUAL (a silent worker is still offline) but refused in MIX |
| Properties.MixHealthy | src/main/java/com/mno/ethermom/App.java:125-167 | MIX at or above the pool-wide threshold: the run does not depend on the worker API and leaves no lock; the messages are exactly one recovery notice (iff the lock was present and the sink accepts it) followed by the stale alert (iff the check is on, the rule fires, the sink accepts it and the recovery send did not fail) |
| Properties.MixLowWithoutCulprit | src/main/java/com/mno/ethermom/App.java:158-160 | MIX below threshold with an empty problem map: the lock is unchanged and only the stale alert can be sent |
| Properties.MixReports | src/main/java/com/mno/ethermom/App.java:158-168 | MIX below threshold with problem workers: the lock is set, and the messages are exactly the digest (iff the lock was absent or continuous reporting is on, and the sink accepts it) followed by the stale alert (iff the check is on, the rule fires, the sink accepts it and no digest send failed) |
| Properties.StaleNotGated | src/main/java/com/mno/ethermom/App.java:166-168 | in TOTAL and MIX with an accepting sink, whether the run completes does not depend on the lock; a completed run sends the stale alert iff the check is on and the rule fires |
| Properties.StaleBoundary | src/main/java/com/mno/ethermom/App.java:187 | 12 stale shares against 100 valid at 10% fire; 10 (the boundary) and 9 do not |
| Properties.TotalRunsIndependent | src/main/java/com/mno/ethermom/App.java:61-64 | a sequence of TOTAL runs never changes the lock and sends, run by run, what each run sends on its own, so nothing is deduplicated |
| Properties.PersistentProblem | src/main/java/com/mno/ethermom/App.java:199-205 | with every send accepted, while an INDIVIDUAL problem persists with the lock present, runs are silent without continuous reporting; with it, each run sends its own digest |
| Properties.ProblemFromNormal | src/main/java/com/mno/ethermom/App.java:197-216 | with every send accepted, n problem runs from no lock send one digest, or n digests with continuous reporting (1 or 3 for three runs) |
| Properties.AlertThenRecover | src/main/java/com/mno/ethermom/App.java:103-108 | with every send accepted, the runs problem, problem, clean, clean from no lock send exactly one digest and one recovery notice, or two digests and one recovery notice with continuous reporting |
| Properties.StaleEveryRun | src/main/java/com/mno/ethermom/App.java:66-68 | with every send accepted, three TOTAL runs at or above the threshold whose stale rule fires send three stale alerts, whatever the lock state |

## Left out

- HTTP fetching (`HttpUtil`) and JSON decoding. Each API answer is an input:
  no usable answer, or the decoded data. A present response whose statistics
  data is null ends the source's run with a NullPointerException. The model
  folds that case into `ApiDown`; the observable effect is the same (abort,
  nothing sent, lock untouched). A null worker list is folded into the empty
  list, which raises the same "No active workers" error.
- Configuration loading (`ConfigUtil`). The configuration is an input, and
  `getMode` is taken to answer the same on each call. How a per-worker
  threshold is resolved is not part of this model (it is the function
  `expectedHash`). A failure of `loadConfigs` is not modelled.
- Message delivery (`MessagingUtil`, IFTTT or Telegram). It is the `accepts`
  function of a run. A single run never sends the same text twice, so a
  per-message answer covers every pattern of failure within one run.
- `ConversionUtil.convertToMHs` and Java's number-to-text rendering. They are
  uninterpreted fields of `Display`, used only in texts and never in
  comparisons.
- Java `double` arithmetic. Hashrates, thresholds and the tolerance are
  `real`. IEEE rounding, NaN and infinities are not modelled, so, for
  example, a NaN threshold is not covered.
- `running.lock`, deleted and recreated in the `finally` block. It is never
  read and has no effect on any decision.
- `System.exit`, standard-output logging and `printStackTrace`. A run's end
  is the `Outcome` value. The process exit status is 0 in every case.
- Overlapping runs. Nothing in the source prevents two runs from
  interleaving their reads and writes of the lock file. The model has one
  run at a time.
- A null worker name. Worker ids are plain strings.
- Failures of the lock file itself. `lockfile.createNewFile()` (App.java:203)
  can throw, after the delete at line 200 when a lock file existed; the
  source's run then ends with no lock file and without the digest, while the model always ends report
  management with the lock set and then sends. `lockfile.delete()` (lines
  106, 162, 200) reports failure by returning false, which the source
  ignores; the lock file then stays and the next clean run sends the
  recovery notice again, while the model always clears the lock.

Behaviours of the code that the model keeps, and that a reader might not expect:

- The stale check comes last in TOTAL and MIX runs, so it never runs when
  anything earlier in the run threw: a failed fetch, an empty worker list
  (App.java:135-137), a refused worker threshold (App.java:142-145) or a
  failed send (App.java:66-68, 166-168).
- INDIVIDUAL refuses only a zero worker threshold (App.java:87); MIX refuses
  every threshold that is not positive (App.java:142).
- With repeated worker ids, `put` overwrites in place (App.java:93, 98): the
  key stays where it first became a problem and takes the value of its last
  problem occurrence (`Problems.PutInPlace`, `Problems.LastProblemWins`).
- The recovery notice is sent after the lock file is deleted (App.java:106-107,
  162-163). If that send fails, the recovery is never announced, because the
  next run finds no lock file. `Properties.FailedSendKeepsEarlierWork` shows
  the related MIX case.
