/** The inputs of one monitoring cycle: the operator's configuration, what the
    pool API returned, how the message sink answers, and how numbers are shown
    in messages.  Everything a cycle reads from the outside world is a value of
    one of these types. */
module Domain {

  datatype Option<+T> = None | Some(value: T)

  datatype Result<+R, +E> = Ok(value: R) | Err(error: E)

  /** The evaluation mode selected by the configuration.  `Unrecognized` is a
      mode number matching none of the three known ones: the cycle then does
      nothing at all. */
  datatype Mode = Total | Individual | Mix | Unrecognized

  /** The configuration as read at the start of a cycle.
      `totalExpected` is the expected hashrate asked for with no worker name;
      `expectedHash(id)` is the one asked for a named worker (how the
      configuration resolves a per-worker value is not part of this model).
      A missing wallet address is represented by the empty string. */
  datatype Config = Config(
    enabled: bool,
    wallet: string,
    mode: Mode,
    totalExpected: real,
    expectedHash: string -> real,
    staleCheck: bool,
    staleTolerance: real,
    continuousReport: bool)

  /** Pool-wide statistics, in raw hashrate units. */
  datatype Stats = Stats(reported: real, stale: int, valid: int)

  /** One worker; `reported == None` is a worker that reported no hashrate. */
  datatype Worker = Worker(id: string, reported: Option<real>)

  /** The answer of one API call: no usable answer (no response, or a status
      other than OK), or the decoded data. */
  datatype Fetched<+T> = ApiDown | Fetched(data: T)

  /** Everything the outside world contributes to one cycle.  The worker list
      is only looked at by the modes that fetch it; `accepts(m)` says whether
      the message sink delivers message `m` (false: the send throws). */
  datatype Env = Env(
    stats: Fetched<Stats>,
    workers: Fetched<seq<Worker>>,
    accepts: string -> bool)

  /** Display conversions used only when building message texts:
      conversion of a raw hashrate to MH/s, and the decimal rendering of a
      floating-point number and of an integer. */
  datatype Display = Display(
    toMHs: real -> real,
    showReal: real -> string,
    showInt: int -> string)

  /** The reasons a cycle stops early; each is caught and ends the cycle. */
  datatype Error =
    | WalletNotSet
    | InvalidExpectedHash        // the pool-wide threshold
    | InvalidWorkerExpectedHash  // a per-worker threshold
    | ApiNotWorking
    | NoActiveWorkers
    | DeliveryFailed

  /** How a cycle ended.  `Disabled` is the job switched off in the
      configuration; `Aborted` is any caught error.  The process exit status
      is 0 in every case. */
  datatype Outcome = Completed | Disabled | Aborted(error: Error)
}
