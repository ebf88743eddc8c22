/** The texts the job sends, the problem digest built line by line, and the
    stale-share rule. */
module Messages {
  import opened Domain
  import opened Problems

  /** The common start of both hashrate alerts. */
  const HashrateLow: string := "Reported hashrate is lower than expected "
  const DigestHeader: string := HashrateLow + "for following worker(s)."
  const LowTotalPrefix: string := HashrateLow + "@"
  const StalePrefix: string := "Stale shares are too high @ "
  /** The line separator of the message channels (an URL-encoded newline). */
  const LineBreak: string := "%0A"
  const Recovery: string := "Previously failed workers are back to normal."

  /** The pool-wide alert of TOTAL mode, showing the hashrate in MH/s. */
  function LowTotalText(reported: real, d: Display): string {
    LowTotalPrefix + d.showReal(d.toMHs(reported)) + "MH/s."
  }

  /** The stale-share alert. */
  function StaleText(s: Stats, tolerance: real, d: Display): string {
    StalePrefix + d.showInt(s.stale) + "/" + d.showInt(s.valid)
    + ". Check your workers." + LineBreak + LineBreak
    + "<i>Stale Tolerance is set to " + d.showReal(tolerance) + "%</i>"
  }

  /** Stale shares are too many when they are strictly more than `tolerance`
      percent of the valid shares. */
  predicate StaleExceeded(s: Stats, tolerance: real) {
    s.stale as real > s.valid as real * tolerance / 100.0
  }

  /** The stale rule without the division: stale shares exceed the
      tolerance exactly when a hundred times their number exceeds the valid
      shares times the tolerance. */
  lemma StaleCrossMultiplied(s: Stats, tolerance: real)
    ensures StaleExceeded(s, tolerance) <==> 100.0 * (s.stale as real) > (s.valid as real) * tolerance
  {
  }

  /** The digest line of one problem worker: a negative value means offline. */
  function LineText(e: Entry, showReal: real -> string): string {
    LineBreak + e.id + (if e.value < 0.0 then " is offline" else " @" + showReal(e.value) + "MH/s")
  }

  function Lines(p: seq<Entry>, showReal: real -> string): string {
    if p == [] then "" else LineText(p[0], showReal) + Lines(p[1..], showReal)
  }

  /** The problem digest: the header, then one line per entry in map order. */
  function DigestText(p: seq<Entry>, showReal: real -> string): string {
    DigestHeader + Lines(p, showReal)
  }

  lemma {:induction false} LinesAppend(p: seq<Entry>, q: seq<Entry>, showReal: real -> string)
    ensures Lines(p + q, showReal) == Lines(p, showReal) + Lines(q, showReal)
  {
    if p == [] {
      assert p + q == q;
    } else {
      assert (p + q)[1..] == p[1..] + q;
      LinesAppend(p[1..], q, showReal);
    }
  }

  /** The message of the report, built as the source builds it: the header,
      then one line appended per key of the problem map. */
  method BuildDigest(p: seq<Entry>, showReal: real -> string) returns (msg: string)
    ensures msg == DigestText(p, showReal)
  {
    msg := DigestHeader;
    var i := 0;
    while i < |p|
      invariant 0 <= i <= |p|
      invariant msg == DigestHeader + Lines(p[..i], showReal)
    {
      LinesAppend(p[..i], [p[i]], showReal);
      assert p[..i + 1] == p[..i] + [p[i]];
      assert Lines([p[i]], showReal) == LineText(p[i], showReal);
      msg := msg + LineText(p[i], showReal);
      i := i + 1;
    }
    assert p[..i] == p;
  }

  /** The digest is the header followed by the lines of the entries strictly
      in map order: the line of entry `i` starts right after the lines of the
      entries before it. */
  lemma DigestLineAt(p: seq<Entry>, showReal: real -> string, i: nat)
    requires i < |p|
    ensures DigestText(p, showReal) ==
      DigestHeader + Lines(p[..i], showReal) + LineText(p[i], showReal) + Lines(p[i + 1..], showReal)
  {
    assert p == p[..i] + ([p[i]] + p[i + 1..]);
    LinesAppend(p[..i], [p[i]] + p[i + 1..], showReal);
    assert ([p[i]] + p[i + 1..])[1..] == p[i + 1..];
  }

  /** The four kinds of message can be told apart: only the stale alert starts
      with the stale prefix, and the digest, the pool-wide alert and the
      recovery notice differ from each other. */
  lemma MessagesDistinct(p: seq<Entry>, s: Stats, tolerance: real, reported: real, d: Display)
    ensures StalePrefix <= StaleText(s, tolerance, d)
    ensures !(StalePrefix <= DigestText(p, d.showReal))
    ensures !(StalePrefix <= LowTotalText(reported, d))
    ensures !(StalePrefix <= Recovery)
    ensures DigestText(p, d.showReal) != LowTotalText(reported, d)
    ensures DigestText(p, d.showReal) != Recovery
    ensures LowTotalText(reported, d) != Recovery
  {
    // Told apart by length, and by the characters at positions 27 and 41.
    var digest, low := DigestText(p, d.showReal), LowTotalText(reported, d);
    assert StalePrefix[27] == ' ' && Recovery[27] == 'r' && HashrateLow[27] == 't';
    assert digest[27] == 't' && low[27] == 't';
    assert digest[41] == 'f' && low[41] == '@';
    assert |digest| > |Recovery| && |low| > |Recovery|;
  }
}
