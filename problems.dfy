/** The per-worker evaluation: the loop that walks the worker list and builds
    the insertion-ordered problem map (a Java LinkedHashMap from worker id to
    the value recorded for it), and the rule that rejects a worker threshold. */
module Problems {
  import opened Domain

  /** One entry of the problem map: a worker id and the value recorded for it,
      `Offline` (-1) for a worker that reported nothing, otherwise the
      worker's hashrate converted to MH/s. */
  datatype Entry = Entry(id: string, value: real)

  const Offline: real := -1.0

  /** `containsKey` on the problem map. */
  predicate HasKey(p: seq<Entry>, id: string) {
    p != [] && (p[0].id == id || HasKey(p[1..], id))
  }

  /** The keys of a map occur once each. */
  predicate DistinctIds(p: seq<Entry>) {
    p == [] || (!HasKey(p[1..], p[0].id) && DistinctIds(p[1..]))
  }

  /** `get` on the problem map. */
  function Lookup(p: seq<Entry>, id: string): (r: Option<real>)
    ensures r.Some? <==> HasKey(p, id)
  {
    if p == [] then None
    else if p[0].id == id then Some(p[0].value)
    else Lookup(p[1..], id)
  }

  /** `put` on a LinkedHashMap: a key already present keeps its position and
      takes the new value; a new key is appended at the end. */
  function Put(p: seq<Entry>, id: string, v: real): seq<Entry> {
    if p == [] then [Entry(id, v)]
    else if p[0].id == id then [Entry(id, v)] + p[1..]
    else [p[0]] + Put(p[1..], id, v)
  }

  lemma {:induction false} HasKeyAppend(p: seq<Entry>, q: seq<Entry>, k: string)
    ensures HasKey(p + q, k) <==> HasKey(p, k) || HasKey(q, k)
  {
    if p != [] {
      assert (p + q)[1..] == p[1..] + q;
      HasKeyAppend(p[1..], q, k);
    } else {
      assert p + q == q;
    }
  }

  lemma {:induction false} LookupAppend(p: seq<Entry>, q: seq<Entry>, k: string)
    ensures Lookup(p + q, k) == if HasKey(p, k) then Lookup(p, k) else Lookup(q, k)
  {
    if p != [] {
      assert (p + q)[1..] == p[1..] + q;
      LookupAppend(p[1..], q, k);
    } else {
      assert p + q == q;
    }
  }

  /** `put` adds its key and no other. */
  lemma {:induction false} PutKeys(p: seq<Entry>, id: string, v: real, k: string)
    ensures HasKey(Put(p, id, v), k) <==> HasKey(p, k) || k == id
  {
    if p != [] && p[0].id != id {
      PutKeys(p[1..], id, v, k);
      assert Put(p, id, v)[1..] == Put(p[1..], id, v);
    } else if p != [] {
      assert Put(p, id, v)[1..] == p[1..];
    }
  }

  /** `put` of a new key appends it. */
  lemma {:induction false} PutAppends(p: seq<Entry>, id: string, v: real)
    requires !HasKey(p, id)
    ensures Put(p, id, v) == p + [Entry(id, v)]
  {
    if p != [] {
      PutAppends(p[1..], id, v);
      assert p == [p[0]] + p[1..];
    }
  }

  /** `put` of a present key keeps every key in its place, and afterwards
      `get` answers the new value for that key and the old one for others. */
  lemma {:induction false} PutInPlace(p: seq<Entry>, id: string, v: real)
    ensures HasKey(p, id) ==>
      |Put(p, id, v)| == |p| && forall i :: 0 <= i < |p| ==> Put(p, id, v)[i].id == p[i].id
    ensures Lookup(Put(p, id, v), id) == Some(v)
    ensures forall k :: k != id ==> Lookup(Put(p, id, v), k) == Lookup(p, k)
  {
    if p != [] && p[0].id != id {
      PutInPlace(p[1..], id, v);
      var r := Put(p, id, v);
      assert r[1..] == Put(p[1..], id, v);
    } else if p != [] {
      assert Put(p, id, v)[1..] == p[1..];
    }
  }

  /** `put` keeps the keys distinct. */
  lemma {:induction false} PutDistinct(p: seq<Entry>, id: string, v: real)
    requires DistinctIds(p)
    ensures DistinctIds(Put(p, id, v))
  {
    var r := Put(p, id, v);
    if p != [] && p[0].id != id {
      PutDistinct(p[1..], id, v);
      PutKeys(p[1..], id, v, p[0].id);
      assert r[1..] == Put(p[1..], id, v);
    } else if p != [] {
      assert r[1..] == p[1..];
    }
  }

  /** In a map with distinct keys, `get` of the key at any position answers
      the value stored at that position, so walking the entries and walking
      the keys with `get` see the same values. */
  lemma {:induction false} LookupAt(p: seq<Entry>, i: nat)
    requires DistinctIds(p)
    requires i < |p|
    ensures Lookup(p, p[i].id) == Some(p[i].value)
  {
    if i > 0 {
      assert p[1..][i - 1] == p[i];
      LookupAt(p[1..], i - 1);
    }
  }

  /** A worker is a problem when it reported nothing, or reported strictly
      less than its threshold. */
  predicate IsProblem(w: Worker, expected: real) {
    w.reported.None? || w.reported.value < expected
  }

  /** The value recorded for a problem worker. */
  function Severity(w: Worker, toMHs: real -> real): real {
    if w.reported.None? then Offline else toMHs(w.reported.value)
  }

  /** One iteration of the evaluation loop, once the worker's threshold has
      been accepted. */
  function Record(p: seq<Entry>, w: Worker, expected: string -> real, toMHs: real -> real): seq<Entry> {
    if w.reported.None? then Put(p, w.id, Offline)
    else if w.reported.value < expected(w.id) then Put(p, w.id, toMHs(w.reported.value))
    else p
  }

  /** The problem map after the loop has run over all of `ws`. */
  function ProblemMap(ws: seq<Worker>, expected: string -> real, toMHs: real -> real): seq<Entry> {
    if ws == [] then []
    else Record(ProblemMap(ws[..|ws| - 1], expected, toMHs), ws[|ws| - 1], expected, toMHs)
  }

  /** The threshold a mode refuses: INDIVIDUAL refuses only zero, MIX (and the
      pool-wide check of TOTAL and MIX) refuses every value that is not
      positive. */
  predicate Rejects(mode: Mode, e: real) {
    if mode == Individual then e == 0.0 else e <= 0.0
  }

  predicate ThresholdsAccepted(mode: Mode, ws: seq<Worker>, expected: string -> real) {
    forall i :: 0 <= i < |ws| ==> !Rejects(mode, expected(ws[i].id))
  }

  /** What the evaluation loop yields: the problem map, or the error thrown
      for a refused threshold (the map is local, so where the loop stops does
      not matter). */
  function Evaluate(mode: Mode, ws: seq<Worker>, expected: string -> real, toMHs: real -> real): Result<seq<Entry>, Error> {
    if ThresholdsAccepted(mode, ws, expected) then Ok(ProblemMap(ws, expected, toMHs))
    else Err(InvalidWorkerExpectedHash)
  }

  /** The evaluation loop of INDIVIDUAL and MIX mode. */
  method CollectProblems(mode: Mode, ws: seq<Worker>, expected: string -> real, toMHs: real -> real)
    returns (r: Result<seq<Entry>, Error>)
    ensures r == Evaluate(mode, ws, expected, toMHs)
  {
    var problems: seq<Entry> := [];
    var i := 0;
    while i < |ws|
      invariant 0 <= i <= |ws|
      invariant forall j :: 0 <= j < i ==> !Rejects(mode, expected(ws[j].id))
      invariant problems == ProblemMap(ws[..i], expected, toMHs)
    {
      var w := ws[i];
      var e := expected(w.id);
      if Rejects(mode, e) {
        return Err(InvalidWorkerExpectedHash);
      }
      assert ws[..i + 1][..i] == ws[..i];
      if w.reported.None? {
        problems := Put(problems, w.id, Offline);
        i := i + 1;
        continue;
      }
      if w.reported.value < e {
        problems := Put(problems, w.id, toMHs(w.reported.value));
      }
      i := i + 1;
    }
    assert ws[..i] == ws;
    return Ok(problems);
  }

  // ---------------------------------------------------------------------------
  // An independent description of the problem map, and what it says.

  predicate DistinctWorkerIds(ws: seq<Worker>) {
    forall i, j :: 0 <= i < j < |ws| ==> ws[i].id != ws[j].id
  }

  /** The problem workers in list order, each with its recorded value. */
  function Filtered(ws: seq<Worker>, expected: string -> real, toMHs: real -> real): seq<Entry> {
    if ws == [] then []
    else Single(ws[0], expected, toMHs) + Filtered(ws[1..], expected, toMHs)
  }

  function Single(w: Worker, expected: string -> real, toMHs: real -> real): seq<Entry> {
    if IsProblem(w, expected(w.id)) then [Entry(w.id, Severity(w, toMHs))] else []
  }

  lemma {:induction false} FilteredSnoc(ws: seq<Worker>, w: Worker, expected: string -> real, toMHs: real -> real)
    ensures Filtered(ws + [w], expected, toMHs) ==
      Filtered(ws, expected, toMHs) + Single(w, expected, toMHs)
  {
    if ws == [] {
      assert [w][1..] == [];
    } else {
      assert (ws + [w])[1..] == ws[1..] + [w];
      FilteredSnoc(ws[1..], w, expected, toMHs);
    }
  }

  /** Every key of the filtered map is the id of a worker of the list. */
  lemma {:induction false} FilteredKeys(ws: seq<Worker>, expected: string -> real, toMHs: real -> real, id: string)
    ensures HasKey(Filtered(ws, expected, toMHs), id) ==> exists i :: 0 <= i < |ws| && ws[i].id == id
  {
    if ws != [] {
      var head, tail := Single(ws[0], expected, toMHs), Filtered(ws[1..], expected, toMHs);
      HasKeyAppend(head, tail, id);
      FilteredKeys(ws[1..], expected, toMHs, id);
      if HasKey(tail, id) {
        var i :| 0 <= i < |ws[1..]| && ws[1..][i].id == id;
        assert ws[i + 1].id == id;
      }
      if HasKey(head, id) {
        assert ws[0].id == id;
      }
    }
  }

  /** With distinct worker ids, the problem map lists exactly the problem
      workers, in the order of the worker list, each with its severity. */
  lemma {:induction false} ProblemsAreFiltered(ws: seq<Worker>, expected: string -> real, toMHs: real -> real)
    requires DistinctWorkerIds(ws)
    ensures ProblemMap(ws, expected, toMHs) == Filtered(ws, expected, toMHs)
  {
    if ws != [] {
      var n := |ws|;
      var init, w := ws[..n - 1], ws[n - 1];
      assert ws == init + [w];
      ProblemsAreFiltered(init, expected, toMHs);
      FilteredSnoc(init, w, expected, toMHs);
      FilteredKeys(init, expected, toMHs, w.id);
      if IsProblem(w, expected(w.id)) {
        PutAppends(Filtered(init, expected, toMHs), w.id, Severity(w, toMHs));
      }
    }
  }

  lemma {:induction false} LookupFiltered(ws: seq<Worker>, expected: string -> real, toMHs: real -> real, j: nat)
    requires DistinctWorkerIds(ws)
    requires j < |ws|
    ensures Lookup(Filtered(ws, expected, toMHs), ws[j].id) ==
      if IsProblem(ws[j], expected(ws[j].id)) then Some(Severity(ws[j], toMHs)) else None
  {
    var head, tail := Single(ws[0], expected, toMHs), Filtered(ws[1..], expected, toMHs);
    LookupAppend(head, tail, ws[j].id);
    if j == 0 {
      FilteredKeys(ws[1..], expected, toMHs, ws[0].id);
    } else {
      assert ws[1..][j - 1] == ws[j];
      assert DistinctWorkerIds(ws[1..]) by {
        forall a, b | 0 <= a < b < |ws[1..]| ensures ws[1..][a].id != ws[1..][b].id {
          assert ws[1..][a] == ws[a + 1] && ws[1..][b] == ws[b + 1];
        }
      }
      LookupFiltered(ws[1..], expected, toMHs, j - 1);
    }
  }

  /** With distinct worker ids: a worker that reported nothing is recorded as
      offline whatever its threshold, a worker strictly below its threshold is
      recorded with its converted hashrate, and every other worker is absent. */
  lemma ProblemValue(ws: seq<Worker>, expected: string -> real, toMHs: real -> real, j: nat)
    requires DistinctWorkerIds(ws)
    requires j < |ws|
    ensures ws[j].reported.None? ==> Lookup(ProblemMap(ws, expected, toMHs), ws[j].id) == Some(Offline)
    ensures ws[j].reported.Some? && ws[j].reported.value < expected(ws[j].id) ==>
      Lookup(ProblemMap(ws, expected, toMHs), ws[j].id) == Some(toMHs(ws[j].reported.value))
    ensures ws[j].reported.Some? && ws[j].reported.value >= expected(ws[j].id) ==>
      !HasKey(ProblemMap(ws, expected, toMHs), ws[j].id)
  {
    ProblemsAreFiltered(ws, expected, toMHs);
    LookupFiltered(ws, expected, toMHs, j);
  }

  /** Whatever the worker list (ids repeated or not), the keys of the problem
      map are exactly the ids of problem workers, and each occurs once. */
  lemma {:induction false} ProblemKeys(ws: seq<Worker>, expected: string -> real, toMHs: real -> real, id: string)
    ensures DistinctIds(ProblemMap(ws, expected, toMHs))
    ensures HasKey(ProblemMap(ws, expected, toMHs), id) <==>
      exists i :: 0 <= i < |ws| && ws[i].id == id && IsProblem(ws[i], expected(ws[i].id))
  {
    if ws != [] {
      var n := |ws|;
      var init, w := ws[..n - 1], ws[n - 1];
      var p := ProblemMap(init, expected, toMHs);
      ProblemKeys(init, expected, toMHs, id);
      if w.reported.None? {
        PutKeys(p, w.id, Offline, id);
        PutDistinct(p, w.id, Offline);
      } else if w.reported.value < expected(w.id) {
        PutKeys(p, w.id, toMHs(w.reported.value), id);
        PutDistinct(p, w.id, toMHs(w.reported.value));
      }
      if exists i :: 0 <= i < |init| && init[i].id == id && IsProblem(init[i], expected(init[i].id)) {
        var i :| 0 <= i < |init| && init[i].id == id && IsProblem(init[i], expected(init[i].id));
        assert ws[i] == init[i];
      }
      if exists i :: 0 <= i < |ws| && ws[i].id == id && IsProblem(ws[i], expected(ws[i].id)) {
        var i :| 0 <= i < |ws| && ws[i].id == id && IsProblem(ws[i], expected(ws[i].id));
        if i < n - 1 {
          assert init[i] == ws[i];
        }
      }
    }
  }

  /** With repeated worker ids the map keeps the value of the last problem
      occurrence of an id: a later occurrence that is not a problem leaves
      it, and a later problem occurrence overwrites it (in place, by
      `PutInPlace`, so the key keeps the position where it first became a
      problem). */
  lemma {:induction false} LastProblemWins(ws: seq<Worker>, expected: string -> real, toMHs: real -> real, j: nat)
    requires j < |ws| && IsProblem(ws[j], expected(ws[j].id))
    requires forall k :: j < k < |ws| && ws[k].id == ws[j].id ==> !IsProblem(ws[k], expected(ws[k].id))
    ensures Lookup(ProblemMap(ws, expected, toMHs), ws[j].id) == Some(Severity(ws[j], toMHs))
  {
    var n := |ws|;
    var init, w := ws[..n - 1], ws[n - 1];
    var p := ProblemMap(init, expected, toMHs);
    if j == n - 1 {
      PutInPlace(p, w.id, Severity(w, toMHs));
    } else {
      assert init[j] == ws[j];
      assert forall k :: j < k < |init| && init[k].id == init[j].id ==> !IsProblem(init[k], expected(init[k].id)) by {
        forall k | j < k < |init| ensures init[k] == ws[k] { }
      }
      LastProblemWins(init, expected, toMHs, j);
      if IsProblem(w, expected(w.id)) {
        PutInPlace(p, w.id, Severity(w, toMHs));
      }
    }
  }

  /** Two entries for one worker: the offline entry is overwritten by the
      later low-hashrate one. */
  lemma RepeatedIdExample(toMHs: real -> real)
    ensures var ws := [Worker("a", None), Worker("a", Some(1.0))];
      ProblemMap(ws, _ => 2.0, toMHs) == [Entry("a", toMHs(1.0))]
  {
    var ws := [Worker("a", None), Worker("a", Some(1.0))];
    assert ws[..1] == [Worker("a", None)];
    assert ws[..1][..0] == [];
  }
}
