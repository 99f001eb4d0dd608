/** The threshold rule of a check: two counters against the whole history of raw results. */
module Thresholds {

  datatype Status = Healthy | Critical | Unknown | Disabled

  /** What one execution of a check reports. */
  type Raw = s: Status | s.Healthy? || s.Critical? witness Healthy

  datatype Health = Health(status: Status, failures: nat, successes: nat)

  const FRESH: Health := Health(Unknown, 0, 0)

  /** The update of recordResult. */
  function Observe(c: Health, raw: Raw, failureThreshold: nat, recoveryThreshold: nat): Health {
    if raw.Healthy? then
      Health(if c.successes + 1 >= recoveryThreshold then Healthy else c.status, 0, c.successes + 1)
    else
      Health(if c.failures + 1 >= failureThreshold then Critical else c.status, c.failures + 1, 0)
  }

  function Replay(h: seq<Raw>, f: nat, r: nat): Health {
    if h == [] then FRESH else Observe(Replay(h[..|h| - 1], f, r), h[|h| - 1], f, r)
  }

  lemma ReplayOneMore(h: seq<Raw>, raw: Raw, f: nat, r: nat)
    ensures Replay(h + [raw], f, r) == Observe(Replay(h, f, r), raw, f, r)
  {
    assert (h + [raw])[..|h|] == h;
  }

  // ---------- what the whole history says ----------

  /** `n` is the length of the longest run of `raw` at the end of the history. */
  ghost predicate TrailingRun(h: seq<Raw>, raw: Raw, n: nat) {
    && n <= |h|
    && (forall i :: |h| - n <= i < |h| ==> h[i] == raw)
    && (n < |h| ==> h[|h| - n - 1] != raw)
  }

  /** After the first `k` results the latest one had been repeated as often as its own threshold asks. */
  ghost predicate Decisive(h: seq<Raw>, k: nat, f: nat, r: nat) {
    && 1 <= k <= |h|
    && var needed := if h[k - 1].Healthy? then r else f;
       needed <= k && forall i :: k - needed <= i < k ==> h[i] == h[k - 1]
  }

  /** The status is the outcome of the latest decisive prefix, or unknown if there is none. */
  ghost predicate StatusOf(h: seq<Raw>, status: Status, f: nat, r: nat) {
    if status.Unknown? then forall k: nat :: !Decisive(h, k, f, r)
    else exists k: nat :: Decisive(h, k, f, r) && h[k - 1] == status && forall m :: k < m <= |h| ==> !Decisive(h, m, f, r)
  }

  lemma DecisiveOnPrefix(h: seq<Raw>, raw: Raw, k: nat, f: nat, r: nat)
    requires k <= |h|
    ensures Decisive(h + [raw], k, f, r) <==> Decisive(h, k, f, r)
  {
    if k >= 1 {
      assert forall i :: 0 <= i < k ==> (h + [raw])[i] == h[i];
    }
  }

  lemma DecisiveByRun(h: seq<Raw>, n: nat, f: nat, r: nat)
    requires h != [] && f >= 1 && r >= 1 && TrailingRun(h, h[|h| - 1], n)
    ensures Decisive(h, |h|, f, r) <==> n >= (if h[|h| - 1].Healthy? then r else f)
  {
    var needed := if h[|h| - 1].Healthy? then r else f;
    if n < needed <= |h| {
      assert h[|h| - n - 1] != h[|h| - 1];
    }
  }

  lemma StatusAfterOneMore(h: seq<Raw>, raw: Raw, status: Status, f: nat, r: nat)
    requires StatusOf(h, status, f, r)
    ensures StatusOf(h + [raw], if Decisive(h + [raw], |h| + 1, f, r) then raw else status, f, r)
  {
    var g := h + [raw];
    forall k: nat | k <= |h| ensures Decisive(g, k, f, r) <==> Decisive(h, k, f, r) {
      DecisiveOnPrefix(h, raw, k, f, r);
    }
    if !Decisive(g, |g|, f, r) && !status.Unknown? {
      var k: nat :| Decisive(h, k, f, r) && h[k - 1] == status && forall m :: k < m <= |h| ==> !Decisive(h, m, f, r);
      assert Decisive(g, k, f, r) && g[k - 1] == status;
    }
  }

  lemma {:induction false} CountersAreRuns(h: seq<Raw>, f: nat, r: nat)
    ensures TrailingRun(h, Critical, Replay(h, f, r).failures)
    ensures TrailingRun(h, Healthy, Replay(h, f, r).successes)
  {
    if h != [] {
      CountersAreRuns(h[..|h| - 1], f, r);
    }
  }

  /** The two counters and the status kept by constant-size updates are exactly what the unbounded history defines. */
  lemma {:induction false} CountersRefineHistory(h: seq<Raw>, f: nat, r: nat)
    requires f >= 1 && r >= 1
    ensures TrailingRun(h, Critical, Replay(h, f, r).failures)
    ensures TrailingRun(h, Healthy, Replay(h, f, r).successes)
    ensures StatusOf(h, Replay(h, f, r).status, f, r)
  {
    hide TrailingRun, Decisive, StatusOf;
    CountersAreRuns(h, f, r);
    if h == [] {
      NothingDecided(f, r);
    } else {
      var front, raw := h[..|h| - 1], h[|h| - 1];
      assert h == front + [raw];
      CountersRefineHistory(front, f, r);
      StatusAfterOneMore(front, raw, Replay(front, f, r).status, f, r);
      DecisiveByRun(h, if raw.Healthy? then Replay(h, f, r).successes else Replay(h, f, r).failures, f, r);
    }
  }

  lemma NothingDecided(f: nat, r: nat)
    ensures StatusOf([], Unknown, f, r)
  {
  }

  /** Only one length fits a trailing run, so the refinement pins the counters down. */
  lemma TrailingRunUnique(h: seq<Raw>, raw: Raw, n: nat)
    requires TrailingRun(h, raw, n)
    ensures forall m: nat :: TrailingRun(h, raw, m) ==> m == n
  {
  }

  // ---------- flapping ----------

  /** How often the check has entered the critical status. */
  function Entries(h: seq<Raw>, f: nat, r: nat): nat {
    if h == [] then 0
    else
      var before := Replay(h[..|h| - 1], f, r);
      Entries(h[..|h| - 1], f, r) + (if !before.status.Critical? && Replay(h, f, r).status.Critical? then 1 else 0)
  }

  /** Results needed for `k` entries: a full failure run for each, a full recovery run between any two. */
  function Needed(k: nat, f: nat, r: nat): nat {
    if k == 0 then 0 else if k == 1 then f else Needed(k - 1, f, r) + r + f
  }

  lemma {:induction false} NeededInClosedForm(k: nat, f: nat, r: nat)
    requires k >= 1
    ensures Needed(k, f, r) == k * f + (k - 1) * r
  {
    if k > 1 {
      NeededInClosedForm(k - 1, f, r);
      assert k * f == (k - 1) * f + f && (k - 1) * r == (k - 2) * r + r;
    }
  }

  lemma {:induction false} EntriesCost(h: seq<Raw>, f: nat, r: nat)
    requires f >= 1 && r >= 1
    ensures var c, k := Replay(h, f, r), Entries(h, f, r);
            if c.status.Critical? then k >= 1 && c.successes < r && |h| >= Needed(k, f, r) + c.successes
            else c.failures < f && |h| >= (if k == 0 then 0 else Needed(k, f, r) + r) + c.failures
  {
    if h != [] {
      EntriesCost(h[..|h| - 1], f, r);
    }
  }

  /** A check that has gone critical k times has seen at least k failure runs and k - 1 recovery runs. */
  lemma FlapBound(h: seq<Raw>, f: nat, r: nat)
    requires f >= 1 && r >= 1 && Entries(h, f, r) >= 1
    ensures |h| >= Entries(h, f, r) * f + (Entries(h, f, r) - 1) * r
  {
    EntriesCost(h, f, r);
    NeededInClosedForm(Entries(h, f, r), f, r);
  }

  function Repeat(raw: Raw, n: nat): (s: seq<Raw>)
    ensures |s| == n
  {
    if n == 0 then [] else Repeat(raw, n - 1) + [raw]
  }

  /** The shortest history with `k` entries. */
  function Flapping(k: nat, f: nat, r: nat): seq<Raw> {
    if k == 0 then [] else if k == 1 then Repeat(Critical, f)
    else Flapping(k - 1, f, r) + Repeat(Healthy, r) + Repeat(Critical, f)
  }

  lemma {:induction false} AppendFailures(h: seq<Raw>, n: nat, f: nat, r: nat)
    requires f >= 1 && r >= 1 && !Replay(h, f, r).status.Critical? && Replay(h, f, r).failures == 0 && n <= f
    ensures var g := h + Repeat(Critical, n);
            && Replay(g, f, r).failures == n && (n > 0 ==> Replay(g, f, r).successes == 0)
            && Replay(g, f, r).status == (if n == f then Critical else Replay(h, f, r).status)
            && Entries(g, f, r) == Entries(h, f, r) + (if n == f then 1 else 0)
  {
    var g := h + Repeat(Critical, n);
    if n == 0 {
      assert g == h;
    } else {
      assert g[..|g| - 1] == h + Repeat(Critical, n - 1);
      AppendFailures(h, n - 1, f, r);
    }
  }

  lemma {:induction false} AppendSuccesses(h: seq<Raw>, n: nat, f: nat, r: nat)
    requires f >= 1 && r >= 1 && Replay(h, f, r).status.Critical? && Replay(h, f, r).successes == 0 && n <= r
    ensures var g := h + Repeat(Healthy, n);
            && Replay(g, f, r).successes == n && (n > 0 ==> Replay(g, f, r).failures == 0)
            && Replay(g, f, r).status == (if n == r then Healthy else Critical)
            && Entries(g, f, r) == Entries(h, f, r)
  {
    var g := h + Repeat(Healthy, n);
    if n == 0 {
      assert g == h;
    } else {
      assert g[..|g| - 1] == h + Repeat(Healthy, n - 1);
      AppendSuccesses(h, n - 1, f, r);
    }
  }

  lemma {:induction false} FlappingLength(k: nat, f: nat, r: nat)
    ensures |Flapping(k, f, r)| == Needed(k, f, r)
  {
    if k > 1 {
      FlappingLength(k - 1, f, r);
    }
  }

  lemma {:induction false} FlappingEntries(k: nat, f: nat, r: nat)
    requires k >= 1 && f >= 1 && r >= 1
    ensures var h := Flapping(k, f, r);
            Entries(h, f, r) == k && Replay(h, f, r).status.Critical? && Replay(h, f, r).successes == 0
  {
    hide Replay, Entries;
    if k == 1 {
      assert [] + Repeat(Critical, f) == Repeat(Critical, f);
      FreshStart(f, r);
      AppendFailures([], f, f, r);
    } else {
      FlappingEntries(k - 1, f, r);
      AppendSuccesses(Flapping(k - 1, f, r), r, f, r);
      AppendFailures(Flapping(k - 1, f, r) + Repeat(Healthy, r), f, f, r);
    }
  }

  lemma FreshStart(f: nat, r: nat)
    ensures Replay([], f, r) == FRESH && Entries([], f, r) == 0
  {
  }

  /** The bound is reached for every number of entries and every pair of thresholds. */
  lemma FlapBoundIsTight(k: nat, f: nat, r: nat)
    requires k >= 1 && f >= 1 && r >= 1
    ensures Entries(Flapping(k, f, r), f, r) == k && |Flapping(k, f, r)| == k * f + (k - 1) * r
  {
    FlappingEntries(k, f, r);
    FlappingLength(k, f, r);
    NeededInClosedForm(k, f, r);
  }
}
