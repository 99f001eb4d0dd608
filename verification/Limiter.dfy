/** The login limiter: two capacity-bounded sliding windows, pruned and swept, against logs that forget nothing. */
module Limiter {
  import opened Text
  import opened Sets

  /** Nanoseconds of a clock that never goes back. */
  type Time = int

  const MINUTE: Time := 60_000_000_000
  const SOURCE_WINDOW: Time := MINUTE
  const SOURCE_LIMIT: nat := 20
  const ACCOUNT_WINDOW: Time := 5 * MINUTE
  const ACCOUNT_LIMIT: nat := 10
  const MAXIMUM_KEYS: nat := 4096
  const SWEEP_INTERVAL: Time := MINUTE

  datatype Record = Record(attempts: seq<Time>, lastSeen: Time)

  type Table = map<string, Record>

  // ---------- one bucket table ----------

  /** The attempts after a cutoff. */
  function Recent(attempts: seq<Time>, cutoff: Time): (r: seq<Time>)
    ensures |r| <= |attempts|
  {
    if attempts == [] then []
    else Recent(attempts[..|attempts| - 1], cutoff) + (if attempts[|attempts| - 1] > cutoff then [attempts[|attempts| - 1]] else [])
  }

  function AttemptsOf(records: Table, key: string): seq<Time> { if key in records then records[key].attempts else [] }

  /** A new key is refused while the table is full; otherwise prune, and charge the attempt if the window has room. */
  function Admit(records: Table, key: string, window: Time, limit: nat, now: Time): (Table, bool) {
    if key !in records && |records| >= MAXIMUM_KEYS then (records, false)
    else
      var recent := Recent(AttemptsOf(records, key), now - window);
      if |recent| >= limit then (records[key := Record(recent, now)], false)
      else (records[key := Record(recent + [now], now)], true)
  }

  function Unexpired(records: Table, cutoff: Time): Table {
    map key | key in records && records[key].lastSeen >= cutoff :: records[key]
  }

  // ---------- the log that forgets nothing ----------

  /** Every attempt charged to a key since its last reset. */
  type Log = map<string, seq<Time>>

  function Logged(log: Log, key: string): seq<Time> { if key in log then log[key] else [] }

  /** The naive rule: count the whole log. */
  predicate LogAllows(log: Log, key: string, window: Time, limit: nat, now: Time) {
    |Recent(Logged(log, key), now - window)| < limit
  }

  /** The charges in the window that ends at `t`. */
  function InWindow(attempts: seq<Time>, window: Time, t: Time): seq<Time> {
    if attempts == [] then []
    else
      var last := attempts[|attempts| - 1];
      InWindow(attempts[..|attempts| - 1], window, t) + (if t - window < last <= t then [last] else [])
  }

  datatype Bucket = Bucket(records: Table, log: Log)

  ghost predicate NotAfter(attempts: seq<Time>, clock: Time) { forall i :: 0 <= i < |attempts| ==> attempts[i] <= clock }

  /** A stored record is no younger than the clock, holds no more than the limit, and saw its last attempt last. */
  ghost predicate SoundRecord(r: Record, limit: nat, clock: Time) {
    |r.attempts| <= limit && r.lastSeen <= clock && NotAfter(r.attempts, r.lastSeen)
  }

  /** The pruned record and the full log agree on every window that ends now or later. */
  ghost predicate Agree(b: Bucket, key: string, window: Time, clock: Time) {
    forall cutoff: Time :: cutoff >= clock - window ==> Recent(Logged(b.log, key), cutoff) == Recent(AttemptsOf(b.records, key), cutoff)
  }

  ghost predicate SoundLog(attempts: seq<Time>, window: Time, limit: nat, clock: Time) {
    NotAfter(attempts, clock) && forall t: Time :: |InWindow(attempts, window, t)| <= limit
  }

  ghost predicate Inv(b: Bucket, window: Time, limit: nat, clock: Time) {
    && |b.records| <= MAXIMUM_KEYS
    && (forall key :: key in b.records ==> SoundRecord(b.records[key], limit, clock))
    && (forall key :: Agree(b, key, window, clock))
    && (forall key :: key in b.log ==> SoundLog(b.log[key], window, limit, clock))
  }

  // ---------- filtering ----------

  lemma {:induction false} RecentOfRecent(attempts: seq<Time>, c: Time, d: Time)
    requires c <= d
    ensures Recent(Recent(attempts, c), d) == Recent(attempts, d)
    ensures |Recent(attempts, d)| <= |Recent(attempts, c)|
  {
    if attempts != [] {
      var front, last := attempts[..|attempts| - 1], attempts[|attempts| - 1];
      RecentOfRecent(front, c, d);
      if last > c {
        assert (Recent(front, c) + [last])[..|Recent(front, c)|] == Recent(front, c);
      } else {
        assert Recent(front, c) + [] == Recent(front, c);
      }
    }
  }

  lemma RecentOfAppend(attempts: seq<Time>, now: Time, c: Time)
    ensures Recent(attempts + [now], c) == Recent(attempts, c) + (if now > c then [now] else [])
  {
    assert (attempts + [now])[..|attempts|] == attempts;
  }

  lemma {:induction false} NothingRecent(attempts: seq<Time>, c: Time)
    requires NotAfter(attempts, c)
    ensures Recent(attempts, c) == []
  {
    if attempts != [] {
      NothingRecent(attempts[..|attempts| - 1], c);
    }
  }

  lemma {:induction false} RecentKeepsBound(attempts: seq<Time>, c: Time, clock: Time)
    requires NotAfter(attempts, clock)
    ensures NotAfter(Recent(attempts, c), clock)
  {
    if attempts != [] {
      RecentKeepsBound(attempts[..|attempts| - 1], c, clock);
    }
  }

  /** Once everything has happened, a window is a cutoff. */
  lemma {:induction false} WindowIsCutoff(attempts: seq<Time>, window: Time, t: Time)
    requires NotAfter(attempts, t)
    ensures InWindow(attempts, window, t) == Recent(attempts, t - window)
  {
    if attempts != [] {
      WindowIsCutoff(attempts[..|attempts| - 1], window, t);
    }
  }

  // ---------- the sliding bound and the refinement, step by step ----------

  /** A charge that the naive rule allows keeps every window, past or future, within the limit. */
  lemma ChargeKeepsBound(attempts: seq<Time>, window: Time, limit: nat, now: Time)
    requires SoundLog(attempts, window, limit, now) && |Recent(attempts, now - window)| < limit
    ensures SoundLog(attempts + [now], window, limit, now)
  {
    hide InWindow, Recent;
    var more := attempts + [now];
    forall t: Time ensures |InWindow(more, window, t)| <= limit {
      assert |InWindow(attempts, window, t)| <= limit;
      InWindowOfAppend(attempts, now, window, t);
      if t >= now {
        WindowIsCutoff(attempts, window, t);
        RecentOfRecent(attempts, now - window, t - window);
      }
    }
  }

  lemma InWindowOfAppend(attempts: seq<Time>, now: Time, window: Time, t: Time)
    ensures |InWindow(attempts + [now], window, t)| == |InWindow(attempts, window, t)| + (if t - window < now <= t then 1 else 0)
  {
    assert (attempts + [now])[..|attempts|] == attempts;
  }

  function Attempt(b: Bucket, key: string, window: Time, limit: nat, now: Time): (Bucket, bool) {
    var (records, ok) := Admit(b.records, key, window, limit, now);
    (Bucket(records, if ok then b.log[key := Logged(b.log, key) + [now]] else b.log), ok)
  }

  /** Tracked keys and new keys that still fit are decided as the full log would decide them; a new key in a full table is refused. */
  lemma DecisionIsNaive(b: Bucket, key: string, window: Time, limit: nat, clock: Time, now: Time)
    requires Inv(b, window, limit, clock) && now >= clock
    ensures Attempt(b, key, window, limit, now).1
            <==> (key in b.records || |b.records| < MAXIMUM_KEYS) && LogAllows(b.log, key, window, limit, now)
  {
    assert Agree(b, key, window, clock);
    assert now - window >= clock - window;
  }

  /** Pruning the stored attempts, and charging the same attempt to both sides, keeps them equal beyond any later cutoff. */
  lemma PruneAgrees(attempts: seq<Time>, logged: seq<Time>, now: Time, start: Time, cutoff: Time)
    requires start <= cutoff && Recent(logged, cutoff) == Recent(attempts, cutoff)
    ensures Recent(logged, cutoff) == Recent(Recent(attempts, start), cutoff)
    ensures Recent(logged + [now], cutoff) == Recent(Recent(attempts, start) + [now], cutoff)
  {
    RecentOfRecent(attempts, start, cutoff);
    RecentOfAppend(Recent(attempts, start), now, cutoff);
    RecentOfAppend(logged, now, cutoff);
  }

  lemma AttemptAgrees(b: Bucket, key: string, window: Time, limit: nat, clock: Time, now: Time)
    requires Agree(b, key, window, clock) && now >= clock && (key in b.records || |b.records| < MAXIMUM_KEYS)
    ensures Agree(Attempt(b, key, window, limit, now).0, key, window, now)
  {
    hide Recent;
    var (next, ok) := Attempt(b, key, window, limit, now);
    var attempts, logged := AttemptsOf(b.records, key), Logged(b.log, key);
    var recent := Recent(attempts, now - window);
    assert AttemptsOf(next.records, key) == if ok then recent + [now] else recent;
    assert Logged(next.log, key) == if ok then logged + [now] else logged;
    forall cutoff: Time | cutoff >= now - window ensures Recent(Logged(next.log, key), cutoff) == Recent(AttemptsOf(next.records, key), cutoff) {
      assert Recent(logged, cutoff) == Recent(attempts, cutoff);
      PruneAgrees(attempts, logged, now, now - window, cutoff);
    }
  }

  /** Agreement on a key looks at that key only. */
  lemma AgreeDependsOnKey(b: Bucket, next: Bucket, key: string, window: Time, clock: Time)
    requires Agree(b, key, window, clock)
    requires Logged(next.log, key) == Logged(b.log, key) && AttemptsOf(next.records, key) == AttemptsOf(b.records, key)
    ensures Agree(next, key, window, clock)
  {
    hide Recent;
    forall cutoff: Time | cutoff >= clock - window ensures Recent(Logged(next.log, key), cutoff) == Recent(AttemptsOf(next.records, key), cutoff) {
      assert Recent(Logged(b.log, key), cutoff) == Recent(AttemptsOf(b.records, key), cutoff);
    }
  }

  lemma LaterAgree(b: Bucket, key: string, window: Time, clock: Time, now: Time)
    requires Agree(b, key, window, clock) && now >= clock
    ensures Agree(b, key, window, now)
  {
  }

  lemma AttemptSize(b: Bucket, key: string, window: Time, limit: nat, now: Time)
    requires |b.records| <= MAXIMUM_KEYS
    ensures |Attempt(b, key, window, limit, now).0.records| <= MAXIMUM_KEYS
  {
    hide Recent;
    var next := Attempt(b, key, window, limit, now).0;
    if key !in b.records && |b.records| < MAXIMUM_KEYS {
      assert next.records.Keys == b.records.Keys + {key};
      assert |next.records.Keys| <= |b.records.Keys| + 1;
    } else {
      assert next.records.Keys == b.records.Keys;
      assert |next.records.Keys| == |b.records.Keys|;
    }
  }

  lemma AttemptRecords(b: Bucket, key: string, window: Time, limit: nat, clock: Time, now: Time)
    requires Inv(b, window, limit, clock) && now >= clock
    ensures var next := Attempt(b, key, window, limit, now).0;
            |next.records| <= MAXIMUM_KEYS && forall k :: k in next.records ==> SoundRecord(next.records[k], limit, now)
  {
    hide Recent, Agree, SoundLog;
    var (next, ok) := Attempt(b, key, window, limit, now);
    AttemptSize(b, key, window, limit, now);
    forall k | k in next.records ensures SoundRecord(next.records[k], limit, now) {
      assert k in b.records ==> SoundRecord(b.records[k], limit, clock);
      if k == key && (key in b.records || |b.records| < MAXIMUM_KEYS) {
        RecentKeepsBound(AttemptsOf(b.records, key), now - window, now);
      }
    }
  }

  lemma AttemptKeepsInv(b: Bucket, key: string, window: Time, limit: nat, clock: Time, now: Time)
    requires Inv(b, window, limit, clock) && now >= clock && limit >= 1
    ensures Inv(Attempt(b, key, window, limit, now).0, window, limit, now)
  {
    var (next, ok) := Attempt(b, key, window, limit, now);
    AttemptRecords(b, key, window, limit, clock, now);
    DecisionIsNaive(b, key, window, limit, clock, now);
    hide Recent, InWindow, Agree, SoundLog, SoundRecord;
    forall k ensures Agree(next, k, window, now) {
      assert Agree(b, k, window, clock);
      LaterAgree(b, k, window, clock, now);
      if k == key && (key in b.records || |b.records| < MAXIMUM_KEYS) {
        AttemptAgrees(b, key, window, limit, clock, now);
      } else {
        AgreeDependsOnKey(b, next, k, window, now);
      }
    }
    forall k | k in next.log ensures SoundLog(next.log[k], window, limit, now) {
      LaterLog(Logged(b.log, k), window, limit, clock, now, k in b.log);
      if k == key && ok {
        ChargeKeepsBound(Logged(b.log, key), window, limit, now);
      }
    }
  }

  lemma LaterLog(attempts: seq<Time>, window: Time, limit: nat, clock: Time, now: Time, known: bool)
    requires now >= clock && if known then SoundLog(attempts, window, limit, clock) else attempts == []
    ensures SoundLog(attempts, window, limit, now)
  {
  }

  function SweepBucket(b: Bucket, window: Time, now: Time): Bucket { b.(records := Unexpired(b.records, now - window)) }

  /** Sweeping drops only keys whose every attempt is outside every window from now on: the log is the same, and so is each later decision on it. */
  lemma SweepKeepsInv(b: Bucket, window: Time, limit: nat, clock: Time, now: Time)
    requires Inv(b, window, limit, clock) && now >= clock
    ensures Inv(SweepBucket(b, window, now), window, limit, now)
  {
    var swept := SweepBucket(b, window, now);
    SubsetSize(swept.records.Keys, b.records.Keys);
    forall key | key in swept.records ensures SoundRecord(swept.records[key], limit, now) {
      assert SoundRecord(b.records[key], limit, clock);
    }
    forall key ensures Agree(swept, key, window, now) {
      assert Agree(b, key, window, clock);
      if key in b.records && key !in swept.records {
        assert SoundRecord(b.records[key], limit, clock);
        forall cutoff: Time | cutoff >= now - window ensures Recent(Logged(b.log, key), cutoff) == [] {
          NothingRecent(b.records[key].attempts, cutoff);
        }
      }
    }
    forall key | key in b.log ensures SoundLog(b.log[key], window, limit, now) {
      LaterLog(b.log[key], window, limit, clock, now, true);
    }
  }

  /** A swept key has no charge left in any window that a later attempt looks at. */
  lemma SweptKeysAreStale(b: Bucket, window: Time, limit: nat, clock: Time, now: Time, key: string, later: Time)
    requires Inv(b, window, limit, clock) && clock <= now <= later
    requires key in b.records && key !in SweepBucket(b, window, now).records
    ensures Recent(Logged(b.log, key), later - window) == []
  {
    SweepKeepsInv(b, window, limit, clock, now);
    assert Agree(SweepBucket(b, window, now), key, window, now);
  }

  function ResetBucket(b: Bucket, key: string): Bucket { Bucket(b.records - {key}, b.log - {key}) }

  lemma ResetAgrees(b: Bucket, key: string, window: Time, clock: Time, k: string)
    requires Agree(b, k, window, clock)
    ensures Agree(ResetBucket(b, key), k, window, clock)
  {
    if k != key {
      AgreeDependsOnKey(b, ResetBucket(b, key), k, window, clock);
    }
  }

  lemma ResetSize(b: Bucket, key: string)
    ensures |ResetBucket(b, key).records| <= |b.records|
    ensures forall k :: k in ResetBucket(b, key).records ==> k in b.records && ResetBucket(b, key).records[k] == b.records[k]
    ensures forall k :: k in ResetBucket(b, key).log ==> k in b.log && ResetBucket(b, key).log[k] == b.log[k]
  {
    SubsetSize(ResetBucket(b, key).records.Keys, b.records.Keys);
  }

  lemma ResetKeepsInv(b: Bucket, key: string, window: Time, limit: nat, clock: Time)
    requires Inv(b, window, limit, clock)
    ensures Inv(ResetBucket(b, key), window, limit, clock)
  {
    hide Agree, SoundLog, SoundRecord, ResetBucket;
    var next := ResetBucket(b, key);
    ResetSize(b, key);
    forall k ensures Agree(next, k, window, clock) {
      ResetAgrees(b, key, window, clock, k);
    }
  }

  // ---------- the limiter ----------

  datatype State = State(sources: Bucket, accounts: Bucket, lastSweep: Option<Time>)

  const EMPTY: State := State(Bucket(map[], map[]), Bucket(map[], map[]), None)

  datatype Call = Allow(source: string, account: string, now: Time) | Reset(source: string, account: string)

  function Sweep(s: State, now: Time): State {
    if s.lastSweep.Some? && now - s.lastSweep.value < SWEEP_INTERVAL then s
    else State(SweepBucket(s.sources, SOURCE_WINDOW, now), SweepBucket(s.accounts, ACCOUNT_WINDOW, now), Some(now))
  }

  /** Both buckets are asked, and charged, whatever the other says. */
  function Apply(s: State, call: Call): (State, bool) {
    match call
    case Allow(source, account, now) =>
      var swept := Sweep(s, now);
      var (sources, sourceOk) := Attempt(swept.sources, source, SOURCE_WINDOW, SOURCE_LIMIT, now);
      var (accounts, accountOk) := Attempt(swept.accounts, account, ACCOUNT_WINDOW, ACCOUNT_LIMIT, now);
      (State(sources, accounts, swept.lastSweep), sourceOk && accountOk)
    case Reset(source, account) => (State(ResetBucket(s.sources, source), ResetBucket(s.accounts, account), s.lastSweep), true)
  }

  ghost predicate Sound(s: State, clock: Time) {
    Inv(s.sources, SOURCE_WINDOW, SOURCE_LIMIT, clock) && Inv(s.accounts, ACCOUNT_WINDOW, ACCOUNT_LIMIT, clock)
  }

  function ClockAfter(clock: Time, call: Call): Time { if call.Allow? then call.now else clock }

  lemma SweepKeepsSound(s: State, clock: Time, now: Time)
    requires Sound(s, clock) && now >= clock
    ensures Sound(Sweep(s, now), now)
  {
    if s.lastSweep.Some? && now - s.lastSweep.value < SWEEP_INTERVAL {
      LaterInv(s.sources, SOURCE_WINDOW, SOURCE_LIMIT, clock, now);
      LaterInv(s.accounts, ACCOUNT_WINDOW, ACCOUNT_LIMIT, clock, now);
    } else {
      SweepKeepsInv(s.sources, SOURCE_WINDOW, SOURCE_LIMIT, clock, now);
      SweepKeepsInv(s.accounts, ACCOUNT_WINDOW, ACCOUNT_LIMIT, clock, now);
    }
  }

  lemma LaterInv(b: Bucket, window: Time, limit: nat, clock: Time, now: Time)
    requires Inv(b, window, limit, clock) && now >= clock
    ensures Inv(b, window, limit, now)
  {
    forall key ensures Agree(b, key, window, now) { LaterAgree(b, key, window, clock, now); }
    forall key | key in b.records ensures SoundRecord(b.records[key], limit, now) { assert SoundRecord(b.records[key], limit, clock); }
    forall key | key in b.log ensures SoundLog(b.log[key], window, limit, now) { LaterLog(b.log[key], window, limit, clock, now, true); }
  }

  lemma CallKeepsSound(s: State, call: Call, clock: Time)
    requires Sound(s, clock) && (call.Allow? ==> call.now >= clock)
    ensures Sound(Apply(s, call).0, ClockAfter(clock, call))
  {
    hide Inv, Attempt;
    match call
    case Allow(source, account, now) =>
      SweepKeepsSound(s, clock, now);
      var swept := Sweep(s, now);
      AttemptKeepsInv(swept.sources, source, SOURCE_WINDOW, SOURCE_LIMIT, now, now);
      AttemptKeepsInv(swept.accounts, account, ACCOUNT_WINDOW, ACCOUNT_LIMIT, now, now);
    case Reset(source, account) =>
      ResetKeepsInv(s.sources, source, SOURCE_WINDOW, SOURCE_LIMIT, clock);
      ResetKeepsInv(s.accounts, account, ACCOUNT_WINDOW, ACCOUNT_LIMIT, clock);
  }

  // ---------- every run ----------

  function After(calls: seq<Call>): State { if calls == [] then EMPTY else Apply(After(calls[..|calls| - 1]), calls[|calls| - 1]).0 }

  function ClockOf(calls: seq<Call>, start: Time): Time {
    if calls == [] then start else ClockAfter(ClockOf(calls[..|calls| - 1], start), calls[|calls| - 1])
  }

  /** The clock never goes back. */
  ghost predicate Timely(calls: seq<Call>, start: Time) {
    forall i :: 0 <= i < |calls| && calls[i].Allow? ==> calls[i].now >= ClockOf(calls[..i], start)
  }

  lemma {:induction false} EveryRunIsSound(calls: seq<Call>, start: Time)
    requires Timely(calls, start)
    ensures Sound(After(calls), ClockOf(calls, start))
  {
    if calls != [] {
      var front, last := calls[..|calls| - 1], calls[|calls| - 1];
      TimelyPrefix(calls, start, |calls| - 1);
      assert last.Allow? ==> last.now >= ClockOf(calls[..|calls| - 1], start);
      EveryRunIsSound(front, start);
      hide Sound;
      CallKeepsSound(After(front), last, ClockOf(front, start));
    }
  }

  /** In every run, for every key and every instant, no more attempts are charged in the window ending there than the limit allows, and neither table outgrows its capacity. */
  lemma ChargesAreBounded(calls: seq<Call>, start: Time, key: string, t: Time)
    requires Timely(calls, start)
    ensures var s := After(calls);
            && |InWindow(Logged(s.sources.log, key), SOURCE_WINDOW, t)| <= SOURCE_LIMIT
            && |InWindow(Logged(s.accounts.log, key), ACCOUNT_WINDOW, t)| <= ACCOUNT_LIMIT
            && |s.sources.records| <= MAXIMUM_KEYS && |s.accounts.records| <= MAXIMUM_KEYS
            && |AttemptsOf(s.sources.records, key)| <= SOURCE_LIMIT && |AttemptsOf(s.accounts.records, key)| <= ACCOUNT_LIMIT
  {
    EveryRunIsSound(calls, start);
    var s := After(calls);
    assert key in s.sources.log ==> SoundLog(s.sources.log[key], SOURCE_WINDOW, SOURCE_LIMIT, ClockOf(calls, start));
    assert key in s.accounts.log ==> SoundLog(s.accounts.log[key], ACCOUNT_WINDOW, ACCOUNT_LIMIT, ClockOf(calls, start));
    assert key in s.sources.records ==> SoundRecord(s.sources.records[key], SOURCE_LIMIT, ClockOf(calls, start));
    assert key in s.accounts.records ==> SoundRecord(s.accounts.records[key], ACCOUNT_LIMIT, ClockOf(calls, start));
  }

  /** In every run the answer is that of the two full logs, except that a key the table does not track is refused while the swept table is full. */
  lemma AnswersAreNaive(calls: seq<Call>, start: Time, source: string, account: string, now: Time)
    requires Timely(calls, start) && now >= ClockOf(calls, start)
    ensures var s := After(calls);
            var swept := Sweep(s, now);
            Apply(s, Allow(source, account, now)).1 <==>
              && LogAllows(s.sources.log, source, SOURCE_WINDOW, SOURCE_LIMIT, now)
              && LogAllows(s.accounts.log, account, ACCOUNT_WINDOW, ACCOUNT_LIMIT, now)
              && (source in swept.sources.records || |swept.sources.records| < MAXIMUM_KEYS)
              && (account in swept.accounts.records || |swept.accounts.records| < MAXIMUM_KEYS)
  {
    EveryRunIsSound(calls, start);
    var s := After(calls);
    SweepKeepsSound(s, ClockOf(calls, start), now);
    var swept := Sweep(s, now);
    DecisionIsNaive(swept.sources, source, SOURCE_WINDOW, SOURCE_LIMIT, now, now);
    DecisionIsNaive(swept.accounts, account, ACCOUNT_WINDOW, ACCOUNT_LIMIT, now, now);
  }

  // ---------- stale keys do not linger ----------

  /** Nothing tracked was last seen more than a window before the last sweep, and that was less than a sweep interval ago. */
  ghost predicate Fresh(s: State, clock: Time) {
    match s.lastSweep
    case None => s.sources.records == map[] && s.accounts.records == map[]
    case Some(swept) =>
      && swept <= clock < swept + SWEEP_INTERVAL
      && (forall key :: key in s.sources.records ==> s.sources.records[key].lastSeen >= swept - SOURCE_WINDOW)
      && (forall key :: key in s.accounts.records ==> s.accounts.records[key].lastSeen >= swept - ACCOUNT_WINDOW)
  }

  lemma SweepFreshens(s: State, clock: Time, now: Time)
    requires Fresh(s, clock) && now >= clock
    ensures Fresh(Sweep(s, now), now) && Sweep(s, now).lastSweep.Some?
  {
  }

  /** An attempt stores its own time, whether it is charged or refused, and touches no other key. */
  lemma AttemptTouches(b: Bucket, key: string, window: Time, limit: nat, now: Time)
    ensures var next := Attempt(b, key, window, limit, now).0;
            forall k :: k in next.records ==>
              (k in b.records && next.records[k] == b.records[k]) || (k == key && next.records[k].lastSeen == now)
  {
    hide Recent;
  }

  lemma CallKeepsFresh(s: State, call: Call, clock: Time)
    requires Fresh(s, clock) && (call.Allow? ==> call.now >= clock)
    ensures Fresh(Apply(s, call).0, ClockAfter(clock, call))
  {
    if call.Allow? {
      SweepFreshens(s, clock, call.now);
      hide Sweep, Attempt;
      var swept := Sweep(s, call.now);
      AttemptTouches(swept.sources, call.source, SOURCE_WINDOW, SOURCE_LIMIT, call.now);
      AttemptTouches(swept.accounts, call.account, ACCOUNT_WINDOW, ACCOUNT_LIMIT, call.now);
    }
  }

  lemma {:induction false} EveryRunIsFresh(calls: seq<Call>, start: Time)
    requires Timely(calls, start)
    ensures Fresh(After(calls), ClockOf(calls, start))
  {
    if calls != [] {
      hide Fresh, Apply;
      var n := |calls| - 1;
      TimelyPrefix(calls, start, n);
      EveryRunIsFresh(calls[..n], start);
      CallKeepsFresh(After(calls[..n]), calls[n], ClockOf(calls[..n], start));
    }
  }

  /** In every run, whatever is still tracked was seen within the last window and sweep interval: two minutes for sources, six for accounts. */
  lemma StaleKeysAreSwept(calls: seq<Call>, start: Time, key: string)
    requires Timely(calls, start)
    ensures var s, clock := After(calls), ClockOf(calls, start);
            && (key in s.sources.records ==> clock - s.sources.records[key].lastSeen < 2 * MINUTE)
            && (key in s.accounts.records ==> clock - s.accounts.records[key].lastSeen < 6 * MINUTE)
  {
    EveryRunIsFresh(calls, start);
    hide After, ClockOf;
  }

  // ---------- against a limiter that remembers everything ----------

  /** No tables, no pruning, no sweeping, no capacity: two logs. */
  datatype Naive = Naive(sources: Log, accounts: Log)

  function Charge(log: Log, key: string, window: Time, limit: nat, now: Time): (Log, bool) {
    if LogAllows(log, key, window, limit, now) then (log[key := Logged(log, key) + [now]], true) else (log, false)
  }

  function NaiveApply(n: Naive, call: Call): (Naive, bool) {
    match call
    case Allow(source, account, now) =>
      var (sources, sourceOk) := Charge(n.sources, source, SOURCE_WINDOW, SOURCE_LIMIT, now);
      var (accounts, accountOk) := Charge(n.accounts, account, ACCOUNT_WINDOW, ACCOUNT_LIMIT, now);
      (Naive(sources, accounts), sourceOk && accountOk)
    case Reset(source, account) => (Naive(n.sources - {source}, n.accounts - {account}), true)
  }

  function NaiveAfter(calls: seq<Call>): Naive {
    if calls == [] then Naive(map[], map[]) else NaiveApply(NaiveAfter(calls[..|calls| - 1]), calls[|calls| - 1]).0
  }

  function LogsOf(s: State): Naive { Naive(s.sources.log, s.accounts.log) }

  /** Each table tracks its key, or has room for it once swept. */
  predicate HasRoom(s: State, call: Call) {
    call.Allow? ==>
      var swept := Sweep(s, call.now);
      && (call.source in swept.sources.records || |swept.sources.records| < MAXIMUM_KEYS)
      && (call.account in swept.accounts.records || |swept.accounts.records| < MAXIMUM_KEYS)
  }

  lemma AttemptIsCharge(b: Bucket, key: string, window: Time, limit: nat, clock: Time, now: Time)
    requires Inv(b, window, limit, clock) && now >= clock && (key in b.records || |b.records| < MAXIMUM_KEYS)
    ensures var (next, ok) := Attempt(b, key, window, limit, now);
            (next.log, ok) == Charge(b.log, key, window, limit, now)
  {
    DecisionIsNaive(b, key, window, limit, clock, now);
  }

  lemma CallIsNaive(s: State, call: Call, clock: Time)
    requires Sound(s, clock) && (call.Allow? ==> call.now >= clock) && HasRoom(s, call)
    ensures (LogsOf(Apply(s, call).0), Apply(s, call).1) == NaiveApply(LogsOf(s), call)
  {
    if call.Allow? {
      SweepKeepsSound(s, clock, call.now);
      var swept := Sweep(s, call.now);
      hide Inv, Attempt, Charge;
      AttemptIsCharge(swept.sources, call.source, SOURCE_WINDOW, SOURCE_LIMIT, call.now, call.now);
      AttemptIsCharge(swept.accounts, call.account, ACCOUNT_WINDOW, ACCOUNT_LIMIT, call.now, call.now);
    }
  }

  /** Capacity has refused no key so far. */
  ghost predicate Roomy(calls: seq<Call>) {
    forall i :: 0 <= i < |calls| ==> HasRoom(After(calls[..i]), calls[i])
  }

  lemma RoomyPrefix(calls: seq<Call>, n: nat)
    requires Roomy(calls) && n <= |calls|
    ensures Roomy(calls[..n])
  {
    hide HasRoom, After;
    forall i | 0 <= i < n ensures HasRoom(After(calls[..n][..i]), calls[..n][i]) {
      assert calls[..n][..i] == calls[..i];
    }
  }

  /** As long as capacity never refuses a key, pruning, sweeping and compaction are invisible: the logs are those of the limiter that remembers everything ... */
  lemma {:induction false} RunsRefineTheLog(calls: seq<Call>, start: Time)
    requires Timely(calls, start) && Roomy(calls)
    ensures LogsOf(After(calls)) == NaiveAfter(calls)
  {
    if calls != [] {
      hide Apply, NaiveApply, HasRoom, Sound;
      var n := |calls| - 1;
      TimelyPrefix(calls, start, n);
      RoomyPrefix(calls, n);
      RunsRefineTheLog(calls[..n], start);
      EveryRunIsSound(calls[..n], start);
      assert HasRoom(After(calls[..n]), calls[n]);
      CallIsNaive(After(calls[..n]), calls[n], ClockOf(calls[..n], start));
    }
  }

  /** ... and so is every answer. */
  lemma AnswersRefineTheLog(calls: seq<Call>, start: Time, i: nat)
    requires Timely(calls, start) && Roomy(calls) && i < |calls|
    ensures Apply(After(calls[..i]), calls[i]).1 == NaiveApply(NaiveAfter(calls[..i]), calls[i]).1
  {
    hide Apply, NaiveApply, HasRoom, Sound, After;
    TimelyPrefix(calls, start, i);
    RoomyPrefix(calls, i);
    RunsRefineTheLog(calls[..i], start);
    EveryRunIsSound(calls[..i], start);
    CallIsNaive(After(calls[..i]), calls[i], ClockOf(calls[..i], start));
  }

  function Sources(calls: seq<Call>): set<string> {
    set i | 0 <= i < |calls| && calls[i].Allow? :: calls[i].source
  }

  function Accounts(calls: seq<Call>): set<string> {
    set i | 0 <= i < |calls| && calls[i].Allow? :: calls[i].account
  }

  lemma AttemptTracks(b: Bucket, key: string, window: Time, limit: nat, now: Time)
    ensures Attempt(b, key, window, limit, now).0.records.Keys <= b.records.Keys + {key}
  {
    hide Recent;
  }

  lemma TrackedAfterCall(s: State, call: Call)
    ensures Apply(s, call).0.sources.records.Keys <= s.sources.records.Keys + (if call.Allow? then {call.source} else {})
    ensures Apply(s, call).0.accounts.records.Keys <= s.accounts.records.Keys + (if call.Allow? then {call.account} else {})
  {
    if call.Allow? {
      hide Attempt, Sweep;
      var swept := Sweep(s, call.now);
      SweepOnlyDrops(s, call.now);
      AttemptTracks(swept.sources, call.source, SOURCE_WINDOW, SOURCE_LIMIT, call.now);
      AttemptTracks(swept.accounts, call.account, ACCOUNT_WINDOW, ACCOUNT_LIMIT, call.now);
    }
  }

  lemma CalledKeysGrow(calls: seq<Call>)
    requires calls != []
    ensures var front, last := calls[..|calls| - 1], calls[|calls| - 1];
            && Sources(calls) == Sources(front) + (if last.Allow? then {last.source} else {})
            && Accounts(calls) == Accounts(front) + (if last.Allow? then {last.account} else {})
  {
    var front := calls[..|calls| - 1];
    assert calls == front + [calls[|calls| - 1]];
  }

  /** A table tracks only keys it was asked about. */
  lemma {:induction false} TrackedKeysWereCalled(calls: seq<Call>)
    ensures After(calls).sources.records.Keys <= Sources(calls)
    ensures After(calls).accounts.records.Keys <= Accounts(calls)
  {
    if calls != [] {
      hide Apply;
      var front, last := calls[..|calls| - 1], calls[|calls| - 1];
      TrackedKeysWereCalled(front);
      TrackedAfterCall(After(front), last);
      CalledKeysGrow(calls);
      hide Sources, Accounts;
    }
  }

  lemma RoomAmong(records: Table, key: string, keys: set<string>)
    requires records.Keys <= keys && key in keys && |keys| <= MAXIMUM_KEYS
    ensures key in records || |records| < MAXIMUM_KEYS
  {
    if key !in records {
      SubsetSize(records.Keys + {key}, keys);
      assert |records.Keys + {key}| == |records.Keys| + 1;
    }
  }

  lemma SweepOnlyDrops(s: State, now: Time)
    ensures Sweep(s, now).sources.records.Keys <= s.sources.records.Keys
    ensures Sweep(s, now).accounts.records.Keys <= s.accounts.records.Keys
  {
  }

  /** Calls about no more keys than a table holds are never refused for want of room. */
  lemma FewKeysLeaveRoom(calls: seq<Call>)
    requires |Sources(calls)| <= MAXIMUM_KEYS && |Accounts(calls)| <= MAXIMUM_KEYS
    ensures Roomy(calls)
  {
    hide After, Sweep;
    forall i | 0 <= i < |calls| ensures HasRoom(After(calls[..i]), calls[i]) {
      if calls[i].Allow? {
        TrackedKeysWereCalled(calls[..i]);
        assert Sources(calls[..i]) <= Sources(calls) && Accounts(calls[..i]) <= Accounts(calls);
        SweepOnlyDrops(After(calls[..i]), calls[i].now);
        var swept := Sweep(After(calls[..i]), calls[i].now);
        RoomAmong(swept.sources.records, calls[i].source, Sources(calls));
        RoomAmong(swept.accounts.records, calls[i].account, Accounts(calls));
      }
    }
  }

  /** Whoever calls about at most 4096 sources and 4096 accounts meets the limiter that remembers everything, in every log and every answer. */
  lemma FewKeysRefineTheLog(calls: seq<Call>, start: Time)
    requires Timely(calls, start) && |Sources(calls)| <= MAXIMUM_KEYS && |Accounts(calls)| <= MAXIMUM_KEYS
    ensures LogsOf(After(calls)) == NaiveAfter(calls)
    ensures forall i :: 0 <= i < |calls| ==> Apply(After(calls[..i]), calls[i]).1 == NaiveApply(NaiveAfter(calls[..i]), calls[i]).1
  {
    hide Apply, NaiveApply, After, NaiveAfter, Roomy, Timely, Sources, Accounts;
    FewKeysLeaveRoom(calls);
    RunsRefineTheLog(calls, start);
    forall i | 0 <= i < |calls| ensures Apply(After(calls[..i]), calls[i]).1 == NaiveApply(NaiveAfter(calls[..i]), calls[i]).1 {
      AnswersRefineTheLog(calls, start, i);
    }
  }

  lemma TimelyPrefix(calls: seq<Call>, start: Time, n: nat)
    requires Timely(calls, start) && n <= |calls|
    ensures Timely(calls[..n], start)
  {
    forall i | 0 <= i < n && calls[..n][i].Allow? ensures calls[..n][i].now >= ClockOf(calls[..n][..i], start) {
      assert calls[..n][..i] == calls[..i];
    }
  }

  // ---------- evicting the oldest key ----------

  /** An order in which a map may be walked. */
  ghost predicate OrderOf(order: seq<string>, records: Table) {
    && (forall i :: 0 <= i < |order| ==> order[i] in records)
    && (forall key :: key in records ==> key in order)
    && (forall i, j :: 0 <= i < j < |order| ==> order[i] != order[j])
  }

  /** One walk over the keys, in which the empty string stands for "none yet". */
  function Pick(order: seq<string>, records: Table): (oldest: string)
    requires forall i :: 0 <= i < |order| ==> order[i] in records
    ensures if order == [] then oldest == "" else oldest in records
  {
    if order == [] then ""
    else
      var so, key := Pick(order[..|order| - 1], records), order[|order| - 1];
      if so == "" || records[key].lastSeen < records[so].lastSeen then key else so
  }

  predicate Oldest(key: string, records: Table) {
    key in records && forall k :: k in records ==> records[key].lastSeen <= records[k].lastSeen
  }

  /** The walk is fooled by a table that tracks the empty key, tracks others, and saw all of them later. */
  predicate Foolable(records: Table) {
    "" in records && |records| > 1 && forall k :: k in records && k != "" ==> records[""].lastSeen < records[k].lastSeen
  }

  /** What the walk knows half-way. */
  lemma {:induction false} PickSoFar(order: seq<string>, records: Table)
    requires forall i :: 0 <= i < |order| ==> order[i] in records
    requires forall i, j :: 0 <= i < j < |order| ==> order[i] != order[j]
    ensures var so := Pick(order, records);
            && (order != [] ==> so in order)
            && (so == "" && order != [] ==> forall k :: k in order && k != "" ==> records[""].lastSeen < records[k].lastSeen)
            && (so != "" ==> forall k :: k in order && k != "" ==>
                  records[so].lastSeen <= records[k].lastSeen || ("" in order && records[""].lastSeen < records[k].lastSeen))
  {
    if order != [] {
      var front, key := order[..|order| - 1], order[|order| - 1];
      PickSoFar(front, records);
      var before, so := Pick(front, records), Pick(order, records);
      assert forall k :: k in order <==> k in front || k == key;
      assert key !in front;
      if before != "" && so != "" {
        assert records[so].lastSeen <= records[before].lastSeen;
      }
    }
  }

  lemma {:induction false} StartsWithEmpty(order: seq<string>, records: Table)
    requires forall i :: 0 <= i < |order| ==> order[i] in records
    requires forall i, j :: 0 <= i < j < |order| ==> order[i] != order[j]
    requires |order| > 1 && order[0] == ""
    ensures Pick(order, records) != ""
  {
    if |order| > 2 {
      StartsWithEmpty(order[..|order| - 1], records);
    } else {
      assert order[..1] == [""] && [""][..0] == [];
      assert Pick([""], records) == "";
    }
  }

  lemma {:induction false} SomeOrder(keys: set<string>) returns (order: seq<string>)
    ensures forall key :: key in order <==> key in keys
    ensures forall i, j :: 0 <= i < j < |order| ==> order[i] != order[j]
  {
    order := [];
    if keys != {} {
      var key :| key in keys;
      var rest := SomeOrder(keys - {key});
      order := rest + [key];
    }
  }

  lemma PickFrom(order: seq<string>, records: Table)
    requires OrderOf(order, records) && records != map[] && !Foolable(records)
    ensures Oldest(Pick(order, records), records)
  {
    var witnessKey :| witnessKey in records;
    assert witnessKey in order;
    PickSoFar(order, records);
    var so := Pick(order, records);
    if "" in records && |records| == 1 {
      assert records.Keys - {""} == {} by { assert |records.Keys - {""}| == 0; }
      forall k | k in records ensures k == "" { assert k !in records.Keys - {""}; }
    } else if so != "" && "" in records {
      var k0 :| k0 in records && k0 != "" && records[k0].lastSeen <= records[""].lastSeen;
      assert k0 in order;
    }
  }

  /** Whatever order the map is walked in, the walk ends at an oldest key: exactly when the table cannot fool it. */
  lemma EvictionPicksTheOldest(records: Table)
    requires records != map[]
    ensures (forall order :: OrderOf(order, records) ==> Oldest(Pick(order, records), records)) <==> !Foolable(records)
  {
    if Foolable(records) {
      var order := EmptyFirstOrder(records);
      assert !Oldest(Pick(order, records), records);
    } else {
      forall order | OrderOf(order, records) ensures Oldest(Pick(order, records), records) {
        PickFrom(order, records);
      }
    }
  }

  /** Two keys are enough to fool it: the empty key, walked first, is forgotten although it is the oldest. */
  lemma EmptyKeyIsForgotten()
    ensures var records, order := map["" := Record([], 1), "a" := Record([], 2)], ["", "a"];
            Foolable(records) && OrderOf(order, records) && Pick(order, records) == "a" && !Oldest("a", records)
  {
    var records: Table, order := map["" := Record([], 1), "a" := Record([], 2)], ["", "a"];
    assert records.Keys == {"", "a"} && order[..1] == [""] && [""][..0] == [];
    assert Pick([""], records) == "";
  }

  // ---------- evicting down to the capacity ----------

  /** The keys other than the empty one that were seen no later than it. */
  function NotAfterEmpty(records: Table): set<string>
    requires "" in records
  {
    set k | k in records && k != "" && records[k].lastSeen <= records[""].lastSeen
  }

  /** What evictOldest may leave, for some walk at every turn. */
  ghost predicate EvictsTo(records: Table, kept: Table)
    decreases |records|
  {
    if |records| <= MAXIMUM_KEYS then kept == records
    else exists order :: OrderOf(order, records) && EvictsAfter(records, order, kept)
  }

  ghost predicate EvictsAfter(records: Table, order: seq<string>, kept: Table)
    requires OrderOf(order, records) && |records| > MAXIMUM_KEYS
    decreases |records|, 0
  {
    WalkPicksKey(order, records);
    EvictsTo(records - {Pick(order, records)}, kept)
  }

  lemma WalkPicksKey(order: seq<string>, records: Table)
    requires OrderOf(order, records) && records != map[]
    ensures Pick(order, records) in records && |records - {Pick(order, records)}| == |records| - 1
  {
    var some :| some in records;
    assert some in order;
    var oldest := Pick(order, records);
    assert (records - {oldest}).Keys == records.Keys - {oldest};
    assert |(records - {oldest}).Keys| == |records.Keys| - 1;
  }

  /** Everything dropped is at least as old as everything kept. */
  ghost predicate KeepsTheYoungest(records: Table, kept: Table) {
    forall dropped, key :: dropped in records && dropped !in kept && key in kept && key in records ==>
      records[dropped].lastSeen <= records[key].lastSeen
  }

  /** Nothing to drop, no empty key, or as many others seen no later than it as there are keys to drop. */
  predicate EvictsFairly(records: Table) {
    |records| <= MAXIMUM_KEYS || "" !in records || |NotAfterEmpty(records)| >= |records| - MAXIMUM_KEYS
  }

  /** One turn of a fair eviction drops an oldest key and leaves a table that evicts fairly. */
  lemma FairTurn(records: Table, order: seq<string>)
    requires EvictsFairly(records) && |records| > MAXIMUM_KEYS && OrderOf(order, records)
    ensures Oldest(Pick(order, records), records) && EvictsFairly(records - {Pick(order, records)})
  {
    hide Pick;
    WalkPicksKey(order, records);
    var oldest := Pick(order, records);
    var rest := records - {oldest};
    if "" in records {
      var others := NotAfterEmpty(records);
      var k :| k in others;
      PickFrom(order, records);
      SparesEmpty(order, records, k);
      assert oldest in others;
      assert NotAfterEmpty(rest) == others - {oldest};
      assert |others - {oldest}| == |others| - 1;
    } else {
      PickFrom(order, records);
    }
  }

  lemma SparesEmpty(order: seq<string>, records: Table, k: string)
    requires OrderOf(order, records) && "" in records && k in NotAfterEmpty(records)
    ensures Pick(order, records) != ""
  {
    assert k in order;
    PickSoFar(order, records);
  }

  lemma {:induction false} EvictionOnlyDrops(records: Table, kept: Table)
    requires EvictsTo(records, kept)
    ensures kept.Keys <= records.Keys && forall k :: k in kept ==> kept[k] == records[k]
    decreases |records|
  {
    if |records| > MAXIMUM_KEYS {
      hide Pick;
      var order :| OrderOf(order, records) && EvictsAfter(records, order, kept);
      WalkPicksKey(order, records);
      EvictionOnlyDrops(records - {Pick(order, records)}, kept);
    }
  }

  lemma KeepsOneMore(records: Table, oldest: string, kept: Table)
    requires Oldest(oldest, records) && kept.Keys <= (records - {oldest}).Keys && KeepsTheYoungest(records - {oldest}, kept)
    ensures KeepsTheYoungest(records, kept)
  {
  }

  lemma {:induction false} FairEvictionKeepsTheYoungest(records: Table, kept: Table)
    requires EvictsFairly(records) && EvictsTo(records, kept)
    ensures KeepsTheYoungest(records, kept)
    decreases |records|
  {
    if |records| > MAXIMUM_KEYS {
      hide Pick, EvictsFairly, KeepsTheYoungest, Oldest;
      var order :| OrderOf(order, records) && EvictsAfter(records, order, kept);
      WalkPicksKey(order, records);
      FairTurn(records, order);
      var oldest := Pick(order, records);
      FairEvictionKeepsTheYoungest(records - {oldest}, kept);
      EvictionOnlyDrops(records - {oldest}, kept);
      KeepsOneMore(records, oldest, kept);
    } else {
      assert kept == records;
    }
  }

  /** Walks that begin with the empty key never drop it, and leave it in the end. */
  lemma {:induction false} EmptyFirst(records: Table) returns (kept: Table)
    requires "" in records
    ensures EvictsTo(records, kept) && "" in kept && (|records| > MAXIMUM_KEYS ==> |kept| == MAXIMUM_KEYS)
    decreases |records|
  {
    if |records| <= MAXIMUM_KEYS {
      kept := records;
    } else {
      var order := EmptyFirstOrder(records);
      hide Pick;
      WalkPicksKey(order, records);
      kept := EmptyFirst(records - {Pick(order, records)});
      assert EvictsAfter(records, order, kept);
    }
  }

  lemma EmptyFirstOrder(records: Table) returns (order: seq<string>)
    requires "" in records && |records| > 1
    ensures OrderOf(order, records) && Pick(order, records) != ""
  {
    var others := SomeOrder(records.Keys - {""});
    order := [""] + others;
    forall i | 0 <= i < |order| ensures order[i] in records { assert i > 0 ==> order[i] in others; }
    forall j | 0 < j < |order| ensures order[j] != "" { assert order[j] in others; }
    forall key | key in records ensures key in order { assert key == "" || key in others; }
    assert |records.Keys - {""}| == |records.Keys| - 1;
    StartsWithEmpty(order, records);
  }

  /** The eviction loop keeps the youngest keys, whatever orders the maps are walked in, exactly when the table evicts fairly. */
  lemma EvictionKeepsTheYoungestIff(records: Table)
    ensures (forall kept :: EvictsTo(records, kept) ==> KeepsTheYoungest(records, kept)) <==> EvictsFairly(records)
  {
    hide EvictsTo, KeepsTheYoungest;
    if EvictsFairly(records) {
      forall kept | EvictsTo(records, kept) ensures KeepsTheYoungest(records, kept) {
        FairEvictionKeepsTheYoungest(records, kept);
      }
    } else {
      var kept := EmptyFirst(records);
      EvictionOnlyDrops(records, kept);
      UnfairlyDropped(records, kept);
    }
  }

  /** Too few others were seen as early as the empty key, so some younger key was dropped while it was kept. */
  lemma UnfairlyDropped(records: Table, kept: Table)
    requires !EvictsFairly(records) && kept.Keys <= records.Keys && |kept| == MAXIMUM_KEYS && "" in kept
    ensures !KeepsTheYoungest(records, kept)
  {
    var dropped := records.Keys - kept.Keys;
    assert records.Keys == kept.Keys + dropped;
    assert |dropped| == |records.Keys| - |kept.Keys|;
    if dropped <= NotAfterEmpty(records) {
      SubsetSize(dropped, NotAfterEmpty(records));
    } else {
      var k :| k in dropped && k !in NotAfterEmpty(records);
      assert records[k].lastSeen > records[""].lastSeen;
    }
  }

  // ---------- the code ----------

  /** Filter a slice into its own front: the write position never passes the read position. */
  method CompactInPlace(attempts: array<Time>, length: nat, cutoff: Time) returns (kept: nat)
    requires length <= attempts.Length
    modifies attempts
    ensures kept <= length && attempts[..kept] == Recent(old(attempts[..length]), cutoff)
    ensures attempts[length..] == old(attempts[length..])
  {
    kept := 0;
    ghost var was := attempts[..];
    for i := 0 to length
      invariant kept <= i && attempts[..kept] == Recent(was[..i], cutoff)
      invariant forall j :: i <= j < attempts.Length ==> attempts[j] == was[j]
    {
      assert was[..i + 1][..i] == was[..i];
      if attempts[i] > cutoff {
        attempts[kept] := attempts[i];
        kept := kept + 1;
      }
    }
    assert was[..length] == old(attempts[..length]);
  }

  class AttemptTable {
    var records: Table

    constructor ()
      ensures records == map[]
    {
      records := map[];
    }

    method AllowAttempt(key: string, window: Time, limit: nat, now: Time) returns (ok: bool)
      modifies this
      ensures (records, ok) == Admit(old(records), key, window, limit, now)
      ensures key !in old(records) && |old(records)| >= 4096 ==> !ok && records == old(records)
      ensures key in old(records) || |old(records)| < 4096 ==>
                && key in records && records[key].lastSeen == now && records - {key} == old(records) - {key}
                && (ok <==> |Recent(AttemptsOf(old(records), key), now - window)| < limit)
                && records[key].attempts == Recent(AttemptsOf(old(records), key), now - window) + (if ok then [now] else [])
    {
      hide Recent;
      if key !in records && |records| >= MAXIMUM_KEYS {
        return false;
      }
      var stored := if key in records then records[key].attempts else [];
      var slice := new Time[|stored|](i requires 0 <= i < |stored| => stored[i]);
      assert slice[..|stored|] == stored;
      var kept := CompactInPlace(slice, |stored|, now - window);
      var recent := slice[..kept];
      ok := kept < limit;
      records := records[key := Record(if ok then recent + [now] else recent, now)];
    }

    method Reset(key: string)
      modifies this
      ensures records == old(records) - {key}
    {
      records := records - {key};
    }

    method RemoveExpired(cutoff: Time)
      modifies this
      ensures records == Unexpired(old(records), cutoff)
      ensures forall key :: key in records <==> key in old(records) && old(records)[key].lastSeen >= cutoff
      ensures forall key :: key in records ==> records[key] == old(records)[key]
    {
      var rest := records.Keys;
      ghost var was := records;
      while rest != {}
        invariant rest <= was.Keys && records.Keys <= was.Keys
        invariant forall key :: key in records <==> key in was && (key in rest || was[key].lastSeen >= cutoff)
        invariant forall key :: key in records ==> records[key] == was[key]
        decreases rest
      {
        var key :| key in rest;
        rest := rest - {key};
        if records[key].lastSeen < cutoff {
          records := records - {key};
        }
      }
    }

    /** The walk, in an order the runtime picks. */
    method PickOldest() returns (oldestKey: string)
      ensures exists order :: OrderOf(order, records) && oldestKey == Pick(order, records)
    {
      oldestKey := "";
      var oldestTime: Time := 0;
      var rest := records.Keys;
      ghost var order: seq<string> := [];
      while rest != {}
        invariant rest <= records.Keys
        invariant forall key :: key in order <==> key in records && key !in rest
        invariant forall i :: 0 <= i < |order| ==> order[i] in records
        invariant forall i, j :: 0 <= i < j < |order| ==> order[i] != order[j]
        invariant oldestKey == Pick(order, records)
        invariant oldestKey != "" ==> oldestTime == records[oldestKey].lastSeen
        decreases rest
      {
        var key :| key in rest;
        assert (order + [key])[..|order|] == order;
        order := order + [key];
        if oldestKey == "" || records[key].lastSeen < oldestTime {
          oldestKey := key;
          oldestTime := records[key].lastSeen;
        }
        rest := rest - {key};
      }
      assert OrderOf(order, records);
    }

    /** From any table the loop ends, with what some walks leave; so it keeps the youngest keys of a table that evicts fairly. */
    method EvictOldest()
      modifies this
      ensures EvictsTo(old(records), records)
      ensures |old(records)| <= MAXIMUM_KEYS ==> records == old(records)
      ensures |old(records)| > MAXIMUM_KEYS ==> |records| == MAXIMUM_KEYS
      ensures records.Keys <= old(records).Keys && forall key :: key in records ==> records[key] == old(records)[key]
      ensures EvictsFairly(old(records)) ==> KeepsTheYoungest(old(records), records)
    {
      hide Pick, EvictsFairly, KeepsTheYoungest;
      ghost var was := records;
      while |records| > MAXIMUM_KEYS
        invariant |records| < |was| ==> |records| >= MAXIMUM_KEYS
        invariant |records| >= |was| ==> records == was
        invariant forall kept :: EvictsTo(records, kept) ==> EvictsTo(was, kept)
        decreases |records|
      {
        var oldestKey := PickOldest();
        ghost var order :| OrderOf(order, records) && oldestKey == Pick(order, records);
        WalkPicksKey(order, records);
        forall kept | EvictsTo(records - {oldestKey}, kept) ensures EvictsTo(was, kept) {
          assert EvictsAfter(records, order, kept);
        }
        records := records - {oldestKey};
      }
      EvictionOnlyDrops(was, records);
      if EvictsFairly(was) {
        FairEvictionKeepsTheYoungest(was, records);
      }
    }
  }

  class LoginLimiter {
    const sources: AttemptTable
    const accounts: AttemptTable
    var lastSweep: Option<Time>
    const accountKey: string -> string
    ghost var sourceLog: Log
    ghost var accountLog: Log
    ghost var clock: Time

    ghost function View(): State
      reads this, sources, accounts
    {
      State(Bucket(sources.records, sourceLog), Bucket(accounts.records, accountLog), lastSweep)
    }

    ghost predicate Valid()
      reads this, sources, accounts
    {
      sources != accounts && Sound(View(), clock)
    }

    constructor (accountKey: string -> string, start: Time)
      ensures Valid() && View() == EMPTY && clock == start && this.accountKey == accountKey
      ensures fresh(sources) && fresh(accounts)
    {
      sources := new AttemptTable();
      accounts := new AttemptTable();
      lastSweep := None;
      this.accountKey := accountKey;
      sourceLog, accountLog, clock := map[], map[], start;
      new;
      EveryRunIsSound([], start);
    }

    method SweepTables(now: Time)
      requires Valid() && now >= clock
      modifies this, sources, accounts
      ensures Valid() && clock == now && View() == Sweep(old(View()), now)
    {
      SweepKeepsSound(View(), clock, now);
      clock := now;
      if lastSweep.Some? && now - lastSweep.value < SWEEP_INTERVAL {
        return;
      }
      sources.RemoveExpired(now - SOURCE_WINDOW);
      accounts.RemoveExpired(now - ACCOUNT_WINDOW);
      label Pruned:
      assert Sound(State(Bucket(sources.records, sourceLog), Bucket(accounts.records, accountLog), Some(now)), now);
      sources.EvictOldest();
      accounts.EvictOldest();
      lastSweep := Some(now);
    }

    method Allow(source: string, username: string, now: Time) returns (ok: bool)
      requires Valid() && now >= clock
      modifies this, sources, accounts
      ensures Valid() && clock == now
      ensures (View(), ok) == Apply(old(View()), Call.Allow(source, accountKey(username), now))
    {
      hide Sound;
      ghost var was, before := View(), clock;
      SweepTables(now);
      var sourceAllowed := sources.AllowAttempt(source, SOURCE_WINDOW, SOURCE_LIMIT, now);
      var accountAllowed := accounts.AllowAttempt(accountKey(username), ACCOUNT_WINDOW, ACCOUNT_LIMIT, now);
      if sourceAllowed {
        sourceLog := sourceLog[source := Logged(sourceLog, source) + [now]];
      }
      if accountAllowed {
        accountLog := accountLog[accountKey(username) := Logged(accountLog, accountKey(username)) + [now]];
      }
      ok := sourceAllowed && accountAllowed;
      CallKeepsSound(was, Call.Allow(source, accountKey(username), now), before);
    }

    method Reset(source: string, username: string)
      requires Valid()
      modifies this, sources, accounts
      ensures Valid() && clock == old(clock)
      ensures View() == Apply(old(View()), Call.Reset(source, accountKey(username))).0
    {
      hide Sound;
      CallKeepsSound(View(), Call.Reset(source, accountKey(username)), clock);
      sources.Reset(source);
      accounts.Reset(accountKey(username));
      sourceLog := sourceLog - {source};
      accountLog := accountLog - {accountKey(username)};
    }
  }
}
