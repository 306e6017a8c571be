/** The login rate limiter: failed attempts per key, within a sliding window. */
module RateLimiter {
  type Key = string
  type Attempts = map<Key, seq<int>>

  function Entries(a: Attempts, key: Key): seq<int> {
    if key in a then a[key] else []
  }

  /** The attempts left after dropping, from the front, those before the cutoff. */
  function Pruned(times: seq<int>, cutoff: int): seq<int> {
    if times != [] && times[0] < cutoff then Pruned(times[1..], cutoff) else times
  }

  datatype Config = Config(window: int, max: int)

  /** NewLoginRateLimiter's defaults: five minutes, ten attempts. Times are in nanoseconds. */
  function Configure(window: int, max: int): (c: Config)
    ensures c.window > 0 && c.max > 0
  {
    Config(if window <= 0 then 300_000_000_000 else window, if max <= 0 then 10 else max)
  }

  datatype Call =
    | RecordFailure(key: Key, now: int)
    | IsBlocked(key: Key, now: int)
    | Reset(key: Key, now: int)
    | Cleanup(now: int)

  function CleanedUp(a: Attempts, cutoff: int): Attempts {
    map key | key in a && Pruned(a[key], cutoff) != [] :: Pruned(a[key], cutoff)
  }

  /** The attempts after a call. */
  function After(c: Config, a: Attempts, call: Call): Attempts {
    match call
    case RecordFailure(key, now) => a[key := Pruned(Entries(a, key), now - c.window) + [now]]
    case IsBlocked(key, now) => a[key := Pruned(Entries(a, key), now - c.window)]
    case Reset(key, _) => a - {key}
    case Cleanup(now) => CleanedUp(a, now - c.window)
  }

  class LoginRateLimiter {
    const cfg: Config
    var attempts: Attempts

    constructor (window: int, maxAttempts: int)
      ensures cfg.window == (if window <= 0 then 300_000_000_000 else window)
      ensures cfg.max == (if maxAttempts <= 0 then 10 else maxAttempts) && attempts == map[]
    {
      cfg, attempts := Configure(window, maxAttempts), map[];
    }

    /** pruneLockedUnsafe. */
    method Prune(key: Key, now: int) returns (recent: seq<int>)
      ensures recent == Pruned(Entries(attempts, key), now - cfg.window)
    {
      var entries := if key in attempts then attempts[key] else [];
      var cutoff := now - cfg.window;
      var start := 0;
      assert entries[0..] == entries;
      while start < |entries| && entries[start] < cutoff
        invariant 0 <= start <= |entries|
        invariant Pruned(entries[start..], cutoff) == Pruned(entries, cutoff)
      {
        assert entries[start..][1..] == entries[start + 1..];
        start := start + 1;
      }
      recent := if start == 0 then entries else entries[start..];
    }

    method RecordFailure(key: Key, now: int)
      modifies this
      ensures attempts == After(cfg, old(attempts), Call.RecordFailure(key, now))
    {
      var recent := Prune(key, now);
      attempts := attempts[key := recent + [now]];
    }

    method IsBlocked(key: Key, now: int) returns (blocked: bool)
      modifies this
      ensures attempts == After(cfg, old(attempts), Call.IsBlocked(key, now))
      ensures blocked <==> |Entries(attempts, key)| >= cfg.max
    {
      var recent := Prune(key, now);
      attempts := attempts[key := recent];
      blocked := |recent| >= cfg.max;
    }

    method Reset(key: Key, now: int)
      modifies this
      ensures attempts == After(cfg, old(attempts), Call.Reset(key, now))
    {
      attempts := attempts - {key};
    }

    method Cleanup(now: int)
      modifies this
      ensures attempts == After(cfg, old(attempts), Call.Cleanup(now))
    {
      hide Pruned;
      var left := attempts.Keys;
      ghost var before, cutoff := attempts, now - cfg.window;
      while left != {}
        invariant left <= before.Keys && left <= attempts.Keys <= before.Keys
        invariant forall k :: k in left ==> attempts[k] == before[k]
        invariant forall k :: k in before && k !in left ==> (k in attempts <==> Pruned(before[k], cutoff) != [])
        invariant forall k :: k in attempts && k !in left ==> attempts[k] == Pruned(before[k], cutoff)
        decreases left
      {
        var key :| key in left;
        left := left - {key};
        var recent := Prune(key, now);
        if |recent| == 0 {
          attempts := attempts - {key};
        } else {
          attempts := attempts[key := recent];
        }
      }
    }
  }

  // ---------------------------------------------------------------- runs

  function Run(c: Config, calls: seq<Call>): Attempts {
    if calls == [] then map[] else After(c, Run(c, calls[..|calls| - 1]), calls[|calls| - 1])
  }

  /** The answer to a call of IsBlocked that comes after `calls`. */
  predicate Answer(c: Config, calls: seq<Call>, key: Key, now: int) {
    |Pruned(Entries(Run(c, calls), key), now - c.window)| >= c.max
  }

  /** A clock that never goes back. */
  predicate Ordered(calls: seq<Call>) {
    forall i, j :: 0 <= i < j < |calls| ==> calls[i].now <= calls[j].now
  }

  // ---------------------------------------------------------------- the naive limiter

  /** The failures of a key since its last reset, in order; other calls do not matter. */
  function Failures(calls: seq<Call>, key: Key): seq<int> {
    if calls == [] then []
    else
      var before, call := Failures(calls[..|calls| - 1], key), calls[|calls| - 1];
      if call.RecordFailure? && call.key == key then before + [call.now]
      else if call.Reset? && call.key == key then []
      else before
  }

  function CountSince(times: seq<int>, cutoff: int): nat {
    if times == [] then 0
    else CountSince(times[..|times| - 1], cutoff) + (if times[|times| - 1] >= cutoff then 1 else 0)
  }

  predicate Blocked(c: Config, calls: seq<Call>, key: Key, now: int) {
    CountSince(Failures(calls, key), now - c.window) >= c.max
  }

  predicate Sorted(times: seq<int>) {
    forall i, j :: 0 <= i < j < |times| ==> times[i] <= times[j]
  }

  /** Pruning a sorted list from the front counts what filtering all of it would. */
  lemma {:induction false} PrefixPruningIsFiltering(times: seq<int>, cutoff: int)
    requires Sorted(times)
    ensures |Pruned(times, cutoff)| == CountSince(times, cutoff)
    decreases |times|
  {
    if times != [] {
      if times[0] < cutoff {
        PrefixPruningIsFiltering(times[1..], cutoff);
        CountSinceFirst(times, cutoff);
      } else {
        CountAll(times, cutoff);
      }
    }
  }

  lemma {:induction false} CountSinceFirst(times: seq<int>, cutoff: int)
    requires times != []
    ensures CountSince(times, cutoff) == (if times[0] >= cutoff then 1 else 0) + CountSince(times[1..], cutoff)
    decreases |times|
  {
    var n := |times| - 1;
    if n > 0 {
      CountSinceFirst(times[..n], cutoff);
      assert times[..n][1..] == times[1..][..n - 1];
      assert times[1..][n - 1] == times[n];
    }
  }

  lemma {:induction false} CountAll(times: seq<int>, cutoff: int)
    requires forall i :: 0 <= i < |times| ==> times[i] >= cutoff
    ensures CountSince(times, cutoff) == |times|
    decreases |times|
  {
    if times != [] {
      CountAll(times[..|times| - 1], cutoff);
    }
  }

  /** Pruning again with a later cutoff is pruning with the later cutoff. */
  lemma {:induction false} PrunedTwice(times: seq<int>, early: int, late: int)
    requires early <= late
    ensures Pruned(Pruned(times, early), late) == Pruned(times, late)
    decreases |times|
  {
    if times != [] && times[0] < early {
      PrunedTwice(times[1..], early, late);
    }
  }

  lemma {:induction false} PrunedSnoc(times: seq<int>, t: int, cutoff: int)
    requires Sorted(times + [t])
    ensures Pruned(Pruned(times, cutoff) + [t], cutoff) == Pruned(times + [t], cutoff)
    decreases |times|
  {
    if times != [] && times[0] < cutoff {
      assert (times + [t])[1..] == times[1..] + [t];
      forall i, j | 0 <= i < j < |times[1..] + [t]|
        ensures (times[1..] + [t])[i] <= (times[1..] + [t])[j]
      {
        assert (times + [t])[i + 1] <= (times + [t])[j + 1];
      }
      PrunedSnoc(times[1..], t, cutoff);
    }
  }

  lemma {:induction false} FailuresSorted(calls: seq<Call>, key: Key)
    requires Ordered(calls)
    ensures Sorted(Failures(calls, key))
    ensures calls != [] ==> forall t :: t in Failures(calls, key) ==> t <= calls[|calls| - 1].now
    decreases |calls|
  {
    if calls != [] {
      var n := |calls| - 1;
      FailuresSorted(calls[..n], key);
      var before := Failures(calls[..n], key);
      forall t | t in before
        ensures t <= calls[n].now
      {
        assert n > 0 && calls[n - 1].now <= calls[n].now;
      }
      forall i | 0 <= i < |before|
        ensures before[i] <= calls[n].now
      {
        assert before[i] in before;
      }
    }
  }

  /** What is kept for a key differs from all its failures only by some that have fallen out of the window. */
  lemma {:induction false} KeptIsEnough(c: Config, calls: seq<Call>, key: Key, now: int)
    requires Ordered(calls) && (calls != [] ==> calls[|calls| - 1].now <= now)
    ensures Pruned(Entries(Run(c, calls), key), now - c.window) == Pruned(Failures(calls, key), now - c.window)
    decreases |calls|
  {
    hide Ordered, Sorted, After, Failures, Pruned;
    if calls == [] {
      NothingYet(c, key);
    } else {
      var n := |calls| - 1;
      var call, past := calls[n], calls[..n];
      OrderedPrefix(calls);
      var e, f := Entries(Run(c, past), key), Failures(past, key);
      var cut, late := call.now - c.window, now - c.window;
      KeptIsEnough(c, past, key, call.now);
      KeptIsEnough(c, past, key, now);
      PrunedTwice(e, cut, late);
      AfterEntries(c, Run(c, past), call, key);
      assert calls == past + [call];
      FailuresSnoc(past, call, key);
      if call.RecordFailure? && call.key == key {
        FailuresSorted(calls, key);
        PrunedSnoc(f, call.now, cut);
        PrunedTwice(f + [call.now], cut, late);
        PrunedTwice(Pruned(e, cut) + [call.now], cut, late);
      }
    }
  }

  lemma NothingYet(c: Config, key: Key)
    ensures Entries(Run(c, []), key) == [] && Failures([], key) == []
  {
  }

  lemma FailuresSnoc(past: seq<Call>, call: Call, key: Key)
    ensures Failures(past + [call], key)
            == if call.RecordFailure? && call.key == key then Failures(past, key) + [call.now]
               else if call.Reset? && call.key == key then []
               else Failures(past, key)
  {
    assert (past + [call])[..|past|] == past;
  }

  /** A call's effect on one key. */
  lemma AfterEntries(c: Config, a: Attempts, call: Call, key: Key)
    ensures var e, kept := Entries(a, key), Pruned(Entries(a, key), call.now - c.window);
            Entries(After(c, a, call), key)
            == if call.Cleanup? || (call.IsBlocked? && call.key == key) then kept
               else if call.RecordFailure? && call.key == key then kept + [call.now]
               else if call.Reset? && call.key == key then []
               else e
  {
  }

  lemma OrderedPrefix(calls: seq<Call>)
    requires Ordered(calls) && calls != []
    ensures Ordered(calls[..|calls| - 1])
    ensures |calls| > 1 ==> calls[|calls| - 2].now <= calls[|calls| - 1].now
  {
  }

  /**
   Main result: on a clock that never goes back, IsBlocked says yes exactly when at
   least `max` failures since the key's last reset lie within the window.
   */
  lemma LimiterIsNaive(c: Config, calls: seq<Call>, key: Key, now: int)
    requires Ordered(calls) && (calls != [] ==> calls[|calls| - 1].now <= now)
    ensures Answer(c, calls, key, now) <==> Blocked(c, calls, key, now)
  {
    KeptIsEnough(c, calls, key, now);
    FailuresSorted(calls, key);
    PrefixPruningIsFiltering(Failures(calls, key), now - c.window);
  }

  /** Calls that record or reset nothing leave the failures alone, wherever they come. */
  lemma {:induction false} OthersDoNotMatter(a: seq<Call>, call: Call, b: seq<Call>, key: Key)
    requires call.Cleanup? || call.IsBlocked?
    ensures Failures(a + [call] + b, key) == Failures(a + b, key)
    decreases |b|
  {
    if b == [] {
      assert (a + [call] + b)[..|a|] == a && a + b == a;
    } else {
      var n := |b| - 1;
      OthersDoNotMatter(a, call, b[..n], key);
      assert (a + [call] + b)[..|a| + 1 + n] == a + [call] + b[..n];
      assert (a + b)[..|a| + n] == a + b[..n];
    }
  }

  /** Cleaning up, or asking, at any moment changes no later answer. */
  lemma CleanupIsInvisible(c: Config, a: seq<Call>, call: Call, b: seq<Call>, key: Key, now: int)
    requires call.Cleanup? || call.IsBlocked?
    requires var calls := a + [call] + b; Ordered(calls) && calls[|calls| - 1].now <= now
    ensures Answer(c, a + [call] + b, key, now) <==> Answer(c, a + b, key, now)
  {
    var with, without := a + [call] + b, a + b;
    forall i, j | 0 <= i < j < |without|
      ensures without[i].now <= without[j].now
    {
      var i', j' := if i < |a| then i else i + 1, if j < |a| then j else j + 1;
      assert with[i'] == without[i] && with[j'] == without[j];
    }
    if without != [] {
      var k := if b == [] then |a| - 1 else |with| - 1;
      assert with[k] == without[|without| - 1] && with[k].now <= with[|with| - 1].now;
    }
    LimiterIsNaive(c, with, key, now);
    LimiterIsNaive(c, without, key, now);
    OthersDoNotMatter(a, call, b, key);
  }
}
