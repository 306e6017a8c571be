/** The connector's launch tracker: each launch key may be started once, until it fails or grows old. */
module LaunchTracker {
  type Key = string

  datatype Entry = Entry(startedAt: int, inProgress: bool, completed: bool)

  type Entries = map<Key, Entry>

  /** newLaunchTracker's default: ten minutes, in nanoseconds. */
  function Ttl(ttl: int): (t: int)
    ensures t > 0
  {
    if ttl <= 0 then 600_000_000_000 else ttl
  }

  datatype Call = TryStart(key: Key, now: int) | FinishSuccess(key: Key, now: int) | FinishFailure(key: Key, now: int)

  function Pruned(ttl: int, entries: Entries, now: int): Entries {
    map key | key in entries && now - entries[key].startedAt <= ttl :: entries[key]
  }

  /** Would TryStart succeed? */
  predicate Starts(ttl: int, entries: Entries, key: Key, now: int) {
    var live := Pruned(ttl, entries, now);
    !(key in live && (live[key].inProgress || live[key].completed))
  }

  function After(ttl: int, entries: Entries, call: Call): Entries {
    match call
    case TryStart(key, now) =>
      var live := Pruned(ttl, entries, now);
      if Starts(ttl, entries, key, now) then live[key := Entry(now, true, false)] else live
    case FinishSuccess(key, now) => if key in entries then entries[key := Entry(now, false, true)] else entries
    case FinishFailure(key, _) => entries - {key}
  }

  class Tracker {
    const ttl: int
    var entries: Entries

    constructor (ttl: int)
      ensures this.ttl == (if ttl <= 0 then 600_000_000_000 else ttl) && entries == map[]
    {
      this.ttl, entries := Ttl(ttl), map[];
    }

    /** pruneLocked. */
    method Prune(now: int)
      modifies this
      ensures entries == Pruned(ttl, old(entries), now)
    {
      var left := entries.Keys;
      ghost var before := entries;
      while left != {}
        invariant left <= before.Keys && left <= entries.Keys <= before.Keys
        invariant forall k :: k in entries ==> entries[k] == before[k]
        invariant forall k :: k in before && k !in left ==> (k in entries <==> now - before[k].startedAt <= ttl)
        decreases left
      {
        var key :| key in left;
        left := left - {key};
        if now - entries[key].startedAt > ttl {
          entries := entries - {key};
        }
      }
    }

    method TryStart(key: Key, now: int) returns (started: bool)
      modifies this
      ensures started <==> Starts(ttl, old(entries), key, now)
      ensures entries == After(ttl, old(entries), Call.TryStart(key, now))
    {
      Prune(now);
      if key in entries {
        var existing := entries[key];
        if existing.inProgress || existing.completed {
          return false;
        }
      }
      entries := entries[key := Entry(now, true, false)];
      started := true;
    }

    method FinishSuccess(key: Key, now: int)
      modifies this
      ensures entries == After(ttl, old(entries), Call.FinishSuccess(key, now))
    {
      if key !in entries {
        return;
      }
      var entry := entries[key];
      entry := entry.(startedAt := now);
      entry := entry.(inProgress := false);
      entry := entry.(completed := true);
      entries := entries[key := entry];
    }

    method FinishFailure(key: Key, now: int)
      modifies this
      ensures entries == After(ttl, old(entries), Call.FinishFailure(key, now))
    {
      entries := entries - {key};
    }
  }

  // ---------------------------------------------------------------- runs

  function Run(ttl: int, calls: seq<Call>): Entries {
    if calls == [] then map[] else After(ttl, Run(ttl, calls[..|calls| - 1]), calls[|calls| - 1])
  }

  /** Call i is a TryStart of this key that succeeds. */
  predicate StartedAt(ttl: int, calls: seq<Call>, i: nat, key: Key)
    requires i < |calls|
  {
    calls[i].TryStart? && calls[i].key == key && Starts(ttl, Run(ttl, calls[..i]), key, calls[i].now)
  }

  /** Times that never go back. TryStart takes its time before the lock, so a good clock alone does not give this. */
  predicate Ordered(calls: seq<Call>) {
    forall i, j :: 0 <= i < j < |calls| ==> calls[i].now <= calls[j].now
  }

  /** Between calls i and n the key was reported failed. */
  ghost predicate FailedBetween(calls: seq<Call>, i: nat, n: nat, key: Key)
    requires n <= |calls|
  {
    exists m :: i < m < n && calls[m] == FinishFailure(key, calls[m].now)
  }

  /** Call e stamps the key's entry: the start i itself, or a later success. */
  predicate Stamps(calls: seq<Call>, i: nat, e: nat, key: Key)
    requires e < |calls|
  {
    e == i || (e > i && calls[e].FinishSuccess? && calls[e].key == key)
  }

  /** Before call m, call e was the last to stamp the entry that the start at i made. */
  predicate LastStamp(calls: seq<Call>, i: nat, m: nat, e: int, key: Key)
    requires m <= |calls|
  {
    i <= e < m && Stamps(calls, i, e, key) && forall k :: e < k < m ==> !Stamps(calls, i, k, key)
  }

  /** Call m is a TryStart, of whatever key, that comes more than ttl after the last stamp of the start at i. */
  ghost predicate FoundOld(ttl: int, calls: seq<Call>, i: nat, m: nat, key: Key)
    requires m < |calls|
  {
    calls[m].TryStart? && exists e :: LastStamp(calls, i, m, e, key) && calls[m].now - calls[e].now > ttl
  }

  /** After call i and before call n some TryStart found the key old. */
  ghost predicate OldBetween(ttl: int, calls: seq<Call>, i: nat, n: nat, key: Key)
    requires n <= |calls|
  {
    exists m :: i < m < n && FoundOld(ttl, calls, i, m, key)
  }

  /** The key's entry stems from the start at i: it is held, with the time of its last stamp. */
  ghost predicate Held(ttl: int, calls: seq<Call>, i: nat, n: nat, key: Key)
    requires n <= |calls|
  {
    var entries := Run(ttl, calls[..n]);
    && key in entries && (entries[key].inProgress || entries[key].completed)
    && exists e :: LastStamp(calls, i, n, e, key) && calls[e].now == entries[key].startedAt
  }

  lemma RunSnoc(ttl: int, calls: seq<Call>, n: nat)
    requires n < |calls|
    ensures Run(ttl, calls[..n + 1]) == After(ttl, Run(ttl, calls[..n]), calls[n])
  {
    assert calls[..n + 1][..n] == calls[..n];
  }

  /** A held key survives a call unless the call reports its failure or finds it too old. */
  lemma HeldStep(ttl: int, calls: seq<Call>, i: nat, n: nat, key: Key)
    requires ttl > 0 && i < n < |calls| && Held(ttl, calls, i, n, key)
    requires calls[n] != FinishFailure(key, calls[n].now) && !FoundOld(ttl, calls, i, n, key)
    ensures Held(ttl, calls, i, n + 1, key)
  {
    hide Run;
    RunSnoc(ttl, calls, n);
    var before, after, call := Run(ttl, calls[..n]), Run(ttl, calls[..n + 1]), calls[n];
    var e :| LastStamp(calls, i, n, e, key) && calls[e].now == before[key].startedAt;
    if call.FinishSuccess? && call.key == key {
      assert LastStamp(calls, i, n + 1, n, key) && calls[n].now == after[key].startedAt;
    } else {
      assert LastStamp(calls, i, n + 1, e, key) && after[key] == before[key];
    }
  }

  /** And only then, or when it is started again. */
  lemma HeldLost(ttl: int, calls: seq<Call>, i: nat, n: nat, key: Key)
    requires i < n < |calls| && Held(ttl, calls, i, n, key)
    requires calls[n] == FinishFailure(key, calls[n].now) || FoundOld(ttl, calls, i, n, key)
    ensures key in Run(ttl, calls[..n + 1]) ==> StartedAt(ttl, calls, n, key)
  {
    hide Run;
    RunSnoc(ttl, calls, n);
    if FoundOld(ttl, calls, i, n, key) {
      var e :| LastStamp(calls, i, n, e, key) && calls[n].now - calls[e].now > ttl;
      var e' :| LastStamp(calls, i, n, e', key) && calls[e'].now == Run(ttl, calls[..n])[key].startedAt;
      assert e == e';
    }
  }

  /** From a successful start on, whatever the clock does: held, or failed in between, or found old at some point. */
  lemma {:induction false} HeldSince(ttl: int, calls: seq<Call>, i: nat, n: nat, key: Key)
    requires ttl > 0 && i < n <= |calls| && StartedAt(ttl, calls, i, key)
    ensures || Held(ttl, calls, i, n, key)
            || FailedBetween(calls, i, n, key)
            || OldBetween(ttl, calls, i, n, key)
    decreases n
  {
    hide Run, Held, FoundOld;
    if n == i + 1 {
      JustStarted(ttl, calls, i, key);
    } else {
      HeldSince(ttl, calls, i, n - 1, key);
      if FailedBetween(calls, i, n - 1, key) {
        var m :| i < m < n - 1 && calls[m] == FinishFailure(key, calls[m].now);
        assert i < m < n;
      } else if OldBetween(ttl, calls, i, n - 1, key) {
        var m :| i < m < n - 1 && FoundOld(ttl, calls, i, m, key);
        assert i < m < n;
      } else if calls[n - 1] != FinishFailure(key, calls[n - 1].now) && !FoundOld(ttl, calls, i, n - 1, key) {
        HeldStep(ttl, calls, i, n - 1, key);
      }
    }
  }

  lemma JustStarted(ttl: int, calls: seq<Call>, i: nat, key: Key)
    requires i < |calls| && StartedAt(ttl, calls, i, key)
    ensures Held(ttl, calls, i, i + 1, key)
  {
    hide Run;
    RunSnoc(ttl, calls, i);
    assert LastStamp(calls, i, i + 1, i, key);
  }

  /**
   Main result, for every order in which the calls take the lock and whatever times they
   bring: between two successful starts of a key its failure was reported, or some call
   of TryStart, the second start at the latest, came with a time more than ttl after the
   key's last stamp, which is its first start or the latest success. Other keys do not matter.
   */
  lemma StartedTwice(ttl: int, calls: seq<Call>, i: nat, j: nat, key: Key)
    requires ttl > 0 && i < j < |calls|
    requires StartedAt(ttl, calls, i, key) && StartedAt(ttl, calls, j, key)
    ensures FailedBetween(calls, i, j, key) || OldBetween(ttl, calls, i, j + 1, key)
  {
    hide Run;
    HeldSince(ttl, calls, i, j, key);
    if Held(ttl, calls, i, j, key) {
      var entries := Run(ttl, calls[..j]);
      var e :| LastStamp(calls, i, j, e, key) && calls[e].now == entries[key].startedAt;
      assert FoundOld(ttl, calls, i, j, key);
    } else if OldBetween(ttl, calls, i, j, key) {
      var m :| i < m < j && FoundOld(ttl, calls, i, m, key);
      assert i < m < j + 1;
    }
  }

  // ---------------------------------------------------------------- why a start is refused

  /** The start at i, not reported failed nor found old before call n, holds the key. */
  ghost predicate Explains(ttl: int, calls: seq<Call>, i: nat, n: nat, key: Key)
    requires i < n <= |calls|
  {
    && StartedAt(ttl, calls, i, key) && Held(ttl, calls, i, n, key)
    && !FailedBetween(calls, i, n, key) && !OldBetween(ttl, calls, i, n, key)
  }

  ghost predicate Explained(ttl: int, calls: seq<Call>, n: nat, key: Key)
    requires n <= |calls|
  {
    exists i :: 0 <= i < n && Explains(ttl, calls, i, n, key)
  }

  lemma ExplainedNext(ttl: int, calls: seq<Call>, i: nat, n: nat, key: Key)
    requires ttl > 0 && i < n < |calls| && Explains(ttl, calls, i, n, key)
    requires key in Run(ttl, calls[..n + 1]) && !StartedAt(ttl, calls, n, key)
    ensures Explained(ttl, calls, n + 1, key)
  {
    hide Run, Held, StartedAt, FoundOld;
    if calls[n] == FinishFailure(key, calls[n].now) || FoundOld(ttl, calls, i, n, key) {
      HeldLost(ttl, calls, i, n, key);
    } else {
      HeldStep(ttl, calls, i, n, key);
      assert !FailedBetween(calls, i, n + 1, key) && !OldBetween(ttl, calls, i, n + 1, key);
      assert Explains(ttl, calls, i, n + 1, key);
    }
  }

  /** Every entry is explained by a successful start. */
  lemma {:induction false} EntriesExplained(ttl: int, calls: seq<Call>, n: nat, key: Key)
    requires ttl > 0 && n <= |calls| && key in Run(ttl, calls[..n])
    ensures Explained(ttl, calls, n, key)
    decreases n
  {
    hide Run, Held, StartedAt, FailedBetween, OldBetween;
    NoEntries(ttl);
    assert calls[..0] == [];
    if n > 0 {
      var k := n - 1;
      if StartedAt(ttl, calls, k, key) {
        JustStarted(ttl, calls, k, key);
        NothingYet(ttl, calls, k, key);
        assert Explains(ttl, calls, k, n, key);
      } else {
        NotStarted(ttl, calls, k, key);
        EntriesExplained(ttl, calls, k, key);
        var i :| 0 <= i < k && Explains(ttl, calls, i, k, key);
        ExplainedNext(ttl, calls, i, k, key);
      }
    }
  }

  lemma NoEntries(ttl: int)
    ensures Run(ttl, []) == map[]
  {
  }

  lemma NotStarted(ttl: int, calls: seq<Call>, n: nat, key: Key)
    requires n < |calls| && !StartedAt(ttl, calls, n, key) && key in Run(ttl, calls[..n + 1])
    ensures key in Run(ttl, calls[..n])
  {
    hide Run;
    RunSnoc(ttl, calls, n);
  }

  lemma NothingYet(ttl: int, calls: seq<Call>, i: nat, key: Key)
    ensures i < |calls| ==> !FailedBetween(calls, i, i + 1, key) && !OldBetween(ttl, calls, i, i + 1, key)
  {
  }

  lemma OneLastStamp(calls: seq<Call>, i: nat, j: nat, key: Key)
    requires i < j <= |calls|
    ensures forall e, e' :: LastStamp(calls, i, j, e, key) && LastStamp(calls, i, j, e', key) ==> e == e'
  {
  }

  /**
   The other direction: a start is refused only because of an earlier successful start
   of the same key, not reported failed nor found old since, this call included.
   */
  lemma RefusedBecauseHeld(ttl: int, calls: seq<Call>, j: nat, key: Key)
    requires ttl > 0 && j < |calls| && calls[j].TryStart? && calls[j].key == key && !StartedAt(ttl, calls, j, key)
    ensures exists i :: 0 <= i < j && StartedAt(ttl, calls, i, key)
                        && !FailedBetween(calls, i, j, key) && !OldBetween(ttl, calls, i, j + 1, key)
  {
    hide Run, FailedBetween;
    EntriesExplained(ttl, calls, j, key);
    var i :| 0 <= i < j && Explains(ttl, calls, i, j, key);
    var e :| LastStamp(calls, i, j, e, key) && calls[e].now == Run(ttl, calls[..j])[key].startedAt;
    OneLastStamp(calls, i, j, key);
    assert !FoundOld(ttl, calls, i, j, key);
  }

  /**
   Main result, both directions: TryStart succeeds if and only if, since every earlier
   successful start of the key, its failure was reported or a TryStart, this one at the
   latest, came more than ttl after its last stamp.
   */
  lemma StartsExactly(ttl: int, calls: seq<Call>, j: nat, key: Key)
    requires ttl > 0 && j < |calls| && calls[j].TryStart? && calls[j].key == key
    ensures StartedAt(ttl, calls, j, key)
            <==> forall i :: 0 <= i < j && StartedAt(ttl, calls, i, key) ==>
                   FailedBetween(calls, i, j, key) || OldBetween(ttl, calls, i, j + 1, key)
  {
    hide StartedAt, FailedBetween, OldBetween;
    if StartedAt(ttl, calls, j, key) {
      forall i | 0 <= i < j && StartedAt(ttl, calls, i, key)
        ensures FailedBetween(calls, i, j, key) || OldBetween(ttl, calls, i, j + 1, key)
      {
        StartedTwice(ttl, calls, i, j, key);
      }
    } else {
      RefusedBecauseHeld(ttl, calls, j, key);
    }
  }

  // ---------------------------------------------------------------- times that go back

  /** The second start itself came more than ttl after the stamp that some TryStart had found old. */
  ghost predicate OldAt(ttl: int, calls: seq<Call>, i: nat, j: nat, key: Key)
    requires j < |calls|
  {
    exists m, e ::
      && i < m <= j && calls[m].TryStart? && LastStamp(calls, i, m, e, key)
      && calls[m].now - calls[e].now > ttl && calls[j].now - calls[e].now > ttl
  }

  /** Of any two successful starts of a key, without a failure in between, the second comes late. */
  ghost predicate SecondStartsLate(ttl: int, calls: seq<Call>) {
    forall i, j, key :: 0 <= i < j < |calls| && StartedAt(ttl, calls, i, key) && StartedAt(ttl, calls, j, key) ==>
      FailedBetween(calls, i, j, key) || OldAt(ttl, calls, i, j, key)
  }

  function Times(calls: seq<Call>): (ts: seq<int>)
    ensures |ts| == |calls| && forall i :: 0 <= i < |ts| ==> ts[i] == calls[i].now
  {
    seq(|calls|, i requires 0 <= i < |calls| => calls[i].now)
  }

  /** Times that once were more than ttl past another do not come back to within ttl of it. */
  predicate NoRelapse(ttl: int, times: seq<int>) {
    forall e, m, j :: 0 <= e < m < j < |times| && times[m] - times[e] > ttl ==> times[j] - times[e] > ttl
  }

  lemma LateWithoutRelapse(ttl: int, calls: seq<Call>)
    requires ttl > 0 && NoRelapse(ttl, Times(calls))
    ensures SecondStartsLate(ttl, calls)
  {
    hide StartedAt, FailedBetween;
    var times := Times(calls);
    forall i, j, key | 0 <= i < j < |calls| && StartedAt(ttl, calls, i, key) && StartedAt(ttl, calls, j, key)
      ensures FailedBetween(calls, i, j, key) || OldAt(ttl, calls, i, j, key)
    {
      StartedTwice(ttl, calls, i, j, key);
      if m :| i < m < j + 1 && FoundOld(ttl, calls, i, m, key) {
        var e :| LastStamp(calls, i, m, e, key) && calls[m].now - calls[e].now > ttl;
        assert times[m] - times[e] > ttl;
        assert times[j] - times[e] > ttl;
      }
    }
  }

  /** Starts of "k" at e and j and of "o" everywhere else. */
  function Witness(times: seq<int>, e: nat, j: nat): (calls: seq<Call>)
    ensures |calls| == |times|
    ensures forall i :: 0 <= i < |calls| ==> calls[i] == TryStart(if i == e || i == j then "k" else "o", times[i])
    ensures Times(calls) == times
  {
    seq(|times|, i requires 0 <= i < |times| => TryStart(if i == e || i == j then "k" else "o", times[i]))
  }

  /** "k" is in no entry before e, nor after m, where it is found old, up to j. */
  lemma {:induction false} WitnessRun(ttl: int, times: seq<int>, e: nat, m: nat, j: nat, n: nat)
    requires ttl > 0 && e < m < j < |times| && times[m] - times[e] > ttl && n <= j
    ensures var entries := Run(ttl, Witness(times, e, j)[..n]);
            && (n <= e || n > m ==> "k" !in entries)
            && ("k" in entries ==> entries["k"].startedAt == times[e])
    decreases n
  {
    hide Run;
    var calls := Witness(times, e, j);
    NoEntries(ttl);
    assert calls[..0] == [] && "k" != "o";
    if n > 0 {
      RunSnoc(ttl, calls, n - 1);
      WitnessRun(ttl, times, e, m, j, n - 1);
    }
  }

  lemma RelapseHurts(ttl: int, times: seq<int>, e: nat, m: nat, j: nat)
    requires ttl > 0 && e < m < j < |times| && times[m] - times[e] > ttl && times[j] - times[e] <= ttl
    ensures !SecondStartsLate(ttl, Witness(times, e, j))
  {
    hide Run;
    var calls := Witness(times, e, j);
    WitnessRun(ttl, times, e, m, j, e);
    WitnessRun(ttl, times, e, m, j, j);
    assert StartedAt(ttl, calls, e, "k") && StartedAt(ttl, calls, j, "k");
    assert !FailedBetween(calls, e, j, "k");
    assert !OldAt(ttl, calls, e, j, "k");
  }

  /**
   Main result: the second start comes late in every run with these times, whatever the
   calls and the keys, if and only if the times do not relapse.
   */
  lemma SecondStartsLateExactly(ttl: int, times: seq<int>)
    requires ttl > 0
    ensures (forall calls :: Times(calls) == times ==> SecondStartsLate(ttl, calls)) <==> NoRelapse(ttl, times)
  {
    hide SecondStartsLate;
    if NoRelapse(ttl, times) {
      forall calls | Times(calls) == times
        ensures SecondStartsLate(ttl, calls)
      {
        LateWithoutRelapse(ttl, calls);
      }
    } else {
      var e, m, j :| 0 <= e < m < j < |times| && times[m] - times[e] > ttl && times[j] - times[e] <= ttl;
      RelapseHurts(ttl, times, e, m, j);
      assert Times(Witness(times, e, j)) == times;
    }
  }

  /** In particular when the times never go back. */
  lemma StartedTwiceInOrder(ttl: int, calls: seq<Call>, i: nat, j: nat, key: Key)
    requires ttl > 0 && Ordered(calls) && i < j < |calls|
    requires StartedAt(ttl, calls, i, key) && StartedAt(ttl, calls, j, key)
    ensures FailedBetween(calls, i, j, key) || OldAt(ttl, calls, i, j, key)
  {
    hide StartedAt, FailedBetween, OldAt;
    assert NoRelapse(ttl, Times(calls));
    LateWithoutRelapse(ttl, calls);
  }

  /** A relapse: here the second start itself comes within ttl of the first. */
  lemma ClockGoesBack()
    ensures var calls := [TryStart("k", 0), TryStart("o", 11), TryStart("k", 10)];
            && StartedAt(10, calls, 0, "k") && StartedAt(10, calls, 2, "k")
            && !FailedBetween(calls, 0, 2, "k") && !OldAt(10, calls, 0, 2, "k")
  {
    hide Run;
    var calls, times := [TryStart("k", 0), TryStart("o", 11), TryStart("k", 10)], [0, 11, 10];
    assert calls == Witness(times, 0, 2);
    WitnessRun(10, times, 0, 1, 2, 0);
    WitnessRun(10, times, 0, 1, 2, 2);
  }
}
