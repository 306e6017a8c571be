/** The background sweep that fails launches which never materialised. */
module SessionSweep {
  import opened Bytes
  import opened Sessions
  import SessionHistory

  /** materializationEventsByAction, and what launchMaterialized falls back to. */
  function Materializing(action: string): set<Kind> {
    if action == "shell" then {ProxyConnected}
    else if action == "dbeaver" then {ConnectorSucceeded, ProxyConnected, DbQuery}
    else if action == "sftp" then {ProxyConnected, FileOperation}
    else if action == "redis" then {ProxyConnected, RedisCommand}
    else {ProxyConnected}
  }

  predicate Materialized(db: Db, id: Id, action: string) {
    HasEvent(db, id, Materializing(action))
  }

  /** A connection of the proxy materialises every launch; other events those of one action each. */
  lemma MaterializedExactly(db: Db, id: Id, action: string)
    ensures Materialized(db, id, action)
            <==> || HasEvent(db, id, {ProxyConnected})
                 || (action == "dbeaver" && (HasEvent(db, id, {ConnectorSucceeded}) || HasEvent(db, id, {DbQuery})))
                 || (action == "sftp" && HasEvent(db, id, {FileOperation}))
                 || (action == "redis" && HasEvent(db, id, {RedisCommand}))
  {
    if Materialized(db, id, action) {
      var i :| 0 <= i < |db.events| && db.events[i].id == id && db.events[i].kind in Materializing(action);
      assert HasEvent(db, id, {db.events[i].kind}) by { assert db.events[i].kind in {db.events[i].kind}; }
    }
  }

  /** The time of the session's latest successful connector launch. */
  function LastSuccess(events: seq<Event>, id: Id): (t: Option<int>)
    ensures t.Some? ==> exists i :: 0 <= i < |events| && events[i].id == id && events[i].kind == ConnectorSucceeded
  {
    if events == [] then None
    else
      var e, before := events[|events| - 1], LastSuccess(events[..|events| - 1], id);
      if e.id == id && e.kind == ConnectorSucceeded then
        if before.Some? && before.value > e.time then before else Some(e.time)
      else before
  }

  predicate IsSuccess(e: Event, id: Id) {
    e.id == id && e.kind == ConnectorSucceeded
  }

  lemma {:induction false} LastSuccessIs(events: seq<Event>, id: Id)
    ensures var t := LastSuccess(events, id);
            && (t.None? <==> forall i :: 0 <= i < |events| ==> !IsSuccess(events[i], id))
            && (t.Some? ==>
                  && (forall i :: 0 <= i < |events| && IsSuccess(events[i], id) ==> events[i].time <= t.value)
                  && exists i :: 0 <= i < |events| && IsSuccess(events[i], id) && events[i].time == t.value)
  {
    if events != [] {
      var n := |events| - 1;
      LastSuccessIs(events[..n], id);
      if LastSuccess(events, id).Some? && LastSuccess(events, id) != Some(events[n].time) {
        var i :| 0 <= i < n && IsSuccess(events[..n][i], id) && events[..n][i].time == LastSuccess(events, id).value;
        assert IsSuccess(events[i], id);
      }
    }
  }

  /** The WHERE clause of the sweep's query. */
  predicate Stale(db: Db, id: Id, cutoff: int) {
    Waits(db, id) && LastSuccess(db.events, id).Some? && LastSuccess(db.events, id).value <= cutoff
  }

  /** 45 seconds, in nanoseconds, as are all times here. */
  const DEFAULT_TIMEOUT := 45_000_000_000

  datatype Candidate = Candidate(id: Id, action: string)

  predicate NoneTwice(ids: seq<Id>) {
    forall i, j :: 0 <= i < j < |ids| ==> ids[i] != ids[j]
  }

  /** The list has every session of the table, once. */
  ghost predicate Lists(ids: seq<Id>, db: Db) {
    NoneTwice(ids) && forall id :: id in ids <==> id in db.rows
  }

  ghost function ListOf(s: set<Id>): (ids: seq<Id>)
    ensures NoneTwice(ids) && forall id :: id in ids <==> id in s
  {
    if s == {} then []
    else
      var x :| x in s;
      [x] + ListOf(s - {x})
  }

  /** An order in which the database visits all sessions of a table. */
  type Visit = v: Db -> seq<Id> | forall db :: Lists(v(db), db)
    ghost witness (db: Db) => ListOf(db.rows.Keys)

  /** The stale sessions, in the order in which the database visits sessions. */
  function StaleIn(db: Db, order: seq<Id>, cutoff: int): (ids: seq<Id>)
    ensures forall id :: id in ids <==> id in order && Stale(db, id, cutoff)
  {
    if order == [] then []
    else (if Stale(db, order[0], cutoff) then [order[0]] else []) + StaleIn(db, order[1..], cutoff)
  }

  /** The time of its latest success, for a session that has one. */
  function SuccessOf(db: Db, id: Id): int {
    var t := LastSuccess(db.events, id);
    if t.Some? then t.value else 0
  }

  predicate OldestFirst(db: Db, ids: seq<Id>) {
    forall i, j :: 0 <= i < j < |ids| ==> SuccessOf(db, ids[i]) <= SuccessOf(db, ids[j])
  }

  function InsertByAge(db: Db, ids: seq<Id>, id: Id): (r: seq<Id>)
    ensures multiset(r) == multiset(ids) + multiset{id}
  {
    if ids == [] then [id]
    else if SuccessOf(db, id) <= SuccessOf(db, ids[0]) then [id] + ids
    else
      assert ids == [ids[0]] + ids[1..];
      [ids[0]] + InsertByAge(db, ids[1..], id)
  }

  function SortByAge(db: Db, ids: seq<Id>): (r: seq<Id>)
    ensures multiset(r) == multiset(ids) && |r| == |ids|
  {
    if ids == [] then []
    else
      assert ids == [ids[0]] + ids[1..];
      var r := InsertByAge(db, SortByAge(db, ids[1..]), ids[0]);
      assert |multiset(r)| == |multiset(ids)|;
      r
  }

  /** The query's result: of the stale sessions, at most `limit`, oldest success first. */
  function Select(db: Db, order: seq<Id>, cutoff: int, limit: nat): (cs: seq<Candidate>)
    ensures |cs| <= limit
    ensures forall c :: c in cs ==> Stale(db, c.id, cutoff) && c.action == db.rows[c.id].action
  {
    var ids := SortByAge(db, StaleIn(db, order, cutoff));
    SortedStale(db, order, cutoff);
    Candidates(db, if |ids| <= limit then ids else ids[..limit], cutoff)
  }

  function Candidates(db: Db, ids: seq<Id>, cutoff: int): (cs: seq<Candidate>)
    requires forall id :: id in ids ==> Stale(db, id, cutoff)
    ensures |cs| == |ids| && forall i :: 0 <= i < |cs| ==> cs[i].id == ids[i]
    ensures forall c :: c in cs ==> Stale(db, c.id, cutoff) && c.action == db.rows[c.id].action
  {
    if ids == [] then []
    else
      assert ids[0] in ids && forall id :: id in ids[1..] ==> id in ids;
      assert Stale(db, ids[0], cutoff);
      [Candidate(ids[0], db.rows[ids[0]].action)] + Candidates(db, ids[1..], cutoff)
  }

  lemma SortedStale(db: Db, order: seq<Id>, cutoff: int)
    ensures forall id :: id in SortByAge(db, StaleIn(db, order, cutoff)) ==> id in order && Stale(db, id, cutoff)
  {
    hide Stale, SortByAge, StaleIn;
    var stale, ids := StaleIn(db, order, cutoff), SortByAge(db, StaleIn(db, order, cutoff));
    forall id | id in ids
      ensures id in stale
    {
      assert id in multiset(ids);
    }
  }

  lemma {:induction false} InsertByAgeSorts(db: Db, ids: seq<Id>, id: Id)
    requires OldestFirst(db, ids)
    ensures OldestFirst(db, InsertByAge(db, ids, id))
  {
    hide SuccessOf;
    if ids != [] && SuccessOf(db, id) > SuccessOf(db, ids[0]) {
      InsertByAgeSorts(db, ids[1..], id);
      var rest := InsertByAge(db, ids[1..], id);
      forall j | 0 <= j < |rest|
        ensures SuccessOf(db, ids[0]) <= SuccessOf(db, rest[j])
      {
        assert rest[j] in multiset(rest);
        assert rest[j] == id || rest[j] in ids[1..];
      }
    }
  }

  lemma {:induction false} SortByAgeSorts(db: Db, ids: seq<Id>)
    ensures OldestFirst(db, SortByAge(db, ids))
  {
    hide SuccessOf;
    if ids != [] {
      SortByAgeSorts(db, ids[1..]);
      InsertByAgeSorts(db, SortByAge(db, ids[1..]), ids[0]);
    }
  }

  /**
   The query takes the oldest: its rows come oldest success first, as many as there are
   and the limit allows, and no stale session left out is older than one taken. This
   holds for every order in which the database visits the sessions.
   */
  lemma SelectTakesOldest(db: Db, order: seq<Id>, cutoff: int, limit: nat)
    ensures var cs, stale := Select(db, order, cutoff, limit), StaleIn(db, order, cutoff);
            && |cs| == (if |stale| <= limit then |stale| else limit)
            && (forall i, j :: 0 <= i < j < |cs| ==> SuccessOf(db, cs[i].id) <= SuccessOf(db, cs[j].id))
            && (forall id, i :: id in stale && 0 <= i < |cs| && !Taken(cs, id) ==>
                  SuccessOf(db, cs[i].id) <= SuccessOf(db, id))
            && (|stale| <= limit ==> forall id :: id in stale ==> Taken(cs, id))
  {
    hide SuccessOf, Stale, SortByAge, StaleIn, Taken;
    var cs, stale := Select(db, order, cutoff, limit), StaleIn(db, order, cutoff);
    var ids := SortByAge(db, stale);
    SortByAgeSorts(db, stale);
    assert forall i :: 0 <= i < |cs| ==> cs[i].id == ids[i];
    forall id | id in stale
      ensures || Taken(cs, id)
              || (|stale| > limit && forall i :: 0 <= i < |cs| ==> SuccessOf(db, cs[i].id) <= SuccessOf(db, id))
    {
      assert id in multiset(ids);
      var k :| 0 <= k < |ids| && ids[k] == id;
      TakenIf(cs, k, id);
    }
  }

  /** Is the session among the candidates? */
  predicate Taken(cs: seq<Candidate>, id: Id) {
    exists c :: c in cs && c.id == id
  }

  lemma TakenIf(cs: seq<Candidate>, k: nat, id: Id)
    requires k < |cs| ==> cs[k].id == id
    ensures k < |cs| ==> Taken(cs, id)
  {
    if k < |cs| {
      assert cs[k] in cs;
    }
  }

  /** A session moved to failed: the database when it was checked, and just before and after its update. */
  datatype Move = Move(id: Id, checked: Db, before: Db, after: Db)

  datatype Sweep = Sweep(db: Db, env: seq<Turn>, marked: nat, moves: seq<Move>, ok: bool)

  /** One candidate: check, guarded update, event, audit record; stop at the first failure. */
  datatype Outcome = Skipped | Marked | Stopped

  datatype One = One(db: Db, env: seq<Turn>, moves: seq<Move>, outcome: Outcome)

  function SweepOne(db: Db, env: seq<Turn>, c: Candidate): One {
    var db1, t1, env1 := Here(db, env), NextTurn(env), Later(env);
    if t1.fails then One(db1, env1, [], Stopped)
    else if Materialized(db1, c.id, c.action) then One(db1, env1, [], Skipped)
    else
      var db2, t2, env2 := Here(db1, env1), NextTurn(env1), Later(env1);
      if t2.fails then One(db2, env2, [], Stopped)
      else if !Waits(db2, c.id) then One(Apply(db2, FailIfPending(c.id), t2.now), env2, [], Skipped)
      else
        var after := Apply(db2, FailIfPending(c.id), t2.now);
        var rest := Execute(after, env2, [AddEvent(c.id, SessionFailed), Audit(c.id)]);
        One(rest.db, rest.env, [Move(c.id, db1, db2, after)], if rest.ok then Marked else Stopped)
  }

  /** The loop over the query's rows; fetching a row, or finding that there is none left, may fail too. */
  function SweepRows(db: Db, env: seq<Turn>, cs: seq<Candidate>): Sweep
    decreases |cs|
  {
    var here, env1 := Here(db, env), Later(env);
    if NextTurn(env).fails then Sweep(here, env1, 0, [], false)
    else if cs == [] then Sweep(here, env1, 0, [], true)
    else
      var one := SweepOne(here, env1, cs[0]);
      if one.outcome.Stopped? then Sweep(one.db, one.env, 0, one.moves, false)
      else
        var s := SweepRows(one.db, one.env, cs[1..]);
        Sweep(s.db, s.env, (if one.outcome.Marked? then 1 else 0) + s.marked, one.moves + s.moves, s.ok)
  }

  function Timeout(timeout: int, configured: int): (t: int)
    ensures t > 0 && (timeout > 0 ==> t == timeout) && (timeout <= 0 < configured ==> t == configured)
    ensures timeout <= 0 && configured <= 0 ==> t == 45_000_000_000
  {
    if timeout > 0 then timeout else if configured > 0 then configured else DEFAULT_TIMEOUT
  }

  function Limit(limit: int): (n: nat)
    ensures 1 <= n <= 2000 && (1 <= limit <= 2000 ==> n == limit)
    ensures (limit < 1 ==> n == 200) && (limit > 2000 ==> n == 2000)
  {
    if limit <= 0 then 200 else if limit > 2000 then 2000 else limit
  }

  /** FailUnmaterializedConnectorLaunches, started at time now. */
  function SweepAll(db: Db, env: seq<Turn>, visit: Visit, now: int, timeout: int, configured: int, limit: int): Sweep
  {
    var here, env1 := Here(db, env), Later(env);
    if NextTurn(env).fails then Sweep(here, env1, 0, [], false)
    else SweepRows(here, env1, Select(here, visit(here), now - Timeout(timeout, configured), Limit(limit)))
  }

  /** Every session that is moved has the event of its failure, unless the sweep broke off. */
  lemma {:induction false} SweepRecords(db: Db, env: seq<Turn>, cs: seq<Candidate>)
    ensures var s := SweepRows(db, env, cs);
            && db.events <= s.db.events
            && (s.ok ==> forall m :: m in s.moves ==> HasEvent(s.db, m.id, {SessionFailed}))
    decreases |cs|
  {
    hide SweepOne, Apply, ApplyAll, Execute, HasEvent;
    var here := Here(db, env);
    HereKeeps(db, env);
    if !NextTurn(env).fails && cs != [] {
      var one := SweepOne(here, Later(env), cs[0]);
      OneRecords(here, Later(env), cs[0]);
      if !one.outcome.Stopped? {
        SweepRecords(one.db, one.env, cs[1..]);
        var s := SweepRows(one.db, one.env, cs[1..]);
        forall m | m in one.moves
          ensures HasEvent(s.db, m.id, {SessionFailed})
        {
          StillHasEvent(one.db, s.db, m.id);
        }
      }
    }
  }

  lemma OneRecords(db: Db, env: seq<Turn>, c: Candidate)
    ensures var one := SweepOne(db, env, c);
            && db.events <= one.db.events
            && (!one.outcome.Stopped? ==> forall m :: m in one.moves ==> HasEvent(one.db, m.id, {SessionFailed}))
  {
    hide Apply, ApplyAll, Execute, HasEvent, Materialized, Waits;
    var db1, env1 := Here(db, env), Later(env);
    var db2, env2, t2 := Here(db1, env1), Later(env1), NextTurn(env1);
    HereKeeps(db, env);
    HereKeeps(db1, env1);
    ApplyKeeps(db2, FailIfPending(c.id), t2.now);
    var after, own := Apply(db2, FailIfPending(c.id), t2.now), [AddEvent(c.id, SessionFailed), Audit(c.id)];
    SessionHistory.EventsKept(after, env2, own);
    if Execute(after, env2, own).ok {
      assert own == [AddEvent(c.id, SessionFailed)] + [Audit(c.id)];
      SessionHistory.EventStays(after, env2, c.id, SessionFailed, [Audit(c.id)]);
    }
  }

  lemma StillHasEvent(a: Db, b: Db, id: Id)
    ensures a.events <= b.events && HasEvent(a, id, {SessionFailed}) ==> HasEvent(b, id, {SessionFailed})
  {
  }

  // ---------------------------------------------------------------- the sweep itself

  class Sweeper {
    const store: Store
    const configured: int

    constructor (store: Store, configured: int)
      ensures this.store == store && this.configured == configured
    {
      this.store, this.configured := store, configured;
    }

    /** FailUnmaterializedConnectorLaunches. `visit` is the order in which the database visits its sessions. */
    method FailUnmaterializedConnectorLaunches(visit: Visit, now: int, timeout: int, limit: int)
      returns (marked: nat, ok: bool, ghost moves: seq<Move>)
      modifies store
      ensures Sweep(store.db, store.env, marked, moves, ok)
              == SweepAll(old(store.db), old(store.env), visit, now, timeout, configured, limit)
    {
      hide SweepRows, ApplyAll, Select, Lists;
      var wait := timeout;
      if wait <= 0 {
        wait := configured;
      }
      if wait <= 0 {
        wait := DEFAULT_TIMEOUT;
      }
      var max := if limit <= 0 then 200 else if limit > 2000 then 2000 else limit;
      var t := store.Take();
      if t.fails {
        return 0, false, [];
      }
      var rows := Select(store.db, visit(store.db), now - wait, max);
      marked, ok, moves := SweepSelected(rows);
    }

    /** The loop over the query's rows. */
    method SweepSelected(rows: seq<Candidate>) returns (marked: nat, ok: bool, ghost moves: seq<Move>)
      modifies store
      ensures Sweep(store.db, store.env, marked, moves, ok) == SweepRows(old(store.db), old(store.env), rows)
    {
      hide SweepOne, SweepRows, Apply, ApplyAll, Execute, LeftToSweep;
      marked, moves := 0, [];
      ghost var total := SweepRows(store.db, store.env, rows);
      var i := 0;
      assert rows[0..] == rows;
      NothingSwept(store.db, store.env, rows);
      while true
        invariant 0 <= i <= |rows|
        invariant LeftToSweep(total, store.db, store.env, rows[i..], marked, moves)
        decreases |rows| - i
      {
        ghost var db, env := store.db, store.env;
        var fetch := store.Take();
        if fetch.fails || i == |rows| {
          SweepEnds(total, db, env, rows[i..], marked, moves);
          return marked, !fetch.fails, moves;
        }
        assert rows[i..][0] == rows[i] && rows[i..][1..] == rows[i + 1..];
        SweepGoesOn(total, db, env, rows[i..], marked, moves);
        var outcome;
        ghost var moved;
        outcome, moved := SweepRow(rows[i]);
        moves := moves + moved;
        if outcome.Stopped? {
          return marked, false, moves;
        }
        if outcome.Marked? {
          marked := marked + 1;
        }
        i := i + 1;
      }
    }

    /** The body of the loop. */
    method SweepRow(c: Candidate) returns (outcome: Outcome, ghost moves: seq<Move>)
      modifies store
      ensures One(store.db, store.env, moves, outcome) == SweepOne(old(store.db), old(store.env), c)
    {
      hide Apply, ApplyAll;
      moves := [];
      var t := store.Take();
      if t.fails {
        return Stopped, moves;
      }
      ghost var checked := store.db;
      var materialized := LaunchMaterialized(c.id, c.action);
      if materialized {
        return Skipped, moves;
      }
      t := store.Take();
      if t.fails {
        return Stopped, moves;
      }
      ghost var before, env := store.db, store.env;
      var affected := c.id in store.db.rows && store.db.rows[c.id].status.Pending?;
      store.db := Apply(store.db, FailIfPending(c.id), t.now);
      if !affected {
        return Skipped, moves;
      }
      ghost var after := store.db;
      moves := [Move(c.id, checked, before, after)];
      ExecuteCons(after, env, AddEvent(c.id, SessionFailed), [Audit(c.id)]);
      assert [AddEvent(c.id, SessionFailed), Audit(c.id)] == [AddEvent(c.id, SessionFailed)] + [Audit(c.id)];
      var ok := store.Exec(AddEvent(c.id, SessionFailed));
      if !ok {
        return Stopped, moves;
      }
      ok := store.Exec(Audit(c.id));
      outcome := if ok then Marked else Stopped;
    }

    /** launchMaterialized: the EXISTS query, over the events of the action. */
    method LaunchMaterialized(id: Id, action: string) returns (exists': bool)
      ensures exists' == Materialized(store.db, id, action)
    {
      var kinds := Materializing(action);
      exists' := false;
      var i := 0;
      while i < |store.db.events|
        invariant 0 <= i <= |store.db.events|
        invariant exists' <==> exists k :: 0 <= k < i && store.db.events[k].id == id && store.db.events[k].kind in kinds
      {
        if store.db.events[i].id == id && store.db.events[i].kind in kinds {
          exists' := true;
        }
        i := i + 1;
      }
    }
  }

  /** Besides what is marked and moved so far, the rows cs are still to be swept. */
  predicate LeftToSweep(total: Sweep, db: Db, env: seq<Turn>, cs: seq<Candidate>, marked: nat, moves: seq<Move>) {
    var s := SweepRows(db, env, cs);
    total == Sweep(s.db, s.env, marked + s.marked, moves + s.moves, s.ok)
  }

  lemma NothingSwept(db: Db, env: seq<Turn>, cs: seq<Candidate>)
    ensures LeftToSweep(SweepRows(db, env, cs), db, env, cs, 0, [])
  {
    hide SweepRows;
    assert [] + SweepRows(db, env, cs).moves == SweepRows(db, env, cs).moves;
  }

  lemma SweepEnds(total: Sweep, db: Db, env: seq<Turn>, cs: seq<Candidate>, marked: nat, moves: seq<Move>)
    requires LeftToSweep(total, db, env, cs, marked, moves) && (NextTurn(env).fails || cs == [])
    ensures total == Sweep(Here(db, env), Later(env), marked, moves, !NextTurn(env).fails)
  {
    hide Here;
    assert moves + [] == moves;
  }

  lemma SweepGoesOn(total: Sweep, db: Db, env: seq<Turn>, cs: seq<Candidate>, marked: nat, moves: seq<Move>)
    requires LeftToSweep(total, db, env, cs, marked, moves) && !NextTurn(env).fails && cs != []
    ensures var one := SweepOne(Here(db, env), Later(env), cs[0]);
            var marked', moves' := if one.outcome.Marked? then marked + 1 else marked, moves + one.moves;
            if one.outcome.Stopped? then total == Sweep(one.db, one.env, marked, moves', false)
            else LeftToSweep(total, one.db, one.env, cs[1..], marked', moves')
  {
    hide Here, SweepOne;
    var one := SweepOne(Here(db, env), Later(env), cs[0]);
    var rest := SweepRows(one.db, one.env, cs[1..]).moves;
    assert (moves + one.moves) + rest == moves + (one.moves + rest);
  }

  // ---------------------------------------------------------------- what it may and may not do

  /** A move takes one waiting session to failed, ends it now, and changes nothing else. */
  predicate MoveOk(m: Move) {
    && Waits(m.before, m.id)
    && m.before.rows[m.id].action != "dbeaver"
    && !Materialized(m.checked, m.id, m.before.rows[m.id].action)
    && m.id in m.after.rows && m.after.rows[m.id].endedAt.Some?
    && m.after == SetRow(m.before, m.id, m.before.rows[m.id].(status := Failed, endedAt := m.after.rows[m.id].endedAt))
  }

  lemma SuccessStays(a: Db, b: Db, id: Id)
    requires Evolves(a, b) && HasEvent(a, id, {ConnectorSucceeded})
    ensures HasEvent(b, id, {ConnectorSucceeded})
  {
    var i :| 0 <= i < |a.events| && a.events[i].id == id && a.events[i].kind in {ConnectorSucceeded};
    assert b.events[i] == a.events[i];
  }

  lemma DbeaverIsMaterialized(db: Db, id: Id)
    requires HasEvent(db, id, {ConnectorSucceeded})
    ensures Materialized(db, id, "dbeaver")
  {
    var i :| 0 <= i < |db.events| && db.events[i].id == id && db.events[i].kind in {ConnectorSucceeded};
  }

  /** The sweep's candidate, as the database still knows it. */
  predicate Known(db: Db, c: Candidate) {
    c.id in db.rows && db.rows[c.id].action == c.action && HasEvent(db, c.id, {ConnectorSucceeded})
  }

  lemma KnownStays(a: Db, b: Db, c: Candidate)
    requires Evolves(a, b) && Known(a, c)
    ensures Known(b, c)
  {
    SuccessStays(a, b, c.id);
  }

  lemma ExecuteEvolves(db: Db, env: seq<Turn>, own: seq<Stmt>)
    ensures var e := Execute(db, env, own);
            Evolves(db, e.db) && (Inv(db) ==> Inv(e.db))
  {
    var run := ExecuteIsRun(db, env, own);
    ApplyAllKeeps(db, run);
  }

  lemma OneOk(db: Db, env: seq<Turn>, c: Candidate)
    requires Known(db, c)
    ensures var one := SweepOne(db, env, c);
            && Evolves(db, one.db) && (Inv(db) ==> Inv(one.db))
            && (one.outcome.Marked? ==> |one.moves| == 1) && (one.outcome.Skipped? ==> one.moves == [])
            && |one.moves| <= 1
            && (forall m :: m in one.moves ==> MoveOk(m) && m.id == c.id)
  {
    hide Apply, ApplyAll, Evolves, Known, Inv, Materialized, Execute, MoveOk;
    var one := SweepOne(db, env, c);
    var db1, t1, env1 := Here(db, env), NextTurn(env), Later(env);
    HereKeeps(db, env);
    KnownStays(db, db1, c);
    if !t1.fails && !Materialized(db1, c.id, c.action) {
      var db2, t2, env2 := Here(db1, env1), NextTurn(env1), Later(env1);
      HereKeeps(db1, env1);
      EvolvesTwice(db, db1, db2);
      KnownStays(db1, db2, c);
      if !t2.fails {
        var after := Apply(db2, FailIfPending(c.id), t2.now);
        ApplyKeeps(db2, FailIfPending(c.id), t2.now);
        EvolvesTwice(db, db2, after);
        if Waits(db2, c.id) {
          ExecuteEvolves(after, env2, [AddEvent(c.id, SessionFailed), Audit(c.id)]);
          EvolvesTwice(db, after, one.db);
          NewMove(c, db1, db2, t2.now);
        }
      }
    }
  }

  lemma NewMove(c: Candidate, checked: Db, before: Db, now: int)
    requires Known(checked, c) && Known(before, c) && Waits(before, c.id) && !Materialized(checked, c.id, c.action)
    ensures MoveOk(Move(c.id, checked, before, Apply(before, FailIfPending(c.id), now)))
  {
    if c.action == "dbeaver" {
      DbeaverIsMaterialized(checked, c.id);
    }
  }

  // ---------------------------------------------------------------- its statements among the others'

  /** A statement in a run, and whether it is the sweep's own. */
  datatype Owned = Owned(stmt: Timed, own: bool)

  /** A guarded update that found its session waiting. */
  datatype Update = Update(id: Id, before: Db, after: Db)

  function Stmts(run: seq<Owned>): (ss: seq<Timed>)
    ensures |ss| == |run| && forall i :: 0 <= i < |ss| ==> ss[i] == run[i].stmt
  {
    seq(|run|, i requires 0 <= i < |run| => run[i].stmt)
  }

  function Others(run: seq<Owned>): seq<Timed> {
    if run == [] then [] else (if run[0].own then [] else [run[0].stmt]) + Others(run[1..])
  }

  /** All that the others still run. */
  function Coming(env: seq<Turn>): seq<Timed> {
    if env == [] then [] else env[0].others + Coming(env[1..])
  }

  /** The run's own guarded updates that had an effect, in order. */
  function Updates(db: Db, run: seq<Owned>): seq<Update>
    decreases |run|
  {
    if run == [] then []
    else
      var s, after := run[0].stmt.stmt, Apply(db, run[0].stmt.stmt, run[0].stmt.now);
      (if run[0].own && s.FailIfPending? && Waits(db, s.id) then [Update(s.id, db, after)] else [])
      + Updates(after, run[1..])
  }

  predicate OwnOk(run: seq<Owned>) {
    forall o :: o in run && o.own ==>
      o.stmt.stmt.FailIfPending? || o.stmt.stmt.Audit? || (o.stmt.stmt.AddEvent? && o.stmt.stmt.kind == SessionFailed)
  }

  /** The run leads from db to db', its own effective updates are these, and the others ran what they had to. */
  predicate IsRun(run: seq<Owned>, db: Db, env: seq<Turn>, db': Db, env': seq<Turn>, updates: seq<Update>) {
    && ApplyAll(db, Stmts(run)) == db' && Updates(db, run) == updates
    && Others(run) + Coming(env') == Coming(env) && OwnOk(run)
  }

  lemma StmtsAppend(a: seq<Owned>, b: seq<Owned>)
    ensures Stmts(a + b) == Stmts(a) + Stmts(b)
  {
  }

  lemma OthersNone()
    ensures Others([]) == []
  {
  }

  lemma OthersFirst(o: Owned, run: seq<Owned>)
    ensures Others([o] + run) == (if o.own then [] else [o.stmt]) + Others(run)
  {
    assert ([o] + run)[1..] == run;
  }

  lemma {:induction false} OthersAppend(a: seq<Owned>, b: seq<Owned>)
    ensures Others(a + b) == Others(a) + Others(b)
  {
    hide Others;
    if a == [] {
      assert a + b == b;
      OthersNone();
    } else {
      OthersAppend(a[1..], b);
      assert a + b == [a[0]] + (a[1..] + b) && a == [a[0]] + a[1..];
      OthersFirst(a[0], a[1..] + b);
      OthersFirst(a[0], a[1..]);
      var first := if a[0].own then [] else [a[0].stmt];
      assert first + (Others(a[1..]) + Others(b)) == (first + Others(a[1..])) + Others(b);
    }
  }

  lemma {:induction false} UpdatesAppend(db: Db, a: seq<Owned>, b: seq<Owned>)
    ensures Updates(db, a + b) == Updates(db, a) + Updates(ApplyAll(db, Stmts(a)), b)
    decreases |a|
  {
    hide Apply;
    if a == [] {
      assert a + b == b && Stmts(a) == [];
      assert [] + Updates(db, b) == Updates(db, b);
    } else {
      var one := Apply(db, a[0].stmt.stmt, a[0].stmt.now);
      UpdatesAppend(one, a[1..], b);
      assert (a + b)[1..] == a[1..] + b && Stmts(a)[1..] == Stmts(a[1..]);
      var first := if a[0].own && a[0].stmt.stmt.FailIfPending? && Waits(db, a[0].stmt.stmt.id)
                   then [Update(a[0].stmt.stmt.id, db, one)] else [];
      var last := Updates(ApplyAll(db, Stmts(a)), b);
      assert first + (Updates(one, a[1..]) + last) == (first + Updates(one, a[1..])) + last;
    }
  }

  lemma RunThen(a: seq<Owned>, b: seq<Owned>, db: Db, env: seq<Turn>, db1: Db, env1: seq<Turn>,
                db2: Db, env2: seq<Turn>, x: seq<Update>, y: seq<Update>)
    requires IsRun(a, db, env, db1, env1, x) && IsRun(b, db1, env1, db2, env2, y)
    ensures IsRun(a + b, db, env, db2, env2, x + y)
  {
    hide ApplyAll, Updates, Others, Coming;
    StmtsAppend(a, b);
    ApplyAllAppend(db, Stmts(a), Stmts(b));
    UpdatesAppend(db, a, b);
    OthersAppend(a, b);
    assert (Others(a) + Others(b)) + Coming(env2) == Others(a) + (Others(b) + Coming(env2));
  }

  function Foreign(ss: seq<Timed>): (run: seq<Owned>)
    ensures |run| == |ss| && forall i :: 0 <= i < |run| ==> run[i] == Owned(ss[i], false)
  {
    seq(|ss|, i requires 0 <= i < |ss| => Owned(ss[i], false))
  }

  lemma {:induction false} ForeignUpdates(db: Db, ss: seq<Timed>)
    ensures Updates(db, Foreign(ss)) == [] && Others(Foreign(ss)) == ss && Stmts(Foreign(ss)) == ss
    decreases |ss|
  {
    hide Apply;
    if ss != [] {
      assert Foreign(ss)[1..] == Foreign(ss[1..]);
      ForeignUpdates(Apply(db, ss[0].stmt, ss[0].now), ss[1..]);
    }
  }

  /** Waiting for a turn is a run of the others' statements. */
  lemma TakeIsRun(db: Db, env: seq<Turn>)
    ensures IsRun(Foreign(NextTurn(env).others), db, env, Here(db, env), Later(env), [])
  {
    hide Updates, Others, ApplyAll;
    ForeignUpdates(db, NextTurn(env).others);
  }

  lemma NoRun(db: Db, env: seq<Turn>)
    ensures IsRun([], db, env, db, env, [])
  {
    assert Stmts([]) == [] && [] + Coming(env) == Coming(env);
  }

  lemma NoMore(us: seq<Update>)
    ensures us + [] == us && [] + us == us
  {
  }

  lemma OwnIsRun(db: Db, env: seq<Turn>, s: Stmt, now: int)
    requires s.FailIfPending? || s.Audit? || (s.AddEvent? && s.kind == SessionFailed)
    ensures IsRun([Owned(Timed(s, now), true)], db, env, Apply(db, s, now), env,
                  if s.FailIfPending? && Waits(db, s.id) then [Update(s.id, db, Apply(db, s, now))] else [])
  {
    hide Apply;
    var run, after := [Owned(Timed(s, now), true)], Apply(db, s, now);
    assert run[1..] == [] && Stmts(run)[1..] == [] && [] + Coming(env) == Coming(env);
    assert ApplyAll(db, Stmts(run)) == ApplyAll(after, []) == after;
    assert Updates(after, []) == [] && Others([]) == [];
    NoMore(if s.FailIfPending? && Waits(db, s.id) then [Update(s.id, db, after)] else []);
    assert Others(run) == [] + Others([]);
  }

  lemma {:induction false} ExecuteIsOwnRun(db: Db, env: seq<Turn>, own: seq<Stmt>) returns (run: seq<Owned>)
    requires forall s :: s in own ==> s.Audit? || (s.AddEvent? && s.kind == SessionFailed)
    ensures var e := Execute(db, env, own); IsRun(run, db, env, e.db, e.env, [])
    decreases |own|
  {
    hide IsRun, Apply, Here, Later, Coming;
    if own == [] {
      run := [];
      NoRun(db, env);
    } else {
      var t, here, env1 := NextTurn(env), Here(db, env), Later(env);
      run := Foreign(t.others);
      TakeIsRun(db, env);
      if !t.fails && !Rejected(here, own[0]) {
        var one := Apply(here, own[0], t.now);
        var mine := [Owned(Timed(own[0], t.now), true)];
        assert own[0] in own && forall s :: s in own[1..] ==> s in own;
        OwnIsRun(here, env1, own[0], t.now);
        var rest := ExecuteIsOwnRun(one, env1, own[1..]);
        var e := Execute(one, env1, own[1..]);
        RunThen(mine, rest, here, env1, one, env1, e.db, e.env, [], []);
        RunThen(run, mine + rest, db, env, here, env1, e.db, e.env, [], [] + []);
        run := run + (mine + rest);
        NoMore([]);
      }
    }
  }

  function UpdatesOf(moves: seq<Move>): (us: seq<Update>)
    ensures |us| == |moves|
    ensures forall i :: 0 <= i < |us| ==> us[i] == Update(moves[i].id, moves[i].before, moves[i].after)
  {
    seq(|moves|, i requires 0 <= i < |moves| => Update(moves[i].id, moves[i].before, moves[i].after))
  }

  lemma OneIsRun(db: Db, env: seq<Turn>, c: Candidate) returns (run: seq<Owned>)
    ensures var one := SweepOne(db, env, c); IsRun(run, db, env, one.db, one.env, UpdatesOf(one.moves))
  {
    hide IsRun, Apply, Here, Later, NextTurn, Materialized, Execute, Coming;
    var one := SweepOne(db, env, c);
    var db1, t1, env1 := Here(db, env), NextTurn(env), Later(env);
    run := Foreign(t1.others);
    TakeIsRun(db, env);
    assert UpdatesOf([]) == [];
    NoMore([]);
    if !t1.fails && !Materialized(db1, c.id, c.action) {
      var db2, t2, env2 := Here(db1, env1), NextTurn(env1), Later(env1);
      TakeIsRun(db1, env1);
      RunThen(run, Foreign(t2.others), db, env, db1, env1, db2, env2, [], []);
      run := run + Foreign(t2.others);
      if !t2.fails {
        var s := FailIfPending(c.id);
        var after, mine := Apply(db2, s, t2.now), [Owned(Timed(s, t2.now), true)];
        var updates := if Waits(db2, c.id) then [Update(c.id, db2, after)] else [];
        OwnIsRun(db2, env2, s, t2.now);
        RunThen(run, mine, db, env, db2, env2, after, env2, [], updates);
        assert [] + updates == updates;
        run := run + mine;
        if Waits(db2, c.id) {
          var rest := ExecuteIsOwnRun(after, env2, [AddEvent(c.id, SessionFailed), Audit(c.id)]);
          RunThen(run, rest, db, env, after, env2, one.db, one.env, updates, []);
          assert updates + [] == updates == UpdatesOf(one.moves);
          run := run + rest;
        }
      }
    }
  }

  lemma UpdatesOfAppend(a: seq<Move>, b: seq<Move>)
    ensures UpdatesOf(a + b) == UpdatesOf(a) + UpdatesOf(b)
  {
  }

  lemma {:induction false} RowsAreRun(db: Db, env: seq<Turn>, cs: seq<Candidate>) returns (run: seq<Owned>)
    ensures var s := SweepRows(db, env, cs); IsRun(run, db, env, s.db, s.env, UpdatesOf(s.moves))
    decreases |cs|
  {
    hide IsRun, Here, Later, NextTurn, SweepOne, Coming;
    var here, env1 := Here(db, env), Later(env);
    run := Foreign(NextTurn(env).others);
    TakeIsRun(db, env);
    assert UpdatesOf([]) == [];
    if !NextTurn(env).fails && cs != [] {
      var one, s := SweepOne(here, env1, cs[0]), SweepRows(db, env, cs);
      var first := OneIsRun(here, env1, cs[0]);
      RunThen(run, first, db, env, here, env1, one.db, one.env, [], UpdatesOf(one.moves));
      assert [] + UpdatesOf(one.moves) == UpdatesOf(one.moves);
      run := run + first;
      if !one.outcome.Stopped? {
        var more := SweepRows(one.db, one.env, cs[1..]).moves;
        var rest := RowsAreRun(one.db, one.env, cs[1..]);
        RunThen(run, rest, db, env, one.db, one.env, s.db, s.env, UpdatesOf(one.moves), UpdatesOf(more));
        UpdatesOfAppend(one.moves, more);
        run := run + rest;
      }
    }
  }

  /**
   Main result: a sweep is a run of its own statements among the others', in the others'
   order; and its moves are exactly its own guarded updates that had an effect.
   */
  lemma SweepIsRun(db: Db, env: seq<Turn>, visit: Visit, now: int, timeout: int, configured: int, limit: int)
    returns (run: seq<Owned>)
    ensures var s := SweepAll(db, env, visit, now, timeout, configured, limit);
            IsRun(run, db, env, s.db, s.env, UpdatesOf(s.moves))
  {
    hide IsRun, Here, Later, NextTurn, SweepRows, Select, Coming;
    var here, env1 := Here(db, env), Later(env);
    run := Foreign(NextTurn(env).others);
    TakeIsRun(db, env);
    assert UpdatesOf([]) == [];
    if !NextTurn(env).fails {
      var cs := Select(here, visit(here), now - Timeout(timeout, configured), Limit(limit));
      var s := SweepRows(here, env1, cs);
      var rest := RowsAreRun(here, env1, cs);
      RunThen(run, rest, db, env, here, env1, s.db, s.env, [], UpdatesOf(s.moves));
      assert [] + UpdatesOf(s.moves) == UpdatesOf(s.moves);
      run := run + rest;
    }
  }

  predicate Differ(us: seq<Update>) {
    forall i, j :: 0 <= i < j < |us| ==> us[i].id != us[j].id
  }

  /** A run moves no session twice, and none that is there and no longer waits. */
  lemma {:induction false} UpdatesDiffer(db: Db, run: seq<Owned>)
    ensures forall u :: u in Updates(db, run) ==> u.id in db.rows ==> Waits(db, u.id)
    ensures Differ(Updates(db, run))
    decreases |run|
  {
    hide Apply;
    if run != [] {
      var s, after := run[0].stmt.stmt, Apply(db, run[0].stmt.stmt, run[0].stmt.now);
      var rest := Updates(after, run[1..]);
      ApplyKeeps(db, s, run[0].stmt.now);
      UpdatesDiffer(after, run[1..]);
      if run[0].own && s.FailIfPending? && Waits(db, s.id) {
        FailedNoLongerWaits(db, s.id, run[0].stmt.now);
        forall j | 0 <= j < |rest|
          ensures rest[j].id != s.id
        {
          assert rest[j] in rest;
        }
      }
    }
  }

  lemma FailedNoLongerWaits(db: Db, id: Id, now: int)
    ensures Waits(db, id) ==> var after := Apply(db, FailIfPending(id), now); id in after.rows && !Waits(after, id)
  {
  }

  // ---------------------------------------------------------------- what it leaves alone

  /** How the count compares with the sessions moved. */
  predicate CountOk(s: Sweep) {
    if s.ok then s.marked == |s.moves| else s.marked <= |s.moves| <= s.marked + 1
  }

  lemma {:induction false} RowsOk(db: Db, env: seq<Turn>, cs: seq<Candidate>)
    requires forall c :: c in cs ==> Known(db, c)
    ensures var s := SweepRows(db, env, cs);
            && Evolves(db, s.db) && (Inv(db) ==> Inv(s.db))
            && CountOk(s) && forall m :: m in s.moves ==> MoveOk(m)
    decreases |cs|
  {
    hide Apply, ApplyAll, Evolves, Known, Inv, SweepOne, MoveOk, Here;
    var here, env1 := Here(db, env), Later(env);
    HereKeeps(db, env);
    if !NextTurn(env).fails && cs != [] {
      assert cs[0] in cs;
      KnownStays(db, here, cs[0]);
      OneOk(here, env1, cs[0]);
      var one := SweepOne(here, env1, cs[0]);
      EvolvesTwice(db, here, one.db);
      if !one.outcome.Stopped? {
        forall c | c in cs[1..]
          ensures Known(one.db, c)
        {
          KnownStays(db, one.db, c);
        }
        RowsOk(one.db, one.env, cs[1..]);
        EvolvesTwice(db, one.db, SweepRows(one.db, one.env, cs[1..]).db);
      }
    }
  }

  lemma SelectedKnown(db: Db, order: seq<Id>, cutoff: int, limit: nat)
    ensures forall c :: c in Select(db, order, cutoff, limit) ==> Known(db, c)
  {
    hide Select;
    forall c | c in Select(db, order, cutoff, limit)
      ensures Known(db, c)
    {
      var i :| 0 <= i < |db.events| && db.events[i].id == c.id && db.events[i].kind == ConnectorSucceeded;
      assert db.events[i].kind in {ConnectorSucceeded};
    }
  }

  /**
   Main result, whatever runs in between and whatever fails: the sweep keeps the
   lifecycle invariant and the evolution of every session; each session it moves was
   waiting, is not a dbeaver one, had not materialised when checked, and becomes
   failed; no session is moved twice; and without an error the count is the number moved
   (else one less at most).
   */
  lemma SweepIsSafe(db: Db, env: seq<Turn>, visit: Visit, now: int, timeout: int, configured: int, limit: int)
    ensures var s := SweepAll(db, env, visit, now, timeout, configured, limit);
            && Evolves(db, s.db) && (Inv(db) ==> Inv(s.db))
            && CountOk(s) && (forall m :: m in s.moves ==> MoveOk(m))
            && forall i, j :: 0 <= i < j < |s.moves| ==> s.moves[i].id != s.moves[j].id
  {
    var s := SweepAll(db, env, visit, now, timeout, configured, limit);
    var run := SweepIsRun(db, env, visit, now, timeout, configured, limit);
    UpdatesDiffer(db, run);
    hide Updates;
    forall i, j | 0 <= i < j < |s.moves|
      ensures s.moves[i].id != s.moves[j].id
    {
      assert UpdatesOf(s.moves)[i].id != UpdatesOf(s.moves)[j].id;
    }
    hide Apply, ApplyAll, Evolves, Known, Inv, SweepRows, MoveOk, Select, CountOk, Here;
    var here, env1 := Here(db, env), Later(env);
    HereKeeps(db, env);
    if NextTurn(env).fails {
      CountNothing(here, env1);
    } else {
      var cs := Select(here, visit(here), now - Timeout(timeout, configured), Limit(limit));
      SelectedKnown(here, visit(here), now - Timeout(timeout, configured), Limit(limit));
      RowsOk(here, env1, cs);
      EvolvesTwice(db, here, SweepRows(here, env1, cs).db);
    }
  }

  lemma CountNothing(db: Db, env: seq<Turn>)
    ensures CountOk(Sweep(db, env, 0, [], false))
  {
  }

  // ---------------------------------------------------------------- undisturbed

  /** Nobody else runs and nothing fails. */
  predicate Quiet(env: seq<Turn>) {
    forall t :: t in env ==> t.others == [] && !t.fails
  }

  lemma QuietTurn(db: Db, env: seq<Turn>)
    requires Quiet(env)
    ensures Here(db, env) == db && !NextTurn(env).fails && Quiet(Later(env))
  {
    if env != [] {
      assert env[0] in env;
    }
  }

  /** The sessions the sweep fails when undisturbed. */
  predicate Doomed(db: Db, cs: seq<Candidate>, id: Id) {
    Waits(db, id) && exists c :: c in cs && c.id == id && !Materialized(db, id, c.action)
  }

  lemma QuietExecute(db: Db, env: seq<Turn>, id: Id)
    requires Quiet(env) && id in db.rows
    ensures var e := Execute(db, env, [AddEvent(id, SessionFailed), Audit(id)]);
            && e.ok && Quiet(e.env) && e.db.rows == db.rows
            && db.events <= e.db.events && |e.db.events| <= |db.events| + 1
            && forall i :: |db.events| <= i < |e.db.events| ==> e.db.events[i].kind == SessionFailed
  {
    QuietTurn(db, env);
    var one := Apply(db, AddEvent(id, SessionFailed), NextTurn(env).now);
    QuietTurn(one, Later(env));
    assert [AddEvent(id, SessionFailed), Audit(id)][1..] == [Audit(id)] && [Audit(id)][1..] == [];
    ExecuteNone(one, Later(Later(env)));
  }

  /** A failure event materialises nothing. */
  lemma FailureIsNotMaterial(a: Db, b: Db, id: Id, action: string)
    requires a.events <= b.events && forall i :: |a.events| <= i < |b.events| ==> b.events[i].kind == SessionFailed
    ensures Materialized(b, id, action) <==> Materialized(a, id, action)
  {
    if Materialized(a, id, action) {
      var i :| 0 <= i < |a.events| && a.events[i].id == id && a.events[i].kind in Materializing(action);
      assert b.events[i] == a.events[i];
    }
    if Materialized(b, id, action) {
      var i :| 0 <= i < |b.events| && b.events[i].id == id && b.events[i].kind in Materializing(action);
      assert i < |a.events|;
      assert a.events[i] == b.events[i];
    }
  }

  /** b is a with some waiting sessions failed, and with failure events for it. */
  predicate Fails(a: Db, b: Db, ids: set<Id>) {
    && b.rows.Keys == a.rows.Keys && ids <= a.rows.Keys
    && (forall id :: id in a.rows ==>
          if id in ids then a.rows[id].status.Pending? && b.rows[id].endedAt.Some?
                            && b.rows[id] == a.rows[id].(status := Failed, endedAt := b.rows[id].endedAt)
          else b.rows[id] == a.rows[id])
    && a.events <= b.events && forall i :: |a.events| <= i < |b.events| ==> b.events[i].kind == SessionFailed
  }

  lemma QuietOne(db: Db, env: seq<Turn>, c: Candidate)
    requires Quiet(env)
    ensures var one := SweepOne(db, env, c);
            var ids := if Waits(db, c.id) && !Materialized(db, c.id, c.action) then {c.id} else {};
            && Quiet(one.env) && !one.outcome.Stopped? && Fails(db, one.db, ids)
            && (one.outcome.Marked? <==> ids != {})
  {
    hide Materialized, ApplyAll, Execute, Quiet, Here;
    QuietTurn(db, env);
    QuietTurn(db, Later(env));
    var t2 := NextTurn(Later(env));
    var after := Apply(db, FailIfPending(c.id), t2.now);
    if Waits(db, c.id) {
      QuietExecute(after, Later(Later(env)), c.id);
    }
  }

  lemma FailsTwice(a: Db, b: Db, c: Db, x: set<Id>, y: set<Id>)
    requires Fails(a, b, x) && Fails(b, c, y)
    ensures Fails(a, c, x + y) && x !! y
  {
    assert forall id :: id in x ==> id in a.rows && id !in y by {
      forall id | id in x
        ensures id !in y
      {
        assert b.rows[id].status.Failed?;
      }
    }
  }

  lemma {:induction false} QuietRows(db: Db, env: seq<Turn>, cs: seq<Candidate>)
    requires Quiet(env)
    ensures var s := SweepRows(db, env, cs);
            var ids := set id | id in db.rows && Doomed(db, cs, id);
            s.ok && Fails(db, s.db, ids) && s.marked == |ids|
    decreases |cs|
  {
    hide SweepOne, Materialized, Quiet, Here, Fails;
    QuietTurn(db, env);
    var ids := set id | id in db.rows && Doomed(db, cs, id);
    if cs == [] {
      assert ids == {};
      FailsNone(db);
    } else {
      var c, one := cs[0], SweepOne(db, Later(env), cs[0]);
      QuietOne(db, Later(env), c);
      var x := if Waits(db, c.id) && !Materialized(db, c.id, c.action) then {c.id} else {};
      var y := set id | id in one.db.rows && Doomed(one.db, cs[1..], id);
      QuietRows(one.db, one.env, cs[1..]);
      FailsTwice(db, one.db, SweepRows(one.db, one.env, cs[1..]).db, x, y);
      assert ids == x + y by { DoomedSplit(db, one.db, cs, x); }
      assert |x + y| == |x| + |y|;
    }
  }

  lemma FailsNone(db: Db)
    ensures Fails(db, db, {})
  {
  }

  /** Failing the first candidate leaves the others' fate alone. */
  lemma DoomedSplit(db: Db, b: Db, cs: seq<Candidate>, x: set<Id>)
    requires cs != [] && Fails(db, b, x)
    requires x == if Waits(db, cs[0].id) && !Materialized(db, cs[0].id, cs[0].action) then {cs[0].id} else {}
    ensures (set id | id in db.rows && Doomed(db, cs, id)) == x + (set id | id in b.rows && Doomed(b, cs[1..], id))
  {
    hide Materialized;
    forall id, action: string
      ensures Materialized(b, id, action) <==> Materialized(db, id, action)
    {
      FailureIsNotMaterial(db, b, id, action);
    }
    forall id | id in db.rows
      ensures Doomed(db, cs, id) <==> id in x || Doomed(b, cs[1..], id)
    {
      if Doomed(db, cs, id) && id !in x {
        var c :| c in cs && c.id == id && !Materialized(db, id, c.action);
        assert c in cs[1..];
      }
      if Doomed(b, cs[1..], id) {
        var c :| c in cs[1..] && c.id == id && !Materialized(b, id, c.action);
        assert c in cs;
      }
    }
  }

  /**
   Main result, undisturbed: the sweep fails exactly the selected sessions that have
   not materialised, counts them, and leaves every other session as it was.
   */
  lemma SweepIsExact(db: Db, env: seq<Turn>, visit: Visit, now: int, timeout: int, configured: int, limit: int)
    requires Quiet(env)
    ensures var s := SweepAll(db, env, visit, now, timeout, configured, limit);
            var cs := Select(db, visit(db), now - Timeout(timeout, configured), Limit(limit));
            var ids := set id | id in db.rows && Doomed(db, cs, id);
            s.ok && Fails(db, s.db, ids) && s.marked == |ids|
  {
    hide Quiet, Here, Select, SweepRows;
    QuietTurn(db, env);
    QuietRows(db, Later(env), Select(db, visit(db), now - Timeout(timeout, configured), Limit(limit)));
  }

  lemma StaleSplit(db: Db, order: seq<Id>, cutoff: int, all: set<Id>, rest: set<Id>)
    requires order != [] && NoneTwice(order)
    requires all == set id | id in order && Stale(db, id, cutoff)
    requires rest == set id | id in order[1..] && Stale(db, id, cutoff)
    ensures order[0] !in rest && all == if Stale(db, order[0], cutoff) then rest + {order[0]} else rest
  {
    hide Stale;
    assert order == [order[0]] + order[1..];
    assert order[0] !in order[1..];
  }

  lemma {:induction false} StaleInCount(db: Db, order: seq<Id>, cutoff: int)
    requires NoneTwice(order)
    ensures |StaleIn(db, order, cutoff)| == |set id | id in order && Stale(db, id, cutoff)|
  {
    hide Stale;
    var all := set id | id in order && Stale(db, id, cutoff);
    if order == [] {
      assert all == {};
    } else {
      var first, rest := order[0], set id | id in order[1..] && Stale(db, id, cutoff);
      StaleInCount(db, order[1..], cutoff);
      StaleSplit(db, order, cutoff, all, rest);
      if Stale(db, first, cutoff) {
        assert |rest + {first}| == |rest| + 1;
      }
    }
  }

  /**
   Main result, undisturbed: as long as the stale sessions do not exceed the limit, the
   sweep fails exactly those of the table that have not materialised, and counts them.
   */
  lemma SweepFailsAllStale(db: Db, env: seq<Turn>, visit: Visit, now: int, timeout: int, configured: int, limit: int)
    requires Quiet(env)
    ensures var s := SweepAll(db, env, visit, now, timeout, configured, limit);
            var cutoff := now - Timeout(timeout, configured);
            var stale := set id | id in db.rows && Stale(db, id, cutoff);
            var ids := set id | id in stale && !Materialized(db, id, db.rows[id].action);
            |stale| <= Limit(limit) ==> s.ok && Fails(db, s.db, ids) && s.marked == |ids|
  {
    hide Quiet, Select, SweepAll, Materialized, StaleIn, Timeout, Limit, Fails;
    var cutoff, max, order := now - Timeout(timeout, configured), Limit(limit), visit(db);
    var stale := set id | id in db.rows && Stale(db, id, cutoff);
    assert Lists(order, db);
    SweepIsExact(db, env, visit, now, timeout, configured, limit);
    StaleInCount(db, order, cutoff);
    assert stale == set id | id in order && Stale(db, id, cutoff);
    if |stale| <= max {
      var cs := Select(db, order, cutoff, max);
      SelectTakesOldest(db, order, cutoff, max);
      forall id | id in db.rows
        ensures Doomed(db, cs, id) <==> id in stale && !Materialized(db, id, db.rows[id].action)
      {
        assert Taken(cs, id) <==> exists c :: c in cs && c.id == id;
      }
      assert (set id | id in db.rows && Doomed(db, cs, id))
             == set id | id in stale && !Materialized(db, id, db.rows[id].action);
    }
  }
}
