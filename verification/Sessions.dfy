/**
 The lifecycle of a session row. Every service operation is a series of SQL
 statements; between any two of them other operations may run theirs, and any of
 them may fail.
 */
module Sessions {
  import opened Bytes

  type Id = nat

  datatype Status = Pending | Active | Completed | Failed

  datatype Row = Row(user: nat, status: Status, startedAt: Option<int>, endedAt: Option<int>, action: string)

  datatype Kind =
    | LaunchCreated | ConnectorRequested | ConnectorSucceeded | ConnectorFailed
    | DbQuery | RedisCommand | FileOperation | ProxyConnected | ShellStarted | SessionEnded | SessionFailed
    | OtherKind(name: string)

  datatype Event = Event(id: Id, kind: Kind, time: int)

  datatype Db = Db(rows: map<Id, Row>, events: seq<Event>)

  const EMPTY := Db(map[], [])

  /** The statements that touch sessions and their events; Audit stands for writing an audit record. */
  datatype Stmt =
    | Insert(id: Id, user: nat, action: string)
    | ActivateIfPending(id: Id)
    | Activate(id: Id)
    | Complete(id: Id)
    | Fail(id: Id)
    | FailIfPending(id: Id)
    | AddEvent(id: Id, kind: Kind)
    | Audit(id: Id)

  function Coalesce(a: Option<int>, now: int): Option<int> {
    if a.Some? then a else Some(now)
  }

  function SetRow(db: Db, id: Id, row: Row): Db {
    db.(rows := db.rows[id := row])
  }

  /** One statement, at the time its NOW() gives. */
  function Apply(db: Db, s: Stmt, now: int): Db {
    match s
    case Insert(id, user, action) =>
      if id in db.rows then db else SetRow(db, id, Row(user, Pending, None, None, action))
    case AddEvent(id, kind) => if id in db.rows then db.(events := db.events + [Event(id, kind, now)]) else db
    case Audit(_) => db
    case _ =>
      if s.id !in db.rows then db
      else
        var r := db.rows[s.id];
        if (s.ActivateIfPending? || s.FailIfPending?) && !r.status.Pending? then db
        else if s.ActivateIfPending? || s.Activate? then
          SetRow(db, s.id, r.(status := Active, startedAt := Coalesce(r.startedAt, now)))
        else if s.Complete? then
          SetRow(db, s.id, r.(status := Completed, startedAt := Coalesce(r.startedAt, now), endedAt := Some(now)))
        else SetRow(db, s.id, r.(status := Failed, endedAt := Some(now)))
  }

  datatype Timed = Timed(stmt: Stmt, now: int)

  function ApplyAll(db: Db, ss: seq<Timed>): Db
    decreases |ss|
  {
    if ss == [] then db else ApplyAll(Apply(db, ss[0].stmt, ss[0].now), ss[1..])
  }

  // ---------------------------------------------------------------- over every run

  predicate RowOk(r: Row) {
    match r.status
    case Pending => true
    case Active => r.startedAt.Some?
    case Completed => r.startedAt.Some? && r.endedAt.Some?
    case Failed => r.endedAt.Some?
  }

  predicate Inv(db: Db) {
    forall id :: id in db.rows ==> RowOk(db.rows[id])
  }

  /** What time can do to a session: it never becomes pending again, and keeps its start, its user and its action. */
  predicate RowEvolves(a: Row, b: Row) {
    && (b.status.Pending? ==> a.status.Pending?)
    && (a.startedAt.Some? ==> b.startedAt == a.startedAt)
    && a.user == b.user && a.action == b.action
  }

  predicate Evolves(a: Db, b: Db) {
    && (forall id :: id in a.rows ==> id in b.rows && RowEvolves(a.rows[id], b.rows[id]))
    && a.events <= b.events
  }

  lemma ApplyKeeps(db: Db, s: Stmt, now: int)
    ensures Inv(db) ==> Inv(Apply(db, s, now))
    ensures Evolves(db, Apply(db, s, now))
  {
  }

  lemma {:induction false} ApplyAllKeeps(db: Db, ss: seq<Timed>)
    ensures Inv(db) ==> Inv(ApplyAll(db, ss))
    ensures Evolves(db, ApplyAll(db, ss))
    decreases |ss|
  {
    hide Apply, Inv;
    if ss != [] {
      var one := Apply(db, ss[0].stmt, ss[0].now);
      ApplyKeeps(db, ss[0].stmt, ss[0].now);
      ApplyAllKeeps(one, ss[1..]);
      EvolvesTwice(db, one, ApplyAll(one, ss[1..]));
    }
  }

  lemma EvolvesTwice(a: Db, b: Db, c: Db)
    ensures Evolves(a, b) && Evolves(b, c) ==> Evolves(a, c)
  {
  }

  lemma {:induction false} ApplyAllAppend(db: Db, a: seq<Timed>, b: seq<Timed>)
    ensures ApplyAll(db, a + b) == ApplyAll(ApplyAll(db, a), b)
    decreases |a|
  {
    hide Apply;
    if a == [] {
      assert a + b == b;
    } else {
      ApplyAllAppend(Apply(db, a[0].stmt, a[0].now), a[1..], b);
      assert (a + b)[1..] == a[1..] + b;
    }
  }

  /**
   Main result, for every interleaving of statements: at any moment active sessions
   have started, completed ones have started and ended, failed ones have ended; and
   from any moment to any later one no session returns to pending and no start
   changes once set.
   */
  lemma EveryRun(ss: seq<Timed>, i: nat, j: nat)
    requires i <= j <= |ss|
    ensures Inv(ApplyAll(EMPTY, ss[..i])) && Inv(ApplyAll(EMPTY, ss[..j]))
    ensures Evolves(ApplyAll(EMPTY, ss[..i]), ApplyAll(EMPTY, ss[..j]))
  {
    hide ApplyAll, Evolves;
    ApplyAllKeeps(EMPTY, ss[..i]);
    ApplyAllKeeps(ApplyAll(EMPTY, ss[..i]), ss[i..j]);
    assert ss[..j] == ss[..i] + ss[i..j];
    ApplyAllAppend(EMPTY, ss[..i], ss[i..j]);
  }

  // ---------------------------------------------------------------- the database, shared

  /** What happens around one statement of ours: the others' statements before it, its fate, its time. */
  datatype Turn = Turn(others: seq<Timed>, fails: bool, now: int)

  /** The turn taken next; a quiet one when the schedule is used up. */
  function NextTurn(env: seq<Turn>): Turn {
    if env == [] then Turn([], false, 0) else env[0]
  }

  function Later(env: seq<Turn>): seq<Turn> {
    if env == [] then [] else env[1..]
  }

  /** The database when it is our turn. */
  function Here(db: Db, env: seq<Turn>): Db {
    ApplyAll(db, NextTurn(env).others)
  }

  /** The tables refuse a session id that is taken, and an event of a session that does not exist. */
  predicate Rejected(db: Db, s: Stmt) {
    (s.Insert? && s.id in db.rows) || (s.AddEvent? && s.id !in db.rows)
  }

  datatype Executed = Executed(db: Db, env: seq<Turn>, ok: bool)

  /** Our statements, one after the other, up to the first that fails. */
  function Execute(db: Db, env: seq<Turn>, own: seq<Stmt>): Executed
    decreases |own|
  {
    if own == [] then Executed(db, env, true)
    else
      var here, t := Here(db, env), NextTurn(env);
      if t.fails || Rejected(here, own[0]) then Executed(here, Later(env), false)
      else Execute(Apply(here, own[0], t.now), Later(env), own[1..])
  }

  /** Does a row with this id exist and wait? */
  predicate Waits(db: Db, id: Id) {
    id in db.rows && db.rows[id].status.Pending?
  }

  predicate HasEvent(db: Db, id: Id, kinds: set<Kind>) {
    exists i :: 0 <= i < |db.events| && db.events[i].id == id && db.events[i].kind in kinds
  }

  class Store {
    var db: Db
    var env: seq<Turn>

    constructor (env: seq<Turn>)
      ensures db == EMPTY && this.env == env
    {
      db, this.env := EMPTY, env;
    }

    /** Waits for our turn, while the others run. */
    method Take() returns (t: Turn)
      modifies this
      ensures db == Here(old(db), old(env)) && t == NextTurn(old(env)) && env == Later(old(env))
    {
      t := if env == [] then Turn([], false, 0) else env[0];
      env := if env == [] then [] else env[1..];
      db := ApplyAll(db, t.others);
    }

    /** One statement of ours, which may fail, or be refused, without effect. */
    method Exec(s: Stmt) returns (ok: bool)
      modifies this
      ensures Executed(db, env, ok) == Execute(old(db), old(env), [s])
    {
      assert [s][1..] == [];
      var t := Take();
      ok := !t.fails && !Rejected(db, s);
      if ok {
        db := Apply(db, s, t.now);
      }
    }
  }

  lemma ExecuteCons(db: Db, env: seq<Turn>, s: Stmt, own: seq<Stmt>)
    ensures var one := Execute(db, env, [s]);
            Execute(db, env, [s] + own) == if one.ok then Execute(one.db, one.env, own) else one
  {
    hide Apply, ApplyAll;
    assert ([s] + own)[1..] == own && [s][1..] == [];
  }

  // ---------------------------------------------------------------- the operations

  class Service {
    const store: Store

    constructor (store: Store)
      ensures this.store == store
    {
      this.store := store;
    }

    /** Runs two or three statements, stopping at the first that fails. */
    method ExecAll(own: seq<Stmt>) returns (ok: bool)
      modifies store
      ensures Executed(store.db, store.env, ok) == Execute(old(store.db), old(store.env), own)
    {
      hide Execute;
      ghost var total := Execute(store.db, store.env, own);
      var i := 0;
      assert own[0..] == own;
      while i < |own|
        invariant 0 <= i <= |own|
        invariant Execute(store.db, store.env, own[i..]) == total
      {
        assert own[i..] == [own[i]] + own[i + 1..];
        ExecuteCons(store.db, store.env, own[i], own[i + 1..]);
        ok := store.Exec(own[i]);
        if !ok {
          return;
        }
        i := i + 1;
      }
      assert own[i..] == [];
      ExecuteNone(store.db, store.env);
      ok := true;
    }

    /** The row insert and first event of CreateLaunch; `id` is the one that the database comes up with. */
    method CreateLaunch(id: Id, user: nat, action: string) returns (ok: bool)
      modifies store
      ensures Executed(store.db, store.env, ok)
              == Execute(old(store.db), old(store.env), [Insert(id, user, action), AddEvent(id, LaunchCreated)])
      ensures ok ==> id !in Here(old(store.db), old(store.env)).rows && Launched(store.db, id, user, action)
    {
      ok := ExecAll([Insert(id, user, action), AddEvent(id, LaunchCreated)]);
      LaunchCreates(old(store.db), old(store.env), id, user, action);
    }

    /** Only for a session of this user, and only the connector's own events. */
    method RecordConnectorLaunchEvent(id: Id, user: nat, kind: Kind) returns (ok: bool)
      modifies store
      ensures kind !in {ConnectorRequested, ConnectorSucceeded, ConnectorFailed} ==> !ok && unchanged(store)
      ensures kind in {ConnectorRequested, ConnectorSucceeded, ConnectorFailed} ==>
                var here := Here(old(store.db), old(store.env));
                if NextTurn(old(store.env)).fails || id !in here.rows || here.rows[id].user != user then
                  Executed(store.db, store.env, ok) == Executed(here, Later(old(store.env)), false)
                else
                  Executed(store.db, store.env, ok)
                  == Execute(here, Later(old(store.env)),
                             [AddEvent(id, kind)]
                             + (if kind == ConnectorSucceeded then [ActivateIfPending(id)] else []))
    {
      if kind != ConnectorRequested && kind != ConnectorSucceeded && kind != ConnectorFailed {
        return false;
      }
      var t := store.Take();
      if t.fails || id !in store.db.rows || store.db.rows[id].user != user {
        return false;
      }
      ok := ExecAll([AddEvent(id, kind)] + (if kind == ConnectorSucceeded then [ActivateIfPending(id)] else []));
    }

    method MarkProxyConnected(id: Id) returns (ok: bool)
      modifies store
      ensures Executed(store.db, store.env, ok)
              == Execute(old(store.db), old(store.env), [ActivateIfPending(id), AddEvent(id, ProxyConnected)])
    {
      ok := ExecAll([ActivateIfPending(id), AddEvent(id, ProxyConnected)]);
    }

    method MarkShellStarted(id: Id) returns (ok: bool)
      modifies store
      ensures Executed(store.db, store.env, ok)
              == Execute(old(store.db), old(store.env), [Activate(id), AddEvent(id, ShellStarted), Audit(id)])
    {
      ok := ExecAll([Activate(id), AddEvent(id, ShellStarted), Audit(id)]);
    }

    method MarkEnded(id: Id) returns (ok: bool)
      modifies store
      ensures Executed(store.db, store.env, ok)
              == Execute(old(store.db), old(store.env), [Complete(id), AddEvent(id, SessionEnded), Audit(id)])
    {
      ok := ExecAll([Complete(id), AddEvent(id, SessionEnded), Audit(id)]);
    }

    method MarkFailed(id: Id) returns (ok: bool)
      modifies store
      ensures Executed(store.db, store.env, ok)
              == Execute(old(store.db), old(store.env), [Fail(id), AddEvent(id, SessionFailed), Audit(id)])
    {
      ok := ExecAll([Fail(id), AddEvent(id, SessionFailed), Audit(id)]);
    }
  }

  /** The session exists, for this user and action, and its creation is recorded. */
  predicate Launched(db: Db, id: Id, user: nat, action: string) {
    && id in db.rows && db.rows[id].user == user && db.rows[id].action == action
    && HasEvent(db, id, {LaunchCreated})
  }

  lemma LaunchCreates(db: Db, env: seq<Turn>, id: Id, user: nat, action: string)
    ensures var e := Execute(db, env, [Insert(id, user, action), AddEvent(id, LaunchCreated)]);
            e.ok ==>
              && id !in Here(db, env).rows && Launched(e.db, id, user, action)
              && Apply(Here(db, env), Insert(id, user, action), NextTurn(env).now)
                 == SetRow(Here(db, env), id, Row(user, Pending, None, None, action))
  {
    hide Here;
    var own := [Insert(id, user, action), AddEvent(id, LaunchCreated)];
    var e, here, env1 := Execute(db, env, own), Here(db, env), Later(env);
    if e.ok {
      var row := Apply(here, own[0], NextTurn(env).now);
      assert own[1..] == [AddEvent(id, LaunchCreated)] && own[1..][1..] == [];
      var there := Here(row, env1);
      HereKeeps(row, env1);
      assert e == Execute(row, env1, own[1..]);
      var done := Apply(there, own[1], NextTurn(env1).now);
      ExecuteNone(done, Later(env1));
      assert e.db == done;
      assert done.events[|there.events|].kind in {LaunchCreated};
    }
  }

  lemma HereKeeps(db: Db, env: seq<Turn>)
    ensures Evolves(db, Here(db, env)) && (Inv(db) ==> Inv(Here(db, env)))
  {
    ApplyAllKeeps(db, NextTurn(env).others);
  }

  lemma ExecuteNone(db: Db, env: seq<Turn>)
    ensures Execute(db, env, []) == Executed(db, env, true)
  {
  }

  /** An operation is a run: the others' statements and its own, in some order. */
  lemma {:induction false} ExecuteIsRun(db: Db, env: seq<Turn>, own: seq<Stmt>) returns (run: seq<Timed>)
    ensures Execute(db, env, own).db == ApplyAll(db, run)
    decreases |own|
  {
    hide Apply;
    if own == [] {
      run := [];
    } else {
      var t := NextTurn(env);
      run := t.others;
      if !t.fails && !Rejected(Here(db, env), own[0]) {
        var mine := [Timed(own[0], t.now)];
        var after := Apply(Here(db, env), own[0], t.now);
        var rest := ExecuteIsRun(after, Later(env), own[1..]);
        assert (mine + rest)[0] == mine[0] && (mine + rest)[1..] == rest;
        ApplyAllAppend(db, t.others, mine + rest);
        run := t.others + (mine + rest);
      }
    }
  }
}
