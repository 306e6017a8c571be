/**
 What the statements of a run say about a session, row by row: its status, its owner, and the
 times of its start and end. The updates of MarkShellStarted, MarkEnded and MarkFailed are not
 guarded by a status, so an end need not be final.
 */
module SessionHistory {
  import opened Bytes
  import opened Sessions

  predicate Inserts(s: Stmt, id: Id) {
    s.Insert? && s.id == id
  }

  /** An update without a status in its WHERE clause. */
  predicate Unguarded(s: Stmt, id: Id) {
    (s.Activate? || s.Complete? || s.Fail?) && s.id == id
  }

  predicate Updates(s: Stmt, id: Id) {
    Unguarded(s, id) || ((s.ActivateIfPending? || s.FailIfPending?) && s.id == id)
  }

  // ---------------------------------------------------------------- from the statements alone

  /** One of the first n statements creates the session. */
  predicate Created(ss: seq<Timed>, n: nat, id: Id)
    requires n <= |ss|
  {
    exists k :: 0 <= k < n && Inserts(ss[k].stmt, id)
  }

  /** Of the first n statements one creates the session, and none after that updates it. */
  predicate Untouched(ss: seq<Timed>, n: nat, id: Id)
    requires n <= |ss|
  {
    Created(ss, n, id) && forall k, m :: 0 <= k < m < n && Inserts(ss[k].stmt, id) ==> !Updates(ss[m].stmt, id)
  }

  /** Statement j updates the session: unguarded, once it exists, or guarded, while nothing has updated it. */
  predicate TakesEffect(ss: seq<Timed>, j: nat, id: Id)
    requires j < |ss|
  {
    var s := ss[j].stmt;
    (Unguarded(s, id) && Created(ss, j, id)) || (Updates(s, id) && Untouched(ss, j, id))
  }

  /** The status that an update gives. */
  function Given(s: Stmt): Status {
    match s
    case Activate(_) => Active
    case ActivateIfPending(_) => Active
    case Complete(_) => Completed
    case Fail(_) => Failed
    case FailIfPending(_) => Failed
    case _ => Pending
  }

  /** Does an update set the start of a session that has none? */
  predicate Starts(s: Stmt) {
    Given(s).Active? || Given(s).Completed?
  }

  /** Does an update set the end? */
  predicate Ends(s: Stmt) {
    Given(s).Completed? || Given(s).Failed?
  }

  predicate StartsAt(ss: seq<Timed>, j: nat, id: Id)
    requires j < |ss|
  {
    TakesEffect(ss, j, id) && Starts(ss[j].stmt)
  }

  predicate EndsAt(ss: seq<Timed>, j: nat, id: Id)
    requires j < |ss|
  {
    TakesEffect(ss, j, id) && Ends(ss[j].stmt)
  }

  predicate EndedBefore(ss: seq<Timed>, n: nat, id: Id)
    requires n <= |ss|
  {
    exists j :: 0 <= j < n && EndsAt(ss, j, id)
  }

  /** No shell is started in a session that has ended. */
  predicate NeverReopened(ss: seq<Timed>, id: Id) {
    forall i :: 0 <= i < |ss| && EndedBefore(ss, i, id) ==> ss[i].stmt != Activate(id)
  }

  // ---------------------------------------------------------------- and from the table

  function After(ss: seq<Timed>, n: nat): Db
    requires n <= |ss|
  {
    ApplyAll(EMPTY, ss[..n])
  }

  predicate HasEnded(db: Db, id: Id) {
    id in db.rows && db.rows[id].endedAt.Some?
  }

  /** An active session with the time of its end set. */
  predicate ActiveButEnded(db: Db, id: Id) {
    HasEnded(db, id) && db.rows[id].status.Active?
  }

  lemma AfterNext(ss: seq<Timed>, n: nat)
    requires n < |ss|
    ensures After(ss, n + 1) == Apply(After(ss, n), ss[n].stmt, ss[n].now)
  {
    hide Apply;
    assert ss[..n + 1] == ss[..n] + [ss[n]];
    ApplyAllAppend(EMPTY, ss[..n], [ss[n]]);
    var db := Apply(After(ss, n), ss[n].stmt, ss[n].now);
    assert [ss[n]][1..] == [];
    assert ApplyAll(db, []) == db;
  }

  lemma CreatedNext(ss: seq<Timed>, n: nat, id: Id)
    requires n < |ss|
    ensures Created(ss, n + 1, id) <==> Created(ss, n, id) || Inserts(ss[n].stmt, id)
    ensures Untouched(ss, n + 1, id)
            <==> if Created(ss, n, id) then Untouched(ss, n, id) && !Updates(ss[n].stmt, id)
                 else Inserts(ss[n].stmt, id)
  {
    hide Inserts, Updates;
    if Created(ss, n, id) {
      var k :| 0 <= k < n && Inserts(ss[k].stmt, id);
      assert 0 <= k < n + 1;
    }
  }

  lemma EndedNext(ss: seq<Timed>, n: nat, id: Id)
    requires n < |ss|
    ensures EndedBefore(ss, n + 1, id) <==> EndedBefore(ss, n, id) || EndsAt(ss, n, id)
  {
    hide EndsAt;
    if EndedBefore(ss, n, id) {
      var j :| 0 <= j < n && EndsAt(ss, j, id);
      assert 0 <= j < n + 1;
    }
  }

  /** The statements alone say whether a session exists, waits, and has ended. */
  lemma {:induction false} TableFollows(ss: seq<Timed>, n: nat, id: Id)
    requires n <= |ss|
    ensures var db := After(ss, n);
            && (id in db.rows <==> Created(ss, n, id))
            && (Waits(db, id) <==> Untouched(ss, n, id))
            && (HasEnded(db, id) <==> EndedBefore(ss, n, id))
            && (Waits(db, id) ==> !HasEnded(db, id))
    decreases n
  {
    hide After, Created, Untouched, EndedBefore;
    if n == 0 {
      NothingCreated(ss, id);
    } else {
      var m := n - 1;
      TableFollows(ss, m, id);
      AfterNext(ss, m);
      CreatedNext(ss, m, id);
      EndedNext(ss, m, id);
      UntouchedIsCreated(ss, m, id);
    }
  }

  lemma NothingCreated(ss: seq<Timed>, id: Id)
    ensures After(ss, 0) == EMPTY && !Created(ss, 0, id) && !Untouched(ss, 0, id) && !EndedBefore(ss, 0, id)
  {
    assert ss[..0] == [];
  }

  // ---------------------------------------------------------------- the whole row

  /** Of the first n statements, j was the last to update the session. */
  predicate LastUpdate(ss: seq<Timed>, n: nat, j: nat, id: Id)
    requires n <= |ss|
  {
    j < n && TakesEffect(ss, j, id) && forall k :: j < k < n ==> !TakesEffect(ss, k, id)
  }

  predicate LastEnd(ss: seq<Timed>, n: nat, j: nat, id: Id)
    requires n <= |ss|
  {
    j < n && EndsAt(ss, j, id) && forall k :: j < k < n ==> !EndsAt(ss, k, id)
  }

  predicate FirstStart(ss: seq<Timed>, n: nat, j: nat, id: Id)
    requires n <= |ss|
  {
    j < n && StartsAt(ss, j, id) && forall k :: 0 <= k < j ==> !StartsAt(ss, k, id)
  }

  predicate FirstInsert(ss: seq<Timed>, n: nat, j: nat, id: Id)
    requires n <= |ss|
  {
    j < n && Inserts(ss[j].stmt, id) && forall k :: 0 <= k < j ==> !Inserts(ss[k].stmt, id)
  }

  /** What the first n statements say about a row: whose it is, */
  ghost predicate OwnerFollows(ss: seq<Timed>, n: nat, id: Id, r: Row)
    requires n <= |ss|
  {
    forall j: nat :: FirstInsert(ss, n, j, id) ==> r.user == ss[j].stmt.user && r.action == ss[j].stmt.action
  }

  /** its status, */
  ghost predicate StatusFollows(ss: seq<Timed>, n: nat, id: Id, status: Status)
    requires n <= |ss|
  {
    && (status.Pending? <==> forall j: nat :: j < n ==> !TakesEffect(ss, j, id))
    && forall j: nat :: LastUpdate(ss, n, j, id) ==> status == Given(ss[j].stmt)
  }

  /** when it started, */
  ghost predicate StartFollows(ss: seq<Timed>, n: nat, id: Id, start: Option<int>)
    requires n <= |ss|
  {
    && (start.None? <==> forall j: nat :: j < n ==> !StartsAt(ss, j, id))
    && forall j: nat :: FirstStart(ss, n, j, id) ==> start == Some(ss[j].now)
  }

  /** and when it ended. */
  ghost predicate EndFollows(ss: seq<Timed>, n: nat, id: Id, end: Option<int>)
    requires n <= |ss|
  {
    && (end.None? <==> forall j: nat :: j < n ==> !EndsAt(ss, j, id))
    && forall j: nat :: LastEnd(ss, n, j, id) ==> end == Some(ss[j].now)
  }

  ghost predicate RowFollows(ss: seq<Timed>, n: nat, id: Id, r: Row)
    requires n <= |ss|
  {
    && OwnerFollows(ss, n, id, r) && StatusFollows(ss, n, id, r.status)
    && StartFollows(ss, n, id, r.startedAt) && EndFollows(ss, n, id, r.endedAt)
  }

  /** One more statement, as the table has it. */
  lemma OneMore(ss: seq<Timed>, n: nat, id: Id)
    requires n < |ss|
    ensures var a, b, s, now := After(ss, n), After(ss, n + 1), ss[n].stmt, ss[n].now;
            && (TakesEffect(ss, n, id) ==>
                  && id in a.rows && id in b.rows
                  && b.rows[id].user == a.rows[id].user && b.rows[id].action == a.rows[id].action
                  && b.rows[id].status == Given(s)
                  && b.rows[id].startedAt == (if Starts(s) then Coalesce(a.rows[id].startedAt, now)
                                              else a.rows[id].startedAt)
                  && b.rows[id].endedAt == (if Ends(s) then Some(now) else a.rows[id].endedAt))
            && (!TakesEffect(ss, n, id) && id in a.rows ==> id in b.rows && b.rows[id] == a.rows[id])
            && (id !in a.rows && id in b.rows ==>
                  Inserts(s, id) && b.rows[id] == Row(s.user, Pending, None, None, s.action))
  {
    hide After, Created, Untouched;
    TableFollows(ss, n, id);
    UntouchedIsCreated(ss, n, id);
    AfterNext(ss, n);
  }

  lemma OwnerNext(ss: seq<Timed>, n: nat, id: Id, a: Row, b: Row)
    requires n < |ss| && OwnerFollows(ss, n, id, a) && Created(ss, n, id) && b.user == a.user && b.action == a.action
    ensures OwnerFollows(ss, n + 1, id, b)
  {
    hide Inserts;
    forall j: nat | FirstInsert(ss, n + 1, j, id)
      ensures FirstInsert(ss, n, j, id)
    {
    }
  }

  lemma StatusNext(ss: seq<Timed>, n: nat, id: Id, a: Status, b: Status)
    requires n < |ss| && StatusFollows(ss, n, id, a)
    requires b == if TakesEffect(ss, n, id) then Given(ss[n].stmt) else a
    ensures StatusFollows(ss, n + 1, id, b)
  {
    hide TakesEffect;
    EffectGives(ss, n, id);
    forall j: nat | LastUpdate(ss, n + 1, j, id)
      ensures b == Given(ss[j].stmt)
    {
      assert j == n || LastUpdate(ss, n, j, id);
    }
  }

  lemma StartNext(ss: seq<Timed>, n: nat, id: Id, a: Option<int>, b: Option<int>)
    requires n < |ss| && StartFollows(ss, n, id, a)
    requires b == if StartsAt(ss, n, id) then Coalesce(a, ss[n].now) else a
    ensures StartFollows(ss, n + 1, id, b)
  {
    hide StartsAt;
    forall j: nat | FirstStart(ss, n + 1, j, id)
      ensures b == Some(ss[j].now)
    {
      assert j == n || FirstStart(ss, n, j, id);
    }
  }

  lemma EndNext(ss: seq<Timed>, n: nat, id: Id, a: Option<int>, b: Option<int>)
    requires n < |ss| && EndFollows(ss, n, id, a)
    requires b == if EndsAt(ss, n, id) then Some(ss[n].now) else a
    ensures EndFollows(ss, n + 1, id, b)
  {
    hide EndsAt;
    forall j: nat | LastEnd(ss, n + 1, j, id)
      ensures b == Some(ss[j].now)
    {
      assert j == n || LastEnd(ss, n, j, id);
    }
  }

  lemma EffectGives(ss: seq<Timed>, n: nat, id: Id)
    ensures n < |ss| && TakesEffect(ss, n, id) ==> !Given(ss[n].stmt).Pending?
  {
    hide Created, Untouched;
  }

  lemma NewRowFollows(ss: seq<Timed>, n: nat, id: Id)
    requires n < |ss| && !Created(ss, n, id) && Inserts(ss[n].stmt, id)
    ensures RowFollows(ss, n + 1, id, Row(ss[n].stmt.user, Pending, None, None, ss[n].stmt.action))
  {
    forall j: nat | j < n + 1
      ensures !TakesEffect(ss, j, id)
    {
    }
  }

  /**
   Main result, over every run: the statements alone give the whole row of a session. Its
   status is that of the last update that took effect, pending if none did; it started with
   the first that starts it, ended with the last that ends it, and belongs to the first insert.
   */
  lemma {:induction false} StatementsGiveRow(ss: seq<Timed>, n: nat, id: Id)
    requires n <= |ss|
    ensures Created(ss, n, id) <==> id in After(ss, n).rows
    ensures Created(ss, n, id) ==> RowFollows(ss, n, id, After(ss, n).rows[id])
    decreases n
  {
    hide After, Created, OwnerFollows, StatusFollows, StartFollows, EndFollows, TakesEffect;
    TableFollows(ss, n, id);
    if n == 0 {
      NothingCreated(ss, id);
    } else {
      var m := n - 1;
      StatementsGiveRow(ss, m, id);
      OneMore(ss, m, id);
      if Created(ss, m, id) {
        var a, b := After(ss, m).rows[id], After(ss, n).rows[id];
        OwnerNext(ss, m, id, a, b);
        StatusNext(ss, m, id, a.status, b.status);
        StartNext(ss, m, id, a.startedAt, b.startedAt);
        EndNext(ss, m, id, a.endedAt, b.endedAt);
      } else if Created(ss, n, id) {
        NewRowFollows(ss, m, id);
      }
    }
  }

  /** Statement j records this event: of a session that exists by then. */
  predicate RecordsAt(ss: seq<Timed>, j: nat, e: Event)
    requires j < |ss|
  {
    ss[j] == Timed(AddEvent(e.id, e.kind), e.time) && Created(ss, j, e.id)
  }

  /** And they give the events: exactly those recorded of sessions that existed by then. */
  lemma {:induction false} StatementsGiveEvents(ss: seq<Timed>, n: nat, e: Event)
    requires n <= |ss|
    ensures e in After(ss, n).events <==> exists j: nat :: j < n && RecordsAt(ss, j, e)
    decreases n
  {
    hide After, Created;
    if n == 0 {
      NothingCreated(ss, e.id);
    } else {
      var m := n - 1;
      StatementsGiveEvents(ss, m, e);
      OneEvent(ss, m, e);
      if j: nat :| j < n && RecordsAt(ss, j, e) {
        assert j == m || RecordsAt(ss, j, e);
      }
    }
  }

  lemma OneEvent(ss: seq<Timed>, n: nat, e: Event)
    requires n < |ss|
    ensures e in After(ss, n + 1).events <==> e in After(ss, n).events || RecordsAt(ss, n, e)
  {
    hide After, Created;
    TableFollows(ss, n, ss[n].stmt.id);
    AfterNext(ss, n);
  }

  // ---------------------------------------------------------------- an operation that succeeds

  /** None of the other statements in these turns updates the session. */
  predicate LeftAlone(env: seq<Turn>, id: Id) {
    forall i, k :: 0 <= i < |env| && 0 <= k < |env[i].others| ==> !Updates(env[i].others[k].stmt, id)
  }

  lemma ApplyElsewhere(db: Db, s: Stmt, now: int, id: Id)
    requires id in db.rows && !Updates(s, id)
    ensures var after := Apply(db, s, now);
            id in after.rows && after.rows[id] == db.rows[id] && db.events <= after.events
  {
  }

  lemma {:induction false} OthersElsewhere(db: Db, ss: seq<Timed>, id: Id)
    requires id in db.rows && forall k :: 0 <= k < |ss| ==> !Updates(ss[k].stmt, id)
    ensures var after := ApplyAll(db, ss);
            id in after.rows && after.rows[id] == db.rows[id] && db.events <= after.events
    decreases |ss|
  {
    hide Apply, Updates;
    if ss != [] {
      ApplyElsewhere(db, ss[0].stmt, ss[0].now, id);
      OthersElsewhere(Apply(db, ss[0].stmt, ss[0].now), ss[1..], id);
    }
  }

  lemma {:induction false} OwnElsewhere(db: Db, env: seq<Turn>, own: seq<Stmt>, id: Id)
    requires id in db.rows && LeftAlone(env, id) && forall k :: 0 <= k < |own| ==> !Updates(own[k], id)
    ensures var after := Execute(db, env, own).db;
            id in after.rows && after.rows[id] == db.rows[id] && db.events <= after.events
    decreases |own|
  {
    hide Apply, Updates;
    if own != [] {
      var here, t := Here(db, env), NextTurn(env);
      OthersElsewhere(db, t.others, id);
      if !t.fails && !Rejected(here, own[0]) {
        ApplyElsewhere(here, own[0], t.now, id);
        OwnElsewhere(Apply(here, own[0], t.now), Later(env), own[1..], id);
      }
    }
  }

  /** The row after an update at this time. */
  function Updated(r: Row, s: Stmt, now: int): Row {
    r.(status := Given(s), startedAt := if Starts(s) then Coalesce(r.startedAt, now) else r.startedAt,
       endedAt := if Ends(s) then Some(now) else r.endedAt)
  }

  /**
   Main result: an operation that updates a session and records an event of it has, when it
   succeeds, given the session that status, and the event is there; the row is the updated
   one unless another statement has updated it since. MarkShellStarted, MarkEnded and
   MarkFailed are such operations on any session, MarkProxyConnected on one that waits.
   */
  lemma OperationTakesEffect(db: Db, env: seq<Turn>, s: Stmt, kind: Kind, audits: seq<Stmt>)
    requires Unguarded(s, s.id) || (Updates(s, s.id) && Waits(Here(db, env), s.id))
    requires forall k :: 0 <= k < |audits| ==> audits[k].Audit?
    ensures var e := Execute(db, env, [s] + ([AddEvent(s.id, kind)] + audits));
            var here, now := Here(db, env), NextTurn(env).now;
            e.ok ==>
              && HasEvent(e.db, s.id, {kind})
              && (s.id in here.rows && LeftAlone(Later(env), s.id) ==>
                    s.id in e.db.rows && e.db.rows[s.id] == Updated(here.rows[s.id], s, now))
  {
    hide Apply, Here, Later, LeftAlone, HasEvent;
    var id, tail := s.id, [AddEvent(s.id, kind)] + audits;
    var here, now := Here(db, env), NextTurn(env).now;
    ExecuteCons(db, env, s, tail);
    ExecuteOne(db, env, s);
    var mid := Apply(here, s, now);
    if Execute(db, env, [s] + tail).ok {
      EventStays(mid, Later(env), id, kind, audits);
      if id in here.rows && LeftAlone(Later(env), id) {
        UpdateGives(here, s, now);
        OwnElsewhere(mid, Later(env), tail, id);
      }
    }
  }

  lemma ExecuteOne(db: Db, env: seq<Turn>, s: Stmt)
    ensures var e := Execute(db, env, [s]);
            e.ok ==> e == Executed(Apply(Here(db, env), s, NextTurn(env).now), Later(env), true)
                     && (s.AddEvent? ==> s.id in Here(db, env).rows)
  {
    hide Apply, Here, Later;
    assert [s][1..] == [];
  }

  lemma UpdateGives(db: Db, s: Stmt, now: int)
    requires Updates(s, s.id) && s.id in db.rows && (Unguarded(s, s.id) || Waits(db, s.id))
    ensures var after := Apply(db, s, now); s.id in after.rows && after.rows[s.id] == Updated(db.rows[s.id], s, now)
  {
  }

  lemma EventStays(db: Db, env: seq<Turn>, id: Id, kind: Kind, audits: seq<Stmt>)
    requires forall k :: 0 <= k < |audits| ==> audits[k].Audit?
    requires Execute(db, env, [AddEvent(id, kind)] + audits).ok
    ensures HasEvent(Execute(db, env, [AddEvent(id, kind)] + audits).db, id, {kind})
  {
    hide Here, Later;
    var here, now := Here(db, env), NextTurn(env).now;
    ExecuteCons(db, env, AddEvent(id, kind), audits);
    ExecuteOne(db, env, AddEvent(id, kind));
    var mid := Apply(here, AddEvent(id, kind), now);
    assert mid.events[|here.events|] == Event(id, kind, now);
    EventsKept(mid, Later(env), audits);
  }

  lemma {:induction false} EventsKept(db: Db, env: seq<Turn>, own: seq<Stmt>)
    ensures db.events <= Execute(db, env, own).db.events
    decreases |own|
  {
    hide Apply;
    if own != [] {
      var here, t := Here(db, env), NextTurn(env);
      ApplyAllKeeps(db, t.others);
      if !t.fails && !Rejected(here, own[0]) {
        ApplyKeeps(here, own[0], t.now);
        EventsKept(Apply(here, own[0], t.now), Later(env), own[1..]);
      }
    }
  }

  lemma UntouchedIsCreated(ss: seq<Timed>, n: nat, id: Id)
    ensures n <= |ss| ==> (Untouched(ss, n, id) ==> Created(ss, n, id))
  {
  }

  lemma {:induction false} StaysFine(ss: seq<Timed>, n: nat, id: Id)
    requires n <= |ss| && NeverReopened(ss, id)
    ensures !ActiveButEnded(After(ss, n), id)
    decreases n
  {
    hide After, EndedBefore;
    if n == 0 {
      NothingCreated(ss, id);
    } else {
      var m := n - 1;
      StaysFine(ss, m, id);
      TableFollows(ss, m, id);
      AfterNext(ss, m);
    }
  }

  /**
   Main result, over every run: that an active session has never ended, at any moment, holds
   if and only if no shell is started in it, unguarded, after a statement that ended it.
   */
  lemma ActiveHasNotEndedExactly(ss: seq<Timed>, id: Id)
    ensures (forall n :: 0 <= n <= |ss| ==> !ActiveButEnded(After(ss, n), id)) <==> NeverReopened(ss, id)
  {
    hide After, EndedBefore;
    if NeverReopened(ss, id) {
      forall n | 0 <= n <= |ss|
        ensures !ActiveButEnded(After(ss, n), id)
      {
        StaysFine(ss, n, id);
      }
    } else {
      var i :| 0 <= i < |ss| && EndedBefore(ss, i, id) && ss[i].stmt == Activate(id);
      TableFollows(ss, i, id);
      AfterNext(ss, i);
      assert ActiveButEnded(After(ss, i + 1), id);
    }
  }

  /** A shell that starts just after the sweep has failed its session: the session is active, and has ended. */
  lemma SweptThenStarted(id: Id, user: nat, action: string, now: int)
    ensures var ss := [Timed(Insert(id, user, action), now), Timed(FailIfPending(id), now), Timed(Activate(id), now)];
            ActiveButEnded(ApplyAll(EMPTY, ss), id)
  {
    var ss := [Timed(Insert(id, user, action), now), Timed(FailIfPending(id), now), Timed(Activate(id), now)];
    assert Inserts(ss[0].stmt, id) && Created(ss, 1, id);
    assert Untouched(ss, 1, id) && EndsAt(ss, 1, id) && EndedBefore(ss, 2, id);
    TableFollows(ss, 2, id);
    AfterNext(ss, 2);
    assert ss[..3] == ss;
  }

  // ---------------------------------------------------------------- leaving a final status

  predicate Final(db: Db, id: Id) {
    id in db.rows && (db.rows[id].status.Completed? || db.rows[id].status.Failed?)
  }

  /** A completed or failed session keeps its row as long as no unguarded statement updates it. */
  lemma {:induction false} FinalStays(db: Db, ss: seq<Timed>, id: Id)
    requires Final(db, id) && forall k :: 0 <= k < |ss| ==> !Unguarded(ss[k].stmt, id)
    ensures Final(ApplyAll(db, ss), id) && ApplyAll(db, ss).rows[id] == db.rows[id]
    decreases |ss|
  {
    if ss != [] {
      FinalStays(Apply(db, ss[0].stmt, ss[0].now), ss[1..], id);
    }
  }
}
