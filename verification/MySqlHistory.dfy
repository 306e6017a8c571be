/** What a session logs and what the proxy answers itself, against the history of the session. */
module MySqlHistory {
  import opened Bytes
  import opened MySqlWire
  import opened MySqlRelay
  import opened Text
  import opened MySqlForward
  import opened MySqlSession

  /** A successful PREPARE, of a statement that is not blank, answered with this id. */
  predicate Binds(x: Exchange, id: nat) {
    x.prepared.Some? && x.prepared.value.id == id
  }

  /** COM_STMT_CLOSE of this id. */
  predicate Unbinds(x: Exchange, id: nat) {
    |x.command| >= 5 && x.command[0] == COM_STMT_CLOSE && StatementId(x.command) == id
  }

  /** COM_STMT_EXECUTE, long enough to name a statement. */
  predicate Executes(x: Exchange) {
    |x.command| >= 5 && x.command[0] == COM_STMT_EXECUTE
  }

  /** Exchange k is the last in h that prepared id, and id has not been closed since. */
  predicate LastBinding(h: seq<Exchange>, id: nat, k: int) {
    0 <= k < |h| && Binds(h[k], id) && forall j :: k < j < |h| ==> !Binds(h[j], id) && !Unbinds(h[j], id)
  }

  /** The statement bound to id after h, looked up backwards. */
  function Bound(h: seq<Exchange>, id: nat): Option<seq<byte>> {
    if h == [] then None
    else
      var last := h[|h| - 1];
      if Binds(last, id) then Some(last.prepared.value.sql)
      else if Unbinds(last, id) then None
      else Bound(h[..|h| - 1], id)
  }

  lemma {:induction false} BoundIsLastBinding(h: seq<Exchange>, id: nat)
    ensures forall k :: LastBinding(h, id, k) ==> Bound(h, id) == Some(h[k].prepared.value.sql)
    ensures Bound(h, id).Some? ==> exists k :: LastBinding(h, id, k)
    decreases |h|
  {
    hide Unbinds;
    if h != [] {
      var n := |h| - 1;
      BoundIsLastBinding(h[..n], id);
      if Binds(h[n], id) {
        assert LastBinding(h, id, n);
      } else {
        forall k | LastBinding(h, id, k)
          ensures LastBinding(h[..n], id, k)
        {
        }
        if !Unbinds(h[n], id) {
          forall k | LastBinding(h[..n], id, k)
            ensures LastBinding(h, id, k)
          {
          }
        }
      }
    }
  }

  /** A client starts up as long as it sends nothing but queries that are blank, or answered by the proxy itself. */
  predicate StartingUp(h: seq<Exchange>) {
    forall i :: 0 <= i < |h| ==> Harmless(h[i])
  }

  predicate Harmless(x: Exchange) {
    x.command == [] || (IsQuery(x.command) && (Sql(x.command) == [] || x.local))
  }

  /**
   The queries that the proxy answers itself: those about query_cache_size, and start-up
   probes, until 24 of these have been answered.
   */
  predicate AnsweredHere(cfg: Config, before: seq<Exchange>, command: seq<byte>) {
    IsQuery(command)
    && var q := Sql(command);
       && q != []
       && (|| cfg.legacy(q)
           || (StartingUp(before) && !cfg.classify(q).NoProbe? && ProbesAnswered(cfg, before) < STARTUP_PROBE_LIMIT))
  }

  /** What the loop remembers is what the history says. */
  ghost predicate Tracks(cfg: Config, m: Memory, h: seq<Exchange>) {
    && (forall id :: Bound(h, id) == if id in m.stmts then Some(m.stmts[id]) else None)
    && (m.startup <==> StartingUp(h)) && m.probes == ProbesAnswered(cfg, h)
  }

  /** What exchange x should log, and who should answer it, given the history before it. */
  predicate LogsRight(cfg: Config, before: seq<Exchange>, x: Exchange) {
    && (x.local <==> AnsweredHere(cfg, before, x.command))
    && x.logged == (if Executes(x) then
                      match Bound(before, StatementId(x.command))
                      case None => []
                      case Some(sql) => [Entry(Truncate(sql, cfg.maxBytes), true)]
                    else if IsQuery(x.command) && Sql(x.command) != [] && !x.local then
                      [Entry(Truncate(Sql(x.command), cfg.maxBytes), false)]
                    else [])
  }

  /** What deciding about a command does, before its response binds a statement. */
  predicate DecidesRight(cfg: Config, m: Memory, command: seq<byte>, d: Decision) {
    && d.memory.stmts == (if |command| >= 5 && command[0] == COM_STMT_CLOSE then m.stmts - {StatementId(command)}
                          else m.stmts)
    && (d.action.Answer? <==>
          && IsQuery(command) && Sql(command) != []
          && (|| cfg.legacy(Sql(command))
              || (m.startup && !cfg.classify(Sql(command)).NoProbe? && m.probes < STARTUP_PROBE_LIMIT)))
    && (!d.action.Quit? ==>
          (d.memory.startup <==>
             m.startup && (command == [] || (IsQuery(command) && (Sql(command) == [] || d.action.Answer?)))))
    && d.memory.probes == m.probes + (if d.action.Answer? && !cfg.legacy(Sql(command)) then 1 else 0)
    && d.logged == (if |command| >= 5 && command[0] == COM_STMT_EXECUTE then
                      if StatementId(command) in m.stmts
                      then [Entry(Truncate(m.stmts[StatementId(command)], cfg.maxBytes), true)] else []
                    else if IsQuery(command) && Sql(command) != [] && !d.action.Answer? then
                      [Entry(Truncate(Sql(command), cfg.maxBytes), false)]
                    else [])
    && (d.action.Forward? && d.action.relay.PrepareResponse? ==> command != [] && command[0] == COM_STMT_PREPARE)
  }

  lemma DecideDecidesRight(cfg: Config, m: Memory, command: seq<byte>)
    ensures DecidesRight(cfg, m, command, Decide(cfg, m, command))
  {
    hide Sql, Truncate, Le;
  }

  lemma OneExchange(cfg: Config, m: Memory, d: Decision, p: Packet, one: Outcome, up: seq<byte>, past: seq<Exchange>)
    requires Tracks(cfg, m, past) && DecidesRight(cfg, m, p.payload, d)
    ensures var x := ExchangeOf(d, p, one, up);
            LogsRight(cfg, past, x) && (!d.action.Quit? ==> Tracks(cfg, MemoryAfter(d, up), past + [x]))
  {
    hide PreparedId, Truncate, Le, Encode, Bound, Sql, StartingUp, ProbesAnswered;
    var x := ExchangeOf(d, p, one, up);
    var after := MemoryAfter(d, up).stmts;
    forall id
      ensures Bound(past + [x], id) == if id in after then Some(after[id]) else None
    {
      BoundStep(past, x, id);
      assert Bound(past, id) == if id in m.stmts then Some(m.stmts[id]) else None;
    }
    StartingUpStep(past, x);
    ProbesStep(cfg, past, x);
  }

  lemma StartingUpStep(past: seq<Exchange>, x: Exchange)
    ensures StartingUp(past + [x]) <==> StartingUp(past) && Harmless(x)
  {
    hide Harmless;
    var h := past + [x];
    assert h[|past|] == x && forall i :: 0 <= i < |past| ==> h[i] == past[i];
  }

  lemma {:induction false} ProbesStep(cfg: Config, past: seq<Exchange>, x: Exchange)
    ensures ProbesAnswered(cfg, past + [x])
            == ProbesAnswered(cfg, past)
               + (if x.local && x.command != [] && !cfg.legacy(Sql(x.command)) then 1 else 0)
  {
    hide Sql;
    var h := past + [x];
    if past == [] {
      assert h[1..] == [];
    } else {
      assert h[1..] == past[1..] + [x];
      ProbesStep(cfg, past[1..], x);
    }
  }

  lemma BoundStep(past: seq<Exchange>, x: Exchange, id: nat)
    ensures Bound(past + [x], id)
            == if Binds(x, id) then Some(x.prepared.value.sql) else if Unbinds(x, id) then None else Bound(past, id)
  {
    assert (past + [x])[..|past|] == past;
  }

  /** Every exchange of h logs what it should, h coming after past. */
  predicate AllLogRight(cfg: Config, past: seq<Exchange>, h: seq<Exchange>) {
    forall i :: 0 <= i < |h| ==> LogsRight(cfg, past + h[..i], h[i])
  }

  lemma AllLogRightCons(cfg: Config, past: seq<Exchange>, x: Exchange, t: seq<Exchange>)
    requires LogsRight(cfg, past, x) && AllLogRight(cfg, past + [x], t)
    ensures AllLogRight(cfg, past, [x] + t)
  {
    hide LogsRight;
    var h := [x] + t;
    forall i | 0 <= i < |h|
      ensures LogsRight(cfg, past + h[..i], h[i])
    {
      if i == 0 {
        assert past + h[..0] == past;
      } else {
        assert past + h[..i] == (past + [x]) + t[..i - 1] && h[i] == t[i - 1];
      }
    }
  }

  lemma {:induction false} SessionLogsRight(cfg: Config, m: Memory, up: seq<byte>, cl: seq<byte>, past: seq<Exchange>)
    requires Tracks(cfg, m, past)
    ensures AllLogRight(cfg, past, Session(cfg, m, up, cl).history)
    decreases |cl|
  {
    hide Decide, DecidesRight, ExchangeOf, MemoryAfter, CommandOutcome, Tracks, AllLogRight, LogsRight;
    var h := Session(cfg, m, up, cl).history;
    if Decode(cl).Short? {
      NoneLogRight(cfg, past);
    } else {
      var p, rest := Decode(cl).packet, Decode(cl).rest;
      var d := Decide(cfg, m, p.payload);
      var one := CommandOutcome(d.action, p, up, rest);
      var x := ExchangeOf(d, p, one, up);
      DecideDecidesRight(cfg, m, p.payload);
      OneExchange(cfg, m, d, p, one, up, past);
      if d.action.Quit? || one.end.Failed? {
        NoneLogRight(cfg, past + [x]);
        AllLogRightCons(cfg, past, x, []);
        assert h == [x] + [];
      } else {
        SessionLogsRight(cfg, MemoryAfter(d, up), one.upRest, one.clRest, past + [x]);
        AllLogRightCons(cfg, past, x, Session(cfg, MemoryAfter(d, up), one.upRest, one.clRest).history);
      }
    }
  }

  lemma NoneLogRight(cfg: Config, past: seq<Exchange>)
    ensures AllLogRight(cfg, past, [])
  {
  }

  /** What an exchange binds is the statement of its PREPARE. */
  predicate BindsItsOwn(x: Exchange) {
    x.prepared.Some? ==>
      && x.command != [] && x.command[0] == COM_STMT_PREPARE
      && x.prepared.value.sql == Sql(x.command) && Sql(x.command) != []
  }

  lemma {:induction false} AllBindTheirOwn(cfg: Config, m: Memory, up: seq<byte>, cl: seq<byte>)
    ensures forall x :: x in Session(cfg, m, up, cl).history ==> BindsItsOwn(x)
    decreases |cl|
  {
    hide MemoryAfter, CommandOutcome, Encode, Sql, PreparedId, Truncate, Le;
    if Decode(cl).Got? {
      var p, rest := Decode(cl).packet, Decode(cl).rest;
      var d := Decide(cfg, m, p.payload);
      var one := CommandOutcome(d.action, p, up, rest);
      assert BindsItsOwn(ExchangeOf(d, p, one, up));
      if !d.action.Quit? && one.end.Done? {
        AllBindTheirOwn(cfg, MemoryAfter(d, up), one.upRest, one.clRest);
      }
    }
  }

  /**
   Main result: in every session, an execution of statement id is logged exactly
   when some earlier PREPARE bound that id and it has not been bound again or closed
   since, and then with the (truncated) SQL of that PREPARE. Nothing else is logged
   as a prepared execution.
   */
  lemma ExecutionsCarryTheirStatement(cfg: Config, up: seq<byte>, cl: seq<byte>, i: nat)
    requires i < |Session(cfg, FRESH, up, cl).history|
    ensures var h := Session(cfg, FRESH, up, cl).history;
            && (forall x :: x in h ==> BindsItsOwn(x))
            && if Executes(h[i]) then
                 var id := StatementId(h[i].command);
                 && (h[i].logged != [] <==> exists k :: LastBinding(h[..i], id, k))
                 && (forall k :: LastBinding(h[..i], id, k) ==>
                       h[i].logged == [Entry(Truncate(h[k].prepared.value.sql, cfg.maxBytes), true)])
               else forall e :: e in h[i].logged ==> !e.prepared
  {
    hide Session, BindsItsOwn, Bound, Binds, Unbinds, Truncate, Le;
    var h := Session(cfg, FRESH, up, cl).history;
    AllBindTheirOwn(cfg, FRESH, up, cl);
    StartTracks(cfg);
    SessionLogsRight(cfg, FRESH, up, cl, []);
    assert [] + h[..i] == h[..i];
    assert LogsRight(cfg, [] + h[..i], h[i]);
    if Executes(h[i]) {
      BoundIsLastBinding(h[..i], StatementId(h[i].command));
    }
  }

  lemma StartTracks(cfg: Config)
    ensures Tracks(cfg, FRESH, [])
  {
  }

  // ---------------------------------------------------------------- what is logged

  /**
   Main result, in every session: the proxy answers a query itself exactly as told above; every
   other query that is not blank is logged with its (truncated) text, and no other command
   is logged as a plain query.
   */
  lemma QueriesAreLogged(cfg: Config, up: seq<byte>, cl: seq<byte>, i: nat)
    requires i < |Session(cfg, FRESH, up, cl).history|
    ensures var h := Session(cfg, FRESH, up, cl).history;
            var x := h[i];
            && (x.local <==> AnsweredHere(cfg, h[..i], x.command))
            && (if IsQuery(x.command) && Sql(x.command) != [] && !x.local then
                  x.logged == [Entry(Truncate(Sql(x.command), cfg.maxBytes), false)]
                else forall e :: e in x.logged ==> e.prepared)
            && (x.logged != [] ==> IsQuery(x.command) || Executes(x))
  {
    hide Session, Bound, Truncate, Le, Sql, AnsweredHere;
    var h := Session(cfg, FRESH, up, cl).history;
    StartTracks(cfg);
    SessionLogsRight(cfg, FRESH, up, cl, []);
    assert [] + h[..i] == h[..i];
    assert LogsRight(cfg, [] + h[..i], h[i]);
  }

  lemma {:induction false} TrimZerosKeeps(s: seq<byte>) returns (n: nat)
    ensures n <= |s| && TrimZeros(s) == s[..n] && (n > 0 ==> s[n - 1] != 0) && forall k :: n <= k < |s| ==> s[k] == 0
  {
    n := |s|;
    if s != [] && s[|s| - 1] == 0 {
      n := TrimZerosKeeps(s[..|s| - 1]);
    } else {
      assert s[..n] == s;
    }
  }

  /** The text of a command: what it holds after its first octet, without zeros at the end and white space around. */
  lemma SqlText(command: seq<byte>) returns (n: nat)
    requires command != []
    ensures 1 <= n <= |command| && (n > 1 ==> command[n - 1] != 0) && forall k :: n <= k < |command| ==> command[k] == 0
    ensures Between(command[1..n], Sql(command))
  {
    hide TrimZeros, Between;
    var m := TrimZerosKeeps(command[1..]);
    n := m + 1;
    assert command[1..][..m] == command[1..n];
    assert forall k :: n <= k < |command| ==> command[k] == command[1..][k - 1];
    TrimExactly(command[1..n], Sql(command));
  }

  /** A logged text is a beginning of its statement: all of it unless there is a limit below its length. */
  lemma TruncateKeeps(v: seq<byte>, max: int)
    ensures Truncate(v, max) <= v
    ensures |Truncate(v, max)| == if 0 < max < |v| then max else |v|
  {
  }

  // ---------------------------------------------------------------- commands without a reply

  /** The client is shown nothing for such a command, and nothing more is read from it. */
  ghost predicate Quiet(x: Exchange) {
    x.command == [] || x.command[0] in {COM_STMT_CLOSE, COM_STMT_SEND_LONG_DATA, COM_QUIT} ==>
      x.shown == [] && exists p: Packet :: x.read == Encode(p) && p.payload == x.command
  }

  lemma DecideQuiet(cfg: Config, m: Memory, command: seq<byte>)
    ensures var action := Decide(cfg, m, command).action;
            && (command == [] || command[0] in {COM_STMT_CLOSE, COM_STMT_SEND_LONG_DATA, COM_QUIT} ==>
                  action == Quit || action == Forward(NoResponse))
            && (action.Quit? <==> command != [] && command[0] == COM_QUIT)
  {
    hide Sql, Truncate, Le;
  }

  predicate Quits(x: Exchange) {
    x.command != [] && x.command[0] == COM_QUIT
  }

  predicate OnlyLastQuits(h: seq<Exchange>) {
    forall i :: 0 <= i < |h| - 1 ==> !Quits(h[i])
  }

  lemma OnlyLastQuitsCons(x: Exchange, h: seq<Exchange>)
    requires !Quits(x) && OnlyLastQuits(h)
    ensures OnlyLastQuits([x] + h)
  {
  }

  /** In every session, commands without a reply read and show nothing more, and nothing follows a COM_QUIT. */
  lemma {:induction false} QuietCommands(cfg: Config, m: Memory, up: seq<byte>, cl: seq<byte>)
    ensures var h := Session(cfg, m, up, cl).history;
            (forall x :: x in h ==> Quiet(x)) && OnlyLastQuits(h)
    decreases |cl|
  {
    hide Decide, RelayOutcome, MemoryAfter, Encode, PreparedBy, AnswerPackets, EncodeAll;
    if Decode(cl).Got? {
      var p, rest := Decode(cl).packet, Decode(cl).rest;
      var d := Decide(cfg, m, p.payload);
      var one := CommandOutcome(d.action, p, up, rest);
      var x := ExchangeOf(d, p, one, up);
      DecideQuiet(cfg, m, p.payload);
      NothingAdded(p, up, rest);
      assert Quiet(x);
      if !d.action.Quit? && one.end.Done? {
        QuietCommands(cfg, MemoryAfter(d, up), one.upRest, one.clRest);
        OnlyLastQuitsCons(x, Session(cfg, MemoryAfter(d, up), one.upRest, one.clRest).history);
      }
    }
  }

  lemma NothingAdded(p: Packet, up: seq<byte>, cl: seq<byte>)
    ensures CommandOutcome(Forward(NoResponse), p, up, cl) == Outcome([], Encode(p), up, cl, Done(false))
  {
    assert Encode(p) + [] == Encode(p);
  }
}
