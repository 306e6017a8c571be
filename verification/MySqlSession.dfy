/** What a whole session does with the octets of both peers. */
module MySqlSession {
  import opened Bytes
  import opened MySqlWire
  import opened MySqlRelay
  import opened MySqlSynthetic
  import opened MySqlForward

  // ---------------------------------------------------------------- also when it fails

  /** However a relay ends, it has passed on nothing but what it was sent. */
  predicate PassesPrefix(r: Outcome, up: seq<byte>, cl: seq<byte>) {
    r.toClient <= up && r.toUpstream <= cl
  }

  lemma PrependPrefix(a: seq<byte>, b: seq<byte>, r: Outcome, up: seq<byte>, cl: seq<byte>)
    ensures PassesPrefix(r, up, cl) ==> PassesPrefix(Prepend(a, b, r), a + up, b + cl)
  {
  }

  lemma {:induction false} RunPrefix(st: State, up: seq<byte>, cl: seq<byte>)
    ensures PassesPrefix(Run(st, up, cl), up, cl)
    decreases |up| + |cl|
  {
    hide Step, Encode, Decode;
    if st.File? && Decode(cl).Got? {
      EncodeDecode(cl);
      var p, rest := Decode(cl).packet, Decode(cl).rest;
      RunPrefix(Step(st, p.payload), up, rest);
      PrependPrefix([], Encode(p), Run(Step(st, p.payload), up, rest), up, rest);
      assert [] + up == up;
    } else if !st.Stop? && !st.File? && Decode(up).Got? {
      EncodeDecode(up);
      var p, rest := Decode(up).packet, Decode(up).rest;
      RunPrefix(Step(st, p.payload), rest, cl);
      PrependPrefix(Encode(p), [], Run(Step(st, p.payload), rest, cl), rest, cl);
      assert [] + cl == cl;
    }
  }

  lemma {:induction false} ChainPrefix(up: seq<byte>, cl: seq<byte>)
    ensures PassesPrefix(RunChain(up, cl), up, cl)
    decreases |up|
  {
    hide Run;
    var r := Run(First, up, cl);
    RunPrefix(First, up, cl);
    if r.end == Done(true) {
      RunTransparent(First, up, cl);
      ChainPrefix(r.upRest, r.clRest);
      PrependPrefix(r.toClient, r.toUpstream, RunChain(r.upRest, r.clRest), r.upRest, r.clRest);
    }
  }

  lemma RelayConserves(relay: Relay, up: seq<byte>, cl: seq<byte>)
    ensures var r := RelayOutcome(relay, up, cl);
            PassesPrefix(r, up, cl) && (r.end.Done? ==> Transparent(r, up, cl))
  {
    hide Run, RunChain;
    match relay
    case NoResponse => assert [] + up == up && [] + cl == cl;
    case FullResponse =>
      ChainPrefix(up, cl);
      if RunChain(up, cl).end.Done? { ChainTransparent(up, cl); }
    case PrepareResponse(_) =>
      RunPrefix(FirstOfPrepare, up, cl);
      if Run(FirstOfPrepare, up, cl).end.Done? { RunTransparent(FirstOfPrepare, up, cl); }
    case FieldListResponse =>
      RunPrefix(FieldList, up, cl);
      if Run(FieldList, up, cl).end.Done? { RunTransparent(FieldList, up, cl); }
  }

  // ---------------------------------------------------------------- conservation

  /** All that was read from the client. */
  function ReadOf(h: seq<Exchange>): seq<byte> {
    if h == [] then [] else h[0].read + ReadOf(h[1..])
  }

  /** All that was read for commands the proxy did not answer itself. */
  function Forwarded(h: seq<Exchange>): seq<byte> {
    if h == [] then [] else (if h[0].local then [] else h[0].read) + Forwarded(h[1..])
  }

  /** All that was shown to the client. */
  function ShownOf(h: seq<Exchange>): seq<byte> {
    if h == [] then [] else h[0].shown + ShownOf(h[1..])
  }

  /** All that was shown to the client and was not the proxy's own answer. */
  function Relayed(h: seq<Exchange>): seq<byte> {
    if h == [] then [] else (if h[0].local then [] else h[0].shown) + Relayed(h[1..])
  }

  /** How a query is answered: as what it is classified as; as a SELECT of a variable, if it is no probe. */
  function ProbeOf(cfg: Config, q: seq<byte>): Probe {
    if cfg.classify(q).NoProbe? then SelectVarProbe else cfg.classify(q)
  }

  /** The proxy's own answer is to a query packet p, all that was read, and is the one for its kind of probe. */
  ghost predicate AnsweredOk(cfg: Config, x: Exchange) {
    x.local ==>
      exists p: Packet ::
        && x.read == Encode(p) && x.command == p.payload && IsQuery(p.payload)
        && x.shown == EncodeAll(AnswerPackets(ProbeOf(cfg, Sql(p.payload)), p.seqId))
  }

  /** The octets of one turn: what it leaves of both streams follows what it took from them. */
  predicate TurnConserves(x: Exchange, one: Outcome, up: seq<byte>, cl: seq<byte>) {
    && x.shown == one.toClient && one.toUpstream == (if x.local then [] else x.read)
    && x.read <= cl && (if x.local then [] else x.shown) <= up
    && (one.end.Done? ==>
          && x.read + one.clRest == cl
          && (if x.local then [] else x.shown) + one.upRest == up)
  }

  lemma OneTurn(cfg: Config, d: Decision, p: Packet, up: seq<byte>, rest: seq<byte>)
    requires d.action.Answer? ==> IsQuery(p.payload) && d.action.probe == ProbeOf(cfg, Sql(p.payload))
    ensures var one := CommandOutcome(d.action, p, up, rest);
            var x := ExchangeOf(d, p, one, up);
            TurnConserves(x, one, up, Encode(p) + rest) && AnsweredOk(cfg, x)
  {
    hide Encode, RelayOutcome, AnswerPackets, EncodeAll, PreparedId, Sql;
    var one := CommandOutcome(d.action, p, up, rest);
    assert [] + up == up;
    match d.action
    case Quit =>
    case Answer(probe) =>
    case Forward(relay) =>
      RelayConserves(relay, up, rest);
      PrependPrefix([], Encode(p), RelayOutcome(relay, up, rest), up, rest);
      if one.end.Done? {
        PrependTransparent([], Encode(p), RelayOutcome(relay, up, rest), up, rest);
      }
  }

  lemma AnswerIsToQuery(cfg: Config, m: Memory, command: seq<byte>)
    ensures var action := Decide(cfg, m, command).action;
            action.Answer? ==> IsQuery(command) && action.probe == ProbeOf(cfg, Sql(command))
  {
    hide Sql, Truncate;
  }

  /** The octets of one turn, then those of the others. */
  lemma Chained(a: seq<byte>, a': seq<byte>, all: seq<byte>, mid: seq<byte>, rest: seq<byte>)
    requires a + mid == all
    ensures a' + rest == mid ==> (a + a') + rest == all
    ensures a' <= mid ==> a + a' <= all
  {
  }

  /**
   Main result, for every session, however it ends: what went to the server is what was
   read from the client, less the commands the proxy answered itself; what was shown to
   the client is what the server sent, with those answers put in between. Both parts are
   the beginnings of what the peers sent and, when the client quits, end where the
   session stopped reading.
   */
  lemma {:induction false} SessionConserves(cfg: Config, m: Memory, up: seq<byte>, cl: seq<byte>)
    ensures var s := Session(cfg, m, up, cl);
            && s.io.toUpstream == Forwarded(s.history) && s.io.toClient == ShownOf(s.history)
            && ReadOf(s.history) <= cl && Relayed(s.history) <= up
            && (s.io.end.Done? ==>
                  ReadOf(s.history) + s.io.clRest == cl && Relayed(s.history) + s.io.upRest == up)
            && forall x :: x in s.history ==> AnsweredOk(cfg, x)
    decreases |cl|
  {
    hide Decide, ExchangeOf, MemoryAfter, CommandOutcome, Encode, Decode, AnsweredOk;
    if Decode(cl).Got? {
      EncodeDecode(cl);
      var p, rest := Decode(cl).packet, Decode(cl).rest;
      var d := Decide(cfg, m, p.payload);
      var one := CommandOutcome(d.action, p, up, rest);
      var x := ExchangeOf(d, p, one, up);
      AnswerIsToQuery(cfg, m, p.payload);
      OneTurn(cfg, d, p, up, rest);
      if d.action.Quit? || one.end.Failed? {
        OneExchangeOnly(x);
        assert Session(cfg, m, up, cl) == Dialogue(one, [x]);
      } else {
        var m' := MemoryAfter(d, up);
        var s := Session(cfg, m', one.upRest, one.clRest);
        SessionConserves(cfg, m', one.upRest, one.clRest);
        FirstExchange(x, s.history);
        Chained(x.read, ReadOf(s.history), cl, one.clRest, s.io.clRest);
        Chained(if x.local then [] else x.shown, Relayed(s.history), up, one.upRest, s.io.upRest);
      }
    }
  }

  lemma FirstExchange(x: Exchange, h: seq<Exchange>)
    ensures ReadOf([x] + h) == x.read + ReadOf(h) && ShownOf([x] + h) == x.shown + ShownOf(h)
    ensures Forwarded([x] + h) == (if x.local then [] else x.read) + Forwarded(h)
    ensures Relayed([x] + h) == (if x.local then [] else x.shown) + Relayed(h)
  {
    assert ([x] + h)[1..] == h;
  }

  lemma OneExchangeOnly(x: Exchange)
    ensures ReadOf([x]) == x.read && ShownOf([x]) == x.shown
    ensures Forwarded([x]) == (if x.local then [] else x.read)
    ensures Relayed([x]) == (if x.local then [] else x.shown)
  {
    assert [x] + [] == [x];
    FirstExchange(x, []);
    assert x.read + [] == x.read && x.shown + [] == x.shown;
  }

  /** An answer to a packet with this id: one row, holding NULL, in a column "value". */
  ghost predicate OneNullRow(seqId: byte, r: Response) {
    && r.ResultSet? && r.seqId as int == (seqId as int + 1) % 256
    && |r.columns| == |r.rows| == 1 && Defines(r.columns[0].payload, VALUE)
    && ReadTexts(1, r.rows[0].payload) == Texts([None], [])
  }

  /** No rows, in the columns "Variable_name" and "Value". */
  ghost predicate NoRows(seqId: byte, r: Response) {
    && r.ResultSet? && r.seqId as int == (seqId as int + 1) % 256
    && |r.columns| == 2 && r.rows == []
    && Defines(r.columns[0].payload, VARIABLE_NAME) && Defines(r.columns[1].payload, VALUE_COLUMN)
  }

  /** Nothing affected, no warnings. */
  predicate PlainOk(seqId: byte, r: Response) {
    && r.OkResponse? && r.seqId as int == (seqId as int + 1) % 256
    && r.affectedRows == r.lastInsertId == 0 && r.status == AUTOCOMMIT && r.info == [0, 0]
  }

  /**
   The answers, as a client reads them: to a probe for a variable one NULL, to one that
   lists variables no row, to others an OK packet; all well formed, and with nothing to follow.
   */
  lemma AnswersRead(probe: Probe, seqId: byte) returns (r: Response)
    ensures EncodeAll(AnswerPackets(probe, seqId)) == ServerBytes([r]) && WellFormedChain([r])
    ensures match probe
            case SelectVarProbe => OneNullRow(seqId, r)
            case ShowVarProbe => NoRows(seqId, r)
            case _ => PlainOk(seqId, r)
  {
    hide EncodeAll, Defines, ReadTexts, SyntheticPackets, AsResponse, WellFormed, ServerPackets;
    match probe {
      case SelectVarProbe =>
        r := AsResponse(seqId, [VALUE], [[None]]);
        SyntheticAnswer(seqId, [VALUE], [[None]]);
        assert Shown(1, [None]) == [None];
      case ShowVarProbe =>
        r := AsResponse(seqId, [VARIABLE_NAME, VALUE_COLUMN], []);
        SyntheticAnswer(seqId, [VARIABLE_NAME, VALUE_COLUMN], []);
      case _ =>
        r := OkResponse(Next(seqId), 0, 0, AUTOCOMMIT, [0, 0]);
        OkAnswer(seqId);
    }
    OneOfOne(r);
  }

  lemma SyntheticAnswer(seqId: byte, columns: seq<seq<byte>>, rows: Rows)
    requires 0 < |columns| <= 250
    ensures var r := AsResponse(seqId, columns, rows);
            && ServerPackets(r) == SyntheticPackets(seqId, columns, rows) && WellFormed(r) && !Announces(r)
            && r.ResultSet? && r.seqId as int == (seqId as int + 1) % 256
            && |r.columns| == |columns| && |r.rows| == |rows|
            && (forall i :: 0 <= i < |columns| ==> Defines(r.columns[i].payload, columns[i]))
            && forall i :: 0 <= i < |rows| ==>
                 ReadTexts(|columns|, r.rows[i].payload) == Texts(Shown(|columns|, rows[i]), [])
  {
    hide Defines, ReadTexts, SyntheticPackets, WellFormed, Announces;
    ResponseIsSynthetic(seqId, columns, rows);
    ResponseWellFormed(seqId, columns, rows);
    ResultReadBack(seqId, columns, rows);
    assert ServerPackets(AsResponse(seqId, columns, rows))[0].seqId == AsResponse(seqId, columns, rows).seqId;
  }

  lemma OkAnswer(seqId: byte)
    ensures var r := OkResponse(Next(seqId), 0, 0, AUTOCOMMIT, [0, 0]);
            && ServerPackets(r) == [Packet(Next(seqId), OkPayload(0, 0, AUTOCOMMIT, 0))]
            && WellFormed(r) && !Announces(r)
  {
    assert PutLe(0, 1) == [0] && PutLe(0, 2) == [0, 0];
    assert |OkPayload(0, 0, AUTOCOMMIT, 0)| == 7;
  }

  lemma OneOfOne(r: Response)
    requires WellFormed(r) && !Announces(r)
    ensures WellFormedChain([r]) && ServerBytes([r]) == EncodeAll(ServerPackets(r))
  {
    hide WellFormed, Announces, EncodeAll;
    assert [r][1..] == [] && ServerBytes([]) == [];
    assert EncodeAll(ServerPackets(r)) + [] == EncodeAll(ServerPackets(r));
  }

  // ---------------------------------------------------------------- how many answers of its own

  /** The number of start-up probes answered, other than those about query_cache_size. */
  function ProbesAnswered(cfg: Config, h: seq<Exchange>): nat {
    if h == [] then 0
    else
      (if h[0].local && h[0].command != [] && !cfg.legacy(Sql(h[0].command)) then 1 else 0)
      + ProbesAnswered(cfg, h[1..])
  }

  /** A query answered because of start-up counts, and no other command does. */
  lemma ProbeCounts(cfg: Config, m: Memory, q: seq<byte>)
    ensures var d := DecideQuery(cfg, m, q);
            && (d.action.Answer? && !cfg.legacy(q) ==>
                  m.startup && m.probes < STARTUP_PROBE_LIMIT && d.memory.probes == m.probes + 1)
            && (!(d.action.Answer? && !cfg.legacy(q)) ==> d.memory.probes == m.probes)
            && (d.memory.startup ==> m.startup)
  {
  }

  /** In a whole session the proxy answers at most 24 start-up probes itself, besides those about query_cache_size. */
  lemma {:induction false} FewProbesAnswered(cfg: Config, m: Memory, up: seq<byte>, cl: seq<byte>)
    requires m.probes <= STARTUP_PROBE_LIMIT
    ensures var n := ProbesAnswered(cfg, Session(cfg, m, up, cl).history);
            n + m.probes <= STARTUP_PROBE_LIMIT && (!m.startup ==> n == 0)
    decreases |cl|
  {
    hide DecideQuery, CommandOutcome, Encode, Decode, Sql, PreparedBy, Truncate, Le;
    if Decode(cl).Got? {
      var p, rest := Decode(cl).packet, Decode(cl).rest;
      var d := Decide(cfg, m, p.payload);
      var one := CommandOutcome(d.action, p, up, rest);
      var x := ExchangeOf(d, p, one, up);
      if p.payload != [] {
        ProbeCounts(cfg, m, Sql(p.payload));
      }
      if d.action.Quit? || one.end.Failed? {
        assert [x][1..] == [];
      } else {
        var m' := MemoryAfter(d, up);
        FewProbesAnswered(cfg, m', one.upRest, one.clRest);
        assert ([x] + Session(cfg, m', one.upRest, one.clRest).history)[1..]
               == Session(cfg, m', one.upRest, one.clRest).history;
      }
    }
  }
}
