/**
 The command loop: read a command, log it or answer it or forward it, relay the
 response. `Session` is the whole dialogue as a function of what both peers send;
 `ForwardCommands` is the loop, proved to carry it out; and the query log is
 compared with the history of the session.
 */
module MySqlForward {
  import opened Bytes
  import opened Text
  import opened Streams
  import opened MySqlWire
  import opened MySqlRelay
  import opened MySqlRelayLoops
  import opened MySqlSynthetic

  const COM_QUIT: byte := 0x01
  const COM_QUERY: byte := 0x03
  const COM_FIELD_LIST: byte := 0x04
  const COM_STMT_PREPARE: byte := 0x16
  const COM_STMT_EXECUTE: byte := 0x17
  const COM_STMT_SEND_LONG_DATA: byte := 0x18
  const COM_STMT_CLOSE: byte := 0x19

  const STARTUP_PROBE_LIMIT := 24

  /** "Variable_name" and "Value". */
  const VARIABLE_NAME: seq<byte> := [86, 97, 114, 105, 97, 98, 108, 101, 95, 110, 97, 109, 101]
  const VALUE_COLUMN: seq<byte> := [86, 97, 108, 117, 101]

  datatype Probe = NoProbe | SetProbe | SelectVarProbe | ShowVarProbe

  /**
   How the loop is set up. `legacy` says whether a query mentions query_cache_size,
   `classify` is the start-up probe classification; both only look at the SQL text,
   and everything here holds for any such pair of functions.
   */
  datatype Config = Config(maxBytes: int, legacy: seq<byte> -> bool, classify: seq<byte> -> Probe)

  datatype Entry = Entry(query: seq<byte>, prepared: bool)

  /** What the loop remembers between commands. */
  datatype Memory = Memory(stmts: map<nat, seq<byte>>, startup: bool, probes: nat)

  const FRESH := Memory(map[], true, 0)

  datatype Relay = NoResponse | FullResponse | PrepareResponse(sql: seq<byte>) | FieldListResponse

  datatype Action = Quit | Answer(probe: Probe) | Forward(relay: Relay)

  /** What to do about one command: what to remember, what to log, and how to respond. */
  datatype Decision = Decision(memory: Memory, logged: seq<Entry>, action: Action)

  function Truncate(v: seq<byte>, max: int): seq<byte> {
    if max <= 0 || |v| <= max then v else v[..max]
  }

  function TrimZeros(s: seq<byte>): seq<byte> {
    if s != [] && s[|s| - 1] == 0 then TrimZeros(s[..|s| - 1]) else s
  }

  /** The SQL text of a COM_QUERY or COM_STMT_PREPARE command. */
  function Sql(command: seq<byte>): seq<byte>
    requires command != []
  {
    Trim(TrimZeros(command[1..]))
  }

  predicate IsQuery(command: seq<byte>) {
    command != [] && command[0] == COM_QUERY
  }

  function StatementId(command: seq<byte>): (id: nat)
    requires |command| >= 5
  {
    Le(command[1..5])
  }

  function Decide(cfg: Config, m: Memory, command: seq<byte>): Decision {
    if command == [] then Decision(m, [], Forward(NoResponse))
    else
      var later := m.(startup := false);
      var cmd := command[0];
      if cmd == COM_QUIT then Decision(m, [], Quit)
      else if cmd == COM_QUERY then DecideQuery(cfg, m, Sql(command))
      else if cmd == COM_STMT_PREPARE then Decision(later, [], Forward(PrepareResponse(Sql(command))))
      else if cmd == COM_STMT_EXECUTE then
        var known := |command| >= 5 && StatementId(command) in m.stmts;
        Decision(later, if known then [Entry(Truncate(m.stmts[StatementId(command)], cfg.maxBytes), true)] else [],
                 Forward(FullResponse))
      else if cmd == COM_STMT_CLOSE then
        Decision(if |command| >= 5 then later.(stmts := m.stmts - {StatementId(command)}) else later, [],
                 Forward(NoResponse))
      else if cmd == COM_STMT_SEND_LONG_DATA then Decision(later, [], Forward(NoResponse))
      else if cmd == COM_FIELD_LIST then Decision(later, [], Forward(FieldListResponse))
      else Decision(later, [], Forward(FullResponse))
  }

  function DecideQuery(cfg: Config, m: Memory, q: seq<byte>): Decision {
    var probe := cfg.classify(q);
    if q == [] then Decision(m, [], Forward(FullResponse))
    else if cfg.legacy(q) then Decision(m, [], Answer(if probe.NoProbe? then SelectVarProbe else probe))
    else if m.startup && !probe.NoProbe? && m.probes < STARTUP_PROBE_LIMIT then
      Decision(m.(probes := m.probes + 1), [], Answer(probe))
    else
      Decision(m.(startup := false), [Entry(Truncate(q, cfg.maxBytes), false)], Forward(FullResponse))
  }

  /** The statement id in a COM_STMT_PREPARE_OK packet at the head of the server's octets. */
  function PreparedId(up: seq<byte>): Option<nat> {
    match Decode(up)
    case Short => None
    case Got(p, _) =>
      if |p.payload| >= 12 && p.payload[0] == OK_MARK then Some(Le(p.payload[1..5])) else None
  }

  /** What a response that began with `up` binds: a successful PREPARE, of a statement that is not blank. */
  function PreparedBy(relay: Relay, up: seq<byte>): Option<Prepared> {
    if relay.PrepareResponse? && relay.sql != [] && PreparedId(up).Some?
    then Some(Prepared(PreparedId(up).value, relay.sql)) else None
  }

  /** The cache after such a response. */
  function Remember(m: Memory, relay: Relay, up: seq<byte>): Memory {
    match PreparedBy(relay, up)
    case None => m
    case Some(b) => m.(stmts := m.stmts[b.id := b.sql])
  }

  /** The packets of the answer to a start-up probe. */
  function AnswerPackets(probe: Probe, seqId: byte): seq<Packet> {
    match probe
    case ShowVarProbe => SyntheticPackets(seqId, [VARIABLE_NAME, VALUE_COLUMN], [])
    case SelectVarProbe => SyntheticPackets(seqId, [VALUE], [[None]])
    case _ => [Packet(Next(seqId), OkPayload(0, 0, AUTOCOMMIT, 0))]
  }

  function RelayOutcome(relay: Relay, up: seq<byte>, cl: seq<byte>): (r: Outcome)
    ensures |r.clRest| <= |cl|
  {
    match relay
    case NoResponse => Outcome([], [], up, cl, Done(false))
    case FullResponse => RunChain(up, cl)
    case PrepareResponse(_) => Run(FirstOfPrepare, up, cl)
    case FieldListResponse => Run(FieldList, up, cl)
  }

  /**
   One command: the statement id that the response to it bound, what was logged, and
   whether the proxy answered it itself; then all octets read from the client for it, the
   command first, and all octets shown to the client.
   */
  datatype Exchange = Exchange(command: seq<byte>, prepared: Option<Prepared>, logged: seq<Entry>,
                               local: bool, read: seq<byte>, shown: seq<byte>)

  datatype Prepared = Prepared(id: nat, sql: seq<byte>)

  datatype Dialogue = Dialogue(io: Outcome, history: seq<Exchange>)

  /** What one command does to the two connections. */
  function CommandOutcome(action: Action, p: Packet, up: seq<byte>, cl: seq<byte>): (r: Outcome)
    ensures |r.clRest| <= |cl|
  {
    match action
    case Quit => Outcome([], Encode(p), up, cl, Done(false))
    case Answer(probe) => Outcome(EncodeAll(AnswerPackets(probe, p.seqId)), [], up, cl, Done(false))
    case Forward(relay) => Prepend([], Encode(p), RelayOutcome(relay, up, cl))
  }

  function ExchangeOf(d: Decision, p: Packet, one: Outcome, up: seq<byte>): Exchange {
    Exchange(p.payload, if d.action.Forward? then PreparedBy(d.action.relay, up) else None, d.logged,
             d.action.Answer?, if d.action.Answer? then Encode(p) else one.toUpstream, one.toClient)
  }

  function MemoryAfter(d: Decision, up: seq<byte>): Memory {
    if d.action.Forward? then Remember(d.memory, d.action.relay, up) else d.memory
  }

  /** The whole session, from what the server (up) and the client (cl) send. */
  function Session(cfg: Config, m: Memory, up: seq<byte>, cl: seq<byte>): Dialogue
    decreases |cl|
  {
    match Decode(cl)
    case Short => Dialogue(Outcome([], [], up, [], Failed(UnexpectedEof)), [])
    case Got(p, rest) =>
      var d := Decide(cfg, m, p.payload);
      var one := CommandOutcome(d.action, p, up, rest);
      var x := ExchangeOf(d, p, one, up);
      if d.action.Quit? || one.end.Failed? then Dialogue(one, [x])
      else
        var s := Session(cfg, MemoryAfter(d, up), one.upRest, one.clRest);
        Dialogue(Prepend(one.toClient, one.toUpstream, s.io), [x] + s.history)
  }

  /** Everything a session logs, in order. */
  function Log(history: seq<Exchange>): seq<Entry> {
    if history == [] then [] else history[0].logged + Log(history[1..])
  }

  // ---------------------------------------------------------------- the statement cache

  class PreparedStmtCache {
    var stmts: map<nat, seq<byte>>

    constructor ()
      ensures stmts == map[]
    {
      stmts := map[];
    }

    method Store(id: nat, query: seq<byte>)
      modifies this
      ensures stmts == old(stmts)[id := query]
    {
      stmts := stmts[id := query];
    }

    method Lookup(id: nat) returns (query: Option<seq<byte>>)
      ensures query == if id in stmts then Some(stmts[id]) else None
    {
      query := if id in stmts then Some(stmts[id]) else None;
    }

    method Delete(id: nat)
      modifies this
      ensures stmts == old(stmts) - {id}
    {
      stmts := stmts - {id};
    }
  }

  // ---------------------------------------------------------------- the loop

  /** As Did; and a failed write of COM_QUIT to the server, after all else is done, goes unreported. */
  predicate DidSession(t: Outcome, a: View, b: View, v: Verdict) {
    || Did(t, a, b, v)
    || (v == Done(false) == t.end && Did(t, a, b, Failed(WriteFailed))
        && b.cl == t.clRest && b.up == t.upRest && b.clOut == a.clOut + t.toClient)
  }

  /** Doing `one`, then, unless it failed, `rest`. */
  function Then(one: Outcome, rest: Outcome): Outcome {
    if one.end.Failed? then one else Prepend(one.toClient, one.toUpstream, rest)
  }

  lemma OneOfMany(t: Outcome, a: View, m: View, one: Outcome, rest: Outcome, n: View, v: Verdict)
    requires LeftToDo(t, a, Then(one, rest), m)
    requires Did(one, m, n, v)
    ensures v.Done? ==> LeftToDo(t, a, rest, n)
    ensures v.Failed? ==> Did(t, a, n, v)
  {
    var all := Then(one, rest);
    if v.Done? {
      assert m.clOut + (one.toClient + rest.toClient) == (m.clOut + one.toClient) + rest.toClient;
      assert m.upOut + (one.toUpstream + rest.toUpstream) == (m.upOut + one.toUpstream) + rest.toUpstream;
    } else {
      assert one.toClient <= all.toClient && one.toUpstream <= all.toUpstream;
      assert m.clOut + one.toClient <= m.clOut + all.toClient;
      assert m.upOut + one.toUpstream <= m.upOut + all.toUpstream;
      DidRest(t, a, all, m, n, v);
    }
  }

  /** A command written to the server, then its response relayed. */
  lemma WroteThenDid(wire: seq<byte>, o: Outcome, m: View, n: View, b: View, v: Verdict)
    requires |wire| <= m.upRoom && n == m.(upOut := m.upOut + wire, upRoom := m.upRoom - |wire|)
    requires Did(o, n, b, v)
    ensures Did(Prepend([], wire, o), m, b, v)
  {
    assert [] + o.toClient == o.toClient;
    assert m.upOut + (wire + o.toUpstream) == (m.upOut + wire) + o.toUpstream;
    assert m.upOut <= m.upOut + wire;
  }

  lemma DidNotWrite(wire: seq<byte>, o: Outcome, m: View, b: View)
    requires |wire| > m.upRoom && b == m.(upOut := m.upOut + wire[..m.upRoom], upRoom := 0)
    ensures Did(Prepend([], wire, o), m, b, Failed(WriteFailed))
  {
    assert [] + o.toClient == o.toClient;
    PrefixOfFirst(m.upOut, wire, wire + o.toUpstream, m.upRoom);
  }

  class Proxy {
    const cfg: Config
    var queryLog: seq<Entry>

    constructor (cfg: Config)
      ensures this.cfg == cfg && queryLog == []
    {
      this.cfg, queryLog := cfg, [];
    }

    /** writeMySQLStartupProbeResponse. */
    method WriteStartupProbeResponse(client: Conn, seqId: byte, probe: Probe) returns (ok: bool)
      modifies client`output, client`room
      ensures Wrote(EncodeAll(AnswerPackets(probe, seqId)), old(client.output), old(client.room),
                    client.output, client.room, ok)
    {
      match probe
      case ShowVarProbe =>
        ok := WriteSyntheticTextResult(client, seqId, [VARIABLE_NAME, VALUE_COLUMN], []);
      case SelectVarProbe =>
        ok := WriteSyntheticTextResult(client, seqId, [VALUE], [[None]]);
      case SetProbe =>
        EncodeAllOne(Packet(Next(seqId), OkPayload(0, 0, AUTOCOMMIT, 0)));
        var payload := BuildOkPacket(0, 0, AUTOCOMMIT, 0);
        ok := WritePacket(client, payload, Next(seqId));
      case NoProbe =>
        EncodeAllOne(Packet(Next(seqId), OkPayload(0, 0, AUTOCOMMIT, 0)));
        var payload := BuildOkPacket(0, 0, AUTOCOMMIT, 0);
        ok := WritePacket(client, payload, Next(seqId));
    }

    /** relayPrepareResponse: the statement is stored as soon as its first packet has gone through. */
    method RelayPrepareResponse(upstream: Conn, client: Conn, cache: PreparedStmtCache, sql: seq<byte>)
      returns (v: Verdict)
      requires upstream != client
      modifies upstream`input, client`output, client`room, cache
      ensures Did(Run(FirstOfPrepare, old(upstream.input), old(client.input)), old(Look(upstream, client)),
                  Look(upstream, client), v)
      ensures var d := Decode(old(upstream.input));
              if d.Got? && |Encode(d.packet)| <= old(client.room) then
                cache.stmts
                == Remember(Memory(old(cache.stmts), false, 0), PrepareResponse(sql), old(upstream.input)).stmts
              else v.Failed? && cache.stmts == old(cache.stmts)
    {
      hide Run, Encode, LeftToDo, Did;
      ghost var t, a := Run(FirstOfPrepare, upstream.input, client.input), Look(upstream, client);
      NothingDone(t, a);
      var moved := RelayOnePacket(upstream, client);
      if moved.Stuck? {
        StuckDown(t, a, FirstOfPrepare, a, Look(upstream, client), moved.error);
        return Failed(moved.error);
      }
      var payload := moved.packet.payload;
      MovedDown(t, a, FirstOfPrepare, a, moved.packet, upstream.input);
      if payload == [] || payload[0] == ERR_MARK {
        v := Done(false);
        StoppedDid(t, a, Look(upstream, client), v);
        return;
      }
      if payload[0] != OK_MARK || |payload| < 12 {
        v := Failed(BadPrepareReply);
        StoppedDid(t, a, Look(upstream, client), v);
        return;
      }
      var stmtId := Le(payload[1..5]);
      if sql != [] {
        cache.Store(stmtId, sql);
      }
      v := RelayDefinitions(upstream, client, Le(payload[7..9]), Le(payload[5..7]), t, a);
    }

    /** The forwarding half of one command. */
    method ForwardOne(upstream: Conn, client: Conn, cache: PreparedStmtCache, p: Packet, relay: Relay)
      returns (v: Verdict)
      requires upstream != client
      modifies upstream`input, upstream`output, upstream`room, client`input, client`output, client`room, cache
      ensures Did(CommandOutcome(Forward(relay), p, old(upstream.input), old(client.input)),
                  old(Look(upstream, client)), Look(upstream, client), v)
      ensures v.Done? ==> cache.stmts == Remember(Memory(old(cache.stmts), false, 0), relay, old(upstream.input)).stmts
      ensures relay.NoResponse? ==> upstream.input == old(upstream.input) && client.input == old(client.input)
    {
      hide Run, RunChain, Encode, Did;
      ghost var m := Look(upstream, client);
      ghost var o := RelayOutcome(relay, upstream.input, client.input);
      var ok := WritePacket(upstream, p.payload, p.seqId);
      if !ok {
        DidNotWrite(Encode(p), o, m, Look(upstream, client));
        return Failed(WriteFailed);
      }
      ghost var n := Look(upstream, client);
      match relay {
        case NoResponse =>
          v := Done(false);
          DidNothing(n);
        case FullResponse =>
          v := RelayResponse(upstream, client);
        case PrepareResponse(sql) =>
          v := RelayPrepareResponse(upstream, client, cache, sql);
        case FieldListResponse =>
          v := RelayFieldListResponse(upstream, client);
      }
      WroteThenDid(Encode(p), o, m, n, Look(upstream, client), v);
    }

    /** The answering half of one command. */
    method AnswerOne(client: Conn, p: Packet, probe: Probe, ghost up: Conn) returns (v: Verdict)
      requires up != client
      modifies client`output, client`room
      ensures Did(CommandOutcome(Answer(probe), p, up.input, client.input), old(Look(up, client)), Look(up, client), v)
    {
      hide Encode, EncodeAll, AnswerPackets;
      var ok := WriteStartupProbeResponse(client, p.seqId, probe);
      v := if ok then Done(false) else Failed(WriteFailed);
      ghost var wire := EncodeAll(AnswerPackets(probe, p.seqId));
      assert up.output + [] == up.output;
      if !ok {
        PrefixOfFirst(old(client.output), wire, wire, old(client.room));
      }
    }

    /** One turn of the switch in forwardCommands. */
    method OneCommand(upstream: Conn, client: Conn, cache: PreparedStmtCache, p: Packet, startup: bool, probes: nat)
      returns (v: Verdict, quit: bool, startup': bool, probes': nat)
      requires upstream != client
      modifies this`queryLog, upstream`input, upstream`output, upstream`room,
               client`input, client`output, client`room, cache
      ensures var d := Decide(cfg, Memory(old(cache.stmts), startup, probes), p.payload);
              var one := CommandOutcome(d.action, p, old(upstream.input), old(client.input));
              && queryLog == old(queryLog) + d.logged
              && quit == d.action.Quit?
              && (if quit then
                    v == Done(false) && DidSession(one, old(Look(upstream, client)), Look(upstream, client), v)
                  else Did(one, old(Look(upstream, client)), Look(upstream, client), v))
              && (v.Done? && !quit ==> Memory(cache.stmts, startup', probes') == MemoryAfter(d, old(upstream.input)))
    {
      hide CommandOutcome, Did, Encode, Trim, Truncate, PreparedId;
      var payload := p.payload;
      quit, startup', probes' := false, startup, probes;
      if payload == [] {
        v := ForwardOne(upstream, client, cache, p, NoResponse);
        return;
      }
      var cmd := payload[0];
      if cmd == COM_QUIT {
        QuitIsForward(p, upstream.input, client.input);
        ghost var m := Look(upstream, client);
        v := ForwardOne(upstream, client, cache, p, NoResponse);
        QuitAnyway(p, m, Look(upstream, client), v);
        v, quit := Done(false), true;
      } else if cmd == COM_QUERY {
        var q := Trim(TrimZeros(payload[1..]));
        if q != [] {
          var probe := cfg.classify(q);
          if cfg.legacy(q) {
            v := AnswerOne(client, p, if probe.NoProbe? then SelectVarProbe else probe, upstream);
            return;
          }
          if startup {
            if !probe.NoProbe? && probes < STARTUP_PROBE_LIMIT {
              probes' := probes + 1;
              v := AnswerOne(client, p, probe, upstream);
              return;
            }
            startup' := false;
          }
          queryLog := queryLog + [Entry(Truncate(q, cfg.maxBytes), false)];
        }
        v := ForwardOne(upstream, client, cache, p, FullResponse);
      } else if cmd == COM_STMT_PREPARE {
        startup' := false;
        v := ForwardOne(upstream, client, cache, p, PrepareResponse(Trim(TrimZeros(payload[1..]))));
      } else if cmd == COM_STMT_EXECUTE {
        startup' := false;
        if |payload| >= 5 {
          var query := cache.Lookup(Le(payload[1..5]));
          if query.Some? {
            queryLog := queryLog + [Entry(Truncate(query.value, cfg.maxBytes), true)];
          }
        }
        v := ForwardOne(upstream, client, cache, p, FullResponse);
      } else if cmd == COM_STMT_CLOSE {
        startup' := false;
        if |payload| >= 5 {
          cache.Delete(Le(payload[1..5]));
        }
        v := ForwardOne(upstream, client, cache, p, NoResponse);
      } else if cmd == COM_STMT_SEND_LONG_DATA {
        startup' := false;
        v := ForwardOne(upstream, client, cache, p, NoResponse);
      } else if cmd == COM_FIELD_LIST {
        startup' := false;
        v := ForwardOne(upstream, client, cache, p, FieldListResponse);
      } else {
        startup' := false;
        v := ForwardOne(upstream, client, cache, p, FullResponse);
      }
    }

    /** forwardCommands: one command after the other, until the client quits or a peer fails. */
    method ForwardCommands(upstream: Conn, client: Conn) returns (v: Verdict)
      requires upstream != client
      modifies this`queryLog, upstream`input, upstream`output, upstream`room,
               client`input, client`output, client`room
      ensures var s := Session(cfg, FRESH, old(upstream.input), old(client.input));
              && DidSession(s.io, old(Look(upstream, client)), Look(upstream, client), v)
              && old(queryLog) <= queryLog <= old(queryLog) + Log(s.history)
              && (|s.io.toClient| <= old(client.room) && |s.io.toUpstream| <= old(upstream.room)
                  ==> queryLog == old(queryLog) + Log(s.history))
    {
      hide Decide, MemoryAfter, CommandOutcome, LeftToDo, Did, Decode;
      ghost var s, a, log := Session(cfg, FRESH, upstream.input, client.input), Look(upstream, client), queryLog;
      var cache := new PreparedStmtCache();
      var startup, probes := true, 0;
      NothingDone(s.io, a);
      while true
        invariant fresh(cache)
        invariant var r := Session(cfg, Memory(cache.stmts, startup, probes), upstream.input, client.input);
                  && LeftToDo(s.io, a, r.io, Look(upstream, client))
                  && log <= queryLog && queryLog + Log(r.history) == log + Log(s.history)
        decreases |client.input|
      {
        ghost var m, mem := Look(upstream, client), Memory(cache.stmts, startup, probes);
        var got := ReadPacket(client);
        ghost var m' := Look(upstream, client);
        if got.None? {
          v := Failed(UnexpectedEof);
          ReadNothing(s.io, a, m);
          return;
        }
        ghost var before := queryLog;
        var quit;
        v, quit, startup, probes := OneCommand(upstream, client, cache, got.value, startup, probes);
        TurnDone(cfg, s, a, mem, m, got.value, m', Look(upstream, client), v, log, before);
        if quit || v.Failed? {
          return;
        }
      }
    }
  }

  lemma DidNothing(n: View)
    ensures Did(Outcome([], [], n.up, n.cl, Done(false)), n, n, Done(false))
  {
    assert n.clOut + [] == n.clOut && n.upOut + [] == n.upOut;
  }

  lemma QuitIsForward(p: Packet, up: seq<byte>, cl: seq<byte>)
    ensures CommandOutcome(Quit, p, up, cl) == CommandOutcome(Forward(NoResponse), p, up, cl)
    ensures CommandOutcome(Quit, p, up, cl).end == Done(false)
  {
    assert Encode(p) + [] == Encode(p);
  }

  lemma QuitAnyway(p: Packet, a: View, b: View, v: Verdict)
    requires Did(CommandOutcome(Quit, p, a.up, a.cl), a, b, v) && b.up == a.up && b.cl == a.cl
    ensures DidSession(CommandOutcome(Quit, p, a.up, a.cl), a, b, Done(false))
  {
  }

  lemma ReadNothing(t: Outcome, a: View, m: View)
    requires LeftToDo(t, a, Outcome([], [], m.up, [], Failed(UnexpectedEof)), m)
    ensures Did(t, a, m.(cl := []), Failed(UnexpectedEof))
  {
    assert m.clOut + [] == m.clOut && m.upOut + [] == m.upOut;
    DidRest(t, a, Outcome([], [], m.up, [], Failed(UnexpectedEof)), m, m.(cl := []), Failed(UnexpectedEof));
  }

  predicate Roomy(t: Outcome, a: View) {
    |t.toClient| <= a.clRoom && |t.toUpstream| <= a.upRoom
  }

  lemma LogOne(x: Exchange, history: seq<Exchange>)
    ensures Log([x] + history) == x.logged + Log(history)
    ensures Log([x]) == x.logged
  {
    assert ([x] + history)[1..] == history;
    assert [x][1..] == [] && x.logged + [] == x.logged;
  }

  /** The session after one more command. */
  lemma TurnDone(cfg: Config, s: Dialogue, a: View, mem: Memory, m: View, p: Packet, m': View, n: View, v: Verdict,
                 log: seq<Entry>, before: seq<Entry>)
    requires var r := Session(cfg, mem, m.up, m.cl);
             LeftToDo(s.io, a, r.io, m) && log <= before && before + Log(r.history) == log + Log(s.history)
    requires Decode(m.cl).Got? && Decode(m.cl).packet == p && m' == m.(cl := Decode(m.cl).rest)
    requires var d := Decide(cfg, mem, p.payload);
             var one := CommandOutcome(d.action, p, m'.up, m'.cl);
             if d.action.Quit? then DidSession(one, m', n, v) && v == Done(false) else Did(one, m', n, v)
    ensures var d := Decide(cfg, mem, p.payload);
            var r := Session(cfg, MemoryAfter(d, m.up), n.up, n.cl);
            var after := before + d.logged;
            && log <= after <= log + Log(s.history)
            && (if d.action.Quit? || v.Failed? then
                  DidSession(s.io, a, n, v) && (Roomy(s.io, a) ==> after == log + Log(s.history))
                else
                  |n.cl| < |m.cl| && LeftToDo(s.io, a, r.io, n) && after + Log(r.history) == log + Log(s.history))
  {
    hide Decide, MemoryAfter, CommandOutcome, Decode, Log;
    var d := Decide(cfg, mem, p.payload);
    var one := CommandOutcome(d.action, p, m'.up, m'.cl);
    var x := ExchangeOf(d, p, one, m.up);
    var rest := Session(cfg, MemoryAfter(d, m.up), one.upRest, one.clRest);
    var all := Session(cfg, mem, m.up, m.cl);
    LogOne(x, rest.history);
    assert (before + x.logged) + Log(rest.history) == before + (x.logged + Log(rest.history));
    if d.action.Quit? {
      QuitDone(s.io, a, m, one, m', n, v);
    } else {
      assert all.io == Then(one, rest.io);
      OneOfMany(s.io, a, m', one, rest.io, n, v);
      if v.Failed? {
        RoomyPart(s.io, a, m', one, all.io);
      }
    }
  }

  lemma QuitDone(t: Outcome, a: View, m: View, one: Outcome, m': View, n: View, v: Verdict)
    requires LeftToDo(t, a, one, m) && m' == m.(cl := m'.cl)
    requires DidSession(one, m', n, v) && v == Done(false) == one.end
    ensures DidSession(t, a, n, v)
  {
    if Did(one, m', n, v) {
      DidRest(t, a, one, m', n, v);
    } else {
      DidRest(t, a, one, m', n, Failed(WriteFailed));
    }
  }

  lemma RoomyPart(t: Outcome, a: View, m: View, one: Outcome, all: Outcome)
    requires LeftToDo(t, a, all, m) && |one.toClient| <= |all.toClient| && |one.toUpstream| <= |all.toUpstream|
    ensures Roomy(t, a) ==> Roomy(one, m)
  {
    assert |m.clOut| + |all.toClient| == |a.clOut| + |t.toClient|;
    assert |m.upOut| + |all.toUpstream| == |a.upOut| + |t.toUpstream|;
  }
}
