/** The replies to all commands as the protocol lays them out, and a session of a peer that keeps to it. */
module MySqlReplies {
  import opened Bytes
  import opened MySqlWire
  import opened MySqlRelay
  import opened MySqlForward

  /**
   The reply to one command. A PREPARE is answered with the statement's id and the numbers
   of its columns and parameters, then the definitions of its parameters and of its
   columns, each list with an EOF packet unless it is empty.
   */
  datatype Reply =
    | NoReply
    | Results(chain: seq<Response>)
    | PrepareOk(seqId: byte, id: nat, params: Definitions, columns: Definitions, reserved: byte, warnings: nat)
    | Refused(seqId: byte, info: seq<byte>)
    | FieldDefinitions(fields: seq<Packet>, last: Last)

  datatype Definitions = Definitions(all: seq<Packet>, end: Packet)

  function ListPackets(ds: Definitions): seq<Packet> {
    if ds.all == [] then [] else ds.all + [ds.end]
  }

  /** The first packet of the reply to a PREPARE. */
  function PrepareOkPacket(r: Reply): Packet
    requires r.PrepareOk?
  {
    Packet(r.seqId, [0x00] + PutLe(r.id, 4) + PutLe(|r.columns.all|, 2) + PutLe(|r.params.all|, 2) + [r.reserved]
                    + PutLe(r.warnings, 2))
  }

  /** The server's packets of a reply other than a chain of results. */
  function ReplyPackets(r: Reply): seq<Packet> {
    match r
    case NoReply => []
    case Results(_) => []
    case PrepareOk(_, _, params, columns, _, _) => [PrepareOkPacket(r)] + (ListPackets(params) + ListPackets(columns))
    case Refused(seqId, info) => [Packet(seqId, [ERR_MARK] + info)]
    case FieldDefinitions(fields, last) => fields + [LastPacket(last)]
  }

  function FromServer(r: Reply): seq<byte> {
    if r.Results? then ServerBytes(r.chain) else EncodeAll(ReplyPackets(r))
  }

  /** What the client sends while the reply is under way. */
  function FromClient(r: Reply): seq<byte> {
    if r.Results? then ClientBytes(r.chain) else []
  }

  predicate WellFormedReply(r: Reply) {
    && Sized(ReplyPackets(r))
    && match r
       case Results(chain) => WellFormedChain(chain)
       case PrepareOk(_, id, params, columns, _, _) =>
         id < 0x1_0000_0000 && |params.all| < 0x1_0000 && |columns.all| < 0x1_0000
       case FieldDefinitions(fields, _) => forall p :: p in fields ==> !IsEof(p.payload) && !IsErr(p.payload)
       case _ => true
  }

  /** The kind of reply that a command gets. COM_QUIT gets none. */
  predicate Answers(command: seq<byte>, r: Reply) {
    if command == [] || command[0] in {COM_STMT_CLOSE, COM_STMT_SEND_LONG_DATA} then r.NoReply?
    else if command[0] == COM_STMT_PREPARE then r.PrepareOk? || r.Refused?
    else if command[0] == COM_FIELD_LIST then r.FieldDefinitions?
    else command[0] != COM_QUIT && r.Results?
  }

  // ---------------------------------------------------------------- where a reply ends

  lemma SliceOf(a: seq<byte>, b: seq<byte>, c: seq<byte>)
    ensures (a + b + c)[|a|..|a| + |b|] == b
  {
  }

  /** What the relay reads in that packet. */
  lemma PrepareFields(r: Reply)
    requires r.PrepareOk? && WellFormedReply(r)
    ensures var s := PrepareOkPacket(r).payload;
            && |s| == 12 && s[0] == OK_MARK && Le(s[1..5]) == r.id
            && Le(s[5..7]) == |r.columns.all| && Le(s[7..9]) == |r.params.all|
  {
    hide Le, PutLe;
    var id, c, n := PutLe(r.id, 4), PutLe(|r.columns.all|, 2), PutLe(|r.params.all|, 2);
    var s, tail := PrepareOkPacket(r).payload, [r.reserved] + PutLe(r.warnings, 2);
    Pow256Values();
    LePutLe(r.id, 4);
    LePutLe(|r.columns.all|, 2);
    LePutLe(|r.params.all|, 2);
    assert s[1..5] == id && s[5..7] == c && s[7..9] == n;
  }

  lemma {:induction false} ThroughFields(fields: seq<Packet>)
    requires forall p :: p in fields ==> !IsEof(p.payload) && !IsErr(p.payload)
    ensures Through(FieldList, fields, FieldList)
  {
    hide IsEof, IsErr;
    if fields != [] {
      assert fields[0] in fields;
      ThroughFields(fields[1..]);
    }
  }

  lemma ThroughLists(params: seq<Packet>, columns: seq<Packet>, end: State)
    ensures Through(SkipThen(|params|, SkipThen(|columns|, end)), params + columns, end)
  {
    hide Through, SkipThen;
    ThroughSkip(columns, end);
    ThroughSkip(params, SkipThen(|columns|, end));
    ThroughAppend(SkipThen(|params|, SkipThen(|columns|, end)), params, SkipThen(|columns|, end), columns, end);
  }

  lemma PrepareStep(r: Reply)
    requires (r.PrepareOk? || r.Refused?) && WellFormedReply(r)
    ensures Step(FirstOfPrepare, ReplyPackets(r)[0].payload)
            == if r.Refused? then Stop(Done(false))
               else SkipThen(|ListPackets(r.params)|, SkipThen(|ListPackets(r.columns)|, Stop(Done(false))))
  {
    hide Le, PutLe;
    if r.PrepareOk? {
      PrepareFields(r);
    }
  }

  lemma PrepareThrough(r: Reply)
    requires (r.PrepareOk? || r.Refused?) && WellFormedReply(r)
    ensures Through(FirstOfPrepare, ReplyPackets(r), Stop(Done(false)))
  {
    hide Step, PrepareOkPacket, SkipThen, ListPackets, WellFormedReply;
    var first := ReplyPackets(r)[0];
    ThroughOne(FirstOfPrepare, first);
    PrepareStep(r);
    if r.PrepareOk? {
      var params, columns := ListPackets(r.params), ListPackets(r.columns);
      ThroughLists(params, columns, Stop(Done(false)));
      ThroughAppend(FirstOfPrepare, [first], Step(FirstOfPrepare, first.payload), params + columns, Stop(Done(false)));
    }
  }

  lemma FieldsThrough(r: Reply)
    requires r.FieldDefinitions? && WellFormedReply(r)
    ensures Through(FieldList, ReplyPackets(r), Stop(Done(false)))
  {
    var last := LastPacket(r.last);
    ThroughFields(r.fields);
    ThroughOne(FieldList, last);
    ThroughAppend(FieldList, r.fields, FieldList, [last], Stop(Done(false)));
  }

  /**
   Main result: whatever octets follow a well-formed reply to a PREPARE, the relay passes on
   exactly that reply.
   */
  lemma PrepareStopsAtItsEnd(r: Reply, up: seq<byte>, cl: seq<byte>)
    requires (r.PrepareOk? || r.Refused?) && WellFormedReply(r)
    ensures Run(FirstOfPrepare, FromServer(r) + up, cl) == Outcome(FromServer(r), [], up, cl, Done(false))
  {
    PrepareThrough(r);
    RunToStop(FirstOfPrepare, ReplyPackets(r), Done(false), up, cl);
  }

  /** And the same of the reply to a FIELD_LIST. */
  lemma FieldListStopsAtItsEnd(r: Reply, up: seq<byte>, cl: seq<byte>)
    requires r.FieldDefinitions? && WellFormedReply(r)
    ensures Run(FieldList, FromServer(r) + up, cl) == Outcome(FromServer(r), [], up, cl, Done(false))
  {
    FieldsThrough(r);
    RunToStop(FieldList, ReplyPackets(r), Done(false), up, cl);
  }

  /** What the reply to a PREPARE binds: its id, to the statement, unless that is blank. */
  lemma PrepareBinds(sql: seq<byte>, r: Reply, up: seq<byte>)
    requires (r.PrepareOk? || r.Refused?) && WellFormedReply(r)
    ensures PreparedBy(PrepareResponse(sql), FromServer(r) + up)
            == if r.PrepareOk? && sql != [] then Some(Prepared(r.id, sql)) else None
  {
    hide Le, PutLe, Encode, Decode;
    var ps := ReplyPackets(r);
    assert ps[0] in ps && FromServer(r) + up == Encode(ps[0]) + (EncodeAll(ps[1..]) + up);
    DecodeEncode(ps[0], EncodeAll(ps[1..]) + up);
    if r.PrepareOk? {
      PrepareFields(r);
    }
  }

  /** A first packet that can only be an error of the server's is passed on, and reported. */
  lemma MalformedReported(p: Packet, up: seq<byte>, cl: seq<byte>)
    requires |p.payload| < MAX_PAYLOAD && p.payload != [] && p.payload[0] != ERR_MARK
    ensures p.payload[0] != OK_MARK || |p.payload| < 12 ==>
              Run(FirstOfPrepare, Encode(p) + up, cl) == Outcome(Encode(p), [], up, cl, Failed(BadPrepareReply))
    ensures p.payload[0] == 0xFC && |p.payload| < 3 ==>
              Run(First, Encode(p) + up, cl) == Outcome(Encode(p), [], up, cl, Failed(BadColumnCount))
  {
    hide Encode, Decode;
    assert Encode(p) + [] == Encode(p);
    RunServerPacket(FirstOfPrepare, p, up, cl);
    RunServerPacket(First, p, up, cl);
  }

  /** An empty first packet is the whole of a reply, and so is a small packet with the EOF mark. */
  lemma EndsAtOnce(p: Packet, up: seq<byte>, cl: seq<byte>)
    requires p.payload == [] || (p.payload[0] == 0xFE && |p.payload| < 9)
    ensures Run(First, Encode(p) + up, cl) == Outcome(Encode(p), [], up, cl, Done(false))
    ensures p.payload == [] ==> Run(FirstOfPrepare, Encode(p) + up, cl) == Outcome(Encode(p), [], up, cl, Done(false))
  {
    hide Encode, Decode;
    assert Encode(p) + [] == Encode(p);
    RunServerPacket(FirstOfPrepare, p, up, cl);
    RunServerPacket(First, p, up, cl);
  }

  // ---------------------------------------------------------------- in a session

  /** What relaying a well-formed reply of the right kind comes to. */
  lemma ReplyRelayed(cfg: Config, m: Memory, command: seq<byte>, r: Reply, up: seq<byte>, cl: seq<byte>)
    requires WellFormedReply(r) && Answers(command, r)
    ensures var d := Decide(cfg, m, command);
            d.action.Forward? ==>
              && RelayOutcome(d.action.relay, FromServer(r) + up, FromClient(r) + cl)
                 == Outcome(FromServer(r), FromClient(r), up, cl, Done(false))
              && PreparedBy(d.action.relay, FromServer(r) + up)
                 == if r.PrepareOk? && Sql(command) != [] then Some(Prepared(r.id, Sql(command))) else None
  {
    hide Run, RunChain, EncodeAll, ReplyPackets, WellFormedReply, ServerBytes, ClientBytes, PreparedId, Sql;
    assert [] + cl == cl && [] + up == up;
    match r
    case NoReply => NothingSent();
    case Results(chain) => ChainReply(chain, up, cl);
    case FieldDefinitions(_, _) => FieldListStopsAtItsEnd(r, up, cl);
    case _ =>
      PrepareStopsAtItsEnd(r, up, cl);
      PrepareBinds(Sql(command), r, up);
  }

  lemma NothingSent()
    ensures FromServer(NoReply) == []
  {
  }

  lemma ChainReply(chain: seq<Response>, up: seq<byte>, cl: seq<byte>)
    requires WellFormedReply(Results(chain))
    ensures RunChain(ServerBytes(chain) + up, ClientBytes(chain) + cl)
            == Outcome(ServerBytes(chain), ClientBytes(chain), up, cl, Done(false))
  {
    ChainStopsAtItsEnd(chain, up, cl);
  }

  /**
   Main result: a command that the proxy does not answer itself, followed by the reply its
   kind calls for, is one exchange, in which each peer gets exactly what the other sent;
   and the session goes on with what comes after.
   */
  lemma ReplyInSession(cfg: Config, m: Memory, p: Packet, r: Reply, up: seq<byte>, cl: seq<byte>)
    returns (m': Memory)
    requires |p.payload| < MAX_PAYLOAD && WellFormedReply(r) && Answers(p.payload, r)
    ensures var s := Session(cfg, m, FromServer(r) + up, Encode(p) + (FromClient(r) + cl));
            && s.history != []
            && (!s.history[0].local ==>
                  var x, next := s.history[0], Session(cfg, m', up, cl);
                  && x.command == p.payload && x.shown == FromServer(r) && x.read == Encode(p) + FromClient(r)
                  && x.prepared == (if r.PrepareOk? && Sql(p.payload) != [] then Some(Prepared(r.id, Sql(p.payload)))
                                    else None)
                  && s == Dialogue(Prepend(x.shown, x.read, next.io), [x] + next.history))
  {
    hide Decide, Encode, Decode, RelayOutcome, FromServer, FromClient, WellFormedReply, PreparedBy, Sql;
    var fs, fc := FromServer(r), FromClient(r);
    DecodeEncode(p, fc + cl);
    var d := Decide(cfg, m, p.payload);
    m' := MemoryAfter(d, fs + up);
    NotQuit(cfg, m, p.payload, r);
    if d.action.Forward? {
      ReplyRelayed(cfg, m, p.payload, r, up, cl);
      assert [] + fs == fs;
    }
  }

  lemma NotQuit(cfg: Config, m: Memory, command: seq<byte>, r: Reply)
    requires Answers(command, r)
    ensures !Decide(cfg, m, command).action.Quit?
  {
    hide Sql, Truncate, Le;
  }
}
