/**
 How the proxy relays one server response to the client.

 The response's shape is a small automaton over whole packets (`State`, `Step`,
 `Run`); the relay methods, with their nested loops, are proved to do exactly
 what that automaton does, also when a peer stops reading or writing half way.
 */
module MySqlRelay {
  import opened Bytes
  import opened MySqlWire

  datatype Verdict = Done(more: bool) | Failed(error: Error)

  /** What the relay is waiting for. `Skip` passes packets on without looking at them. */
  datatype State =
    | First
    | FirstOfPrepare
    | FieldList
    | Skip(left: nat, next: State)
    | Rows
    | File
    | FileReply
    | Stop(verdict: Verdict)

  function SkipThen(left: nat, next: State): State {
    if left == 0 then next else Skip(left, next)
  }

  /** The state after one more packet (from the client in state `File`, else from the server). */
  function Step(st: State, payload: seq<byte>): State
    requires !st.Stop?
  {
    match st
    case First =>
      if payload == [] then Stop(Done(false))
      else if payload[0] == OK_MARK then Stop(Done(HasMoreOk(payload)))
      else if payload[0] == ERR_MARK then Stop(Done(false))
      else if payload[0] == INFILE_MARK then File
      else if IsEof(payload) then Stop(Done(false))
      else (
        match GetLenEnc(payload)
        case BadLenEnc => Stop(Failed(BadColumnCount))
        case Value(columns, _) => if columns == 0 then Stop(Done(false)) else Skip(columns + 1, Rows)
      )
    case FirstOfPrepare =>
      if payload == [] || payload[0] == ERR_MARK then Stop(Done(false))
      else if payload[0] != OK_MARK || |payload| < 12 then Stop(Failed(BadPrepareReply))
      else
        var columns, params := Le(payload[5..7]), Le(payload[7..9]);
        SkipThen(if params > 0 then params + 1 else 0,
                 SkipThen(if columns > 0 then columns + 1 else 0, Stop(Done(false))))
    case FieldList => if IsEof(payload) || IsErr(payload) then Stop(Done(false)) else FieldList
    case Skip(left, next) => if left <= 1 then next else Skip(left - 1, next)
    case Rows =>
      if IsEof(payload) then Stop(Done(HasMoreEof(payload)))
      else if IsErr(payload) then Stop(Done(false))
      else Rows
    case File => if payload == [] then FileReply else File
    case FileReply =>
      Stop(Done(|payload| > 0 && payload[0] == OK_MARK && HasMoreOk(payload)))
  }

  /** What a relay does to the four directions, and how it ends. */
  datatype Outcome = Outcome(toClient: seq<byte>, toUpstream: seq<byte>, upRest: seq<byte>, clRest: seq<byte>,
                             end: Verdict)

  function Prepend(toClient: seq<byte>, toUpstream: seq<byte>, r: Outcome): Outcome {
    r.(toClient := toClient + r.toClient, toUpstream := toUpstream + r.toUpstream)
  }

  /** The automaton run on the octets waiting at the server (up) and at the client (cl). */
  function Run(st: State, up: seq<byte>, cl: seq<byte>): (r: Outcome)
    ensures |r.upRest| <= |up| && |r.clRest| <= |cl|
    ensures st.First? && r.end.Done? ==> |r.upRest| < |up|
    decreases |up| + |cl|
  {
    if st.Stop? then Outcome([], [], up, cl, st.verdict)
    else if st.File? then (
      match Decode(cl)
      case Short => Outcome([], [], up, [], Failed(UnexpectedEof))
      case Got(p, rest) =>
        var r := Run(Step(st, p.payload), up, rest);
        Prepend([], Encode(p), r)
    )
    else (
      match Decode(up)
      case Short => Outcome([], [], [], cl, Failed(UnexpectedEof))
      case Got(p, rest) =>
        var r := Run(Step(st, p.payload), rest, cl);
        Prepend(Encode(p), [], r)
    )
  }

  /** A full response: single responses, one after the other while more are announced. */
  function RunChain(up: seq<byte>, cl: seq<byte>): (r: Outcome)
    ensures |r.upRest| <= |up| && |r.clRest| <= |cl|
    decreases |up|
  {
    var r := Run(First, up, cl);
    if r.end == Done(true) then
      var s := RunChain(r.upRest, r.clRest);
      Prepend(r.toClient, r.toUpstream, s)
    else r
  }

  // ---------------------------------------------------------------- byte transparency

  /** The relay adds, drops and reorders nothing, in either direction. */
  predicate Transparent(r: Outcome, up: seq<byte>, cl: seq<byte>) {
    r.toClient + r.upRest == up && r.toUpstream + r.clRest == cl
  }

  lemma PrependTwice(a: seq<byte>, b: seq<byte>, a': seq<byte>, b': seq<byte>, r: Outcome)
    ensures Prepend(a, b, Prepend(a', b', r)) == Prepend(a + a', b + b', r)
  {
    assert a + (a' + r.toClient) == (a + a') + r.toClient;
    assert b + (b' + r.toUpstream) == (b + b') + r.toUpstream;
  }

  lemma PrependTransparent(a: seq<byte>, b: seq<byte>, r: Outcome, up: seq<byte>, cl: seq<byte>)
    requires Transparent(r, up, cl)
    ensures Transparent(Prepend(a, b, r), a + up, b + cl)
  {
    assert (a + r.toClient) + r.upRest == a + (r.toClient + r.upRest);
    assert (b + r.toUpstream) + r.clRest == b + (r.toUpstream + r.clRest);
  }

  lemma {:induction false} RunTransparent(st: State, up: seq<byte>, cl: seq<byte>)
    requires Run(st, up, cl).end.Done?
    ensures Transparent(Run(st, up, cl), up, cl)
    decreases |up| + |cl|
  {
    if st.File? {
      EncodeDecode(cl);
      var d := Decode(cl);
      var r := Run(Step(st, d.packet.payload), up, d.rest);
      RunTransparent(Step(st, d.packet.payload), up, d.rest);
      PrependTransparent([], Encode(d.packet), r, up, d.rest);
    } else if !st.Stop? {
      EncodeDecode(up);
      var d := Decode(up);
      var r := Run(Step(st, d.packet.payload), d.rest, cl);
      RunTransparent(Step(st, d.packet.payload), d.rest, cl);
      PrependTransparent(Encode(d.packet), [], r, d.rest, cl);
    }
  }

  /** On every error-free return exactly the octets consumed on one side went out on the other. */
  lemma {:induction false} ChainTransparent(up: seq<byte>, cl: seq<byte>)
    requires RunChain(up, cl).end.Done?
    ensures Transparent(RunChain(up, cl), up, cl)
    decreases |up|
  {
    var r := Run(First, up, cl);
    RunTransparent(First, up, cl);
    if r.end == Done(true) {
      ChainTransparent(r.upRest, r.clRest);
      PrependTransparent(r.toClient, r.toUpstream, RunChain(r.upRest, r.clRest), r.upRest, r.clRest);
    }
  }

  // ---------------------------------------------------------------- well-formed responses

  /**
   A response as the protocol describes it, from the server's point of view.
   `info` is whatever follows the fields named here.
   */
  datatype Response =
    | OkResponse(seqId: byte, affectedRows: nat, lastInsertId: nat, status: nat, info: seq<byte>)
    | ErrResponse(seqId: byte, info: seq<byte>)
    | InfileResponse(request: Packet, file: seq<Packet>, endOfFile: Packet, result: Response)
    | ResultSet(seqId: byte, columns: seq<Packet>, endOfColumns: Packet, rows: seq<Packet>, last: Last)

  datatype Last = EofLast(seqId: byte, warnings: nat, status: nat) | ErrLast(seqId: byte, info: seq<byte>)

  function LastPacket(l: Last): Packet {
    match l
    case EofLast(seqId, warnings, status) => Packet(seqId, EofPayload(warnings, status))
    case ErrLast(seqId, info) => Packet(seqId, [ERR_MARK] + info)
  }

  /** The server's packets of a response. */
  function ServerPackets(r: Response): seq<Packet>
  {
    match r
    case OkResponse(seqId, a, l, status, info) =>
      [Packet(seqId, [OK_MARK] + PutLenEnc(a) + PutLenEnc(l) + PutLe(status, 2) + info)]
    case ErrResponse(seqId, info) => [Packet(seqId, [ERR_MARK] + info)]
    case InfileResponse(request, _, _, result) => [request] + ServerPackets(result)
    case ResultSet(seqId, columns, endOfColumns, rows, last) =>
      [Packet(seqId, PutLenEnc(|columns|))] + (columns + ([endOfColumns] + (rows + [LastPacket(last)])))
  }

  /** The client's packets of a response: the file a LOCAL INFILE request asks for. */
  function ClientPackets(r: Response): seq<Packet> {
    if r.InfileResponse? then r.file + [r.endOfFile] else []
  }

  /** Does the response announce another one? The status word of its last packet says so. */
  predicate Announces(r: Response) {
    match r
    case OkResponse(_, _, _, status, _) => MoreFlag(status)
    case ErrResponse(_, _) => false
    case InfileResponse(_, _, _, result) => Announces(result)
    case ResultSet(_, _, _, _, last) => last.EofLast? && MoreFlag(last.status)
  }

  predicate Sized(ps: seq<Packet>) {
    forall p :: p in ps ==> |p.payload| < MAX_PAYLOAD
  }

  predicate WellFormed(r: Response) {
    && Sized(ServerPackets(r)) && Sized(ClientPackets(r))
    && match r
       case OkResponse(_, a, l, status, _) =>
         a < 0x1_0000_0000_0000_0000 && l < 0x1_0000_0000_0000_0000 && status < 0x1_0000
       case ErrResponse(_, _) => true
       case InfileResponse(request, file, endOfFile, result) =>
         && |request.payload| > 0 && request.payload[0] == INFILE_MARK
         && (forall p :: p in file ==> p.payload != []) && endOfFile.payload == []
         && (result.OkResponse? || result.ErrResponse?) && WellFormed(result)
       case ResultSet(_, columns, _, rows, last) =>
         && 0 < |columns| < 0x1_0000_0000_0000_0000
         && (forall p :: p in rows ==> !IsEof(p.payload) && !IsErr(p.payload))
         && (last.EofLast? ==> last.status < 0x1_0000)
  }

  /** Result sets chained by the more-results flag: only the last announces nothing. */
  predicate WellFormedChain(rs: seq<Response>) {
    && rs != [] && (forall r :: r in rs ==> WellFormed(r))
    && (forall i :: 0 <= i < |rs| ==> (Announces(rs[i]) <==> i < |rs| - 1))
  }

  function ServerBytes(rs: seq<Response>): seq<byte> {
    if rs == [] then [] else EncodeAll(ServerPackets(rs[0])) + ServerBytes(rs[1..])
  }

  function ClientBytes(rs: seq<Response>): seq<byte> {
    if rs == [] then [] else EncodeAll(ClientPackets(rs[0])) + ClientBytes(rs[1..])
  }

  /** The server packets ps take the automaton from st to next, and it reads no other packet meanwhile. */
  predicate Through(st: State, ps: seq<Packet>, next: State)
    decreases |ps|
  {
    if ps == [] then st == next
    else !st.Stop? && !st.File? && Through(Step(st, ps[0].payload), ps[1..], next)
  }

  lemma {:induction false} ThroughAppend(st: State, ps: seq<Packet>, mid: State, qs: seq<Packet>, next: State)
    requires Through(st, ps, mid) && Through(mid, qs, next)
    ensures Through(st, ps + qs, next)
    decreases |ps|
  {
    if ps == [] {
      assert ps + qs == qs;
    } else {
      ThroughAppend(Step(st, ps[0].payload), ps[1..], mid, qs, next);
      assert (ps + qs)[1..] == ps[1..] + qs;
    }
  }

  lemma ThroughOne(st: State, p: Packet)
    requires !st.Stop? && !st.File?
    ensures Through(st, [p], Step(st, p.payload))
  {
    assert [p][1..] == [];
  }

  lemma {:induction false} ThroughSkip(ps: seq<Packet>, next: State)
    ensures Through(SkipThen(|ps|, next), ps, next)
  {
    if ps != [] {
      ThroughSkip(ps[1..], next);
    }
  }

  lemma {:induction false} ThroughRows(ps: seq<Packet>)
    requires forall p :: p in ps ==> !IsEof(p.payload) && !IsErr(p.payload)
    ensures Through(Rows, ps, Rows)
  {
    if ps != [] {
      assert ps[0] in ps;
      ThroughRows(ps[1..]);
    }
  }

  /** Feeding the automaton one server packet. */
  lemma RunServerPacket(st: State, p: Packet, up: seq<byte>, cl: seq<byte>)
    requires !st.Stop? && !st.File? && |p.payload| < MAX_PAYLOAD
    ensures Run(st, Encode(p) + up, cl) == Prepend(Encode(p), [], Run(Step(st, p.payload), up, cl))
  {
    DecodeEncode(p, up);
  }

  /** Feeding it several: all of them reach the client, and it goes on where they lead. */
  lemma {:induction false} RunThrough(st: State, ps: seq<Packet>, next: State, up: seq<byte>, cl: seq<byte>)
    requires Sized(ps) && Through(st, ps, next)
    ensures Run(st, EncodeAll(ps) + up, cl) == Prepend(EncodeAll(ps), [], Run(next, up, cl))
    decreases |ps|
  {
    hide Run, Decode, Encode;
    var r := Run(next, up, cl);
    if ps == [] {
      assert EncodeAll(ps) + up == up;
    } else {
      var a, b, st' := Encode(ps[0]), EncodeAll(ps[1..]), Step(st, ps[0].payload);
      assert Sized(ps[1..]) && ps[0] in ps;
      calc {
        Run(st, EncodeAll(ps) + up, cl);
        { assert EncodeAll(ps) + up == a + (b + up); }
        Run(st, a + (b + up), cl);
        { RunServerPacket(st, ps[0], b + up, cl); }
        Prepend(a, [], Run(st', b + up, cl));
        { RunThrough(st', ps[1..], next, up, cl); }
        Prepend(a, [], Prepend(b, [], r));
        { PrependTwice(a, [], b, [], r); }
        Prepend(a + b, [] + [], r);
        Prepend(EncodeAll(ps), [], r);
      }
    }
  }

  /** Feeding it server packets up to the end of a response. */
  lemma RunToStop(st: State, ps: seq<Packet>, v: Verdict, up: seq<byte>, cl: seq<byte>)
    requires Sized(ps) && Through(st, ps, Stop(v))
    ensures Run(st, EncodeAll(ps) + up, cl) == Outcome(EncodeAll(ps), [], up, cl, v)
  {
    RunThrough(st, ps, Stop(v), up, cl);
    assert EncodeAll(ps) + [] == EncodeAll(ps);
  }

  /** Feeding it one packet of the client's, in the only state that takes one. */
  lemma RunClientPacket(p: Packet, up: seq<byte>, cl: seq<byte>)
    requires |p.payload| < MAX_PAYLOAD
    ensures Run(File, up, Encode(p) + cl) == Prepend([], Encode(p), Run(Step(File, p.payload), up, cl))
  {
    DecodeEncode(p, cl);
  }

  /** The file's packets go from the client to the server, up to the empty one. */
  lemma {:induction false} RunFile(file: seq<Packet>, endOfFile: Packet, up: seq<byte>, cl: seq<byte>)
    requires Sized(file) && endOfFile.payload == []
    requires forall p :: p in file ==> p.payload != []
    ensures var sent := EncodeAll(file + [endOfFile]);
            Run(File, up, sent + cl) == Prepend([], sent, Run(FileReply, up, cl))
  {
    hide Run, Decode, Encode;
    var all, r := file + [endOfFile], Run(FileReply, up, cl);
    if file == [] {
      assert all == [endOfFile];
      EncodeAllOne(endOfFile);
      RunClientPacket(endOfFile, up, cl);
    } else {
      var a, b := Encode(file[0]), EncodeAll(file[1..] + [endOfFile]);
      assert file[0] in file && all[1..] == file[1..] + [endOfFile];
      calc {
        Run(File, up, EncodeAll(all) + cl);
        { assert EncodeAll(all) + cl == a + (b + cl); }
        Run(File, up, a + (b + cl));
        { RunClientPacket(file[0], up, b + cl); }
        Prepend([], a, Run(File, up, b + cl));
        { RunFile(file[1..], endOfFile, up, cl); }
        Prepend([], a, Prepend([], b, r));
        { PrependTwice([], a, [], b, r); }
        Prepend([], a + b, r);
      }
    }
  }

  lemma OkOrErrStep(st: State, r: Response)
    requires st.First? || st.FileReply?
    requires WellFormed(r) && (r.OkResponse? || r.ErrResponse?)
    ensures Through(st, ServerPackets(r), Stop(Done(Announces(r))))
  {
    if r.OkResponse? {
      OkStatusReadBack(r.affectedRows, r.lastInsertId, r.status, r.info);
    }
    ThroughOne(st, ServerPackets(r)[0]);
  }

  lemma ResultSetThrough(r: Response)
    requires r.ResultSet? && WellFormed(r)
    ensures Through(First, ServerPackets(r), Stop(Done(Announces(r))))
  {
    var count := Packet(r.seqId, PutLenEnc(|r.columns|));
    var last := LastPacket(r.last);
    var defs := r.columns + [r.endOfColumns];
    assert ServerPackets(r) == [count] + (defs + (r.rows + [last]));
    LenEncRoundTrip(|r.columns|, []);
    assert PutLenEnc(|r.columns|) + [] == PutLenEnc(|r.columns|);
    assert Step(First, count.payload) == SkipThen(|defs|, Rows);
    if r.last.EofLast? {
      EofStatusReadBack(r.last.warnings, r.last.status);
    }
    ThroughOne(Rows, last);
    ThroughRows(r.rows);
    ThroughAppend(Rows, r.rows, Rows, [last], Stop(Done(Announces(r))));
    ThroughSkip(defs, Rows);
    ThroughAppend(SkipThen(|defs|, Rows), defs, Rows, r.rows + [last], Stop(Done(Announces(r))));
    ThroughOne(First, count);
    ThroughAppend(First, [count], SkipThen(|defs|, Rows), defs + (r.rows + [last]), Stop(Done(Announces(r))));
  }

  lemma RunInfile(r: Response, up: seq<byte>, cl: seq<byte>)
    requires r.InfileResponse? && WellFormed(r)
    ensures Run(First, EncodeAll(ServerPackets(r)) + up, EncodeAll(ClientPackets(r)) + cl)
            == Outcome(EncodeAll(ServerPackets(r)), EncodeAll(ClientPackets(r)), up, cl, Done(Announces(r)))
  {
    hide Run, Decode, Encode;
    var result, sent, v := ServerPackets(r.result), EncodeAll(ClientPackets(r)), Done(Announces(r));
    var a, b := Encode(r.request), EncodeAll(result);
    assert ServerPackets(r)[0] == r.request && ServerPackets(r)[1..] == result;
    assert Sized(r.file) by {
      assert forall p :: p in r.file ==> p in ClientPackets(r);
    }
    assert Through(FileReply, result, Stop(v)) by {
      OkOrErrStep(FileReply, r.result);
    }
    calc {
      Run(First, EncodeAll(ServerPackets(r)) + up, sent + cl);
      { assert EncodeAll(ServerPackets(r)) + up == a + (b + up); }
      Run(First, a + (b + up), sent + cl);
      { RunServerPacket(First, r.request, b + up, sent + cl); }
      Prepend(a, [], Run(File, b + up, sent + cl));
      { RunFile(r.file, r.endOfFile, b + up, cl); }
      Prepend(a, [], Prepend([], sent, Run(FileReply, b + up, cl)));
      { RunToStop(FileReply, result, v, up, cl); }
      Prepend(a, [], Prepend([], sent, Outcome(b, [], up, cl, v)));
      { assert a + ([] + b) == a + b && [] + (sent + []) == sent; }
      Outcome(a + b, sent, up, cl, v);
    }
  }

  /** The relay of one well-formed response stops exactly at its end. */
  lemma RunResponse(r: Response, up: seq<byte>, cl: seq<byte>)
    requires WellFormed(r)
    ensures Run(First, EncodeAll(ServerPackets(r)) + up, EncodeAll(ClientPackets(r)) + cl)
            == Outcome(EncodeAll(ServerPackets(r)), EncodeAll(ClientPackets(r)), up, cl, Done(Announces(r)))
  {
    if r.InfileResponse? {
      RunInfile(r, up, cl);
    } else {
      assert EncodeAll(ClientPackets(r)) + cl == cl;
      if r.ResultSet? {
        ResultSetThrough(r);
      } else {
        OkOrErrStep(First, r);
      }
      RunToStop(First, ServerPackets(r), Done(Announces(r)), up, cl);
    }
  }

  lemma ChainHead(rs: seq<Response>)
    requires WellFormedChain(rs)
    ensures rs != [] && WellFormed(rs[0]) && (Announces(rs[0]) <==> |rs| > 1)
    ensures |rs| > 1 ==> WellFormedChain(rs[1..])
  {
    hide WellFormed, Announces;
    assert rs[0] in rs;
    forall i | 0 <= i < |rs| - 1
      ensures rs[1..][i] in rs && (Announces(rs[1..][i]) <==> i < |rs| - 2)
    {
      assert rs[1..][i] == rs[i + 1];
    }
  }

  /**
   Main result: whatever octets follow a well-formed response, the relay passes on
   exactly that response and leaves the rest unread, on both sides.
   */
  lemma {:induction false} ChainStopsAtItsEnd(rs: seq<Response>, up: seq<byte>, cl: seq<byte>)
    requires WellFormedChain(rs)
    ensures RunChain(ServerBytes(rs) + up, ClientBytes(rs) + cl)
            == Outcome(ServerBytes(rs), ClientBytes(rs), up, cl, Done(false))
    decreases |rs|
  {
    hide Run, EncodeAll, WellFormedChain, WellFormed, Announces, ServerPackets, ClientPackets;
    ChainHead(rs);
    var s, c := EncodeAll(ServerPackets(rs[0])), EncodeAll(ClientPackets(rs[0]));
    var s', c' := ServerBytes(rs[1..]), ClientBytes(rs[1..]);
    assert ServerBytes(rs) + up == s + (s' + up) && ClientBytes(rs) + cl == c + (c' + cl);
    RunResponse(rs[0], s' + up, c' + cl);
    if |rs| > 1 {
      ChainStopsAtItsEnd(rs[1..], up, cl);
    } else {
      assert s' + up == up && c' + cl == cl && s + s' == s && c + c' == c;
    }
  }

  // ---------------------------------------------------------------- rows as they are written

  /** A row of values, each as its length and octets, or NULL. */
  function TextRow(cells: seq<Option<seq<byte>>>): seq<byte> {
    if cells == [] then [] else TextCell(cells[0]) + TextRow(cells[1..])
  }

  function TextCell(c: Option<seq<byte>>): seq<byte> {
    match c
    case None => [0xFB]
    case Some(v) => PutLenEnc(|v|) + v
  }

  /** No row of values, whatever these are, is taken for the end of the rows. */
  lemma RowsNeverEnd(cells: seq<Option<seq<byte>>>)
    requires cells != [] && forall c :: c in cells && c.Some? ==> |c.value| < 0x1_0000_0000_0000_0000
    ensures !IsEof(TextRow(cells)) && !IsErr(TextRow(cells))
  {
    hide PutLe;
    assert cells[0] in cells;
    if cells[0].Some? {
      var head := PutLenEnc(|cells[0].value|);
      assert TextRow(cells)[0] == head[0] && (head[0] == EOF_MARK ==> |head| == 9);
    }
  }

  /** The end of the rows, in the five octets of an EOF packet, is. */
  lemma EofEnds(warnings: nat, status: nat, info: seq<byte>)
    ensures IsEof([0xFE] + PutLe(warnings, 2) + PutLe(status, 2)) && IsErr([0xFF] + info)
  {
  }
}
