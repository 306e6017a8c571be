/** The relay methods themselves, over two connections, proved to run the automaton. */
module MySqlRelayLoops {
  import opened Bytes
  import opened Streams
  import opened MySqlWire
  import opened MySqlRelay

  /** What an observer sees of the two connections. */
  datatype View = View(up: seq<byte>, upOut: seq<byte>, upRoom: nat, cl: seq<byte>, clOut: seq<byte>, clRoom: nat)

  ghost function Look(upstream: Conn, client: Conn): View
    reads upstream, client
  {
    View(upstream.input, upstream.output, upstream.room, client.input, client.output, client.room)
  }

  /**
   The connections went from view a to view b by doing t, and the verdict is v.
   When both peers take everything t writes, that is all there is. Otherwise the
   relay reports the failed write, each peer has got a prefix of its octets, and one
   of the two as many as it takes.
   */
  predicate Did(t: Outcome, a: View, b: View, v: Verdict) {
    if |t.toClient| <= a.clRoom && |t.toUpstream| <= a.upRoom then
      v == t.end && b == View(t.upRest, a.upOut + t.toUpstream, a.upRoom - |t.toUpstream|,
                              t.clRest, a.clOut + t.toClient, a.clRoom - |t.toClient|)
    else
      && v == Failed(WriteFailed)
      && a.clOut <= b.clOut <= a.clOut + t.toClient
      && a.upOut <= b.upOut <= a.upOut + t.toUpstream
      && (|| (|t.toClient| > a.clRoom && |b.clOut| == |a.clOut| + a.clRoom)
          || (|t.toUpstream| > a.upRoom && |b.upOut| == |a.upOut| + a.upRoom))
  }

  /** From view a, doing t means reaching view m and then doing r. */
  predicate LeftToDo(t: Outcome, a: View, r: Outcome, m: View) {
    && a.clOut <= m.clOut && a.upOut <= m.upOut
    && m.clOut + r.toClient == a.clOut + t.toClient
    && m.upOut + r.toUpstream == a.upOut + t.toUpstream
    && m.clRoom + |m.clOut| == a.clRoom + |a.clOut|
    && m.upRoom + |m.upOut| == a.upRoom + |a.upOut|
    && r.upRest == t.upRest && r.clRest == t.clRest && r.end == t.end
  }

  lemma DidRest(t: Outcome, a: View, r: Outcome, m: View, b: View, v: Verdict)
    requires LeftToDo(t, a, r, m) && Did(r, m, b, v)
    ensures Did(t, a, b, v)
  {
    assert |m.clOut| + |r.toClient| == |a.clOut| + |t.toClient|;
    assert |m.upOut| + |r.toUpstream| == |a.upOut| + |t.toUpstream|;
  }

  /** A packet moved from the server to the client is one step of the automaton. */
  lemma MovedDown(t: Outcome, a: View, st: State, m: View, p: Packet, rest: seq<byte>)
    requires !st.Stop? && !st.File?
    requires LeftToDo(t, a, Run(st, m.up, m.cl), m)
    requires Decode(m.up) == Got(p, rest) && |Encode(p)| <= m.clRoom
    ensures var n := m.(up := rest, clOut := m.clOut + Encode(p), clRoom := m.clRoom - |Encode(p)|);
            LeftToDo(t, a, Run(Step(st, p.payload), n.up, n.cl), n)
  {
    hide Encode, Decode, Step;
    var r := Run(Step(st, p.payload), rest, m.cl);
    assert m.clOut + (Encode(p) + r.toClient) == (m.clOut + Encode(p)) + r.toClient;
  }

  /** A packet moved from the client to the server, during LOCAL INFILE. */
  lemma MovedUp(t: Outcome, a: View, m: View, p: Packet, rest: seq<byte>)
    requires LeftToDo(t, a, Run(File, m.up, m.cl), m)
    requires Decode(m.cl) == Got(p, rest) && |Encode(p)| <= m.upRoom
    ensures var n := m.(cl := rest, upOut := m.upOut + Encode(p), upRoom := m.upRoom - |Encode(p)|);
            LeftToDo(t, a, Run(Step(File, p.payload), n.up, n.cl), n)
  {
    hide Encode, Decode, Step;
    var r := Run(Step(File, p.payload), m.up, rest);
    assert m.upOut + (Encode(p) + r.toUpstream) == (m.upOut + Encode(p)) + r.toUpstream;
  }

  datatype Moved = Moved(packet: Packet) | Stuck(error: Error)

  /** relayOnePacket: reads one packet from src and writes it to dst. */
  method RelayOnePacket(src: Conn, dst: Conn) returns (r: Moved)
    requires src != dst
    modifies src`input, dst`output, dst`room
    ensures match Decode(old(src.input))
            case Short => r == Stuck(UnexpectedEof) && src.input == [] && unchanged(dst)
            case Got(p, rest) =>
              && src.input == rest
              && r == (if |Encode(p)| <= old(dst.room) then Moved(p) else Stuck(WriteFailed))
              && dst.output == old(dst.output) + (if r.Moved? then Encode(p) else Encode(p)[..old(dst.room)])
              && dst.room == (if r.Moved? then old(dst.room) - |Encode(p)| else 0)
  {
    var p := ReadPacket(src);
    if p.None? {
      return Stuck(UnexpectedEof);
    }
    var ok := WritePacket(dst, p.value.payload, p.value.seqId);
    if !ok {
      return Stuck(WriteFailed);
    }
    return Moved(p.value);
  }

  /** A packet that could not be moved from the server to the client ends the relay as t says. */
  lemma StuckDown(t: Outcome, a: View, st: State, m: View, b: View, e: Error)
    requires !st.Stop? && !st.File?
    requires LeftToDo(t, a, Run(st, m.up, m.cl), m)
    requires match Decode(m.up)
             case Short => e == UnexpectedEof && b == m.(up := [])
             case Got(p, rest) =>
               && e == WriteFailed && |Encode(p)| > m.clRoom
               && b == m.(up := rest, clOut := m.clOut + Encode(p)[..m.clRoom], clRoom := 0)
    ensures Did(t, a, b, Failed(e))
  {
    var r := Run(st, m.up, m.cl);
    DidRest(t, a, r, m, b, Failed(e)) by {
      if Decode(m.up).Short? {
        assert m.clOut + [] == m.clOut && m.upOut + [] == m.upOut;
      } else {
        PrefixOfFirst(m.clOut, Encode(Decode(m.up).packet), r.toClient, m.clRoom);
      }
    }
  }

  lemma StuckUp(t: Outcome, a: View, m: View, b: View, e: Error)
    requires LeftToDo(t, a, Run(File, m.up, m.cl), m)
    requires match Decode(m.cl)
             case Short => e == UnexpectedEof && b == m.(cl := [])
             case Got(p, rest) =>
               && e == WriteFailed && |Encode(p)| > m.upRoom
               && b == m.(cl := rest, upOut := m.upOut + Encode(p)[..m.upRoom], upRoom := 0)
    ensures Did(t, a, b, Failed(e))
  {
    var r := Run(File, m.up, m.cl);
    DidRest(t, a, r, m, b, Failed(e)) by {
      if Decode(m.cl).Short? {
        assert m.clOut + [] == m.clOut && m.upOut + [] == m.upOut;
      } else {
        PrefixOfFirst(m.upOut, Encode(Decode(m.cl).packet), r.toUpstream, m.upRoom);
      }
    }
  }

  lemma PrefixOfFirst(out: seq<byte>, first: seq<byte>, all: seq<byte>, k: nat)
    requires first <= all && k <= |first|
    ensures out <= out + first[..k] <= out + all
  {
    assert all[..k] == first[..k];
  }

  /** When the automaton has stopped, everything is done. */
  lemma StoppedDid(t: Outcome, a: View, m: View, v: Verdict)
    requires LeftToDo(t, a, Run(Stop(v), m.up, m.cl), m)
    ensures Did(t, a, m, v)
  {
    assert m.clOut + [] == m.clOut && m.upOut + [] == m.upOut;
    DidRest(t, a, Run(Stop(v), m.up, m.cl), m, m, v);
  }

  lemma NothingDone(t: Outcome, a: View)
    ensures LeftToDo(t, a, t, a)
  {
  }

  /** Relays n packets without looking at them. */
  method RelayMany(upstream: Conn, client: Conn, n: nat, ghost next: State, ghost t: Outcome, ghost a: View)
    returns (failure: Option<Error>)
    requires upstream != client
    requires LeftToDo(t, a, Run(SkipThen(n, next), upstream.input, client.input), Look(upstream, client))
    modifies upstream`input, client`output, client`room
    ensures failure.None? ==> LeftToDo(t, a, Run(next, upstream.input, client.input), Look(upstream, client))
    ensures failure.Some? ==> Did(t, a, Look(upstream, client), Failed(failure.value))
  {
    hide Run, Encode, Decode, LeftToDo, Did;
    var i := 0;
    while i < n
      invariant 0 <= i <= n
      invariant LeftToDo(t, a, Run(SkipThen(n - i, next), upstream.input, client.input), Look(upstream, client))
    {
      ghost var m, st := Look(upstream, client), SkipThen(n - i, next);
      var moved := RelayOnePacket(upstream, client);
      if moved.Stuck? {
        StuckDown(t, a, st, m, Look(upstream, client), moved.error);
        return Some(moved.error);
      }
      MovedDown(t, a, st, m, moved.packet, upstream.input);
      assert Step(st, moved.packet.payload) == SkipThen(n - (i + 1), next);
      i := i + 1;
    }
    return None;
  }

  /** relayRows: rows until an EOF or ERR packet. */
  method RelayRows(upstream: Conn, client: Conn) returns (v: Verdict)
    requires upstream != client
    modifies upstream`input, client`output, client`room
    ensures Did(Run(Rows, old(upstream.input), old(client.input)),
                old(Look(upstream, client)), Look(upstream, client), v)
  {
    hide Run, Encode, LeftToDo, Did;
    ghost var t, a := Run(Rows, upstream.input, client.input), Look(upstream, client);
    NothingDone(t, a);
    while true
      invariant LeftToDo(t, a, Run(Rows, upstream.input, client.input), Look(upstream, client))
      decreases |upstream.input|
    {
      ghost var m := Look(upstream, client);
      var moved := RelayOnePacket(upstream, client);
      if moved.Stuck? {
        StuckDown(t, a, Rows, m, Look(upstream, client), moved.error);
        return Failed(moved.error);
      }
      var payload := moved.packet.payload;
      MovedDown(t, a, Rows, m, moved.packet, upstream.input);
      if IsEof(payload) {
        StoppedDid(t, a, Look(upstream, client), Done(HasMoreEof(payload)));
        return Done(HasMoreEof(payload));
      }
      if IsErr(payload) {
        StoppedDid(t, a, Look(upstream, client), Done(false));
        return Done(false);
      }
    }
  }

  /** relayFieldListResponse. */
  method RelayFieldListResponse(upstream: Conn, client: Conn) returns (v: Verdict)
    requires upstream != client
    modifies upstream`input, client`output, client`room
    ensures Did(Run(FieldList, old(upstream.input), old(client.input)),
                old(Look(upstream, client)), Look(upstream, client), v)
  {
    hide Run, Encode, LeftToDo, Did;
    ghost var t, a := Run(FieldList, upstream.input, client.input), Look(upstream, client);
    NothingDone(t, a);
    while true
      invariant LeftToDo(t, a, Run(FieldList, upstream.input, client.input), Look(upstream, client))
      decreases |upstream.input|
    {
      ghost var m := Look(upstream, client);
      var moved := RelayOnePacket(upstream, client);
      if moved.Stuck? {
        StuckDown(t, a, FieldList, m, Look(upstream, client), moved.error);
        return Failed(moved.error);
      }
      MovedDown(t, a, FieldList, m, moved.packet, upstream.input);
      if IsEof(moved.packet.payload) || IsErr(moved.packet.payload) {
        StoppedDid(t, a, Look(upstream, client), Done(false));
        return Done(false);
      }
    }
  }

  /** relayLocalInFile: the client's file, up to its empty packet, then the server's result. */
  method RelayLocalInFile(upstream: Conn, client: Conn) returns (v: Verdict)
    requires upstream != client
    modifies upstream`input, upstream`output, upstream`room, client`input, client`output, client`room
    ensures Did(Run(File, old(upstream.input), old(client.input)),
                old(Look(upstream, client)), Look(upstream, client), v)
  {
    hide Run, Encode, LeftToDo, Did;
    ghost var t, a := Run(File, upstream.input, client.input), Look(upstream, client);
    NothingDone(t, a);
    var more := true;
    while more
      invariant var st := if more then File else FileReply;
                LeftToDo(t, a, Run(st, upstream.input, client.input), Look(upstream, client))
      decreases more, |client.input|
    {
      ghost var m := Look(upstream, client);
      var moved := RelayOnePacket(client, upstream);
      if moved.Stuck? {
        StuckUp(t, a, m, Look(upstream, client), moved.error);
        return Failed(moved.error);
      }
      MovedUp(t, a, m, moved.packet, client.input);
      if moved.packet.payload == [] {
        more := false;
      }
    }
    ghost var m := Look(upstream, client);
    var reply := RelayOnePacket(upstream, client);
    if reply.Stuck? {
      StuckDown(t, a, FileReply, m, Look(upstream, client), reply.error);
      return Failed(reply.error);
    }
    var payload := reply.packet.payload;
    MovedDown(t, a, FileReply, m, reply.packet, upstream.input);
    v := Done(false);
    if |payload| > 0 && payload[0] == OK_MARK {
      v := Done(HasMoreOk(payload));
    }
    StoppedDid(t, a, Look(upstream, client), v);
  }

  /** relaySingleResponse. */
  method RelaySingleResponse(upstream: Conn, client: Conn) returns (v: Verdict)
    requires upstream != client
    modifies upstream`input, upstream`output, upstream`room, client`input, client`output, client`room
    ensures Did(Run(First, old(upstream.input), old(client.input)),
                old(Look(upstream, client)), Look(upstream, client), v)
  {
    hide Run, Encode, LeftToDo, Did;
    ghost var t, a := Run(First, upstream.input, client.input), Look(upstream, client);
    NothingDone(t, a);
    var moved := RelayOnePacket(upstream, client);
    if moved.Stuck? {
      StuckDown(t, a, First, a, Look(upstream, client), moved.error);
      return Failed(moved.error);
    }
    var payload := moved.packet.payload;
    MovedDown(t, a, First, a, moved.packet, upstream.input);
    ghost var m := Look(upstream, client);
    if payload == [] {
      v := Done(false);
      StoppedDid(t, a, m, v);
    } else if payload[0] == OK_MARK {
      v := Done(HasMoreOk(payload));
      StoppedDid(t, a, m, v);
    } else if payload[0] == ERR_MARK {
      v := Done(false);
      StoppedDid(t, a, m, v);
    } else if payload[0] == INFILE_MARK {
      v := RelayLocalInFile(upstream, client);
      DidRest(t, a, Run(File, m.up, m.cl), m, Look(upstream, client), v);
    } else if payload[0] == EOF_MARK && |payload| < 9 {
      v := Done(false);
      StoppedDid(t, a, m, v);
    } else {
      var count := GetLenEnc(payload);
      if count.BadLenEnc? {
        v := Failed(BadColumnCount);
        StoppedDid(t, a, m, v);
      } else if count.v == 0 {
        v := Done(false);
        StoppedDid(t, a, m, v);
      } else {
        // The column definitions and the EOF packet after them.
        var failure := RelayMany(upstream, client, count.v + 1, Rows, t, a);
        if failure.Some? {
          return Failed(failure.value);
        }
        m := Look(upstream, client);
        v := RelayRows(upstream, client);
        DidRest(t, a, Run(Rows, m.up, m.cl), m, Look(upstream, client), v);
      }
    }
  }

  /** relayResponse: one response after the other while more are announced. */
  method RelayResponse(upstream: Conn, client: Conn) returns (v: Verdict)
    requires upstream != client
    modifies upstream`input, upstream`output, upstream`room, client`input, client`output, client`room
    ensures Did(RunChain(old(upstream.input), old(client.input)),
                old(Look(upstream, client)), Look(upstream, client), v)
    ensures v.Done? ==> client.output + upstream.input == old(client.output) + old(upstream.input)
    ensures v.Done? ==> upstream.output + client.input == old(upstream.output) + old(client.input)
  {
    hide LeftToDo, Did;
    ghost var t, a := RunChain(upstream.input, client.input), Look(upstream, client);
    NothingDone(t, a);
    while true
      invariant LeftToDo(t, a, RunChain(upstream.input, client.input), Look(upstream, client))
      decreases |upstream.input|
    {
      ghost var m := Look(upstream, client);
      v := RelaySingleResponse(upstream, client);
      ghost var n := Look(upstream, client);
      OneOfChain(t, a, m, n, v);
      if v != Done(true) {
        PassedOn(a, n, v);
        return;
      }
    }
  }

  /** On an error-free return what a peer got is exactly what the other's stream has lost. */
  lemma PassedOn(a: View, b: View, v: Verdict)
    requires Did(RunChain(a.up, a.cl), a, b, v)
    ensures v.Done? ==> b.clOut + b.up == a.clOut + a.up && b.upOut + b.cl == a.upOut + a.cl
  {
    hide RunChain;
    if v.Done? {
      var t := RunChain(a.up, a.cl);
      ChainTransparent(a.up, a.cl);
      assert (a.clOut + t.toClient) + t.upRest == a.clOut + (t.toClient + t.upRest);
      assert (a.upOut + t.toUpstream) + t.clRest == a.upOut + (t.toUpstream + t.clRest);
    }
  }

  lemma OneOfChain(t: Outcome, a: View, m: View, n: View, v: Verdict)
    requires LeftToDo(t, a, RunChain(m.up, m.cl), m)
    requires Did(Run(First, m.up, m.cl), m, n, v)
    ensures v == Done(true) ==> |n.up| < |m.up| && LeftToDo(t, a, RunChain(n.up, n.cl), n)
    ensures v != Done(true) ==> Did(t, a, n, v)
  {
    hide Run;
    var one, all := Run(First, m.up, m.cl), RunChain(m.up, m.cl);
    if v == Done(true) {
      var rest := RunChain(n.up, n.cl);
      assert m.clOut + (one.toClient + rest.toClient) == (m.clOut + one.toClient) + rest.toClient;
      assert m.upOut + (one.toUpstream + rest.toUpstream) == (m.upOut + one.toUpstream) + rest.toUpstream;
    } else {
      if one.end == Done(true) {
        var rest := RunChain(one.upRest, one.clRest);
        assert one.toClient <= all.toClient && one.toUpstream <= all.toUpstream;
        assert m.clOut + one.toClient <= m.clOut + all.toClient;
        assert m.upOut + one.toUpstream <= m.upOut + all.toUpstream;
      }
      DidRest(t, a, all, m, n, v);
    }
  }

  /** The part of relayPrepareResponse after its first packet: definitions, each list ended by one packet. */
  method RelayDefinitions(upstream: Conn, client: Conn, params: nat, columns: nat, ghost t: Outcome, ghost a: View)
    returns (v: Verdict)
    requires upstream != client
    requires var tail := SkipThen(if columns > 0 then columns + 1 else 0, Stop(Done(false)));
             LeftToDo(t, a, Run(SkipThen(if params > 0 then params + 1 else 0, tail), upstream.input, client.input),
                      Look(upstream, client))
    modifies upstream`input, client`output, client`room
    ensures Did(t, a, Look(upstream, client), v)
  {
    ghost var tail := SkipThen(if columns > 0 then columns + 1 else 0, Stop(Done(false)));
    if params > 0 {
      var failure := RelayMany(upstream, client, params + 1, tail, t, a);
      if failure.Some? {
        return Failed(failure.value);
      }
    }
    if columns > 0 {
      var failure := RelayMany(upstream, client, columns + 1, Stop(Done(false)), t, a);
      if failure.Some? {
        return Failed(failure.value);
      }
    }
    v := Done(false);
    StoppedDid(t, a, Look(upstream, client), v);
  }
}
