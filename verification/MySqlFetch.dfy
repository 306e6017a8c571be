/** COM_STMT_FETCH, which the command loop has no case for: its reply begins with rows, not with a column count. */
module MySqlFetch {
  import opened Bytes
  import opened MySqlWire
  import opened MySqlRelay
  import opened MySqlForward
  import opened MySqlSynthetic

  const COM_STMT_FETCH: byte := 0x1C

  /** A FETCH is forwarded, and its reply relayed as if it were the response to a query. */
  lemma FetchIsRelayedAsQuery(cfg: Config, m: Memory, arguments: seq<byte>)
    ensures var d := Decide(cfg, m, [COM_STMT_FETCH] + arguments);
            d.action == Forward(FullResponse) && d.logged == [] && d.memory == m.(startup := false)
  {
  }

  /** The rows of a reply: in the binary protocol each begins with a zero octet. */
  predicate BinaryRows(rows: seq<Packet>) {
    Sized(rows) && forall p :: p in rows ==> |p.payload| > 0 && p.payload[0] == OK_MARK
  }

  /** How many rows at the beginning happen to announce more results, read as OK packets. */
  function Lucky(rows: seq<Packet>): (n: nat)
    ensures n <= |rows|
    ensures n == |rows| <==> forall p :: p in rows ==> HasMoreOk(p.payload)
  {
    if rows == [] then 0
    else if HasMoreOk(rows[0].payload) then 1 + Lucky(rows[1..])
    else
      assert rows[0] in rows;
      0
  }

  lemma OnePacketResponse(p: Packet, more: bool, up: seq<byte>, cl: seq<byte>)
    requires |p.payload| < MAX_PAYLOAD && Step(First, p.payload) == Stop(Done(more))
    ensures var r := RunChain(up, cl);
            RunChain(Encode(p) + up, cl)
            == if more then Prepend(Encode(p), [], r) else Outcome(Encode(p), [], up, cl, Done(false))
  {
    hide Run, Encode, Step;
    ThroughOne(First, p);
    RunToStop(First, [p], Done(more), up, cl);
    EncodeAllOne(p);
  }

  lemma EncodeAllFirst(p: Packet, ps: seq<Packet>)
    ensures EncodeAll([p] + ps) == Encode(p) + EncodeAll(ps)
  {
    assert ([p] + ps)[1..] == ps;
  }

  /** When the relay takes p for the end, the packets after it are left. */
  lemma EndsHere(p: Packet, ps: seq<Packet>, up: seq<byte>, cl: seq<byte>)
    requires |p.payload| < MAX_PAYLOAD && Step(First, p.payload) == Stop(Done(false))
    ensures var all := [p] + ps;
            RunChain(EncodeAll(all) + up, cl)
            == Outcome(EncodeAll(all[..1]), [], EncodeAll(all[1..]) + up, cl, Done(false))
  {
    hide RunChain, Encode, EncodeAll, Step;
    var all := [p] + ps;
    EncodeAllFirst(p, ps);
    assert EncodeAll(all) + up == Encode(p) + (EncodeAll(ps) + up);
    OnePacketResponse(p, false, EncodeAll(ps) + up, cl);
    assert all[..1] == [p] && all[1..] == ps;
    EncodeAllOne(p);
  }

  /** The relay takes the first row that announces nothing more for the end of the reply. */
  lemma {:induction false} FetchStops(rows: seq<Packet>, last: Last, up: seq<byte>, cl: seq<byte>)
    requires BinaryRows(rows) && |LastPacket(last).payload| < MAX_PAYLOAD
    ensures var all, n := rows + [LastPacket(last)], Lucky(rows) + 1;
            RunChain(EncodeAll(all) + up, cl)
            == Outcome(EncodeAll(all[..n]), [], EncodeAll(all[n..]) + up, cl, Done(false))
    decreases |rows|
  {
    hide RunChain, Encode, EncodeAll, HasMoreOk, LastPacket;
    var end := LastPacket(last);
    if rows == [] {
      assert rows + [end] == [end] + [];
      LastEnds(last);
      EndsHere(end, [], up, cl);
    } else {
      var p, ps := rows[0], rows[1..] + [end];
      assert p in rows && BinaryRows(rows[1..]) && rows + [end] == [p] + ps;
      if HasMoreOk(p.payload) {
        var all, n := [p] + ps, Lucky(rows[1..]) + 1;
        FetchStops(rows[1..], last, up, cl);
        EncodeAllFirst(p, ps);
        assert EncodeAll(all) + up == Encode(p) + (EncodeAll(ps) + up);
        OnePacketResponse(p, true, EncodeAll(ps) + up, cl);
        assert all[..n + 1] == [p] + ps[..n] && all[n + 1..] == ps[n..];
        EncodeAllFirst(p, ps[..n]);
      } else {
        EndsHere(p, ps, up, cl);
      }
    }
  }

  lemma LastEnds(last: Last)
    ensures Step(First, LastPacket(last).payload) == Stop(Done(false))
  {
  }

  /**
   Main result: the reply to a FETCH is relayed to its end if and only if every row,
   misread as an OK packet, happens to announce more results. Otherwise all that follows
   the first row that does not is left for the next command to run into.
   */
  lemma FetchRelayedExactly(rows: seq<Packet>, last: Last, up: seq<byte>, cl: seq<byte>)
    requires BinaryRows(rows) && |LastPacket(last).payload| < MAX_PAYLOAD
    ensures var wire := EncodeAll(rows + [LastPacket(last)]);
            RunChain(wire + up, cl) == Outcome(wire, [], up, cl, Done(false))
            <==> forall p :: p in rows ==> HasMoreOk(p.payload)
  {
    hide RunChain, Encode, HasMoreOk, EncodeAll, LastPacket;
    var all, n := rows + [LastPacket(last)], Lucky(rows) + 1;
    FetchStops(rows, last, up, cl);
    if n == |all| {
      assert all[..n] == all && all[n..] == [];
      assert EncodeAll([]) == [] by { EncodeAllNone(); }
      assert [] + up == up;
    } else {
      EncodeAllLonger(all, n);
    }
  }

  lemma EncodeAllNone()
    ensures EncodeAll([]) == []
  {
  }

  /** For one, a row of zeros: the relay stops there, whatever follows. */
  lemma ZeroRowEndsReply(seqId: byte, last: Last, up: seq<byte>, cl: seq<byte>)
    requires |LastPacket(last).payload| < MAX_PAYLOAD
    ensures var row, end := Packet(seqId, [0, 0, 0, 0, 0]), LastPacket(last);
            RunChain(EncodeAll([row, end]) + up, cl) == Outcome(Encode(row), [], Encode(end) + up, cl, Done(false))
  {
    hide RunChain, Encode, EncodeAll, LastPacket, HasMoreOk;
    var row, end := Packet(seqId, [0, 0, 0, 0, 0]), LastPacket(last);
    ZerosAnnounceNothing(row.payload);
    assert [row, end] == [row] + [end] && [row, end][..1] == [row] && [row, end][1..] == [end];
    EndsHere(row, [end], up, cl);
    EncodeAllOne(row);
    EncodeAllOne(end);
  }

  lemma ZerosAnnounceNothing(s: seq<byte>)
    requires s == [0, 0, 0, 0, 0]
    ensures !HasMoreOk(s)
  {
    var w := s[3..5];
    assert w == [0, 0] && w[1..] == [0] && w[1..][1..] == [];
    assert Le(w[1..]) == 0 && Le(w) == 0;
  }

  /**
   Main result, in a session: after a FETCH the client has been shown the packets up to the
   first row that announces nothing more, and the session goes on with the others where the
   response to the next command should be.
   */
  lemma FetchInSession(cfg: Config, m: Memory, seqId: byte, arguments: seq<byte>, rows: seq<Packet>, last: Last,
                       up: seq<byte>, cl: seq<byte>)
    requires BinaryRows(rows) && |LastPacket(last).payload| < MAX_PAYLOAD && |arguments| < MAX_PAYLOAD
    ensures var p, all := Packet(seqId, [COM_STMT_FETCH] + arguments), rows + [LastPacket(last)];
            var n := Lucky(rows) + 1;
            var s := Session(cfg, m, EncodeAll(all) + up, Encode(p) + cl);
            var next := Session(cfg, m.(startup := false), EncodeAll(all[n..]) + up, cl);
            && s.io == Prepend(EncodeAll(all[..n]), Encode(p), next.io)
            && |s.history| == 1 + |next.history| && s.history[1..] == next.history
            && s.history[0].shown == EncodeAll(all[..n]) && s.history[0].logged == []
  {
    hide Encode, Decode, EncodeAll, RunChain, Lucky, LastPacket, Decide, BinaryRows;
    var p, all := Packet(seqId, [COM_STMT_FETCH] + arguments), rows + [LastPacket(last)];
    var n, wire := Lucky(rows) + 1, EncodeAll(all) + up;
    DecodeEncode(p, cl);
    FetchIsRelayedAsQuery(cfg, m, arguments);
    FetchStops(rows, last, up, cl);
    var d := Decide(cfg, m, p.payload);
    var one := CommandOutcome(d.action, p, wire, cl);
    assert [] + EncodeAll(all[..n]) == EncodeAll(all[..n]) && Encode(p) + [] == Encode(p);
    assert one == Outcome(EncodeAll(all[..n]), Encode(p), EncodeAll(all[n..]) + up, cl, Done(false));
    var x := ExchangeOf(d, p, one, wire);
    var next := Session(cfg, MemoryAfter(d, wire), one.upRest, one.clRest);
    assert ([x] + next.history)[1..] == next.history;
  }
}
