/** TDS messages: split into packets when written, put together again when read. */
module Tds {
  import opened Bytes
  import opened Streams

  const MAX_PAYLOAD := 4096
  const EOM: byte := 1

  // ---------------------------------------------------------------- writing

  /** The eight octets before a packet's payload. */
  function Header(kind: byte, last: bool, length: nat, id: byte): (h: seq<byte>)
    ensures |h| == 8
  {
    [kind, if last then EOM else 0] + PutBe(length, 2) + [0, 0, id, 0]
  }

  function NextId(id: byte): byte {
    if id == 255 then 0 else id + 1
  }

  /** The packets of a payload, numbered from id on. */
  function Split(kind: byte, payload: seq<byte>, id: byte): (ps: seq<seq<byte>>)
    requires payload != []
    ensures ps != []
  {
    var take := if |payload| > MAX_PAYLOAD then MAX_PAYLOAD else |payload|;
    var last := take == |payload|;
    [Header(kind, last, take + 8, id) + payload[..take]]
    + (if last then [] else Split(kind, payload[take..], NextId(id)))
  }

  /** What writeTDSPayload writes. */
  function WirePackets(kind: byte, payload: seq<byte>): (ps: seq<seq<byte>>)
    ensures ps != []
  {
    if payload == [] then [Header(kind, true, 8, 0)] else Split(kind, payload, 1)
  }

  /** writeTDSPayload. */
  method WriteTdsPayload(c: Conn, kind: byte, payload: seq<byte>) returns (ok: bool)
    modifies c`output, c`room
    ensures Wrote(Flatten(WirePackets(kind, payload)), old(c.output), old(c.room), c.output, c.room, ok)
  {
    hide Wrote, Header, Split, Flatten;
    ghost var out, room, wire := c.output, c.room, Flatten(WirePackets(kind, payload));
    if payload == [] {
      var header := Header(kind, true, 8, 0);
      FlattenCons(header, []);
      FlattenNone();
      assert [header] + [] == [header];
      ok := c.Write(header);
      assert wire == header;
      return;
    }
    var packetId: byte := 1;
    var remaining := payload;
    ghost var done := [];
    WroteNothing(out, room);
    assert done + wire == wire;
    while |remaining| > 0
      invariant wire == done + Remaining(kind, remaining, packetId)
      invariant Wrote(done, out, room, c.output, c.room, true)
    {
      ghost var was, id := remaining, packetId;
      var take := |remaining|;
      if take > MAX_PAYLOAD {
        take := MAX_PAYLOAD;
      }
      var chunk := remaining[..take];
      remaining := remaining[take..];
      var header := Header(kind, |remaining| == 0, |chunk| + 8, packetId);
      packetId := NextId(packetId);
      ghost var more := Remaining(kind, remaining, packetId);
      RemainingStep(kind, was, id);
      assert wire == done + header + chunk + more;

      ghost var mid, midRoom := c.output, c.room;
      ok := c.Write(header);
      WroteMore(done, header, wire, out, room, mid, midRoom, c.output, c.room, ok);
      if !ok {
        return;
      }
      done := done + header;
      mid, midRoom := c.output, c.room;
      ok := c.Write(chunk);
      WroteMore(done, chunk, wire, out, room, mid, midRoom, c.output, c.room, ok);
      if !ok {
        return;
      }
      done := done + chunk;
    }
    assert done == wire;
    ok := true;
  }

  /** The packets still to be written. */
  function Remaining(kind: byte, payload: seq<byte>, id: byte): seq<byte> {
    if payload == [] then [] else Flatten(Split(kind, payload, id))
  }

  lemma RemainingStep(kind: byte, payload: seq<byte>, id: byte)
    requires payload != []
    ensures var take := if |payload| > MAX_PAYLOAD then MAX_PAYLOAD else |payload|;
            var rest := payload[take..];
            Remaining(kind, payload, id)
            == Header(kind, |rest| == 0, take + 8, id) + payload[..take] + Remaining(kind, rest, NextId(id))
  {
    hide Header;
    var take := if |payload| > MAX_PAYLOAD then MAX_PAYLOAD else |payload|;
    var rest := payload[take..];
    FlattenCons(Header(kind, |rest| == 0, take + 8, id) + payload[..take],
                if rest == [] then [] else Split(kind, rest, NextId(id)));
  }

  lemma FlattenCons(p: seq<byte>, ps: seq<seq<byte>>)
    ensures Flatten([p] + ps) == p + Flatten(ps)
  {
    assert ([p] + ps)[1..] == ps;
  }

  // ---------------------------------------------------------------- reading

  datatype Error = UnexpectedEof | BadLength(length: nat)

  datatype Read<+T> = Done(value: T, rest: seq<byte>) | Failed(error: Error)

  datatype Message = Message(kind: byte, payload: seq<byte>, packets: seq<seq<byte>>)

  /** One packet, header included. */
  function ReadPacket(s: seq<byte>): (r: Read<seq<byte>>)
    ensures r.Done? ==> |r.value| >= 8 && r.value + r.rest == s
  {
    if |s| < 8 then Failed(UnexpectedEof)
    else
      var n := Be(s[2..4]);
      if n < 8 then Failed(BadLength(n))
      else if |s| < n then Failed(UnexpectedEof)
      else Done(s[..n], s[n..])
  }

  predicate IsLast(packet: seq<byte>)
    requires |packet| >= 2
  {
    packet[1] % 2 == 1
  }

  lemma FlattenRest(p: seq<byte>, ps: seq<seq<byte>>, rest: seq<byte>)
    ensures Flatten([p] + ps) + rest == p + (Flatten(ps) + rest)
  {
    FlattenCons(p, ps);
  }

  /** Packets up to the first with the end-of-message bit. */
  function ReadPackets(s: seq<byte>): (r: Read<seq<seq<byte>>>)
    ensures r.Done? ==> Flatten(r.value) + r.rest == s && forall p :: p in r.value ==> |p| >= 8
    decreases |s|
  {
    match ReadPacket(s)
    case Failed(e) => Failed(e)
    case Done(p, rest) =>
      if IsLast(p) then
        FlattenRest(p, [], rest);
        assert [p] + [] == [p] && [] + rest == rest;
        Done([p], rest)
      else
        match ReadPackets(rest)
        case Failed(e) => Failed(e)
        case Done(ps, left) =>
          FlattenRest(p, ps, left);
          Done([p] + ps, left)
  }

  /** The message's type is the first packet type that is not 0. */
  function KindOf(packets: seq<seq<byte>>): byte
    requires forall p :: p in packets ==> |p| >= 8
  {
    if packets == [] then 0
    else
      assert packets[0] in packets;
      if packets[0][0] != 0 then packets[0][0] else KindOf(packets[1..])
  }

  /** A message is of the type of its first packet that has one. */
  lemma {:induction false} KindIsFirst(packets: seq<seq<byte>>, i: nat)
    requires (forall p :: p in packets ==> |p| >= 8) && i <= |packets|
    requires (forall j :: 0 <= j < i ==> packets[j][0] == 0) && (i < |packets| ==> packets[i][0] != 0)
    ensures KindOf(packets) == if i < |packets| then packets[i][0] else 0
    decreases i
  {
    if packets != [] {
      assert packets[0] in packets;
      if i > 0 {
        assert forall j :: 0 <= j < i - 1 ==> packets[1..][j] == packets[j + 1];
        KindIsFirst(packets[1..], i - 1);
      }
    }
  }

  function PayloadOf(packets: seq<seq<byte>>): seq<byte>
    requires forall p :: p in packets ==> |p| >= 8
  {
    if packets == [] then []
    else
      assert packets[0] in packets;
      packets[0][8..] + PayloadOf(packets[1..])
  }

  /** readTDSMessage. */
  function ReadMessage(s: seq<byte>): Read<Message> {
    match ReadPackets(s)
    case Failed(e) => Failed(e)
    case Done(ps, rest) => Done(Message(KindOf(ps), PayloadOf(ps), ps), rest)
  }

  /** How the packets read so far and those still to be read make up the message. */
  predicate Part(total: Read<Message>, done: Message, part: Read<seq<seq<byte>>>) {
    match part
    case Failed(e) => total == Failed(e)
    case Done(ps, rest) =>
      && (forall p :: p in ps ==> |p| >= 8)
      && total == Done(Message(if done.kind != 0 then done.kind else KindOf(ps), done.payload + PayloadOf(ps),
                               done.packets + ps), rest)
  }

  lemma MessageOf(p: seq<byte>, ps: seq<seq<byte>>)
    requires |p| >= 8 && forall q :: q in ps ==> |q| >= 8
    ensures KindOf([p]) == p[0] && PayloadOf([p]) == p[8..]
    ensures KindOf([p] + ps) == (if p[0] != 0 then p[0] else KindOf(ps))
    ensures PayloadOf([p] + ps) == p[8..] + PayloadOf(ps)
  {
    assert ([p] + ps)[1..] == ps && [p] == [p] + [];
    assert p[8..] + [] == p[8..];
  }

  lemma OnePacket(total: Read<Message>, done: Message, s: seq<byte>, p: seq<byte>, rest: seq<byte>)
    requires ReadPacket(s) == Done(p, rest) && Part(total, done, ReadPackets(s))
    ensures var done' := Message(if done.kind != 0 then done.kind else p[0], done.payload + p[8..], done.packets + [p]);
            if IsLast(p) then total == Done(done', rest) else Part(total, done', ReadPackets(rest))
  {
    hide ReadPacket, KindOf, PayloadOf, Flatten, IsLast;
    if IsLast(p) {
      MessageOf(p, []);
    } else {
      var r := ReadPackets(rest);
      if r.Done? {
        var ps := r.value;
        MessageOf(p, ps);
        assert done.payload + (p[8..] + PayloadOf(ps)) == (done.payload + p[8..]) + PayloadOf(ps);
        assert done.packets + ([p] + ps) == (done.packets + [p]) + ps;
      }
    }
  }

  /** readTDSMessage: header, payload, header, payload, ... */
  method ReadTdsMessage(c: Conn) returns (m: Read<Message>)
    modifies c`input
    ensures var r := ReadMessage(old(c.input));
            if r.Done? then m == Done(r.value, c.input) && c.input == r.rest else m == r
  {
    hide ReadPacket, ReadPackets, Part;
    ghost var total := ReadMessage(c.input);
    var out := Message(0, [], []);
    NothingRead(c.input);
    while true
      invariant Part(total, out, ReadPackets(c.input))
      decreases |c.input|
    {
      ghost var s := c.input;
      var packet := ReadOnePacket(c);
      if packet.Failed? {
        FailedPacket(total, out, s, packet.error);
        return Failed(packet.error);
      }
      var raw := packet.value;
      OnePacket(total, out, s, raw, c.input);
      assert raw + c.input == s;
      out := Message(if out.kind != 0 then out.kind else raw[0], out.payload + raw[8..], out.packets + [raw]);
      if IsLast(raw) {
        return Done(out, c.input);
      }
    }
  }

  lemma NothingRead(s: seq<byte>)
    ensures Part(ReadMessage(s), Message(0, [], []), ReadPackets(s))
  {
    hide ReadPackets;
    var r := ReadPackets(s);
    assert r.Done? ==> [] + r.value == r.value && [] + PayloadOf(r.value) == PayloadOf(r.value);
  }

  lemma FailedPacket(total: Read<Message>, done: Message, s: seq<byte>, e: Error)
    ensures ReadPacket(s) == Failed(e) && Part(total, done, ReadPackets(s)) ==> total == Failed(e)
  {
  }

  method ReadOnePacket(c: Conn) returns (p: Read<seq<byte>>)
    modifies c`input
    ensures var r := ReadPacket(old(c.input));
            if r.Done? then p == Done(r.value, c.input) && c.input == r.rest else p == r
  {
    hide Be;
    ghost var s := c.input;
    var head := c.ReadFull(8);
    if head.None? {
      return Failed(UnexpectedEof);
    }
    assert head.value[2..4] == s[2..4];
    var length := Be(head.value[2..4]);
    if length < 8 {
      return Failed(BadLength(length));
    }
    var payload := c.ReadFull(length - 8);
    if payload.None? {
      return Failed(UnexpectedEof);
    }
    assert s[..length] == head.value + payload.value;
    assert s[8..][length - 8..] == s[length..];
    return Done(head.value + payload.value, c.input);
  }

  // ---------------------------------------------------------------- round trip

  lemma HeaderFacts(kind: byte, last: bool, payload: seq<byte>, id: byte, rest: seq<byte>)
    requires |payload| <= MAX_PAYLOAD
    ensures var p := Header(kind, last, |payload| + 8, id) + payload;
            && ReadPacket(p + rest) == Done(p, rest)
            && p[0] == kind && (IsLast(p) <==> last) && p[8..] == payload && p[6] == id && |p| == |payload| + 8
  {
    var n := |payload| + 8;
    var p := Header(kind, last, n, id) + payload;
    Pow256Values();
    BePutBe(n, 2);
    assert (p + rest)[2..4] == PutBe(n, 2);
    assert (p + rest)[..n] == p && (p + rest)[n..] == rest;
    assert p[1] == (if last then EOM else 0);
    assert p[6] == id;
  }

  /** A length below that of the header is an error, and so is a packet that breaks off. */
  lemma BadPackets(kind: byte, status: byte, n: nat, body: seq<byte>)
    requires n < 0x1_0000
    ensures var s := [kind, status] + PutBe(n, 2) + body;
            && (|body| >= 4 && n < 8 ==> ReadPacket(s) == Failed(BadLength(n)))
            && (|body| < 4 || 4 + |body| < n ==> ReadPacket(s) == Failed(UnexpectedEof))
  {
    hide Be, PutBe;
    Pow256Values();
    BePutBe(n, 2);
    assert ([kind, status] + PutBe(n, 2) + body)[2..4] == PutBe(n, 2);
  }

  /** Reading packets that were split off a payload. */
  lemma {:induction false} SplitReadBack(kind: byte, payload: seq<byte>, id: byte, rest: seq<byte>)
    requires payload != []
    ensures var ps := Split(kind, payload, id);
            && ReadPackets(Flatten(ps) + rest) == Done(ps, rest)
            && KindOf(ps) == kind && PayloadOf(ps) == payload
    decreases |payload|
  {
    hide Header, ReadPacket, Flatten;
    var take := if |payload| > MAX_PAYLOAD then MAX_PAYLOAD else |payload|;
    var last := take == |payload|;
    var p := Header(kind, last, take + 8, id) + payload[..take];
    var more := if last then [] else Split(kind, payload[take..], NextId(id));
    var tail := Flatten(more) + rest;
    HeaderFacts(kind, last, payload[..take], id, tail);
    FlattenCons(p, more);
    assert Flatten([p] + more) + rest == p + tail;
    assert payload == payload[..take] + payload[take..];
    if last {
      assert more == [] && Flatten(more) == [] by {
        FlattenNone();
      }
      assert tail == rest && [p] + more == [p] && [p][1..] == more && payload[take..] == [];
    } else {
      SplitReadBack(kind, payload[take..], NextId(id), rest);
      assert ([p] + more)[1..] == more;
    }
  }

  lemma FlattenNone()
    ensures Flatten<byte>([]) == []
  {
  }

  /** Main result: what was written is read back, and nothing after it. */
  lemma MessageReadBack(kind: byte, payload: seq<byte>, rest: seq<byte>)
    ensures var ps := WirePackets(kind, payload);
            ReadMessage(Flatten(ps) + rest) == Done(Message(kind, payload, ps), rest)
  {
    if payload != [] {
      SplitReadBack(kind, payload, 1, rest);
    } else {
      var p := Header(kind, true, 8, 0);
      HeaderFacts(kind, true, [], 0, rest);
      assert p + [] == p && p[8..] == [];
      FlattenCons(p, []);
      FlattenNone();
      assert [p] + [] == [p];
      MessageOf(p, []);
    }
  }

  lemma SplitFirst(kind: byte, payload: seq<byte>, id: byte)
    ensures payload != [] ==>
              var take := if |payload| > MAX_PAYLOAD then MAX_PAYLOAD else |payload|;
            var first := Header(kind, take == |payload|, take + 8, id) + payload[..take];
            Split(kind, payload, id)
            == if take == |payload| then [first] else [first] + Split(kind, payload[take..], NextId(id))
  {
    hide Header;
  }

  /** How a payload is split: 4096 octets to a packet, the last one marked, ids counted on in eight bits. */
  lemma {:induction false} SplitShape(kind: byte, payload: seq<byte>, id: byte)
    requires payload != []
    ensures var ps := Split(kind, payload, id);
            && |ps| == (|payload| + MAX_PAYLOAD - 1) / MAX_PAYLOAD
            && forall k :: 0 <= k < |ps| ==>
                 && 8 < |ps[k]| <= MAX_PAYLOAD + 8
                 && (k < |ps| - 1 ==> |ps[k]| == MAX_PAYLOAD + 8)
                 && ps[k][0] == kind && (IsLast(ps[k]) <==> k == |ps| - 1)
                 && ps[k][6] as nat == (id as nat + k) % 256
    decreases |payload|
  {
    hide Header, IsLast, Split;
    var take := if |payload| > MAX_PAYLOAD then MAX_PAYLOAD else |payload|;
    var last := take == |payload|;
    HeaderFacts(kind, last, payload[..take], id, []);
    SplitFirst(kind, payload, id);
    var ps := Split(kind, payload, id);
    assert ps[0] == Header(kind, last, take + 8, id) + payload[..take];
    if !last {
      SplitShape(kind, payload[take..], NextId(id));
      var more := Split(kind, payload[take..], NextId(id));
      assert forall k :: 1 <= k < |ps| ==> ps[k] == more[k - 1];
    }
  }

  /** Main result: the packets of a written message. */
  lemma WireShape(kind: byte, payload: seq<byte>)
    ensures var ps := WirePackets(kind, payload);
            && |ps| == (if payload == [] then 1 else (|payload| + MAX_PAYLOAD - 1) / MAX_PAYLOAD)
            && forall k :: 0 <= k < |ps| ==>
                 && 8 <= |ps[k]| <= 4104
                 && ps[k][0] == kind && (IsLast(ps[k]) <==> k == |ps| - 1)
                 && (payload != [] ==> ps[k][6] as nat == (1 + k) % 256)
  {
    if payload != [] {
      SplitShape(kind, payload, 1);
    } else {
      HeaderFacts(kind, true, [], 0, []);
      assert Header(kind, true, 8, 0) + [] == Header(kind, true, 8, 0);
    }
  }
}
