/** MySQL packets, length-encoded integers, and the status flags of OK and EOF packets. */
module MySqlWire {
  import opened Bytes
  import opened Streams

  const OK_MARK: byte := 0x00
  const ERR_MARK: byte := 0xFF
  const EOF_MARK: byte := 0xFE
  const INFILE_MARK: byte := 0xFB
  const MAX_PAYLOAD := 0xFF_FFFF

  // ---------------------------------------------------------------- packets

  datatype Packet = Packet(seqId: byte, payload: seq<byte>)

  datatype Error = UnexpectedEof | WriteFailed | BadColumnCount | BadPrepareReply

  datatype Parsed = Got(packet: Packet, rest: seq<byte>) | Short

  /** What writePacket puts on the wire: the length is cut to 24 bits. */
  function Encode(p: Packet): (s: seq<byte>)
    ensures |s| == 4 + |p.payload|
  {
    PutLe(|p.payload| % 0x100_0000, 3) + [p.seqId] + p.payload
  }

  /** What readPacket finds at the head of a stream. */
  function Decode(s: seq<byte>): (r: Parsed)
    ensures r.Got? ==> |s| == |r.rest| + 4 + |r.packet.payload| && |r.packet.payload| <= MAX_PAYLOAD
  {
    if |s| < 4 then Short
    else
      var n := Le(s[..3]);
      assert n < 0x100_0000 by { Pow256Values(); }
      if |s| - 4 < n then Short else Got(Packet(s[3], s[4..4 + n]), s[4 + n..])
  }

  /** Reading back a written packet, whatever follows it. */
  lemma DecodeEncode(p: Packet, rest: seq<byte>)
    requires |p.payload| <= MAX_PAYLOAD
    ensures Decode(Encode(p) + rest) == Got(p, rest)
  {
    var n := |p.payload|;
    var s := Encode(p) + rest;
    Pow256Values();
    LePutLe(n, 3);
    assert s[..3] == PutLe(n, 3);
    assert s[3] == p.seqId;
    assert s[4..4 + n] == p.payload;
    assert s[4 + n..] == rest;
  }

  /** Three octets of length, the least significant first, and one of id in front of the payload. */
  lemma PacketLayout(p: Packet)
    ensures var s, n := Encode(p), |p.payload| % 0x100_0000;
            && s[0] as nat == n % 256 && s[1] as nat == n / 256 % 256 && s[2] as nat == n / 0x1_0000 % 256
            && s[3] == p.seqId && s[4..] == p.payload
  {
    hide PutLe;
    ThreeOctets(|p.payload| % 0x100_0000);
  }

  /** Writing what was read gives back the octets that were read. */
  lemma EncodeDecode(s: seq<byte>)
    requires Decode(s).Got?
    ensures Encode(Decode(s).packet) + Decode(s).rest == s
  {
    hide Le, PutLe;
    var n := Le(s[..3]);
    Pow256Values();
    PutLeLe(s[..3]);
    assert s[4..] == s[4..4 + n] + s[4 + n..] && s == s[..3] + ([s[3]] + s[4..]);
  }

  function EncodeAll(ps: seq<Packet>): seq<byte> {
    if ps == [] then [] else Encode(ps[0]) + EncodeAll(ps[1..])
  }

  lemma {:induction false} EncodeAllAppend(a: seq<Packet>, b: seq<Packet>)
    ensures EncodeAll(a + b) == EncodeAll(a) + EncodeAll(b)
  {
    hide Encode;
    if a == [] {
      assert a + b == b;
    } else {
      var first, more, last := Encode(a[0]), EncodeAll(a[1..]), EncodeAll(b);
      calc {
        EncodeAll(a + b);
        { assert (a + b)[1..] == a[1..] + b; }
        first + EncodeAll(a[1..] + b);
        { EncodeAllAppend(a[1..], b); }
        first + (more + last);
        (first + more) + last;
        EncodeAll(a) + last;
      }
    }
  }

  lemma EncodeAllOne(p: Packet)
    ensures EncodeAll([p]) == Encode(p)
  {
    assert EncodeAll([p]) == Encode(p) + EncodeAll([]);
  }

  /** Reads one packet; the header is read before the payload. */
  method ReadPacket(c: Conn) returns (r: Option<Packet>)
    modifies c`input
    ensures var d := Decode(old(c.input));
            if d.Got? then r == Some(d.packet) && c.input == d.rest else r == None && c.input == []
  {
    var header := c.ReadFull(4);
    if header.None? {
      return None;
    }
    var h := header.value;
    assert h[..3] == old(c.input)[..3];
    var length := Le(h[..3]);
    if length == 0 {
      assert old(c.input)[4..4] == [];
      return Some(Packet(h[3], []));
    }
    var payload := c.ReadFull(length);
    if payload.None? {
      return None;
    }
    assert old(c.input)[4..][..length] == old(c.input)[4..4 + length];
    assert old(c.input)[4..][length..] == old(c.input)[4 + length..];
    return Some(Packet(h[3], payload.value));
  }

  /** Writes one packet; an empty payload takes one write, any other two. */
  method WritePacket(c: Conn, payload: seq<byte>, seqId: byte) returns (ok: bool)
    modifies c`output, c`room
    ensures Wrote(Encode(Packet(seqId, payload)), old(c.output), old(c.room), c.output, c.room, ok)
  {
    hide Wrote;
    ghost var wire := Encode(Packet(seqId, payload));
    var header := PutLe(|payload| % 0x100_0000, 3) + [seqId];
    assert wire == header + payload;
    WroteNothing(c.output, c.room);
    assert [] + header == header;
    ok := c.Write(header);
    WroteMore([], header, wire, old(c.output), old(c.room), old(c.output), old(c.room), c.output, c.room, ok);
    if !ok {
      return;
    }
    if |payload| > 0 {
      ghost var mid, midRoom := c.output, c.room;
      ok := c.Write(payload);
      WroteMore(header, payload, wire, old(c.output), old(c.room), mid, midRoom, c.output, c.room, ok);
    } else {
      assert wire == header;
    }
  }

  // ---------------------------------------------------------------- length-encoded integers

  datatype LenEnc = Value(v: nat, consumed: nat) | BadLenEnc

  /** The shortest of the 1, 3, 4 and 9 octet forms. */
  function PutLenEnc(v: nat): (s: seq<byte>)
    ensures 1 <= |s| <= 9
  {
    if v < 251 then [v as byte]
    else if v < 0x1_0000 then [0xFC] + PutLe(v, 2)
    else if v < 0x100_0000 then [0xFD] + PutLe(v, 3)
    else [0xFE] + PutLe(v, 8)
  }

  /** readLenEncInt. */
  function GetLenEnc(s: seq<byte>): (r: LenEnc)
    ensures r.Value? ==> 1 <= r.consumed <= |s|
  {
    if s == [] then BadLenEnc
    else if s[0] < 0xFB then Value(s[0] as nat, 1)
    else if s[0] == 0xFC then if |s| < 3 then BadLenEnc else Value(Le(s[1..3]), 3)
    else if s[0] == 0xFD then if |s| < 4 then BadLenEnc else Value(Le(s[1..4]), 4)
    else if s[0] == 0xFE then if |s| < 9 then BadLenEnc else Value(Le(s[1..9]), 9)
    else BadLenEnc
  }

  /** Every 64-bit value is read back, and exactly its own octets are consumed. */
  lemma LenEncRoundTrip(v: nat, rest: seq<byte>)
    requires v < 0x1_0000_0000_0000_0000
    ensures GetLenEnc(PutLenEnc(v) + rest) == Value(v, |PutLenEnc(v)|)
  {
    Pow256Values();
    var s := PutLenEnc(v) + rest;
    if v < 251 {
    } else if v < 0x1_0000 {
      LePutLe(v, 2);
      assert s[1..3] == PutLe(v, 2);
    } else if v < 0x100_0000 {
      LePutLe(v, 3);
      assert s[1..4] == PutLe(v, 3);
    } else {
      LePutLe(v, 8);
      assert s[1..9] == PutLe(v, 8);
    }
  }

  /** A byte buffer that grows at its end. */
  class Buffer {
    var data: seq<byte>

    constructor ()
      ensures data == []
    {
      data := [];
    }

    method WriteByte(b: byte)
      modifies this
      ensures data == old(data) + [b]
    {
      data := data + [b];
    }

    /** binary.Write of an unsigned integer of this many octets, in little-endian order. */
    method WriteUint(v: nat, octets: nat)
      modifies this
      ensures data == old(data) + PutLe(v, octets)
    {
      var rest, left := v, octets;
      assert data + PutLe(rest, left) == old(data) + PutLe(v, octets);
      while left > 0
        invariant data + PutLe(rest, left) == old(data) + PutLe(v, octets)
      {
        var low, more := (rest % 256) as byte, PutLe(rest / 256, left - 1);
        assert data + ([low] + more) == data + [low] + more;
        WriteByte(low);
        rest, left := rest / 256, left - 1;
      }
      assert data + [] == data;
    }

    /** writeLenEncInt. */
    method WriteLenEncInt(v: nat)
      modifies this
      ensures data == old(data) + PutLenEnc(v)
    {
      hide PutLe;
      if v < 251 {
        WriteByte(v as byte);
      } else if v < 0x1_0000 {
        WriteByte(0xFC);
        WriteUint(v, 2);
      } else if v < 0x100_0000 {
        WriteByte(0xFD);
        ghost var before := data;
        WriteByte((v % 256) as byte);
        WriteByte((v / 0x100 % 256) as byte);
        WriteByte((v / 0x1_0000 % 256) as byte);
        ThreeOctets(v);
        assert data == before + PutLe(v, 3);
      } else {
        WriteByte(0xFE);
        WriteUint(v, 8);
      }
    }
  }

  lemma ThreeOctets(v: nat)
    ensures PutLe(v, 3) == [(v % 256) as byte, (v / 0x100 % 256) as byte, (v / 0x1_0000 % 256) as byte]
  {
    assert v / 256 / 256 == v / 0x1_0000;
    assert PutLe(v / 0x1_0000, 1) == [(v / 0x1_0000 % 256) as byte] + PutLe(v / 0x1_0000 / 256, 0);
    assert PutLe(v / 256, 2) == [(v / 256 % 256) as byte] + PutLe(v / 256 / 256, 1);
  }

  /** buildOKPacket. */
  method BuildOkPacket(affectedRows: nat, lastInsertId: nat, status: nat, warnings: nat) returns (payload: seq<byte>)
    ensures payload == OkPayload(affectedRows, lastInsertId, status, warnings)
    ensures affectedRows < 0x1_0000_0000_0000_0000 && lastInsertId < 0x1_0000_0000_0000_0000 && status < 0x1_0000
            ==> (HasMoreOk(payload) <==> MoreFlag(status))
  {
    hide PutLenEnc, PutLe, HasMoreOk, MoreFlag;
    var buf := new Buffer();
    buf.WriteByte(OK_MARK);
    buf.WriteLenEncInt(affectedRows);
    buf.WriteLenEncInt(lastInsertId);
    buf.WriteUint(status, 2);
    buf.WriteUint(warnings, 2);
    payload := buf.data;
    if affectedRows < 0x1_0000_0000_0000_0000 && lastInsertId < 0x1_0000_0000_0000_0000 && status < 0x1_0000 {
      OkPayloadMoreResults(affectedRows, lastInsertId, status, warnings);
    }
  }

  // ---------------------------------------------------------------- status flags

  /** Bit 0x0008, SERVER_MORE_RESULTS_EXISTS. */
  predicate MoreFlag(status: nat) {
    (status / 8) % 2 == 1
  }

  predicate IsEof(payload: seq<byte>) {
    |payload| > 0 && payload[0] == EOF_MARK && |payload| < 9
  }

  predicate IsErr(payload: seq<byte>) {
    |payload| > 0 && payload[0] == ERR_MARK
  }

  /** hasMoreResultsOK: skips two length-encoded integers, then looks at the status word. */
  predicate HasMoreOk(payload: seq<byte>) {
    if |payload| < 2 then false
    else
      var a := GetLenEnc(payload[1..]);
      if a.BadLenEnc? then false
      else
        var b := GetLenEnc(payload[1 + a.consumed..]);
        if b.BadLenEnc? then false
        else
          var pos := 1 + a.consumed + b.consumed;
          if pos + 2 > |payload| then false else MoreFlag(Le(payload[pos..pos + 2]))
  }

  predicate HasMoreEof(payload: seq<byte>) {
    |payload| >= 5 && MoreFlag(Le(payload[3..5]))
  }

  /** The payload of an OK packet. */
  function OkPayload(affectedRows: nat, lastInsertId: nat, status: nat, warnings: nat): seq<byte> {
    [OK_MARK] + PutLenEnc(affectedRows) + PutLenEnc(lastInsertId) + PutLe(status, 2) + PutLe(warnings, 2)
  }

  /** An OK packet, whatever follows its status word, says "more results" exactly by bit 0x0008. */
  lemma OkStatusReadBack(affectedRows: nat, lastInsertId: nat, status: nat, info: seq<byte>)
    requires affectedRows < 0x1_0000_0000_0000_0000 && lastInsertId < 0x1_0000_0000_0000_0000
    requires status < 0x1_0000
    ensures HasMoreOk([OK_MARK] + PutLenEnc(affectedRows) + PutLenEnc(lastInsertId) + PutLe(status, 2) + info)
            <==> MoreFlag(status)
  {
    hide GetLenEnc, PutLenEnc, PutLe, Le, HasMoreOk, MoreFlag;
    var a, b, st := PutLenEnc(affectedRows), PutLenEnc(lastInsertId), PutLe(status, 2);
    var payload := [OK_MARK] + a + b + st + info;
    Parts([OK_MARK], a, b, st, info);
    LenEncRoundTrip(affectedRows, b + (st + info));
    LenEncRoundTrip(lastInsertId, st + info);
    Pow256Values();
    LePutLe(status, 2);
    StatusAt(payload, |a|, |b|);
  }

  lemma StatusAt(payload: seq<byte>, m: nat, n: nat)
    requires 1 + m + n + 2 <= |payload|
    requires GetLenEnc(payload[1..]).Value? && GetLenEnc(payload[1..]).consumed == m
    requires GetLenEnc(payload[1 + m..]).Value? && GetLenEnc(payload[1 + m..]).consumed == n
    ensures HasMoreOk(payload) <==> MoreFlag(Le(payload[1 + m + n..1 + m + n + 2]))
  {
    hide GetLenEnc, Le, MoreFlag;
  }

  /** Where the parts of a concatenation are. */
  lemma Parts<T>(o: seq<T>, a: seq<T>, b: seq<T>, c: seq<T>, d: seq<T>)
    ensures var s := o + a + b + c + d;
            && s[|o|..] == a + (b + (c + d))
            && s[|o| + |a|..] == b + (c + d)
            && s[|o| + |a| + |b|..|o| + |a| + |b| + |c|] == c
  {
  }

  lemma OkPayloadMoreResults(affectedRows: nat, lastInsertId: nat, status: nat, warnings: nat)
    requires affectedRows < 0x1_0000_0000_0000_0000 && lastInsertId < 0x1_0000_0000_0000_0000
    requires status < 0x1_0000
    ensures HasMoreOk(OkPayload(affectedRows, lastInsertId, status, warnings)) <==> MoreFlag(status)
  {
    OkStatusReadBack(affectedRows, lastInsertId, status, PutLe(warnings, 2));
  }

  /** The five octets of an EOF packet: marker, warning count, status. */
  function EofPayload(warnings: nat, status: nat): (s: seq<byte>)
    ensures IsEof(s) && |s| == 5
  {
    [EOF_MARK] + PutLe(warnings, 2) + PutLe(status, 2)
  }

  lemma EofStatusReadBack(warnings: nat, status: nat)
    requires status < 0x1_0000
    ensures HasMoreEof(EofPayload(warnings, status)) <==> MoreFlag(status)
  {
    Pow256Values();
    LePutLe(status, 2);
    assert EofPayload(warnings, status)[3..5] == PutLe(status, 2);
  }
}
