/** The result sets and OK packets with which the proxy itself answers start-up probes. */
module MySqlSynthetic {
  import opened Bytes
  import opened Text
  import opened Streams
  import opened MySqlWire
  import opened MySqlRelay

  const NULL_MARK: byte := 0xFB

  /** "value", the name a column gets when it has none. */
  const VALUE: seq<byte> := [118, 97, 108, 117, 101]

  const AUTOCOMMIT := 2

  /** buildSimpleTextColumnDef. */
  function ColumnDef(name: seq<byte>): (s: seq<byte>)
    ensures 0 < |s| < 300 && s[0] == 3
  {
    var trimmed := Trim(name);
    var n := if trimmed == [] then VALUE else if |trimmed| > 250 then trimmed[..250] else trimmed;
    [3, 100, 101, 102, 0, 0, 0, |n| as byte] + n + [0, 0x0C, 0x21, 0, 0, 1, 0, 0, 0xFD, 0, 0, 0, 0, 0]
  }

  /** One row, from column i on: NULL for a missing, absent or too long value. */
  function RowPayload(columns: nat, row: seq<Option<seq<byte>>>, i: nat): (s: seq<byte>)
    requires i <= columns
    ensures |s| <= 251 * (columns - i)
    ensures i < columns ==> s != [] && s[0] <= NULL_MARK
    decreases columns - i
  {
    if i == columns then [] else Cell(row, i) + RowPayload(columns, row, i + 1)
  }

  function Cell(row: seq<Option<seq<byte>>>, i: nat): (s: seq<byte>)
    ensures 0 < |s| <= 251 && s[0] <= NULL_MARK
  {
    if i >= |row| || row[i] == None || |row[i].value| >= 251 then [NULL_MARK]
    else [|row[i].value| as byte] + row[i].value
  }

  lemma CellThenRest(payload: seq<byte>, columns: nat, row: seq<Option<seq<byte>>>, i: nat)
    ensures i < columns ==>
              (payload + Cell(row, i)) + RowPayload(columns, row, i + 1) == payload + RowPayload(columns, row, i)
  {
    hide Cell;
  }

  lemma RowEnds(columns: nat, row: seq<Option<seq<byte>>>)
    ensures RowPayload(columns, row, columns) == []
  {
  }

  function Named(columns: seq<seq<byte>>): (s: seq<seq<byte>>)
    ensures s != [] && (|s| == |columns| || |s| == 1)
  {
    if columns == [] then [VALUE] else columns
  }

  type Rows = seq<seq<Option<seq<byte>>>>

  /** The k-th payload of a result: the column count, the definitions, EOF, the rows, EOF. */
  function PayloadOf(cols: seq<seq<byte>>, rows: Rows, k: nat): seq<byte>
  {
    var c := |cols|;
    if k == 0 then [(c % 256) as byte]
    else if k <= c then ColumnDef(cols[k - 1])
    else if c + 1 < k < c + 2 + |rows| then RowPayload(c, rows[k - c - 2], 0)
    else EofPayload(0, AUTOCOMMIT)
  }

  lemma Payloads(cols: seq<seq<byte>>, rows: Rows)
    ensures PayloadOf(cols, rows, 0) == [(|cols| % 256) as byte]
    ensures forall i :: 0 <= i < |cols| ==> PayloadOf(cols, rows, 1 + i) == ColumnDef(cols[i])
    ensures PayloadOf(cols, rows, 1 + |cols|) == EofPayload(0, AUTOCOMMIT)
    ensures forall i :: 0 <= i < |rows| ==> PayloadOf(cols, rows, 2 + |cols| + i) == RowPayload(|cols|, rows[i], 0)
    ensures PayloadOf(cols, rows, 2 + |cols| + |rows|) == EofPayload(0, AUTOCOMMIT)
  {
    hide ColumnDef, RowPayload, EofPayload;
  }

  /** The sequence id of the k-th packet sent in answer to a packet with id seqId. */
  function IdAt(seqId: byte, k: nat): byte {
    ((seqId as nat + 1 + k) % 256) as byte
  }

  /** The next sequence id, counted in eight bits. */
  function Next(seqId: byte): byte {
    if seqId == 255 then 0 else seqId + 1
  }

  lemma IdNext(seqId: byte, k: nat)
    ensures IdAt(seqId, 0) == Next(seqId)
    ensures IdAt(seqId, k + 1) == Next(IdAt(seqId, k))
  {
  }

  function PacketAt(seqId: byte, cols: seq<seq<byte>>, rows: Rows, k: nat): Packet {
    Packet(IdAt(seqId, k), PayloadOf(cols, rows, k))
  }

  /** The packets of a result, with consecutive sequence ids, modulo 256. */
  function SyntheticPackets(seqId: byte, columns: seq<seq<byte>>, rows: Rows): (ps: seq<Packet>)
    ensures |ps| == |Named(columns)| + |rows| + 3
    ensures forall k :: 0 <= k < |ps| ==> ps[k] == PacketAt(seqId, Named(columns), rows, k)
  {
    var cols := Named(columns);
    seq(|cols| + |rows| + 3, k requires k >= 0 => PacketAt(seqId, cols, rows, k))
  }

  // ---------------------------------------------------------------- the writers

  /** One more packet of a longer message; when it does not get through, neither does the message. */
  lemma WroteNext(all: seq<Packet>, k: nat, out: seq<byte>, room: nat, mid: seq<byte>, midRoom: nat,
                  out': seq<byte>, room': nat, ok: bool)
    requires k < |all|
    requires Wrote(EncodeAll(all[..k]), out, room, mid, midRoom, true)
    requires Wrote(Encode(all[k]), mid, midRoom, out', room', ok)
    ensures Wrote(EncodeAll(all[..k + 1]), out, room, out', room', ok)
    ensures !ok ==> Wrote(EncodeAll(all), out, room, out', room', false)
  {
    hide Wrote, Encode, EncodeAll;
    assert all[..k + 1] == all[..k] + [all[k]] && all == all[..k + 1] + all[k + 1..];
    EncodeAllAppend(all[..k], [all[k]]);
    EncodeAllOne(all[k]);
    EncodeAllAppend(all[..k + 1], all[k + 1..]);
    WroteMore(EncodeAll(all[..k]), Encode(all[k]), EncodeAll(all), out, room, mid, midRoom, out', room', ok);
  }

  /** The k-th packet of `all`, after the k before it. */
  method WriteNext(client: Conn, payload: seq<byte>, seqId: byte, ghost all: seq<Packet>, ghost k: nat,
                   ghost out: seq<byte>, ghost room: nat) returns (ok: bool)
    requires k < |all| && all[k] == Packet(seqId, payload)
    requires Wrote(EncodeAll(all[..k]), out, room, client.output, client.room, true)
    modifies client`output, client`room
    ensures Wrote(EncodeAll(all[..k + 1]), out, room, client.output, client.room, ok)
    ensures !ok ==> Wrote(EncodeAll(all), out, room, client.output, client.room, false)
  {
    hide EncodeAll, Encode;
    ok := WritePacket(client, payload, seqId);
    WroteNext(all, k, out, room, old(client.output), old(client.room), client.output, client.room, ok);
  }

  lemma NothingYet(all: seq<Packet>, out: seq<byte>, room: nat)
    ensures Wrote(EncodeAll(all[..0]), out, room, out, room, true)
  {
    assert EncodeAll(all[..0]) == [];
    WroteNothing(out, room);
  }

  /** The row loop of writeSyntheticTextResult: one payload, column by column. */
  method BuildRow(columns: nat, row: seq<Option<seq<byte>>>) returns (payload: seq<byte>)
    ensures payload == RowPayload(columns, row, 0)
  {
    hide RowPayload;
    payload := [];
    var i := 0;
    assert [] + RowPayload(columns, row, 0) == RowPayload(columns, row, 0);
    while i < columns
      invariant 0 <= i <= columns
      invariant payload + RowPayload(columns, row, i) == RowPayload(columns, row, 0)
    {
      CellThenRest(payload, columns, row, i);
      if i >= |row| || row[i] == None || |row[i].value| >= 251 {
        payload := payload + [NULL_MARK];
      } else {
        payload := payload + ([|row[i].value| as byte] + row[i].value);
      }
      i := i + 1;
    }
    RowEnds(columns, row);
    assert payload + [] == payload;
  }

  /** writeSyntheticTextResult. */
  method WriteSyntheticTextResult(client: Conn, seqId: byte, columns: seq<seq<byte>>, rows: Rows) returns (ok: bool)
    modifies client`output, client`room
    ensures Wrote(EncodeAll(SyntheticPackets(seqId, columns, rows)), old(client.output), old(client.room),
                  client.output, client.room, ok)
  {
    hide Wrote, EncodeAll, ColumnDef, RowPayload, IdAt, Next, SyntheticPackets, PayloadOf, EofPayload;
    ghost var all, out, room := SyntheticPackets(seqId, columns, rows), client.output, client.room;
    var cols := if columns == [] then [VALUE] else columns;
    Payloads(cols, rows);
    NothingYet(all, out, room);
    IdNext(seqId, 0);
    ok := WriteNext(client, [(|cols| % 256) as byte], Next(seqId), all, 0, out, room);
    if !ok {
      return;
    }
    var curSeq := Next(Next(seqId));
    var i := 0;
    while i < |cols|
      invariant 0 <= i <= |cols| && curSeq == IdAt(seqId, 1 + i)
      invariant Wrote(EncodeAll(all[..1 + i]), out, room, client.output, client.room, true)
    {
      ok := WriteNext(client, ColumnDef(cols[i]), curSeq, all, 1 + i, out, room);
      if !ok {
        return;
      }
      IdNext(seqId, 1 + i);
      i, curSeq := i + 1, Next(curSeq);
    }
    var eof := EofPayload(0, AUTOCOMMIT);
    ok := WriteNext(client, eof, curSeq, all, 1 + |cols|, out, room);
    if !ok {
      return;
    }
    IdNext(seqId, 1 + |cols|);
    curSeq := Next(curSeq);
    i := 0;
    while i < |rows|
      invariant 0 <= i <= |rows| && curSeq == IdAt(seqId, 2 + |cols| + i)
      invariant Wrote(EncodeAll(all[..2 + |cols| + i]), out, room, client.output, client.room, true)
    {
      var payload := BuildRow(|cols|, rows[i]);
      ok := WriteNext(client, payload, curSeq, all, 2 + |cols| + i, out, room);
      if !ok {
        return;
      }
      IdNext(seqId, 2 + |cols| + i);
      i, curSeq := i + 1, Next(curSeq);
    }
    ok := WriteNext(client, eof, curSeq, all, 2 + |cols| + |rows|, out, room);
    assert all[..3 + |cols| + |rows|] == all;
  }

  // ---------------------------------------------------------------- the relay accepts it

  /** The synthetic result, as a response of the protocol. */
  function AsResponse(seqId: byte, columns: seq<seq<byte>>, rows: Rows): Response
  {
    var ps := SyntheticPackets(seqId, columns, rows);
    var c := |Named(columns)|;
    ResultSet(ps[0].seqId, ps[1..c + 1], ps[c + 1], ps[c + 2..c + 2 + |rows|],
              EofLast(ps[c + 2 + |rows|].seqId, 0, AUTOCOMMIT))
  }

  /** Fed to its own relay, the synthetic result is consumed to its last octet, with no result after it. */
  predicate Accepted(seqId: byte, columns: seq<seq<byte>>, rows: Rows, up: seq<byte>, cl: seq<byte>) {
    var wire := EncodeAll(SyntheticPackets(seqId, columns, rows));
    Run(First, wire + up, cl) == Outcome(wire, [], up, cl, Done(false))
  }

  lemma RowPayloadFacts(columns: nat, row: seq<Option<seq<byte>>>)
    ensures 0 < columns <= 250 ==> var s := RowPayload(columns, row, 0); !IsEof(s) && !IsErr(s) && |s| < MAX_PAYLOAD
  {
  }

  lemma Slices<T>(ps: seq<T>, c: nat, n: nat)
    ensures |ps| == c + n + 3 ==>
              ps == [ps[0]] + (ps[1..c + 1] + ([ps[c + 1]] + (ps[c + 2..c + 2 + n] + [ps[c + 2 + n]])))
  {
  }

  lemma ResponseIsSynthetic(seqId: byte, columns: seq<seq<byte>>, rows: Rows)
    requires |columns| <= 250
    ensures ServerPackets(AsResponse(seqId, columns, rows)) == SyntheticPackets(seqId, columns, rows)
  {
    hide ColumnDef, RowPayload, IdAt, SyntheticPackets, Named;
    var ps, c, n := SyntheticPackets(seqId, columns, rows), |Named(columns)|, |rows|;
    var r := AsResponse(seqId, columns, rows);
    assert ps[0] == Packet(ps[0].seqId, PutLenEnc(c));
    assert ps[c + 2 + n] == LastPacket(r.last);
    Slices(ps, c, n);
  }

  lemma ResponseWellFormed(seqId: byte, columns: seq<seq<byte>>, rows: Rows)
    requires |columns| <= 250
    ensures WellFormed(AsResponse(seqId, columns, rows)) && !Announces(AsResponse(seqId, columns, rows))
  {
    hide ColumnDef, RowPayload, IdAt, SyntheticPackets;
    var ps, c := SyntheticPackets(seqId, columns, rows), |Named(columns)|;
    ResponseIsSynthetic(seqId, columns, rows);
    forall k | 0 <= k < |ps|
      ensures |ps[k].payload| < MAX_PAYLOAD
      ensures c + 2 <= k < c + 2 + |rows| ==> !IsEof(ps[k].payload) && !IsErr(ps[k].payload)
    {
      if c + 2 <= k < c + 2 + |rows| {
        RowPayloadFacts(c, rows[k - c - 2]);
      }
    }
  }

  // ---------------------------------------------------------------- what a client reads in it

  type Cells = seq<Option<seq<byte>>>

  datatype Texts = Texts(cells: Cells, rest: seq<byte>) | NoTexts

  /** Length-encoded strings, or NULLs, one after the other: section "Text Resultset Row" of the protocol's manual. */
  function ReadTexts(n: nat, s: seq<byte>): Texts {
    if n == 0 then Texts([], s)
    else if s != [] && s[0] == NULL_MARK then Before(None, ReadTexts(n - 1, s[1..]))
    else
      match GetLenEnc(s)
      case BadLenEnc => NoTexts
      case Value(length, k) =>
        if k + length > |s| then NoTexts else Before(Some(s[k..k + length]), ReadTexts(n - 1, s[k + length..]))
  }

  function Before(c: Option<seq<byte>>, ts: Texts): Texts {
    if ts.NoTexts? then NoTexts else Texts([c] + ts.cells, ts.rest)
  }

  lemma OneText(text: seq<byte>, n: nat, rest: seq<byte>)
    requires |text| < 251
    ensures ReadTexts(n + 1, [|text| as byte] + text + rest) == Before(Some(text), ReadTexts(n, rest))
  {
    var s := [|text| as byte] + text + rest;
    assert s[1..1 + |text|] == text && s[1 + |text|..] == rest;
  }

  lemma OneNull(n: nat, rest: seq<byte>)
    ensures ReadTexts(n + 1, [NULL_MARK] + rest) == Before(None, ReadTexts(n, rest))
  {
    assert ([NULL_MARK] + rest)[1..] == rest;
  }

  /** The row as it is shown: of each column its value, if the row has one of at most 250 octets there. */
  function Shown(columns: nat, row: Cells): (cells: Cells)
    ensures |cells| == columns
    ensures forall i :: 0 <= i < columns ==>
              cells[i] == if i < |row| && row[i].Some? && |row[i].value| < 251 then row[i] else None
  {
    seq(columns, i requires i >= 0 =>
          if i < |row| && row[i].Some? && |row[i].value| < 251 then row[i] else None)
  }

  lemma {:induction false} RowFrom(columns: nat, row: Cells, i: nat)
    requires i <= columns
    ensures ReadTexts(columns - i, RowPayload(columns, row, i)) == Texts(Shown(columns, row)[i..], [])
    decreases columns - i
  {
    hide ReadTexts;
    if i == columns {
      assert ReadTexts(0, []) == Texts([], []) by { NoneToRead([]); }
    } else {
      RowFrom(columns, row, i + 1);
      var rest := RowPayload(columns, row, i + 1);
      assert Shown(columns, row)[i..] == [Shown(columns, row)[i]] + Shown(columns, row)[i + 1..];
      if Shown(columns, row)[i].None? {
        OneNull(columns - i - 1, rest);
      } else {
        OneText(row[i].value, columns - i - 1, rest);
      }
    }
  }

  lemma NoneToRead(s: seq<byte>)
    ensures ReadTexts(0, s) == Texts([], s)
  {
  }

  /** "def", the catalogue of every column. */
  const DEF: seq<byte> := [100, 101, 102]

  /** The end of a column definition: twelve more octets; UTF-8, 256 octets wide, a variable string, no flags. */
  const TEXT_COLUMN: seq<byte> := [12, 33, 0, 0, 1, 0, 0, 253, 0, 0, 0, 0, 0]

  /** The name a column gets: its own, without white space around it, cut to 250 octets; "value" if it is blank. */
  ghost predicate NameOf(name: seq<byte>, n: seq<byte>) {
    exists t :: Between(name, t) && n == if t == [] then VALUE else if |t| > 250 then t[..250] else t
  }

  /** The payload defines a text column of that name. */
  ghost predicate Defines(payload: seq<byte>, name: seq<byte>) {
    exists n :: NameOf(name, n)
                && ReadTexts(6, payload)
                   == Texts([Some(DEF), Some([]), Some([]), Some([]), Some(n), Some([])], TEXT_COLUMN)
  }

  lemma EmptyText(n: nat, rest: seq<byte>)
    ensures ReadTexts(n + 1, [0] + rest) == Before(Some([]), ReadTexts(n, rest))
  {
    OneText([], n, rest);
    assert [0] + [] + rest == [0] + rest;
  }

  /** The catalogue and three empty names in front of s. */
  function Front(s: seq<byte>): seq<byte> {
    [|DEF| as byte] + DEF + ([0] + ([0] + ([0] + s)))
  }

  /** The name, an empty one, and the end of the definition. */
  function NamePart(n: seq<byte>): seq<byte>
    requires |n| <= 250
  {
    [|n| as byte] + n + ([0] + TEXT_COLUMN)
  }

  lemma FrontTexts(s: seq<byte>, cells: Cells, tail: seq<byte>)
    requires ReadTexts(2, s) == Texts(cells, tail)
    ensures ReadTexts(6, Front(s)) == Texts([Some(DEF), Some([]), Some([]), Some([])] + cells, tail)
  {
    hide ReadTexts, DEF;
    var none: Cells := [Some([])];
    EmptyText(2, s);
    EmptyText(3, [0] + s);
    EmptyText(4, [0] + ([0] + s));
    DefLength();
    OneText(DEF, 5, [0] + ([0] + ([0] + s)));
    assert [Some(DEF)] + (none + (none + (none + cells))) == [Some(DEF), Some([]), Some([]), Some([])] + cells;
  }

  lemma NameTexts(n: seq<byte>)
    requires |n| <= 250
    ensures ReadTexts(2, NamePart(n)) == Texts([Some(n), Some([])], TEXT_COLUMN)
  {
    hide ReadTexts, TEXT_COLUMN;
    NoneToRead(TEXT_COLUMN);
    EmptyText(0, TEXT_COLUMN);
    OneText(n, 1, [0] + TEXT_COLUMN);
  }

  lemma DefinitionTexts(n: seq<byte>)
    requires |n| <= 250
    ensures ReadTexts(6, Front(NamePart(n)))
            == Texts([Some(DEF), Some([]), Some([]), Some([]), Some(n), Some([])], TEXT_COLUMN)
  {
    hide ReadTexts, TEXT_COLUMN, DEF, Front, NamePart;
    NameTexts(n);
    FrontTexts(NamePart(n), [Some(n), Some([])], TEXT_COLUMN);
  }

  lemma DefLength()
    ensures |DEF| == 3
  {
  }

  lemma DefinitionRead(name: seq<byte>)
    ensures Defines(ColumnDef(name), name)
  {
    hide ReadTexts, Trim, Between, DEF, TEXT_COLUMN, Front, NamePart;
    var trimmed := Trim(name);
    TrimExactly(name, trimmed);
    var n := if trimmed == [] then VALUE else if |trimmed| > 250 then trimmed[..250] else trimmed;
    assert NameOf(name, n);
    DefinitionTexts(n);
    DefinitionOctets(n);
  }

  lemma DefinitionOctets(n: seq<byte>)
    requires |n| <= 250
    ensures Front(NamePart(n))
            == [3, 100, 101, 102, 0, 0, 0, |n| as byte] + n + [0, 0x0C, 0x21, 0, 0, 1, 0, 0, 0xFD, 0, 0, 0, 0, 0]
  {
    assert [0] + TEXT_COLUMN == [0, 0x0C, 0x21, 0, 0, 1, 0, 0, 0xFD, 0, 0, 0, 0, 0];
    assert [|DEF| as byte] + DEF == [3, 100, 101, 102];
    var tail := [0] + TEXT_COLUMN;
    assert [0] + ([0] + ([0] + ([|n| as byte] + n + tail))) == [0, 0, 0, |n| as byte] + n + tail;
    assert [3, 100, 101, 102] + ([0, 0, 0, |n| as byte] + n + tail)
           == [3, 100, 101, 102, 0, 0, 0, |n| as byte] + n + tail;
  }

  /** Main result: the answer has the columns with these names, the rows with these values, and consecutive ids. */
  lemma ResultReadBack(seqId: byte, columns: seq<seq<byte>>, rows: Rows)
    requires |columns| <= 250
    ensures var r, c := AsResponse(seqId, columns, rows), if columns == [] then 1 else |columns|;
            && |r.columns| == c && |r.rows| == |rows|
            && (forall i :: 0 <= i < c ==>
                  Defines(r.columns[i].payload, if columns == [] then VALUE else columns[i]))
            && (forall i :: 0 <= i < |rows| ==> ReadTexts(c, r.rows[i].payload) == Texts(Shown(c, rows[i]), []))
            && var ps := ServerPackets(r);
               forall k :: 0 <= k < |ps| ==> ps[k].seqId as int == (seqId as int + 1 + k) % 256
  {
    hide ReadTexts, ColumnDef, RowPayload, Defines, PutLenEnc, EofPayload, PayloadOf, ServerPackets, AsResponse,
         SyntheticPackets;
    var r, c, ps := AsResponse(seqId, columns, rows), |Named(columns)|, SyntheticPackets(seqId, columns, rows);
    ResponseIsSynthetic(seqId, columns, rows);
    Payloads(Named(columns), rows);
    ResponseParts(seqId, columns, rows);
    forall i | 0 <= i < c
      ensures Defines(r.columns[i].payload, Named(columns)[i])
    {
      DefinitionRead(Named(columns)[i]);
    }
    forall i | 0 <= i < |rows|
      ensures ReadTexts(c, r.rows[i].payload) == Texts(Shown(c, rows[i]), [])
    {
      RowFrom(c, rows[i], 0);
      assert Shown(c, rows[i])[0..] == Shown(c, rows[i]);
    }
  }

  lemma ResponseParts(seqId: byte, columns: seq<seq<byte>>, rows: Rows)
    ensures var r, c := AsResponse(seqId, columns, rows), |Named(columns)|;
            && r.ResultSet? && |r.columns| == c && |r.rows| == |rows|
            && (forall i :: 0 <= i < c ==> r.columns[i].payload == PayloadOf(Named(columns), rows, 1 + i))
            && forall i :: 0 <= i < |rows| ==> r.rows[i].payload == PayloadOf(Named(columns), rows, 2 + c + i)
  {
    hide PayloadOf, Named;
  }

  // ---------------------------------------------------------------- and where it does not

  lemma {:induction false} EncodeAllLonger(ps: seq<Packet>, k: nat)
    requires k < |ps|
    ensures |EncodeAll(ps[..k])| < |EncodeAll(ps)|
  {
    hide Encode;
    assert ps == ps[..k] + ps[k..];
    EncodeAllAppend(ps[..k], ps[k..]);
    assert |EncodeAll(ps[k..])| >= 4;
  }

  /** A relay that stops after k of the packets has not passed on all of them. */
  lemma StopsEarly(ps: seq<Packet>, k: nat, v: Verdict, up: seq<byte>, cl: seq<byte>)
    requires k < |ps| && Sized(ps[..k]) && Through(First, ps[..k], Stop(v))
    ensures Run(First, EncodeAll(ps) + up, cl).toClient != EncodeAll(ps)
  {
    hide Run, Encode;
    var a, b := EncodeAll(ps[..k]), EncodeAll(ps[k..]);
    assert ps == ps[..k] + ps[k..];
    EncodeAllAppend(ps[..k], ps[k..]);
    assert EncodeAll(ps) + up == a + (b + up);
    RunToStop(First, ps[..k], v, b + up, cl);
    EncodeAllLonger(ps, k);
  }

  /** After a LOCAL INFILE request the server's side contributes at most one packet. */
  lemma {:induction false} FileTakesOne(p: Packet, up: seq<byte>, cl: seq<byte>)
    requires |p.payload| < MAX_PAYLOAD
    ensures |Run(File, Encode(p) + up, cl).toClient| <= |Encode(p)|
    decreases |cl|
  {
    hide Encode;
    var d := Decode(cl);
    if d.Got? {
      if d.packet.payload == [] {
        RunServerPacket(FileReply, p, up, d.rest);
      } else {
        FileTakesOne(p, up, d.rest);
      }
    }
  }

  /** A column count of 251 modulo 256 reads as a LOCAL INFILE request. */
  lemma MistakenForInfile(seqId: byte, columns: seq<seq<byte>>, rows: Rows, up: seq<byte>, cl: seq<byte>)
    requires |columns| > 250 && |columns| % 256 == 251
    ensures !Accepted(seqId, columns, rows, up, cl)
  {
    hide Run, Encode, ColumnDef, RowPayload, EofPayload, IdAt, SyntheticPackets;
    var ps := SyntheticPackets(seqId, columns, rows);
    var a, b, c := Encode(ps[0]), Encode(ps[1]), EncodeAll(ps[2..]);
    assert ps[1].payload == ColumnDef(columns[0]);
    assert ps[1..][1..] == ps[2..];
    assert EncodeAll(ps) == a + EncodeAll(ps[1..]) && EncodeAll(ps[1..]) == b + c;
    assert EncodeAll(ps) + up == a + (b + (c + up));
    assert Step(First, ps[0].payload) == File;
    RunServerPacket(First, ps[0], b + (c + up), cl);
    FileTakesOne(ps[1], c + up, cl);
    EncodeAllLonger(ps[2..], 0);
    assert EncodeAll(ps[2..][..0]) == [];
  }

  lemma CountStep(m: nat)
    ensures 1 <= m <= 250 ==> Step(First, [m as byte]) == Skip(m + 1, Rows)
  {
  }

  /** A relay told of m columns takes the definitions after the first m + 1 for rows. */
  lemma CutShort(ps: seq<Packet>, m: nat, c: nat, up: seq<byte>, cl: seq<byte>)
    requires 1 <= m <= 250 && m + 1 <= c < |ps| - 2
    requires ps[0].payload == [m as byte] && IsEof(ps[c + 1].payload)
    requires forall i :: 1 <= i <= c ==> !IsEof(ps[i].payload) && !IsErr(ps[i].payload)
    requires Sized(ps[..c + 2])
    ensures Run(First, EncodeAll(ps) + up, cl).toClient != EncodeAll(ps)
  {
    hide Run, Encode, EncodeAll, Through, IsEof, IsErr;
    var defs, late, v := ps[1..m + 2], ps[m + 2..c + 1], Done(HasMoreEof(ps[c + 1].payload));
    CountStep(m);
    ThroughOne(First, ps[0]);
    ThroughSkip(defs, Rows);
    ThroughAppend(First, [ps[0]], SkipThen(|defs|, Rows), defs, Rows);
    ThroughRows(late);
    ThroughAppend(First, [ps[0]] + defs, Rows, late, Rows);
    ThroughOne(Rows, ps[c + 1]);
    ThroughAppend(First, [ps[0]] + defs + late, Rows, [ps[c + 1]], Stop(v));
    assert ps[..c + 2] == [ps[0]] + defs + late + [ps[c + 1]];
    StopsEarly(ps, c + 2, v, up, cl);
  }

  /** A column count of 1..250 modulo 256 makes the relay take later definitions for rows. */
  lemma MistakenForRows(seqId: byte, columns: seq<seq<byte>>, rows: Rows, up: seq<byte>, cl: seq<byte>)
    requires |columns| > 250 && 1 <= |columns| % 256 <= 250
    ensures !Accepted(seqId, columns, rows, up, cl)
  {
    hide Run, Encode, EncodeAll, RowPayload, EofPayload, IdAt, SyntheticPackets, ColumnDef;
    CutShort(SyntheticPackets(seqId, columns, rows), |columns| % 256, |columns|, up, cl);
  }

  /** The other column counts above 250 read as an OK, EOF or ERR packet, or as no count at all. */
  lemma MistakenForEnd(seqId: byte, columns: seq<seq<byte>>, rows: Rows, up: seq<byte>, cl: seq<byte>)
    requires |columns| > 250 && (|columns| % 256 == 0 || |columns| % 256 >= 252)
    ensures !Accepted(seqId, columns, rows, up, cl)
  {
    hide Run, Encode, EncodeAll, ColumnDef, RowPayload, EofPayload, IdAt, SyntheticPackets;
    var ps := SyntheticPackets(seqId, columns, rows);
    var st := Step(First, ps[0].payload);
    assert st.Stop?;
    ThroughOne(First, ps[0]);
    assert ps[..1] == [ps[0]];
    StopsEarly(ps, 1, st.verdict, up, cl);
  }

  lemma IsAccepted(seqId: byte, columns: seq<seq<byte>>, rows: Rows, up: seq<byte>, cl: seq<byte>)
    ensures var wire := EncodeAll(SyntheticPackets(seqId, columns, rows));
            Run(First, wire + up, cl) == Outcome(wire, [], up, cl, Done(false))
            ==> Accepted(seqId, columns, rows, up, cl)
  {
    hide Run, EncodeAll, SyntheticPackets;
  }

  /** Main result: the proxy's own relay accepts its synthetic result if and only if it has at most 250 columns. */
  lemma SyntheticAcceptedExactly(seqId: byte, columns: seq<seq<byte>>, rows: Rows, up: seq<byte>, cl: seq<byte>)
    ensures Accepted(seqId, columns, rows, up, cl) <==> |columns| <= 250
  {
    hide Run, Accepted;
    if |columns| <= 250 {
      ResponseWellFormed(seqId, columns, rows);
      ResponseIsSynthetic(seqId, columns, rows);
      var r := AsResponse(seqId, columns, rows);
      RunResponse(r, up, cl);
      assert EncodeAll(ClientPackets(r)) + cl == cl;
      IsAccepted(seqId, columns, rows, up, cl);
    } else if |columns| % 256 == 251 {
      MistakenForInfile(seqId, columns, rows, up, cl);
    } else if 1 <= |columns| % 256 <= 250 {
      MistakenForRows(seqId, columns, rows, up, cl);
    } else {
      MistakenForEnd(seqId, columns, rows, up, cl);
    }
  }
}
