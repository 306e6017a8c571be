/**
 What the proxy learns about files by watching the SFTP packets of both
 directions: requests still waiting for a reply, and the paths of open handles.
 */
module SftpTracker {
  import opened Bytes
  import opened Text

  const FXP_INIT: byte := 1
  const FXP_VERSION: byte := 2
  const FXP_OPEN: byte := 3
  const FXP_CLOSE: byte := 4
  const FXP_READ: byte := 5
  const FXP_WRITE: byte := 6
  const FXP_LSTAT: byte := 7
  const FXP_SETSTAT: byte := 9
  const FXP_OPENDIR: byte := 11
  const FXP_READDIR: byte := 12
  const FXP_REMOVE: byte := 13
  const FXP_MKDIR: byte := 14
  const FXP_RMDIR: byte := 15
  const FXP_REALPATH: byte := 16
  const FXP_STAT: byte := 17
  const FXP_RENAME: byte := 18
  const FXP_STATUS: byte := 101
  const FXP_HANDLE: byte := 102
  const FXP_DATA: byte := 103
  const FXP_NAME: byte := 104

  type Octets = seq<byte>

  datatype Operation =
    | OpenOp | OpendirOp | ListOp | DownloadReadOp | UploadWriteOp | DeleteOp | RenameOp | MkdirOp | RmdirOp | StatOp

  datatype FileOperation = FileOperation(operation: Operation, path: Octets, pathTo: Octets, size: nat)

  datatype Pending = Pending(operation: Operation, path: Octets, handle: Octets, size: nat)

  // ---------------------------------------------------------------- packets

  datatype Str = Str(text: Octets, next: nat) | NoStr

  /** readSFTPString: a 32-bit length, then that many octets. */
  function ReadStr(s: seq<byte>, offset: nat): (r: Str)
    ensures r.Str? ==> offset + 4 + |r.text| == r.next <= |s|
  {
    if offset + 4 > |s| then NoStr
    else
      var n := Be(s[offset..offset + 4]);
      var start := offset + 4;
      if start + n > |s| then NoStr else Str(s[start..start + n], start + n)
  }

  /** A client packet, as far as the tracker understands it. */
  datatype Request =
    | Open(id: nat, path: Octets)
    | Opendir(id: nat, path: Octets)
    | Read(id: nat, handle: Octets, size: nat)
    | Write(handle: Octets, size: nat)
    | Rename(path: Octets, pathTo: Octets)
    | OnPath(operation: Operation, path: Octets)
    | Readdir(handle: Octets)
    | Close(handle: Octets)
    | OtherRequest

  /** A server packet, as far as the tracker understands it. */
  datatype Reply =
    | HandleReply(id: nat, handle: Octets)
    | DataReply(id: nat, size: nat)
    | EndReply(id: nat)
    | OtherReply

  function PathOperation(kind: byte): Option<Operation> {
    if kind == FXP_REMOVE then Some(DeleteOp)
    else if kind == FXP_MKDIR then Some(MkdirOp)
    else if kind == FXP_RMDIR then Some(RmdirOp)
    else if kind == FXP_STAT || kind == FXP_LSTAT || kind == FXP_SETSTAT || kind == FXP_REALPATH then Some(StatOp)
    else None
  }

  function ParseRequest(payload: seq<byte>): (r: Request)
    ensures r.OnPath? ==> r.operation in {DeleteOp, MkdirOp, RmdirOp, StatOp}
  {
    if |payload| < 5 || payload[0] == FXP_INIT then OtherRequest
    else
      var kind, id, body := payload[0], Be(payload[1..5]), payload[5..];
      var first := ReadStr(body, 0);
      if first.NoStr? then OtherRequest
      else if kind == FXP_OPEN then Open(id, first.text)
      else if kind == FXP_OPENDIR then Opendir(id, first.text)
      else if kind == FXP_READ then
        if first.next + 12 > |body| then OtherRequest
        else Read(id, first.text, Be(body[first.next + 8..first.next + 12]))
      else if kind == FXP_WRITE then
        if first.next + 8 > |body| then OtherRequest
        else
          var data := ReadStr(body, first.next + 8);
          if data.NoStr? then OtherRequest else Write(first.text, |data.text|)
      else if kind == FXP_RENAME then
        var second := ReadStr(body, first.next);
        if second.NoStr? then OtherRequest else Rename(first.text, second.text)
      else if kind == FXP_READDIR then Readdir(first.text)
      else if kind == FXP_CLOSE then Close(first.text)
      else
        match PathOperation(kind)
        case Some(operation) => OnPath(operation, first.text)
        case None => OtherRequest
  }

  function ParseReply(payload: seq<byte>): Reply {
    if |payload| < 5 || payload[0] == FXP_VERSION then OtherReply
    else
      var kind, id, body := payload[0], Be(payload[1..5]), payload[5..];
      if kind == FXP_STATUS || kind == FXP_NAME then EndReply(id)
      else
        var first := ReadStr(body, 0);
        if first.NoStr? then OtherReply
        else if kind == FXP_HANDLE then HandleReply(id, first.text)
        else if kind == FXP_DATA then DataReply(id, |first.text|)
        else OtherReply
  }

  // ---------------------------------------------------------------- the packets' own format

  function PutStr(text: Octets): seq<byte> {
    PutBe(|text|, 4) + text
  }

  /** A packet of this type, for this request; sections 3 and 6 of draft-ietf-secsh-filexfer-02. */
  function Packet(kind: byte, id: nat, body: seq<byte>): seq<byte> {
    [kind] + PutBe(id, 4) + body
  }

  /** OPEN, CLOSE, STAT and others: a path or handle first, then flags or attributes, if any. */
  function TextPacket(kind: byte, id: nat, text: Octets, rest: seq<byte>): seq<byte> {
    Packet(kind, id, PutStr(text) + rest)
  }

  function ReadPacket(id: nat, handle: Octets, offset: nat, size: nat): seq<byte> {
    TextPacket(FXP_READ, id, handle, PutBe(offset, 8) + PutBe(size, 4))
  }

  function WritePacket(id: nat, handle: Octets, offset: nat, data: seq<byte>): seq<byte> {
    TextPacket(FXP_WRITE, id, handle, PutBe(offset, 8) + PutStr(data))
  }

  function RenamePacket(id: nat, path: Octets, pathTo: Octets): seq<byte> {
    TextPacket(FXP_RENAME, id, path, PutStr(pathTo))
  }

  lemma ReadStrPutStr(text: Octets, rest: seq<byte>)
    requires |text| < 0x1_0000_0000
    ensures ReadStr(PutStr(text) + rest, 0) == Str(text, 4 + |text|)
  {
    var s := PutStr(text) + rest;
    Pow256Values();
    BePutBe(|text|, 4);
    assert s[0..4] == PutBe(|text|, 4);
    assert s[4..4 + |text|] == text;
  }

  lemma HeaderReadBack(kind: byte, id: nat, body: seq<byte>)
    requires id < 0x1_0000_0000
    ensures var p := Packet(kind, id, body); |p| == 5 + |body| && p[0] == kind && Be(p[1..5]) == id && p[5..] == body
  {
    var p := Packet(kind, id, body);
    Pow256Values();
    BePutBe(id, 4);
    assert p[1..5] == PutBe(id, 4);
  }

  /** A packet that starts with a string is understood by its type. */
  lemma TextPacketRead(kind: byte, id: nat, text: Octets, rest: seq<byte>)
    requires id < 0x1_0000_0000 && |text| < 0x1_0000_0000
    ensures var p := TextPacket(kind, id, text, rest);
            |p| >= 9 && p[0] == kind && Be(p[1..5]) == id && p[5..] == PutStr(text) + rest
            && ReadStr(p[5..], 0) == Str(text, 4 + |text|)
  {
    hide Be, PutBe, ReadStr;
    HeaderReadBack(kind, id, PutStr(text) + rest);
    ReadStrPutStr(text, rest);
  }

  lemma ReadReadBack(id: nat, handle: Octets, offset: nat, size: nat)
    requires id < 0x1_0000_0000 && |handle| < 0x1_0000_0000 && size < 0x1_0000_0000
    ensures ParseRequest(ReadPacket(id, handle, offset, size)) == Read(id, handle, size)
  {
    hide Be, PutBe, ReadStr;
    var rest := PutBe(offset, 8) + PutBe(size, 4);
    TextPacketRead(FXP_READ, id, handle, rest);
    Pow256Values();
    BePutBe(size, 4);
    assert (PutStr(handle) + rest)[4 + |handle| + 8..4 + |handle| + 12] == PutBe(size, 4);
  }

  /** A string further on in a packet. */
  lemma ReadStrLater(before: seq<byte>, text: Octets)
    requires |text| < 0x1_0000_0000
    ensures ReadStr(before + PutStr(text), |before|) == Str(text, |before| + 4 + |text|)
  {
    var s, n := before + PutStr(text), |before|;
    Pow256Values();
    BePutBe(|text|, 4);
    assert s[n..n + 4] == PutBe(|text|, 4);
    assert s[n + 4..n + 4 + |text|] == text;
  }

  lemma WriteReadBack(id: nat, handle: Octets, offset: nat, data: seq<byte>)
    requires id < 0x1_0000_0000 && |handle| < 0x1_0000_0000 && |data| < 0x1_0000_0000
    ensures ParseRequest(WritePacket(id, handle, offset, data)) == Write(handle, |data|)
  {
    hide Be, PutBe, ReadStr;
    TextPacketRead(FXP_WRITE, id, handle, PutBe(offset, 8) + PutStr(data));
    ReadStrLater(PutStr(handle) + PutBe(offset, 8), data);
    assert PutStr(handle) + (PutBe(offset, 8) + PutStr(data)) == (PutStr(handle) + PutBe(offset, 8)) + PutStr(data);
  }

  lemma RenameReadBack(id: nat, path: Octets, pathTo: Octets)
    requires id < 0x1_0000_0000 && |path| < 0x1_0000_0000 && |pathTo| < 0x1_0000_0000
    ensures ParseRequest(RenamePacket(id, path, pathTo)) == Rename(path, pathTo)
  {
    hide Be, PutBe, ReadStr;
    TextPacketRead(FXP_RENAME, id, path, PutStr(pathTo));
    ReadStrLater(PutStr(path), pathTo);
  }

  /** Packets laid out as the draft says are understood as what they are. */
  lemma FormatsReadBack(id: nat, text: Octets, rest: seq<byte>, offset: nat, size: nat)
    requires id < 0x1_0000_0000 && |text| < 0x1_0000_0000 && size < 0x1_0000_0000
    ensures ParseRequest(TextPacket(FXP_OPEN, id, text, rest)) == Open(id, text)
    ensures ParseRequest(TextPacket(FXP_OPENDIR, id, text, rest)) == Opendir(id, text)
    ensures ParseRequest(ReadPacket(id, text, offset, size)) == Read(id, text, size)
    ensures ParseRequest(TextPacket(FXP_CLOSE, id, text, rest)) == Close(text)
    ensures ParseReply(TextPacket(FXP_HANDLE, id, text, rest)) == HandleReply(id, text)
    ensures ParseReply(TextPacket(FXP_DATA, id, text, rest)) == DataReply(id, |text|)
    ensures ParseReply(Packet(FXP_STATUS, id, rest)) == ParseReply(Packet(FXP_NAME, id, rest)) == EndReply(id)
  {
    hide Be, PutBe, ReadStr, PutStr;
    ReadReadBack(id, text, offset, size);
    TextPacketRead(FXP_OPEN, id, text, rest);
    TextPacketRead(FXP_OPENDIR, id, text, rest);
    TextPacketRead(FXP_CLOSE, id, text, rest);
    TextPacketRead(FXP_HANDLE, id, text, rest);
    TextPacketRead(FXP_DATA, id, text, rest);
    HeaderReadBack(FXP_STATUS, id, rest);
    HeaderReadBack(FXP_NAME, id, rest);
  }

  // ---------------------------------------------------------------- the tracker

  datatype Tracker = Tracker(pending: map<nat, Pending>, handles: map<Octets, Octets>)

  function PathOf(t: Tracker, handle: Octets): Octets {
    if handle in t.handles then t.handles[handle] else []
  }

  function Bind(t: Tracker, handle: Octets, path: Octets): Tracker {
    if Trim(handle) == [] || Trim(path) == [] then t else t.(handles := t.handles[handle := path])
  }

  function Store(t: Tracker, id: nat, p: Pending): Tracker {
    t.(pending := t.pending[id := p])
  }

  function Pop(t: Tracker, id: nat): Tracker {
    t.(pending := t.pending - {id})
  }

  /** parseSFTPClientPacket: the tracker afterwards, and the operations to record. */
  function OnRequest(t: Tracker, r: Request): (Tracker, seq<FileOperation>) {
    match r
    case Open(id, path) => (Store(t, id, Pending(OpenOp, path, [], 0)), [])
    case Opendir(id, path) => (Store(t, id, Pending(OpendirOp, path, [], 0)), [FileOperation(ListOp, path, [], 0)])
    case Read(id, handle, size) => (Store(t, id, Pending(DownloadReadOp, PathOf(t, handle), handle, size)), [])
    case Write(handle, size) => (t, [FileOperation(UploadWriteOp, PathOf(t, handle), [], size)])
    case Rename(path, pathTo) => (t, [FileOperation(RenameOp, path, pathTo, 0)])
    case OnPath(operation, path) => (t, [FileOperation(operation, path, [], 0)])
    case Readdir(handle) =>
      (t, if PathOf(t, handle) != [] then [FileOperation(ListOp, PathOf(t, handle), [], 0)] else [])
    case Close(handle) => (t.(handles := t.handles - {handle}), [])
    case OtherRequest => (t, [])
  }

  /** parseSFTPServerPacket. */
  function OnReply(t: Tracker, r: Reply): (Tracker, seq<FileOperation>) {
    match r
    case HandleReply(id, handle) =>
      if id !in t.pending then (t, [])
      else
        var p := t.pending[id];
        (if p.operation.OpenOp? || p.operation.OpendirOp? then Bind(Pop(t, id), handle, p.path) else Pop(t, id), [])
    case DataReply(id, size) =>
      if id !in t.pending then (t, [])
      else
        var p := t.pending[id];
        (Pop(t, id),
         if !p.operation.DownloadReadOp? then []
         else
           var path := if p.path == [] && p.handle != [] then PathOf(t, p.handle) else p.path;
           [FileOperation(DownloadReadOp, path, [], size)])
    case EndReply(id) => (Pop(t, id), [])
    case OtherReply => (t, [])
  }

  // ---------------------------------------------------------------- what each packet does

  /** A client packet does nothing but record these operations. */
  predicate Records(t: Tracker, payload: seq<byte>, ops: seq<FileOperation>) {
    OnRequest(t, ParseRequest(payload)) == (t, ops)
  }

  /** A client packet records these operations and leaves this request waiting. */
  predicate Waiting(t: Tracker, payload: seq<byte>, id: nat, p: Pending, ops: seq<FileOperation>) {
    OnRequest(t, ParseRequest(payload)) == (Tracker(t.pending[id := p], t.handles), ops)
  }

  /** Main result: the file requests of the draft, laid out as there, are recorded with their paths and sizes. */
  lemma RequestsRecorded(t: Tracker, id: nat, path: Octets, pathTo: Octets, offset: nat, data: seq<byte>,
                         rest: seq<byte>)
    requires id < 0x1_0000_0000 && |path| < 0x1_0000_0000 && |pathTo| < 0x1_0000_0000 && |data| < 0x1_0000_0000
    ensures Records(t, RenamePacket(id, path, pathTo), [FileOperation(RenameOp, path, pathTo, 0)])
    ensures Records(t, WritePacket(id, path, offset, data), [FileOperation(UploadWriteOp, PathOf(t, path), [], |data|)])
    ensures Records(t, TextPacket(FXP_REMOVE, id, path, rest), [FileOperation(DeleteOp, path, [], 0)])
    ensures Records(t, TextPacket(FXP_MKDIR, id, path, rest), [FileOperation(MkdirOp, path, [], 0)])
    ensures Records(t, TextPacket(FXP_RMDIR, id, path, rest), [FileOperation(RmdirOp, path, [], 0)])
    ensures forall kind :: kind in {FXP_STAT, FXP_LSTAT, FXP_SETSTAT, FXP_REALPATH} ==>
              Records(t, TextPacket(kind, id, path, rest), [FileOperation(StatOp, path, [], 0)])
    ensures Records(t, TextPacket(FXP_READDIR, id, path, rest),
                    if PathOf(t, path) == [] then [] else [FileOperation(ListOp, PathOf(t, path), [], 0)])
  {
    hide Be, ReadStr, PutStr, TextPacket, PathOf;
    RenameReadBack(id, path, pathTo);
    WriteReadBack(id, path, offset, data);
    forall kind
      ensures var p := TextPacket(kind, id, path, rest);
              |p| >= 9 && p[0] == kind && ReadStr(p[5..], 0) == Str(path, 4 + |path|)
    {
      TextPacketRead(kind, id, path, rest);
    }
  }

  /** Main result: OPEN, OPENDIR and READ wait for their reply under their id, and CLOSE forgets the handle. */
  lemma RequestsWait(t: Tracker, id: nat, text: Octets, offset: nat, size: nat, rest: seq<byte>)
    requires id < 0x1_0000_0000 && |text| < 0x1_0000_0000 && size < 0x1_0000_0000
    ensures Waiting(t, TextPacket(FXP_OPEN, id, text, rest), id, Pending(OpenOp, text, [], 0), [])
    ensures Waiting(t, TextPacket(FXP_OPENDIR, id, text, rest), id, Pending(OpendirOp, text, [], 0),
                    [FileOperation(ListOp, text, [], 0)])
    ensures Waiting(t, ReadPacket(id, text, offset, size), id,
                    Pending(DownloadReadOp, PathOf(t, text), text, size), [])
    ensures OnRequest(t, ParseRequest(TextPacket(FXP_CLOSE, id, text, rest)))
            == (Tracker(t.pending, t.handles - {text}), [])
  {
    hide ParseRequest, PathOf;
    FormatsReadBack(id, text, rest, offset, size);
  }

  /** A packet cut short before the end of its first string does nothing. */
  lemma CutShort(t: Tracker, kind: byte, id: nat, text: Octets, n: nat)
    requires id < 0x1_0000_0000 && |text| < 0x1_0000_0000 && n < 9 + |text|
    ensures Records(t, TextPacket(kind, id, text, [])[..n], [])
  {
    var p, s := TextPacket(kind, id, text, []), PutStr(text);
    assert |p| == 9 + |text| && (n > 0 ==> p[..n][0] == kind);
    if n >= 9 {
      Pow256Values();
      BePutBe(|text|, 4);
      assert p[..n][5..][0..4] == PutBe(|text|, 4);
    }
  }

  /** Nothing but the request with this id is no longer waited for. */
  function Answered(t: Tracker, id: nat): Tracker {
    Tracker(map i | i in t.pending && i != id :: t.pending[i], t.handles)
  }

  lemma BindUnlessBlank(t: Tracker, handle: Octets, path: Octets)
    ensures Bind(t, handle, path)
            == if AllSpace(handle) || AllSpace(path) then t else t.(handles := t.handles[handle := path])
  {
    hide Trim, AllSpace;
    BlankTrims(handle);
    BlankTrims(path);
  }

  lemma PopIsAnswered(t: Tracker, id: nat)
    ensures Pop(t, id) == Answered(t, id) && (id !in t.pending ==> Answered(t, id) == t)
    ensures Answered(t, id).handles == t.handles
  {
    assert Pop(t, id) == Answered(t, id);
  }

  /**
   Main result: what the replies of the draft do. A HANDLE binds the handle to the path of
   its OPEN or OPENDIR, unless one of them is blank; a DATA is recorded as a download, if its
   request is a READ; and every reply ends the request with its id, if one waits.
   */
  lemma RepliesEnd(t: Tracker, id: nat, text: Octets, rest: seq<byte>)
    requires id < 0x1_0000_0000 && |text| < 0x1_0000_0000
    ensures OnReply(t, ParseReply(Packet(FXP_STATUS, id, rest))) == (Answered(t, id), [])
    ensures OnReply(t, ParseReply(Packet(FXP_NAME, id, rest))) == (Answered(t, id), [])
    ensures OnReply(t, ParseReply(TextPacket(FXP_HANDLE, id, text, rest)))
            == if id in t.pending && t.pending[id].operation in {OpenOp, OpendirOp}
                  && !AllSpace(text) && !AllSpace(t.pending[id].path)
               then (Answered(t, id).(handles := t.handles[text := t.pending[id].path]), [])
               else (Answered(t, id), [])
    ensures OnReply(t, ParseReply(TextPacket(FXP_DATA, id, text, rest)))
            == (Answered(t, id),
                if id in t.pending && t.pending[id].operation == DownloadReadOp then
                  var p := t.pending[id];
                  [FileOperation(DownloadReadOp, if p.path == [] && p.handle != [] then PathOf(t, p.handle) else p.path,
                                 [], |text|)]
                else [])
  {
    hide ParseReply, PathOf, AllSpace, TextPacket, Packet, Answered, Pop, Bind;
    FormatsReadBack(id, text, rest, 0, 0);
    PopIsAnswered(t, id);
    if id in t.pending {
      BindUnlessBlank(Answered(t, id), text, t.pending[id].path);
    }
  }

  /** sftpRelayState; each method is one critical section. */
  class RelayState {
    var pending: map<nat, Pending>
    var handles: map<Octets, Octets>

    function Value(): Tracker
      reads this
    {
      Tracker(pending, handles)
    }

    constructor ()
      ensures Value() == Tracker(map[], map[])
    {
      pending, handles := map[], map[];
    }

    method StorePending(id: nat, p: Pending)
      modifies this
      ensures Value() == Store(old(Value()), id, p)
    {
      pending := pending[id := p];
    }

    method PopPending(id: nat) returns (p: Option<Pending>)
      modifies this
      ensures Value() == Pop(old(Value()), id)
      ensures p == if id in old(pending) then Some(old(pending)[id]) else None
    {
      p := None;
      if id in pending {
        p := Some(pending[id]);
        pending := pending - {id};
      } else {
        assert pending - {id} == pending;
      }
    }

    method MapHandleToPath(handle: Octets, path: Octets)
      modifies this
      ensures Value() == Bind(old(Value()), handle, path)
    {
      if Trim(handle) == [] || Trim(path) == [] {
        return;
      }
      handles := handles[handle := path];
    }

    method LookupPathByHandle(handle: Octets) returns (path: Octets)
      ensures path == PathOf(Value(), handle)
    {
      path := if handle in handles then handles[handle] else [];
    }

    method DeleteHandle(handle: Octets)
      modifies this
      ensures Value() == old(Value()).(handles := old(handles) - {handle})
    {
      handles := handles - {handle};
    }

    /** parseSFTPClientPacket, when nothing else runs in between. */
    method ParseClientPacket(payload: seq<byte>) returns (ops: seq<FileOperation>)
      modifies this
      ensures (Value(), ops) == OnRequest(old(Value()), ParseRequest(payload))
    {
      hide Be, ReadStr;
      ops := [];
      if |payload| < 1 || payload[0] == FXP_INIT || |payload| < 5 {
        return;
      }
      var kind, reqId, body := payload[0], Be(payload[1..5]), payload[5..];
      var first := ReadStr(body, 0);
      if first.NoStr? {
        // No packet that matters here lacks its first string.
        return;
      }
      if kind == FXP_OPEN {
        StorePending(reqId, Pending(OpenOp, first.text, [], 0));
      } else if kind == FXP_OPENDIR {
        StorePending(reqId, Pending(OpendirOp, first.text, [], 0));
        ops := [FileOperation(ListOp, first.text, [], 0)];
      } else if kind == FXP_READ {
        if first.next + 12 > |body| {
          return;
        }
        var size := Be(body[first.next + 8..first.next + 12]);
        var path := LookupPathByHandle(first.text);
        StorePending(reqId, Pending(DownloadReadOp, path, first.text, size));
      } else if kind == FXP_WRITE {
        if first.next + 8 > |body| {
          return;
        }
        var data := ReadStr(body, first.next + 8);
        if data.NoStr? {
          return;
        }
        var path := LookupPathByHandle(first.text);
        ops := [FileOperation(UploadWriteOp, path, [], |data.text|)];
      } else if kind == FXP_RENAME {
        var second := ReadStr(body, first.next);
        if second.NoStr? {
          return;
        }
        ops := [FileOperation(RenameOp, first.text, second.text, 0)];
      } else if kind == FXP_READDIR {
        var path := LookupPathByHandle(first.text);
        if path != [] {
          ops := [FileOperation(ListOp, path, [], 0)];
        }
      } else if kind == FXP_CLOSE {
        DeleteHandle(first.text);
      } else {
        var operation := PathOperation(kind);
        if operation.Some? {
          ops := [FileOperation(operation.value, first.text, [], 0)];
        }
      }
    }

    /** parseSFTPServerPacket, when nothing else runs in between. */
    method ParseServerPacket(payload: seq<byte>) returns (ops: seq<FileOperation>)
      modifies this
      ensures (Value(), ops) == OnReply(old(Value()), ParseReply(payload))
    {
      hide Be, ReadStr, Bind;
      ops := [];
      if |payload| < 1 || payload[0] == FXP_VERSION || |payload| < 5 {
        return;
      }
      var kind, reqId, body := payload[0], Be(payload[1..5]), payload[5..];
      if kind == FXP_HANDLE {
        var handle := ReadStr(body, 0);
        if handle.NoStr? {
          return;
        }
        var p := PopPending(reqId);
        if p.None? {
          assert Pop(old(Value()), reqId) == old(Value());
          return;
        }
        if p.value.operation.OpenOp? || p.value.operation.OpendirOp? {
          MapHandleToPath(handle.text, p.value.path);
        }
      } else if kind == FXP_DATA {
        var data := ReadStr(body, 0);
        if data.NoStr? {
          return;
        }
        var p := PopPending(reqId);
        if p.None? {
          assert Pop(old(Value()), reqId) == old(Value());
          return;
        }
        if !p.value.operation.DownloadReadOp? {
          return;
        }
        var path := p.value.path;
        if path == [] && p.value.handle != [] {
          path := LookupPathByHandle(p.value.handle);
        }
        ops := [FileOperation(DownloadReadOp, path, [], |data.text|)];
      } else if kind == FXP_STATUS || kind == FXP_NAME {
        var _ := PopPending(reqId);
      }
    }
  }
}
