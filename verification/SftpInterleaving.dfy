/**
 The tracker under its two goroutines. Each action below is one critical section
 of the tracker, so a run is any interleaving of the client's and the server's
 packets, also between the two critical sections that one packet may need.
 */
module SftpInterleaving {
  import opened Bytes
  import opened Text
  import opened SftpTracker

  /**
   What happens, in the order in which the critical sections run: a packet comes; the
   tracker stores a READ, the one of event `read`, under its id; or it binds a handle, as
   the HANDLE packet at event `reply` told it to.
   */
  datatype Event =
    | FromClient(payload: seq<byte>)
    | FromServer(payload: seq<byte>)
    | Stored(id: nat, read: nat)
    | Bound(handle: Octets, path: Octets, reply: nat)

  /**
   A recorded operation. A download also says which READ and which DATA it stands for,
   and how many events had happened when its path was looked up.
   */
  datatype Logged = Plain(op: FileOperation) | Download(op: FileOperation, read: nat, data: nat, looked: nat)

  /** The client's goroutine: idle, or about to store the READ it has looked up the path for. */
  datatype ClientPc = ClientIdle | ToStore(id: nat, p: Pending, at: nat)

  /** The server's goroutine: idle, or in the middle of a HANDLE or of a DATA packet. */
  datatype ServerPc =
    | ServerIdle
    | ToBind(handle: Octets, path: Octets, at: nat)
    | ToLook(id: nat, p: Pending, size: nat, read: nat, at: nat)

  /** `origin` says which packet of the history each pending request came in. */
  datatype System = System(t: Tracker, origin: map<nat, nat>, client: ClientPc, server: ServerPc,
                           hist: seq<Event>, log: seq<Logged>)

  const START := System(Tracker(map[], map[]), map[], ClientIdle, ServerIdle, [], [])

  datatype Action = ClientPacket(payload: seq<byte>) | ClientResume | ServerPacket(payload: seq<byte>) | ServerResume

  function Plains(ops: seq<FileOperation>): (ls: seq<Logged>)
    ensures |ls| == |ops| && forall i :: 0 <= i < |ls| ==> ls[i] == Plain(ops[i])
  {
    seq(|ops|, i requires 0 <= i < |ops| => Plain(ops[i]))
  }

  function OnClientPacket(s: System, payload: seq<byte>): System {
    var r, at, h := ParseRequest(payload), |s.hist|, s.hist + [FromClient(payload)];
    if r.Read? then
      s.(hist := h, client := ToStore(r.id, Pending(DownloadReadOp, PathOf(s.t, r.handle), r.handle, r.size), at))
    else
      var (t, ops) := OnRequest(s.t, r);
      s.(hist := h, t := t, origin := if r.Open? || r.Opendir? then s.origin[r.id := at] else s.origin,
         log := s.log + Plains(ops))
  }

  function OnServerPacket(s: System, payload: seq<byte>): System {
    var r, at, h := ParseReply(payload), |s.hist|, s.hist + [FromServer(payload)];
    if r.OtherReply? || r.id !in s.t.pending || r.id !in s.origin then s.(hist := h)
    else
      var p, read := s.t.pending[r.id], s.origin[r.id];
      var popped := s.(hist := h, t := Pop(s.t, r.id), origin := s.origin - {r.id});
      if r.HandleReply? && (p.operation.OpenOp? || p.operation.OpendirOp?) then
        popped.(server := ToBind(r.handle, p.path, at))
      else if r.DataReply? && p.operation.DownloadReadOp? then
        if p.path == [] && p.handle != [] then popped.(server := ToLook(r.id, p, r.size, read, at))
        else popped.(log := s.log + [Download(FileOperation(DownloadReadOp, p.path, [], r.size), read, at, read)])
      else popped
  }

  /** The tracker gives the handle this path. */
  function Binding(s: System, handle: Octets, path: Octets, at: nat): System {
    s.(t := s.t.(handles := s.t.handles[handle := path]), hist := s.hist + [Bound(handle, path, at)],
       server := ServerIdle)
  }

  function Step(s: System, a: Action): System {
    match a
    case ClientPacket(payload) => if s.client.ClientIdle? then OnClientPacket(s, payload) else s
    case ClientResume =>
      if s.client.ClientIdle? then s
      else
        s.(t := Store(s.t, s.client.id, s.client.p), origin := s.origin[s.client.id := s.client.at],
           hist := s.hist + [Stored(s.client.id, s.client.at)], client := ClientIdle)
    case ServerPacket(payload) => if s.server.ServerIdle? then OnServerPacket(s, payload) else s
    case ServerResume =>
      match s.server
      case ServerIdle => s
      case ToBind(handle, path, at) =>
        if Trim(handle) == [] || Trim(path) == [] then s.(server := ServerIdle)
        else Binding(s, handle, path, at)
      case ToLook(_, p, size, read, at) =>
        var op := FileOperation(DownloadReadOp, PathOf(s.t, p.handle), [], size);
        s.(log := s.log + [Download(op, read, at, |s.hist|)], server := ServerIdle)
  }

  function Run(s: System, actions: seq<Action>): System
    decreases |actions|
  {
    if actions == [] then s else Run(Step(s, actions[0]), actions[1..])
  }

  // ---------------------------------------------------------------- no interference

  /** A client packet handled without interruption does what ParseClientPacket does. */
  lemma UninterruptedClient(s: System, payload: seq<byte>)
    requires s.client.ClientIdle?
    ensures var after := Step(Step(s, ClientPacket(payload)), ClientResume);
            && (after.t, after.log) == (OnRequest(s.t, ParseRequest(payload)).0,
                                        s.log + Plains(OnRequest(s.t, ParseRequest(payload)).1))
            && after.client.ClientIdle?
  {
    hide ParseRequest;
    assert s.log + [] == s.log;
  }

  /** And so for a server packet: the same tracker, and the same operations recorded. */
  lemma UninterruptedServer(s: System, payload: seq<byte>)
    requires s.server.ServerIdle? && s.origin.Keys == s.t.pending.Keys
    ensures var after := Step(Step(s, ServerPacket(payload)), ServerResume);
            var (t, ops) := OnReply(s.t, ParseReply(payload));
            && after.t == t && after.server.ServerIdle?
            && s.log <= after.log && |after.log| == |s.log| + |ops|
            && forall i :: 0 <= i < |ops| ==> after.log[|s.log| + i].op == ops[i]
  {
    hide ParseReply, Trim;
    var r := ParseReply(payload);
    if !r.OtherReply? && r.id !in s.t.pending {
      assert Pop(s.t, r.id) == s.t;
    } else if r.HandleReply? {
      assert OnReply(s.t, r).1 == [];
    } else if r.DataReply? {
      hide Bind;
      assert Step(s, ServerPacket(payload)).t == OnReply(s.t, r).0;
    }
  }

  // ---------------------------------------------------------------- the handles, from the history

  predicate IsOpen(e: Event, id: nat, path: Octets) {
    e.FromClient? && (ParseRequest(e.payload) == Open(id, path) || ParseRequest(e.payload) == Opendir(id, path))
  }

  predicate IsRead(e: Event, id: nat, handle: Octets) {
    e.FromClient? && ParseRequest(e.payload).Read?
    && ParseRequest(e.payload).id == id && ParseRequest(e.payload).handle == handle
  }

  predicate IsClose(e: Event, handle: Octets) {
    e.FromClient? && ParseRequest(e.payload) == Close(handle)
  }

  predicate IsHandle(e: Event, id: nat, handle: Octets) {
    e.FromServer? && ParseReply(e.payload) == HandleReply(id, handle)
  }

  predicate IsData(e: Event, id: nat, size: nat) {
    e.FromServer? && ParseReply(e.payload) == DataReply(id, size)
  }

  /** The tracker gave this handle a path, which is never empty. */
  predicate Binds(e: Event, handle: Octets) {
    e.Bound? && e.handle == handle && e.path != []
  }

  /** The path of a handle after a history: that of its last binding, unless it was closed since. */
  function PathAfter(hist: seq<Event>, handle: Octets): Octets {
    if hist == [] then []
    else
      var e := hist[|hist| - 1];
      if Binds(e, handle) then e.path
      else if IsClose(e, handle) then []
      else PathAfter(hist[..|hist| - 1], handle)
  }

  /** The handle's path when the first n events had happened. */
  function PathAt(hist: seq<Event>, n: nat, handle: Octets): Octets
    requires n <= |hist|
  {
    PathAfter(hist[..n], handle)
  }

  /** Of the first n events, event k was the last to bind this handle, and none closed it after that. */
  predicate LastBinding(hist: seq<Event>, n: nat, handle: Octets, k: int)
    requires n <= |hist|
  {
    && 0 <= k < n && Binds(hist[k], handle)
    && forall j :: k < j < n ==> !Binds(hist[j], handle) && !IsClose(hist[j], handle)
  }

  lemma {:induction false} PathIsLastBinding(hist: seq<Event>, n: nat, handle: Octets)
    requires n <= |hist|
    ensures forall k :: LastBinding(hist, n, handle, k) ==> PathAt(hist, n, handle) == hist[k].path
    ensures PathAt(hist, n, handle) != [] <==> exists k :: LastBinding(hist, n, handle, k)
    decreases n
  {
    hide IsClose;
    if n > 0 {
      var m := n - 1;
      assert hist[..n][..m] == hist[..m];
      PathIsLastBinding(hist, m, handle);
      if Binds(hist[m], handle) {
        assert LastBinding(hist, n, handle, m);
      } else {
        forall k | LastBinding(hist, n, handle, k)
          ensures LastBinding(hist, m, handle, k)
        {
        }
        if !IsClose(hist[m], handle) {
          forall k | LastBinding(hist, m, handle, k)
            ensures LastBinding(hist, n, handle, k)
          {
          }
        }
      }
    }
  }

  /** Event k, a binding, was told by a HANDLE reply to an OPEN or OPENDIR of its path, the server's latest packet. */
  ghost predicate BoundOk(hist: seq<Event>, k: nat)
    requires k < |hist|
  {
    hist[k].Bound? ==>
      && hist[k].reply < k && Replies(hist, hist[k].reply, hist[k].handle, hist[k].path)
      && forall j :: hist[k].reply < j < k ==> OfClient(hist[j])
  }

  /** Something the client's goroutine does. */
  predicate OfClient(e: Event) {
    e.FromClient? || e.Stored?
  }

  /** Event k, the storing of a READ, is of one with that id, the client's latest packet. */
  ghost predicate StoredOk(hist: seq<Event>, k: nat)
    requires k < |hist|
  {
    hist[k].Stored? ==>
      && hist[k].read < k && hist[hist[k].read].FromClient?
      && ParseRequest(hist[hist[k].read].payload).Read? && ParseRequest(hist[hist[k].read].payload).id == hist[k].id
      && forall j :: hist[k].read < j < k ==> !OfClient(hist[j])
  }

  /** Event at is a HANDLE reply with this handle, to an earlier OPEN or OPENDIR of this path. */
  ghost predicate Replies(hist: seq<Event>, at: nat, handle: Octets, path: Octets)
    requires at < |hist|
  {
    exists a, id :: 0 <= a < at && IsOpen(hist[a], id, path) && IsHandle(hist[at], id, handle)
  }

  // ---------------------------------------------------------------- the requests, from the history

  /** The tracker puts a request under this id: an OPEN or OPENDIR as it comes, a READ when it is stored. */
  predicate Asks(e: Event, id: nat) {
    match e
    case FromClient(payload) =>
      var r := ParseRequest(payload);
      (r.Open? || r.Opendir?) && r.id == id
    case Stored(id', _) => id' == id
    case _ => false
  }

  /** A packet of the server's that ends the request with this id. */
  predicate Answers(e: Event, id: nat) {
    e.FromServer? && !ParseReply(e.payload).OtherReply? && ParseReply(e.payload).id == id
  }

  /** The event at which the request that waits under an id came, after a history. */
  function RequestAfter(hist: seq<Event>, id: nat): Option<nat> {
    if hist == [] then None
    else
      var n := |hist| - 1;
      if Asks(hist[n], id) then Some(if hist[n].Stored? then hist[n].read else n)
      else if Answers(hist[n], id) then None
      else RequestAfter(hist[..n], id)
  }

  function RequestAt(hist: seq<Event>, n: nat, id: nat): Option<nat>
    requires n <= |hist|
  {
    RequestAfter(hist[..n], id)
  }

  /** Of the first n events, event k was the last to ask under this id, and none answered it after that. */
  predicate LastAsk(hist: seq<Event>, n: nat, id: nat, k: int)
    requires n <= |hist|
  {
    && 0 <= k < n && Asks(hist[k], id)
    && forall j :: k < j < n ==> !Asks(hist[j], id) && !Answers(hist[j], id)
  }

  lemma {:induction false} RequestIsLastAsk(hist: seq<Event>, n: nat, id: nat)
    requires n <= |hist|
    ensures forall k :: LastAsk(hist, n, id, k) ==>
              RequestAt(hist, n, id) == Some(if hist[k].Stored? then hist[k].read else k)
    ensures RequestAt(hist, n, id).Some? <==> exists k :: LastAsk(hist, n, id, k)
    decreases n
  {
    hide Asks, Answers;
    if n > 0 {
      var m := n - 1;
      assert hist[..n][..m] == hist[..m];
      RequestIsLastAsk(hist, m, id);
      if Asks(hist[m], id) {
        assert LastAsk(hist, n, id, m);
      } else {
        forall k | LastAsk(hist, n, id, k)
          ensures LastAsk(hist, m, id, k)
        {
        }
        if !Answers(hist[m], id) {
          forall k | LastAsk(hist, m, id, k)
            ensures LastAsk(hist, n, id, k)
          {
          }
        }
      }
    }
  }

  /** Event d is a DATA, and what waits under its id when it comes is a READ. */
  predicate AnswersRead(hist: seq<Event>, d: nat)
    requires d < |hist|
  {
    hist[d].FromServer? && ParseReply(hist[d].payload).DataReply?
    && var q := RequestAt(hist, d, ParseReply(hist[d].payload).id);
       q.Some? && q.value < |hist| && hist[q.value].FromClient? && ParseRequest(hist[q.value].payload).Read?
  }

  // ---------------------------------------------------------------- the invariant

  /** The pending request p with this id came in event at; a READ, with the path its handle had then. */
  predicate Matches(hist: seq<Event>, at: nat, id: nat, p: Pending) {
    && at < |hist|
    && match p.operation
       case OpenOp => IsOpen(hist[at], id, p.path)
       case OpendirOp => IsOpen(hist[at], id, p.path)
       case DownloadReadOp => IsRead(hist[at], id, p.handle) && p.path == PathAt(hist, at, p.handle)
       case _ => false
  }

  ghost predicate PendingOk(s: System) {
    && s.origin.Keys == s.t.pending.Keys
    && forall id :: id in s.origin ==> Matches(s.hist, s.origin[id], id, s.t.pending[id])
  }

  ghost predicate HandlesOk(s: System) {
    forall h :: PathOf(s.t, h) == PathAfter(s.hist, h)
  }

  ghost predicate BoundsOk(hist: seq<Event>) {
    forall k :: 0 <= k < |hist| ==> BoundOk(hist, k) && StoredOk(hist, k)
  }

  /** The pending requests are those that wait according to the history. */
  ghost predicate RequestsOk(s: System) {
    forall id :: RequestAfter(s.hist, id) == if id in s.origin then Some(s.origin[id]) else None
  }

  /** A download is logged, or about to be, for this DATA. */
  ghost predicate LoggedFor(s: System, d: nat) {
    (s.server.ToLook? && s.server.at == d) || exists k :: 0 <= k < |s.log| && s.log[k].Download? && s.log[k].data == d
  }

  /** Exactly the DATA packets that answer a READ are logged. */
  ghost predicate LogComplete(s: System) {
    forall d :: 0 <= d < |s.hist| ==> (LoggedFor(s, d) <==> AnswersRead(s.hist, d))
  }

  /** Event r, a READ, no longer waits for its reply. */
  ghost predicate NotWaiting(s: System, r: nat) {
    (forall id :: id in s.origin ==> s.origin[id] != r) && (s.client.ToStore? ==> s.client.at != r)
  }

  ghost predicate NotLogged(log: seq<Logged>, r: nat) {
    forall k :: 0 <= k < |log| && log[k].Download? ==> log[k].read != r
  }

  ghost predicate ClientOk(s: System) {
    s.client.ToStore? ==>
      && Matches(s.hist, s.client.at, s.client.id, s.client.p) && s.client.p.operation.DownloadReadOp?
      && NotLogged(s.log, s.client.at) && (forall id :: id in s.origin ==> s.origin[id] != s.client.at)
      && forall i :: s.client.at < i < |s.hist| ==> !OfClient(s.hist[i])
  }

  /** The server's goroutine takes one packet at a time. */
  predicate NothingSince(hist: seq<Event>, at: nat) {
    at < |hist| && forall i :: at < i < |hist| ==> OfClient(hist[i])
  }

  ghost predicate ServerOk(s: System) {
    match s.server
    case ServerIdle => true
    case ToBind(handle, path, at) => NothingSince(s.hist, at) && Replies(s.hist, at, handle, path)
    case ToLook(id, p, size, read, at) =>
      && read < at && NothingSince(s.hist, at)
      && IsRead(s.hist[read], id, p.handle) && IsData(s.hist[at], id, size)
      && PathAt(s.hist, read, p.handle) == [] && RequestAt(s.hist, at, id) == Some(read)
      && NotLogged(s.log, read) && NotWaiting(s, read)
  }

  /**
   A logged download stands for a DATA and the READ that waited under its id when it
   came, and has the size of the DATA. Its path is
   the one the READ's handle had when the READ came or, if it had none, when the DATA was
   dealt with, before the server's next packet.
   */
  ghost predicate DownloadOk(hist: seq<Event>, d: Logged)
    requires d.Download?
  {
    exists id, handle :: DownloadIs(hist, d, id, handle)
  }

  predicate DownloadIs(hist: seq<Event>, d: Logged, id: nat, handle: Octets)
    requires d.Download?
  {
    && d.read < d.data < |hist| && d.looked <= |hist|
    && d.op.operation == DownloadReadOp
    && IsRead(hist[d.read], id, handle) && IsData(hist[d.data], id, d.op.size)
    && RequestAt(hist, d.data, id) == Some(d.read)
    && d.op.path == PathAt(hist, d.looked, handle)
    && (|| d.looked == d.read
        || (PathAt(hist, d.read, handle) == [] && d.data < d.looked
            && forall i :: d.data < i < d.looked ==> OfClient(hist[i])))
  }

  ghost predicate LogOk(s: System) {
    forall k :: 0 <= k < |s.log| ==>
      if s.log[k].Download? then DownloadOk(s.hist, s.log[k]) && NotWaiting(s, s.log[k].read)
      else !s.log[k].op.operation.DownloadReadOp?
  }

  ghost predicate Distinct(log: seq<Logged>) {
    forall j, k :: 0 <= j < k < |log| && log[j].Download? && log[k].Download? ==> log[j].read != log[k].read
  }

  ghost predicate Inv(s: System) {
    InvButHandles(s) && Current(s)
  }

  /** The tracker and the log agree with the history up to now. */
  ghost predicate Current(s: System) {
    HandlesOk(s) && RequestsOk(s) && LogComplete(s)
  }

  /** The rest of the invariant. */
  ghost predicate InvButHandles(s: System) {
    PendingOk(s) && BoundsOk(s.hist) && ClientOk(s) && ServerOk(s) && LogOk(s) && Distinct(s.log)
  }

  // ---------------------------------------------------------------- more history changes nothing

  lemma PathAtLater(hist: seq<Event>, e: Event, n: nat, handle: Octets)
    requires n <= |hist|
    ensures PathAt(hist + [e], n, handle) == PathAt(hist, n, handle)
  {
    assert (hist + [e])[..n] == hist[..n];
  }

  lemma RequestAtLater(hist: seq<Event>, e: Event, n: nat, id: nat)
    requires n <= |hist|
    ensures RequestAt(hist + [e], n, id) == RequestAt(hist, n, id)
  {
    assert (hist + [e])[..n] == hist[..n];
  }

  lemma MatchesLater(hist: seq<Event>, e: Event, at: nat, id: nat, p: Pending)
    requires Matches(hist, at, id, p)
    ensures at < |hist| && Matches(hist + [e], at, id, p)
  {
    hide IsRead, IsOpen, PathAt;
    PathAtLater(hist, e, at, p.handle);
  }

  lemma DownloadLater(hist: seq<Event>, e: Event, d: Logged)
    requires d.Download? && DownloadOk(hist, d)
    ensures DownloadOk(hist + [e], d) && d.read < |hist|
  {
    hide IsRead, IsData, PathAt, RequestAt;
    var id, handle :| DownloadIs(hist, d, id, handle);
    PathAtLater(hist, e, d.read, handle);
    RequestAtLater(hist, e, d.data, id);
    PathAtLater(hist, e, d.looked, handle);
    assert DownloadIs(hist + [e], d, id, handle);
  }

  lemma RepliesLater(hist: seq<Event>, e: Event, at: nat, handle: Octets, path: Octets)
    requires at < |hist| && Replies(hist, at, handle, path)
    ensures Replies(hist + [e], at, handle, path)
  {
    hide IsOpen, IsHandle;
    var a, id :| 0 <= a < at && IsOpen(hist[a], id, path) && IsHandle(hist[at], id, handle);
    assert (hist + [e])[a] == hist[a] && (hist + [e])[at] == hist[at];
  }

  lemma BoundsLater(hist: seq<Event>, e: Event)
    requires BoundsOk(hist) && BoundOk(hist + [e], |hist|) && StoredOk(hist + [e], |hist|)
    ensures BoundsOk(hist + [e])
  {
    hide Replies, OfClient;
    var hist' := hist + [e];
    forall k | 0 <= k < |hist'|
      ensures BoundOk(hist', k) && StoredOk(hist', k)
    {
      if k < |hist| {
        assert BoundOk(hist, k) && StoredOk(hist, k);
        if hist[k].Bound? {
          RepliesLater(hist, e, hist[k].reply, hist[k].handle, hist[k].path);
        }
      }
    }
  }

  lemma ServerLater(s: System, e: Event)
    requires ServerOk(s) && (OfClient(e) || s.server.ServerIdle?)
    ensures ServerOk(s.(hist := s.hist + [e]))
  {
    hide IsRead, IsData, Replies, PathAt, RequestAt, NotLogged, NotWaiting, OfClient;
    var s' := s.(hist := s.hist + [e]);
    match s.server
    case ServerIdle =>
    case ToBind(handle, path, at) => RepliesLater(s.hist, e, at, handle, path);
    case ToLook(id, p, _, read, at) =>
      PathAtLater(s.hist, e, read, p.handle);
      RequestAtLater(s.hist, e, at, id);
      NotWaitingSame(s, s', read);
  }

  lemma NotWaitingSame(s: System, s': System, r: nat)
    ensures NotWaiting(s, r) && s'.origin == s.origin && s'.client == s.client ==> NotWaiting(s', r)
  {
  }

  /** Something more happens; before anything else changes, the invariant holds, but for what is current. */
  lemma SawEvent(s: System, e: Event)
    requires InvButHandles(s) && (OfClient(e) || s.server.ServerIdle?) && (!OfClient(e) || s.client.ClientIdle?)
    requires BoundOk(s.hist + [e], |s.hist|) && StoredOk(s.hist + [e], |s.hist|)
    ensures InvButHandles(s.(hist := s.hist + [e]))
    ensures NotLogged(s.log, |s.hist|) && NotWaiting(s, |s.hist|)
  {
    hide Matches, DownloadOk, BoundsOk, ServerOk, BoundOk, StoredOk;
    var s' := s.(hist := s.hist + [e]);
    BoundsLater(s.hist, e);
    ServerLater(s, e);
    forall id | id in s.origin
      ensures Matches(s'.hist, s.origin[id], id, s.t.pending[id]) && s.origin[id] < |s.hist|
    {
      MatchesLater(s.hist, e, s.origin[id], id, s.t.pending[id]);
    }
    forall k | 0 <= k < |s.log| && s.log[k].Download?
      ensures DownloadOk(s'.hist, s.log[k]) && s.log[k].read < |s.hist|
      ensures NotWaiting(s', s.log[k].read)
    {
      DownloadLater(s.hist, e, s.log[k]);
      NotWaitingSame(s, s', s.log[k].read);
    }
    if s.client.ToStore? {
      MatchesLater(s.hist, e, s.client.at, s.client.id, s.client.p);
    }
  }

  lemma PathAfterSnoc(hist: seq<Event>, e: Event, handle: Octets)
    ensures PathAfter(hist + [e], handle)
            == if Binds(e, handle) then e.path else if IsClose(e, handle) then [] else PathAfter(hist, handle)
  {
    hide IsClose, Binds;
    assert (hist + [e])[..|hist|] == hist;
  }

  lemma RequestAfterSnoc(hist: seq<Event>, e: Event, id: nat)
    ensures RequestAfter(hist + [e], id)
            == if Asks(e, id) then Some(if e.Stored? then e.read else |hist|)
               else if Answers(e, id) then None else RequestAfter(hist, id)
  {
    hide Asks, Answers;
    assert (hist + [e])[..|hist|] == hist;
  }

  lemma AnswersReadLater(hist: seq<Event>, e: Event, d: nat)
    requires d < |hist| && BoundedRequests(hist)
    ensures AnswersRead(hist + [e], d) <==> AnswersRead(hist, d)
  {
    hide RequestAt, ParseReply, ParseRequest;
    if hist[d].FromServer? && ParseReply(hist[d].payload).DataReply? {
      var id := ParseReply(hist[d].payload).id;
      RequestAtLater(hist, e, d, id);
      assert RequestAt(hist, d, id).Some? ==> RequestAt(hist, d, id).value < d;
    }
  }

  /** A request waits only after it has come. */
  ghost predicate BoundedRequests(hist: seq<Event>) {
    forall n, id :: 0 <= n <= |hist| && RequestAt(hist, n, id).Some? ==> RequestAt(hist, n, id).value < n
  }

  lemma {:induction false} RequestBefore(hist: seq<Event>, n: nat, id: nat)
    requires n <= |hist| && BoundsOk(hist) && RequestAt(hist, n, id).Some?
    ensures RequestAt(hist, n, id).value < n
    decreases n
  {
    hide Asks, Answers, BoundsOk;
    if n > 0 {
      var m := n - 1;
      assert hist[..n][..m] == hist[..m];
      if Asks(hist[m], id) {
        assert StoredOk(hist, m) by { StoredIsOk(hist, m); }
      } else {
        RequestBefore(hist, m, id);
      }
    }
  }

  lemma StoredIsOk(hist: seq<Event>, k: nat)
    ensures BoundsOk(hist) && k < |hist| ==> BoundOk(hist, k) && StoredOk(hist, k)
  {
  }

  lemma RequestsBounded(hist: seq<Event>)
    requires BoundsOk(hist)
    ensures BoundedRequests(hist)
  {
    hide BoundsOk, RequestAt;
    forall n, id | 0 <= n <= |hist| && RequestAt(hist, n, id).Some?
      ensures RequestAt(hist, n, id).value < n
    {
      RequestBefore(hist, n, id);
    }
  }

  // ---------------------------------------------------------------- every step keeps it

  /** Whatever the packet, the handles change only by a CLOSE. */
  lemma ClientHandles(s: System, payload: seq<byte>)
    requires HandlesOk(s)
    ensures HandlesOk(OnClientPacket(s, payload))
  {
    hide ParseRequest, Trim, Binds, PathAfter;
    var s' := OnClientPacket(s, payload);
    forall h
      ensures PathOf(s'.t, h) == PathAfter(s'.hist, h)
    {
      PathAfterSnoc(s.hist, FromClient(payload), h);
      NoBinding(FromClient(payload), h);
    }
  }

  lemma NoBinding(e: Event, handle: Octets)
    ensures !e.Bound? ==> !Binds(e, handle)
  {
  }

  lemma ServerHandles(s: System, payload: seq<byte>)
    requires HandlesOk(s)
    ensures HandlesOk(OnServerPacket(s, payload))
  {
    hide ParseReply, PathAfter, Binds;
    var s' := OnServerPacket(s, payload);
    forall h
      ensures PathOf(s'.t, h) == PathAfter(s'.hist, h)
    {
      PathAfterSnoc(s.hist, FromServer(payload), h);
      NoBinding(FromServer(payload), h);
    }
  }

  lemma PathWasAt(s: System, e: Event, handle: Octets)
    requires HandlesOk(s)
    ensures PathOf(s.t, handle) == PathAt(s.hist + [e], |s.hist|, handle) == PathAt(s.hist, |s.hist|, handle)
  {
    hide PathAfter;
    assert (s.hist + [e])[..|s.hist|] == s.hist && s.hist[..|s.hist|] == s.hist;
  }

  lemma ClientRequests(s: System, payload: seq<byte>)
    requires RequestsOk(s) && s.client.ClientIdle?
    ensures RequestsOk(OnClientPacket(s, payload))
  {
    hide ParseRequest, RequestAfter;
    var s' := OnClientPacket(s, payload);
    forall id
      ensures RequestAfter(s'.hist, id) == if id in s'.origin then Some(s'.origin[id]) else None
    {
      RequestAfterSnoc(s.hist, FromClient(payload), id);
    }
  }

  /** After an event that is no packet of the server's, what is logged is still complete. */
  lemma StillComplete(s: System, s': System, e: Event)
    requires LogComplete(s) && BoundsOk(s.hist) && s'.hist == s.hist + [e] && !e.FromServer?
    requires forall d :: 0 <= d <= |s.hist| ==> (LoggedFor(s', d) <==> LoggedFor(s, d))
    requires !LoggedFor(s, |s.hist|)
    ensures LogComplete(s')
  {
    hide BoundsOk, LoggedFor, AnswersRead;
    RequestsBounded(s.hist);
    forall d | 0 <= d < |s'.hist|
      ensures LoggedFor(s', d) <==> AnswersRead(s'.hist, d)
    {
      if d < |s.hist| {
        AnswersReadLater(s.hist, e, d);
      } else {
        NotOfServer(s'.hist, d);
      }
    }
  }

  lemma NotOfServer(hist: seq<Event>, d: nat)
    ensures d < |hist| && !hist[d].FromServer? ==> !AnswersRead(hist, d)
  {
  }

  /** Nothing is logged for what has not happened. */
  lemma NotLoggedYet(s: System)
    ensures InvButHandles(s) ==> !LoggedFor(s, |s.hist|)
  {
    hide IsRead, IsData, PathAt, RequestAt, NotWaiting, NotLogged, OfClient;
  }

  lemma PlainsLogged(s: System, s': System, ops: seq<FileOperation>, d: nat)
    requires s'.server == s.server && s'.log == s.log + Plains(ops)
    ensures LoggedFor(s', d) <==> LoggedFor(s, d)
  {
    assert forall k :: 0 <= k < |s.log| ==> s'.log[k] == s.log[k];
    assert forall k :: |s.log| <= k < |s'.log| ==> s'.log[k] == Plain(ops[k - |s.log|]);
  }

  lemma ClientComplete(s: System, payload: seq<byte>)
    requires LogComplete(s) && InvButHandles(s)
    ensures LogComplete(OnClientPacket(s, payload))
  {
    hide ParseRequest, LoggedFor, LogComplete, InvButHandles;
    var s', r := OnClientPacket(s, payload), ParseRequest(payload);
    var ops := if r.Read? then [] else OnRequest(s.t, r).1;
    assert s.log + Plains([]) == s.log;
    NotLoggedYet(s);
    forall d | 0 <= d <= |s.hist|
      ensures LoggedFor(s', d) <==> LoggedFor(s, d)
    {
      PlainsLogged(s, s', ops, d);
    }
    Parts(s);
    StillComplete(s, s', FromClient(payload));
  }

  /** What the invariant says apart from what is hidden in it. */
  lemma Parts(s: System)
    ensures InvButHandles(s) ==> PendingOk(s) && BoundsOk(s.hist) && ServerOk(s)
  {
  }

  lemma ClientPacketKeeps(s: System, payload: seq<byte>)
    requires Inv(s) && s.client.ClientIdle?
    ensures Inv(OnClientPacket(s, payload))
  {
    hide ParseRequest, HandlesOk, BoundsOk, InvButHandles, OnClientPacket, RequestsOk, LogComplete;
    var e := FromClient(payload);
    ClientHandles(s, payload);
    ClientRequests(s, payload);
    ClientComplete(s, payload);
    SawEvent(s, e);
    var r, s0 := ParseRequest(payload), s.(hist := s.hist + [e]);
    if r.Read? {
      PathWasAt(s, e, r.handle);
      ReadSeen(s, payload);
    } else {
      RequestSeen(s, payload);
    }
  }

  /** A READ, its path looked up, is about to be stored. */
  lemma ReadSeen(s: System, payload: seq<byte>)
    requires s.client.ClientIdle? && ParseRequest(payload).Read?
    requires InvButHandles(s.(hist := s.hist + [FromClient(payload)]))
    requires NotLogged(s.log, |s.hist|) && NotWaiting(s, |s.hist|)
    requires var h := ParseRequest(payload).handle;
             PathOf(s.t, h) == PathAt(s.hist + [FromClient(payload)], |s.hist|, h)
    ensures InvButHandles(OnClientPacket(s, payload))
  {
    hide DownloadOk, BoundsOk, PathAt, RequestAt, ParseRequest, Replies, IsOpen, IsData, PathOf;
    var e, r, at := FromClient(payload), ParseRequest(payload), |s.hist|;
    var s0, s' := s.(hist := s.hist + [e]), OnClientPacket(s, payload);
    assert s'.hist[at] == e;
    assert s' == s0.(client := s'.client);
    assert Matches(s'.hist, at, r.id, s'.client.p);
  }

  /** Any other packet of the client's. */
  lemma RequestSeen(s: System, payload: seq<byte>)
    requires s.client.ClientIdle? && !ParseRequest(payload).Read?
    requires InvButHandles(s.(hist := s.hist + [FromClient(payload)]))
    requires NotLogged(s.log, |s.hist|) && NotWaiting(s, |s.hist|)
    ensures InvButHandles(OnClientPacket(s, payload))
  {
    hide DownloadOk, BoundsOk, PathAt, RequestAt, ParseRequest, Replies, IsRead, IsData;
    var e, r, at := FromClient(payload), ParseRequest(payload), |s.hist|;
    var s0, s' := s.(hist := s.hist + [e]), OnClientPacket(s, payload);
    var s1 := s0.(t := s'.t, origin := s'.origin);
    assert s0.hist[at] == e;
    OriginsKept(s0, s1, r, at);
    PlainLogOk(s1, OnRequest(s.t, r).1);
  }

  /** A request other than READ is stored, or changes nothing that is pending. */
  lemma OriginsKept(s: System, s': System, r: Request, at: nat)
    requires InvButHandles(s) && s.client.ClientIdle? && !r.Read?
    requires at < |s.hist| && s.hist[at].FromClient? && ParseRequest(s.hist[at].payload) == r
    requires NotLogged(s.log, at) && NotWaiting(s, at)
    requires s.server.ToLook? ==> s.server.read < at
    requires s' == s.(t := OnRequest(s.t, r).0,
                      origin := if r.Open? || r.Opendir? then s.origin[r.id := at] else s.origin)
    ensures InvButHandles(s')
  {
    hide DownloadOk, BoundsOk, PathAt, RequestAt, ParseRequest, Replies, IsRead, IsData;
    forall id | id in s'.origin
      ensures Matches(s'.hist, s'.origin[id], id, s'.t.pending[id])
    {
      assert id in s.origin ==> Matches(s.hist, s.origin[id], id, s.t.pending[id]);
    }
    assert ServerOk(s');
    assert LogOk(s');
  }

  /** Recording operations other than downloads is harmless. */
  lemma PlainLogOk(s: System, ops: seq<FileOperation>)
    requires InvButHandles(s)
    requires forall i :: 0 <= i < |ops| ==> !ops[i].operation.DownloadReadOp?
    ensures InvButHandles(s.(log := s.log + Plains(ops)))
  {
    hide DownloadOk, Matches, BoundsOk, Replies, IsRead, IsData, PathAt, RequestAt;
    var s' := s.(log := s.log + Plains(ops));
    assert forall k :: 0 <= k < |s.log| ==> s'.log[k] == s.log[k];
    assert forall k :: |s.log| <= k < |s'.log| ==> s'.log[k] == Plain(ops[k - |s.log|]);
    assert forall r: nat :: NotWaiting(s, r) ==> NotWaiting(s', r);
  }

  lemma ClientResumeKeeps(s: System)
    requires Inv(s)
    ensures Inv(Step(s, ClientResume))
  {
    hide InvButHandles, HandlesOk, RequestsOk, LogComplete;
    if s.client.ToStore? {
      var s', e := Step(s, ClientResume), Stored(s.client.id, s.client.at);
      StoreKeeps(s);
      StoreHandles(s);
      StoreRequests(s);
      NotLoggedYet(s);
      Parts(s);
      StillComplete(s, s', e);
    }
  }

  lemma StoreHandles(s: System)
    requires HandlesOk(s) && s.client.ToStore?
    ensures HandlesOk(Step(s, ClientResume))
  {
    hide PathAfter;
    var s', e := Step(s, ClientResume), Stored(s.client.id, s.client.at);
    forall h
      ensures PathOf(s'.t, h) == PathAfter(s'.hist, h)
    {
      PathAfterSnoc(s.hist, e, h);
    }
  }

  lemma StoreRequests(s: System)
    requires RequestsOk(s) && s.client.ToStore?
    ensures RequestsOk(Step(s, ClientResume))
  {
    hide RequestAfter;
    var s', e := Step(s, ClientResume), Stored(s.client.id, s.client.at);
    forall id
      ensures RequestAfter(s'.hist, id) == if id in s'.origin then Some(s'.origin[id]) else None
    {
      RequestAfterSnoc(s.hist, e, id);
    }
  }

  /** The READ in hand is stored, and the client's goroutine idle again. */
  lemma StoreKeeps(s: System)
    requires InvButHandles(s) && s.client.ToStore?
    ensures InvButHandles(Step(s, ClientResume))
  {
    hide DownloadOk, IsData, Replies, BoundsOk, PathAt, RequestAt, Matches;
    var c := s.client;
    var e, idle := Stored(c.id, c.at), s.(client := ClientIdle);
    ReadWaits(s);
    assert forall r: nat :: NotWaiting(s, r) ==> NotWaiting(idle, r);
    SawEvent(idle, e);
    MatchesLater(s.hist, e, c.at, c.id, c.p);
    var seen, s' := idle.(hist := s.hist + [e]), Step(s, ClientResume);
    assert forall r: nat :: NotWaiting(seen, r) && r != c.at ==> NotWaiting(s', r);
    assert forall k :: 0 <= k < |s.log| && s.log[k].Download? ==> s.log[k].read != c.at;
    assert s.server.ToLook? ==> s.server.read != c.at;
  }

  lemma ReadWaits(s: System)
    ensures ClientOk(s) && s.client.ToStore? ==>
              var hist := s.hist + [Stored(s.client.id, s.client.at)];
            BoundOk(hist, |s.hist|) && StoredOk(hist, |s.hist|)
  {
    hide PathAt;
  }

  /** Taking a pending request out keeps the invariant, and frees the packet it came in. */
  lemma PopKeeps(s: System, id: nat)
    requires InvButHandles(s)
    ensures id in s.origin ==>
              var s' := s.(t := Pop(s.t, id), origin := s.origin - {id});
              InvButHandles(s') && NotWaiting(s', s.origin[id]) && NotLogged(s'.log, s.origin[id])
  {
    hide DownloadOk, BoundsOk, IsData, Replies, PathAt, RequestAt, ParseRequest;
    if id in s.origin {
      forall id' | id' in s.origin && s.origin[id'] == s.origin[id]
        ensures id' == id
      {
        assert Matches(s.hist, s.origin[id], id, s.t.pending[id]);
        assert Matches(s.hist, s.origin[id'], id', s.t.pending[id']);
      }
      var s' := s.(t := Pop(s.t, id), origin := s.origin - {id});
      assert forall r: nat :: NotWaiting(s, r) ==> NotWaiting(s', r);
    }
  }

  /** Logging a download whose READ was not accounted for. */
  lemma LogKeeps(s: System, d: Logged)
    requires InvButHandles(s) && s.server.ServerIdle?
    requires d.Download? && DownloadOk(s.hist, d) && NotLogged(s.log, d.read) && NotWaiting(s, d.read)
    ensures InvButHandles(s.(log := s.log + [d]))
  {
    hide Matches, DownloadOk, BoundsOk;
    var s' := s.(log := s.log + [d]);
    assert forall k :: 0 <= k < |s.log| ==> s'.log[k] == s.log[k];
    assert forall r: nat :: NotWaiting(s, r) ==> NotWaiting(s', r);
  }

  /** Only ServerOk speaks of the server's goroutine. */
  lemma KeepsServer(s: System, s': System)
    requires InvButHandles(s) && s' == s.(server := s'.server) && ServerOk(s')
    ensures InvButHandles(s')
  {
    hide ServerOk, Matches, DownloadOk, BoundsOk, NotLogged;
    assert forall r: nat :: NotWaiting(s, r) ==> NotWaiting(s', r);
  }

  lemma ServerRequests(s: System, payload: seq<byte>)
    requires RequestsOk(s) && PendingOk(s)
    ensures RequestsOk(OnServerPacket(s, payload))
  {
    hide ParseReply, RequestAfter, Matches;
    var s', r := OnServerPacket(s, payload), ParseReply(payload);
    forall id
      ensures RequestAfter(s'.hist, id) == if id in s'.origin then Some(s'.origin[id]) else None
    {
      RequestAfterSnoc(s.hist, FromServer(payload), id);
      assert RequestAfter(s.hist, id) == if id in s.origin then Some(s.origin[id]) else None;
    }
  }

  /** Is the packet a DATA for which a READ is pending? */
  predicate TakesRead(s: System, payload: seq<byte>) {
    var r := ParseReply(payload);
    r.DataReply? && r.id in s.t.pending && r.id in s.origin && s.t.pending[r.id].operation.DownloadReadOp?
  }

  lemma TakesReadIsAnswer(s: System, payload: seq<byte>)
    requires RequestsOk(s) && PendingOk(s)
    ensures AnswersRead(s.hist + [FromServer(payload)], |s.hist|) <==> TakesRead(s, payload)
  {
    hide ParseReply, ParseRequest, RequestAfter, PathAt;
    var hist, r := s.hist + [FromServer(payload)], ParseReply(payload);
    if r.DataReply? {
      assert hist[..|s.hist|] == s.hist;
      assert RequestAfter(s.hist, r.id) == if r.id in s.origin then Some(s.origin[r.id]) else None;
      if r.id in s.origin {
        var at := s.origin[r.id];
        assert Matches(s.hist, at, r.id, s.t.pending[r.id]) && hist[at] == s.hist[at];
      }
    }
  }

  lemma ServerLogs(s: System, payload: seq<byte>, d: nat)
    requires s.server.ServerIdle? && !LoggedFor(s, |s.hist|)
    ensures LoggedFor(OnServerPacket(s, payload), d)
            <==> LoggedFor(s, d) || (d == |s.hist| && TakesRead(s, payload))
  {
    hide ParseReply;
    var s' := OnServerPacket(s, payload);
    assert forall k :: 0 <= k < |s.log| ==> s'.log[k] == s.log[k];
    if LoggedFor(s, d) {
      var k :| 0 <= k < |s.log| && s.log[k].Download? && s.log[k].data == d;
      assert s'.log[k].data == d;
    }
    if |s'.log| > |s.log| {
      assert s'.log[|s.log|].data == |s.hist|;
    }
  }

  lemma ServerComplete(s: System, payload: seq<byte>)
    requires LogComplete(s) && InvButHandles(s) && RequestsOk(s) && s.server.ServerIdle?
    ensures LogComplete(OnServerPacket(s, payload))
  {
    hide ParseReply, LoggedFor, AnswersRead, RequestsOk, BoundsOk, OnServerPacket, ClientOk, LogOk;
    var s', e := OnServerPacket(s, payload), FromServer(payload);
    NotLoggedYet(s);
    RequestsBounded(s.hist);
    ServerHistory(s, payload);
    forall d | 0 <= d < |s'.hist|
      ensures LoggedFor(s', d) <==> AnswersRead(s'.hist, d)
    {
      ServerLogs(s, payload, d);
      if d < |s.hist| {
        AnswersReadLater(s.hist, e, d);
      } else {
        TakesReadIsAnswer(s, payload);
      }
    }
  }

  lemma ServerHistory(s: System, payload: seq<byte>)
    ensures OnServerPacket(s, payload).hist == s.hist + [FromServer(payload)]
  {
    hide ParseReply;
  }

  lemma ServerPacketKeeps(s: System, payload: seq<byte>)
    requires Inv(s) && s.server.ServerIdle?
    ensures Inv(OnServerPacket(s, payload))
  {
    hide InvButHandles, HandlesOk, RequestsOk, LogComplete, OnServerPacket;
    var e, r := FromServer(payload), ParseReply(payload);
    ServerHandles(s, payload);
    Parts(s);
    ServerRequests(s, payload);
    ServerComplete(s, payload);
    SawEvent(s, e);
    if r.OtherReply? || r.id !in s.t.pending || r.id !in s.origin {
      Unanswered(s, payload);
    } else {
      PopKeeps(s.(hist := s.hist + [e]), r.id);
      assert Matches(s.hist, s.origin[r.id], r.id, s.t.pending[r.id]);
      assert RequestAfter(s.hist, r.id) == Some(s.origin[r.id]) by { RequestIs(s, r.id); }
      Popped(s, payload);
    }
  }

  lemma RequestIs(s: System, id: nat)
    ensures RequestsOk(s) && id in s.origin ==> RequestAfter(s.hist, id) == Some(s.origin[id])
  {
  }

  lemma Unanswered(s: System, payload: seq<byte>)
    requires var r := ParseReply(payload); r.OtherReply? || r.id !in s.t.pending || r.id !in s.origin
    requires InvButHandles(s.(hist := s.hist + [FromServer(payload)]))
    ensures InvButHandles(OnServerPacket(s, payload))
  {
    hide InvButHandles, ParseReply;
  }

  /** A reply to a pending request, once the request is taken out. */
  lemma Popped(s: System, payload: seq<byte>)
    requires s.server.ServerIdle?
    requires var r := ParseReply(payload); !r.OtherReply? && r.id in s.t.pending && r.id in s.origin
    requires var id := ParseReply(payload).id;
             Matches(s.hist, s.origin[id], id, s.t.pending[id]) && RequestAfter(s.hist, id) == Some(s.origin[id])
    requires var id := ParseReply(payload).id;
             var s' := s.(hist := s.hist + [FromServer(payload)], t := Pop(s.t, id), origin := s.origin - {id});
             InvButHandles(s') && NotWaiting(s', s.origin[id]) && NotLogged(s'.log, s.origin[id])
    ensures InvButHandles(OnServerPacket(s, payload))
  {
    hide InvButHandles, ParseReply, ParseRequest, NotWaiting, NotLogged, PathAt, Pop, RequestAfter;
    var e, r, at := FromServer(payload), ParseReply(payload), |s.hist|;
    var p, read, s' := s.t.pending[r.id], s.origin[r.id], OnServerPacket(s, payload);
    var popped := s.(hist := s.hist + [e], t := Pop(s.t, r.id), origin := s.origin - {r.id});
    assert popped.hist[at] == e && popped.hist[read] == s.hist[read];
    PathAtLater(s.hist, e, read, p.handle);
    assert popped.hist[..at] == s.hist;
    if r.HandleReply? && (p.operation.OpenOp? || p.operation.OpendirOp?) {
      assert IsOpen(popped.hist[read], r.id, p.path) && IsHandle(popped.hist[at], r.id, r.handle);
      assert ServerOk(s');
      KeepsServer(popped, s');
    } else if r.DataReply? && p.operation.DownloadReadOp? {
      assert IsRead(popped.hist[read], r.id, p.handle) && IsData(popped.hist[at], r.id, r.size);
      if p.path == [] && p.handle != [] {
        NotWaitingSame(popped, s', read);
        assert ServerOk(s');
        KeepsServer(popped, s');
      } else {
        var d := Download(FileOperation(DownloadReadOp, p.path, [], r.size), read, at, read);
        assert DownloadIs(popped.hist, d, r.id, p.handle);
        LogKeeps(popped, d);
      }
    }
  }

  lemma LookKeeps(s: System)
    requires Inv(s) && s.server.ToLook?
    ensures Inv(Step(s, ServerResume))
  {
    hide InvButHandles, IsRead, IsData, PathAt, RequestAt, RequestAfter, PathAfter, AnswersRead;
    var id, p, size, read, at := s.server.id, s.server.p, s.server.size, s.server.read, s.server.at;
    var path, s' := PathOf(s.t, p.handle), Step(s, ServerResume);
    var d := Download(FileOperation(DownloadReadOp, path, [], size), read, at, |s.hist|);
    PathWasAt(s, FromServer([]), p.handle);
    var idle := s.(server := ServerIdle);
    Parts(s);
    assert DownloadIs(s.hist, d, id, p.handle);
    KeepsServer(s, idle);
    NotWaitingSame(s, idle, read);
    LogKeeps(idle, d);
    forall n | 0 <= n < |s.hist|
      ensures LoggedFor(s', n) <==> LoggedFor(s, n)
    {
      LookLogs(s, n);
    }
  }

  lemma LookLogs(s: System, n: nat)
    requires s.server.ToLook?
    ensures LoggedFor(Step(s, ServerResume), n) <==> LoggedFor(s, n)
  {
    var s' := Step(s, ServerResume);
    assert forall k :: 0 <= k < |s.log| ==> s'.log[k] == s.log[k];
    assert s'.log[|s.log|].data == s.server.at;
  }

  /** The handle is bound, and the server's goroutine idle again. */
  lemma BoundKeeps(s: System, handle: Octets, path: Octets, at: nat)
    requires InvButHandles(s) && s.server == ToBind(handle, path, at) && InvButHandles(s.(server := ServerIdle))
    ensures InvButHandles(Binding(s, handle, path, at))
  {
    hide InvButHandles, Replies;
    var s', idle := Binding(s, handle, path, at), s.(server := ServerIdle);
    var e := Bound(handle, path, at);
    Parts(s);
    RepliesLater(s.hist, e, at, handle, path);
    assert (s.hist + [e])[|s.hist|] == e;
    assert BoundOk(s.hist + [e], |s.hist|);
    SawEvent(idle, e);
    var seen := idle.(hist := s.hist + [e]);
    assert s' == seen.(t := s'.t) && s'.t.pending == seen.t.pending;
    SamePending(seen, s');
  }

  lemma BoundCurrent(s: System, handle: Octets, path: Octets, at: nat)
    requires Current(s) && InvButHandles(s) && s.server == ToBind(handle, path, at) && path != []
    ensures Current(Binding(s, handle, path, at))
  {
    hide InvButHandles, PathAfter, LogComplete, RequestAfter, BoundsOk, LoggedFor;
    var s', e := Binding(s, handle, path, at), Bound(handle, path, at);
    forall h
      ensures PathOf(s'.t, h) == PathAfter(s'.hist, h)
    {
      PathAfterSnoc(s.hist, e, h);
      assert PathOf(s.t, h) == PathAfter(s.hist, h);
    }
    forall id
      ensures RequestAfter(s'.hist, id) == if id in s'.origin then Some(s'.origin[id]) else None
    {
      RequestAfterSnoc(s.hist, e, id);
      assert RequestAfter(s.hist, id) == if id in s.origin then Some(s.origin[id]) else None;
    }
    NotLoggedYet(s);
    Parts(s);
    LoggedSame(s, s');
    StillComplete(s, s', e);
  }

  lemma LoggedSame(s: System, s': System)
    ensures s'.log == s.log && !s.server.ToLook? && !s'.server.ToLook? ==>
              (forall d :: LoggedFor(s', d) <==> LoggedFor(s, d))
  {
  }

  lemma TrimNone()
    ensures Trim([]) == []
  {
  }

  lemma SameHistory(s: System, s': System)
    requires Current(s) && s' == s.(server := s'.server) && !s.server.ToLook? && !s'.server.ToLook?
    ensures Current(s')
  {
    LoggedSame(s, s');
    hide LoggedFor, AnswersRead, RequestAfter, PathAfter;
  }

  lemma SamePending(s: System, s': System)
    requires InvButHandles(s) && s' == s.(t := s'.t) && s'.t.pending == s.t.pending
    ensures InvButHandles(s')
  {
    hide Matches, DownloadOk, BoundsOk, Replies, IsRead, IsData, PathAt, RequestAt;
    assert forall r: nat :: NotWaiting(s, r) ==> NotWaiting(s', r);
  }

  /** Whatever the actions, critical section by critical section, the invariant is kept. */
  lemma {:induction false} RunKeeps(s: System, actions: seq<Action>)
    requires Inv(s)
    ensures Inv(Run(s, actions))
    decreases |actions|
  {
    hide InvButHandles, Current, Trim, Binding, OnClientPacket, OnServerPacket;
    if actions != [] {
      match actions[0] {
        case ClientPacket(payload) => if s.client.ClientIdle? { ClientPacketKeeps(s, payload); }
        case ClientResume => ClientResumeKeeps(s);
        case ServerPacket(payload) => if s.server.ServerIdle? { ServerPacketKeeps(s, payload); }
        case ServerResume =>
          if s.server.ToBind? {
            KeepsServer(s, s.(server := ServerIdle));
            if Trim(s.server.handle) == [] || Trim(s.server.path) == [] {
              SameHistory(s, s.(server := ServerIdle));
            } else {
              TrimNone();
              BoundKeeps(s, s.server.handle, s.server.path, s.server.at);
              BoundCurrent(s, s.server.handle, s.server.path, s.server.at);
            }
          } else if s.server.ToLook? {
            LookKeeps(s);
          }
      }
      RunKeeps(Step(s, actions[0]), actions[1..]);
    }
  }

  /**
   Main result, for every interleaving: the logged downloads are those operations that
   stand for a DATA and the READ that waited under its id when it came, with the size of
   the DATA; no READ is logged twice, or still waits once it is logged; and the path is the
   one that the READ's handle had when the READ came or, if none, when the DATA was dealt with.
   */
  lemma DownloadsAreReal(actions: seq<Action>)
    ensures var s := Run(START, actions);
            && Distinct(s.log) && PendingOk(s) && BoundsOk(s.hist)
            && forall k :: 0 <= k < |s.log| ==>
                 (s.log[k].op.operation == DownloadReadOp <==> s.log[k].Download?)
                 && (s.log[k].Download? ==> DownloadOk(s.hist, s.log[k]) && NotWaiting(s, s.log[k].read))
  {
    hide Run, PendingOk, Current, BoundsOk;
    StartIsOk();
    RunKeeps(START, actions);
    var s := Run(START, actions);
    forall k | 0 <= k < |s.log|
      ensures s.log[k].op.operation == DownloadReadOp <==> s.log[k].Download?
    {
      assert s.log[k].Download? ==> DownloadOk(s.hist, s.log[k]);
    }
  }

  /**
   Main result, the other direction: a DATA is logged, or just about to be, if and only if
   what waits under its id when it comes is a READ; and that is the case exactly if the last
   request put under that id is a READ, stored, and no reply has ended it since.
   */
  lemma DownloadsAreComplete(actions: seq<Action>, d: nat)
    requires d < |Run(START, actions).hist|
    ensures var s := Run(START, actions);
            && (LoggedFor(s, d) <==> AnswersRead(s.hist, d))
            && (AnswersRead(s.hist, d) <==>
                  && s.hist[d].FromServer? && ParseReply(s.hist[d].payload).DataReply?
                  && exists k ::
                       0 <= k < d && s.hist[k].Stored? && LastAsk(s.hist, d, ParseReply(s.hist[d].payload).id, k))
  {
    hide Run, InvButHandles, HandlesOk, RequestsOk, LoggedFor, ParseReply, ParseRequest, RequestAt, LastAsk;
    StartIsOk();
    RunKeeps(START, actions);
    var s := Run(START, actions);
    var hist := s.hist;
    if hist[d].FromServer? && ParseReply(hist[d].payload).DataReply? {
      var id := ParseReply(hist[d].payload).id;
      RequestIsLastAsk(hist, d, id);
      Parts(s);
      if AnswersRead(hist, d) {
        var k :| LastAsk(hist, d, id, k);
        AskKind(hist, d, id, k);
        assert hist[k].Stored?;
      }
      if k :| 0 <= k < d && hist[k].Stored? && LastAsk(hist, d, id, k) {
        AskKind(hist, d, id, k);
      }
    }
  }

  /** The request that event k put under an id is a READ exactly when k is the storing of one. */
  lemma AskKind(hist: seq<Event>, n: nat, id: nat, k: int)
    requires n <= |hist| && LastAsk(hist, n, id, k) && BoundsOk(hist)
    ensures 0 <= k < n
    ensures var at := if hist[k].Stored? then hist[k].read else k;
            at < |hist| && hist[at].FromClient? && (ParseRequest(hist[at].payload).Read? <==> hist[k].Stored?)
  {
    hide ParseRequest, Answers, BoundsOk;
    StoredIsOk(hist, k);
  }

  /** In any state, a DATA that overtakes the storing of its READ is not logged, and the READ goes on waiting. */
  lemma DataOvertakes(s: System, read: seq<byte>, reply: seq<byte>)
    requires s.client.ClientIdle? && s.server.ServerIdle?
    requires ParseRequest(read).Read? && ParseReply(reply).DataReply?
    requires ParseRequest(read).id == ParseReply(reply).id && ParseReply(reply).id !in s.t.pending
    ensures var after := Step(Step(Step(s, ClientPacket(read)), ServerPacket(reply)), ClientResume);
            after.log == s.log && after.client.ClientIdle? && after.server.ServerIdle?
            && ParseRequest(read).id in after.t.pending
  {
    hide ParseRequest, ParseReply;
  }

  lemma StartIsOk()
    ensures Inv(START)
  {
  }

  /**
   Main result, what such a path is: that of the last HANDLE reply by which the tracker
   bound the handle before the lookup, to an OPEN or OPENDIR of that path, with no CLOSE
   of the handle in between; and there is none exactly if there is no such reply.
   */
  lemma PathsAreCurrent(actions: seq<Action>, n: nat, handle: Octets)
    requires n <= |Run(START, actions).hist|
    ensures var hist := Run(START, actions).hist;
            && (PathAt(hist, n, handle) != [] <==> exists k :: LastBinding(hist, n, handle, k))
            && forall k :: LastBinding(hist, n, handle, k) ==>
                 && PathAt(hist, n, handle) == hist[k].path && hist[k].reply < k
                 && Replies(hist, hist[k].reply, handle, hist[k].path)
  {
    hide Run, Replies, PathAt;
    StartIsOk();
    RunKeeps(START, actions);
    var hist := Run(START, actions).hist;
    PathIsLastBinding(hist, n, handle);
    forall k | LastBinding(hist, n, handle, k)
      ensures hist[k].reply < k && Replies(hist, hist[k].reply, handle, hist[k].path)
    {
      assert BoundOk(hist, k);
    }
  }
}
