/** The incremental re-assembly of SFTP packets from chunks. */
module SftpFraming {
  import opened Bytes

  const MAX_TOTAL := 16 * 1024 * 1024

  predicate BadLength(n: nat) {
    n == 0 || 4 + n > MAX_TOTAL
  }

  datatype Drained = Drained(packets: seq<seq<byte>>, buf: seq<byte>)

  /** The packets complete in buf, and what is left; a bad length prefix throws everything left away. */
  function Drain(buf: seq<byte>): (d: Drained)
    ensures |d.buf| <= |buf|
  {
    if |buf| < 4 then Drained([], buf)
    else
      var n := Be(buf[..4]);
      if BadLength(n) then Drained([], [])
      else if |buf| < 4 + n then Drained([], buf)
      else
        var d := Drain(buf[4 + n..]);
        Drained([buf[4..4 + n]] + d.packets, d.buf)
  }

  /** Walking s from length prefix to length prefix meets no bad one. */
  predicate Clean(s: seq<byte>) {
    |s| < 4 ||
    var n := Be(s[..4]);
    !BadLength(n) && (|s| < 4 + n || Clean(s[4 + n..]))
  }

  /** The walk meets no bad length prefix, or meets one with nothing after it. */
  predicate NothingAfterBad(s: seq<byte>) {
    |s| < 4 ||
    var n := Be(s[..4]);
    if BadLength(n) then |s| == 4 else |s| < 4 + n || NothingAfterBad(s[4 + n..])
  }

  /** One call of Feed. */
  function FeedOne(buf: seq<byte>, chunk: seq<byte>): Drained {
    if chunk == [] then Drained([], buf) else Drain(buf + chunk)
  }

  /** A stream, fed chunk by chunk. */
  function FeedAll(buf: seq<byte>, chunks: seq<seq<byte>>): Drained
    decreases |chunks|
  {
    if chunks == [] then Drained([], buf)
    else
      var d := FeedOne(buf, chunks[0]);
      var e := FeedAll(d.buf, chunks[1..]);
      Drained(d.packets + e.packets, e.buf)
  }

  /** The buffer holds no complete packet and no bad prefix. */
  predicate Stable(buf: seq<byte>) {
    Drain(buf) == Drained([], buf)
  }

  class PacketParser {
    var buf: seq<byte>
    /** The payloads handed to the packet callback, in order. */
    var delivered: seq<seq<byte>>

    predicate Valid()
      reads this
    {
      Stable(buf)
    }

    constructor ()
      ensures Valid() && buf == [] && delivered == []
    {
      buf, delivered := [], [];
    }

    method Feed(chunk: seq<byte>)
      requires Valid()
      modifies this
      ensures Valid()
      ensures var d := Drain(old(buf) + chunk);
              buf == d.buf && delivered == old(delivered) + d.packets
    {
      if chunk == [] {
        assert buf + [] == buf;
        return;
      }
      ghost var d := Drain(buf + chunk);
      buf := buf + chunk;
      while true
        invariant Drain(buf).buf == d.buf && delivered + Drain(buf).packets == old(delivered) + d.packets
        decreases |buf|
      {
        if |buf| < 4 {
          return;
        }
        var packetLen := Be(buf[..4]);
        var total := 4 + packetLen;
        if packetLen == 0 || total > MAX_TOTAL {
          buf := [];
          return;
        }
        if |buf| < total {
          return;
        }
        var payload := buf[4..total];
        ghost var rest := Drain(buf[total..]);
        assert delivered + ([payload] + rest.packets) == (delivered + [payload]) + rest.packets;
        delivered := delivered + [payload];
        buf := buf[total..];
      }
    }
  }

  // ---------------------------------------------------------------- conservation

  function Reframe(packets: seq<seq<byte>>): seq<byte> {
    if packets == [] then [] else PutBe(|packets[0]|, 4) + packets[0] + Reframe(packets[1..])
  }

  /** Nothing is lost: the packets, framed again, and the buffer make up everything fed. */
  lemma {:induction false} DrainConserves(s: seq<byte>)
    requires Clean(s)
    ensures Reframe(Drain(s).packets) + Drain(s).buf == s
  {
    hide Be, PutBe, Drain, Reframe;
    if |s| >= 4 && |s| >= 4 + Be(s[..4]) {
      var n := Be(s[..4]);
      var head, p, more := s[..4], s[4..4 + n], s[4 + n..];
      var d := Drain(more);
      DrainConserves(more);
      DrainOne(s, n);
      PutBeBe(head);
      ReframeOne(p, d.packets);
      assert s == head + p + more;
      assert head + p + (Reframe(d.packets) + d.buf) == head + p + Reframe(d.packets) + d.buf;
    } else {
      DrainWaits(s);
    }
  }

  lemma DrainWaits(s: seq<byte>)
    ensures |s| < 4 || (!BadLength(Be(s[..4])) && |s| < 4 + Be(s[..4])) ==>
              Drain(s) == Drained([], s) && Reframe([]) + s == s
  {
    hide Be;
  }

  lemma ReframeOne(p: seq<byte>, ps: seq<seq<byte>>)
    ensures Reframe([p] + ps) == PutBe(|p|, 4) + p + Reframe(ps)
  {
    assert ([p] + ps)[1..] == ps;
  }

  lemma FirstFrame(head: seq<byte>, p: seq<byte>, more: seq<byte>, tail: seq<byte>)
    ensures |head| == 4 ==>
              var s := head + p + more + tail;
            s[..4] == head && s[4..4 + |p|] == p && s[4 + |p|..] == more + tail
  {
  }

  lemma DrainOne(s: seq<byte>, n: nat)
    ensures |s| >= 4 + n && Be(s[..4]) == n && !BadLength(n) ==>
              Drain(s) == Drained([s[4..4 + n]] + Drain(s[4 + n..]).packets, Drain(s[4 + n..]).buf)
  {
    hide Be;
  }

  /** Packets framed with lengths from 1 to 16 MiB - 4 are delivered as they are, whatever follows them. */
  lemma {:induction false} FramedDelivered(packets: seq<seq<byte>>, tail: seq<byte>)
    requires forall p :: p in packets ==> !BadLength(|p|)
    ensures Drain(Reframe(packets) + tail) == Drained(packets + Drain(tail).packets, Drain(tail).buf)
  {
    hide Be, PutBe, Drain;
    if packets == [] {
      assert [] + tail == tail && [] + Drain(tail).packets == Drain(tail).packets;
    } else {
      var p := packets[0];
      assert p in packets && forall q :: q in packets[1..] ==> q in packets;
      FramedDelivered(packets[1..], tail);
      Pow256Values();
      BePutBe(|p|, 4);
      assert packets == [p] + packets[1..];
      FirstFrame(PutBe(|p|, 4), p, Reframe(packets[1..]), tail);
      DrainOne(Reframe(packets) + tail, |p|);
      assert packets + Drain(tail).packets == [p] + (packets[1..] + Drain(tail).packets);
    }
  }

  // ---------------------------------------------------------------- chunking

  lemma {:induction false} DrainIsStable(s: seq<byte>)
    ensures Stable(Drain(s).buf)
  {
    if |s| >= 4 {
      var n := Be(s[..4]);
      if !BadLength(n) && |s| >= 4 + n {
        DrainIsStable(s[4 + n..]);
      }
    }
  }

  /** The first packet of a is the first packet of a + b. */
  lemma FirstOf(a: seq<byte>, b: seq<byte>, n: nat)
    requires |a| >= 4 + n && Be(a[..4]) == n && !BadLength(n)
    ensures (a + b)[..4] == a[..4] && (a + b)[4..4 + n] == a[4..4 + n] && (a + b)[4 + n..] == a[4 + n..] + b
    ensures NothingAfterBad(a + b) <==> NothingAfterBad(a[4 + n..] + b)
  {
    hide Be;
    assert (a + b)[..4] == a[..4];
    assert (a + b)[4 + n..] == a[4 + n..] + b;
  }

  /** Draining a clean beginning first changes nothing. */
  lemma {:induction false} DrainAppend(a: seq<byte>, b: seq<byte>)
    requires Clean(a)
    ensures var d, e := Drain(a), Drain(Drain(a).buf + b);
            Drain(a + b) == Drained(d.packets + e.packets, e.buf)
            && (NothingAfterBad(a + b) <==> NothingAfterBad(d.buf + b))
  {
    hide Be, Drain, NothingAfterBad;
    if |a| >= 4 && |a| >= 4 + Be(a[..4]) {
      var n := Be(a[..4]);
      var p, more := a[4..4 + n], a[4 + n..];
      DrainAppend(more, b);
      FirstOf(a, b, n);
      var d := Drain(more);
      var e := Drain(d.buf + b);
      DrainOne(a, n);
      DrainOne(a + b, n);
      assert [p] + (d.packets + e.packets) == ([p] + d.packets) + e.packets;
    } else {
      DrainWaits(a);
      assert [] + Drain(a + b).packets == Drain(a + b).packets;
    }
  }

  /** A bad prefix in a throws away a, and leaves no room for b. */
  lemma {:induction false} BadBeginning(a: seq<byte>, b: seq<byte>)
    requires !Clean(a)
    ensures Drain(a).buf == []
    ensures Drain(a + b) == Drain(a)
    ensures NothingAfterBad(a + b) ==> b == []
    ensures !NothingAfterBad(a) ==> |a| > 4 && !Clean(a[..|a| - 1])
  {
    hide Be;
    var n := Be(a[..4]);
    assert (a + b)[..4] == a[..4];
    if !BadLength(n) {
      BadBeginning(a[4 + n..], b);
      assert (a + b)[4 + n..] == a[4 + n..] + b;
      assert (a + b)[4..4 + n] == a[4..4 + n];
      assert a[..|a| - 1][4 + n..] == a[4 + n..][..|a| - 4 - n - 1];
    }
    assert |a| > 4 ==> a[..|a| - 1][..4] == a[..4];
  }

  lemma {:induction false} FeedNothing(buf: seq<byte>, chunks: seq<seq<byte>>)
    requires Flatten(chunks) == []
    ensures FeedAll(buf, chunks) == Drained([], buf)
  {
    if chunks != [] {
      assert chunks[0] == [] && Flatten(chunks[1..]) == [];
      FeedNothing(buf, chunks[1..]);
    }
  }

  lemma {:induction false} FeedIsDrain(buf: seq<byte>, chunks: seq<seq<byte>>)
    requires Stable(buf) && NothingAfterBad(buf + Flatten(chunks))
    ensures FeedAll(buf, chunks) == Drain(buf + Flatten(chunks))
    decreases |chunks|
  {
    hide Drain, Clean, NothingAfterBad;
    if chunks == [] {
      assert buf + [] == buf;
    } else {
      var a, b := buf + chunks[0], Flatten(chunks[1..]);
      assert buf + Flatten(chunks) == a + b;
      var d := Drain(a);
      DrainIsStable(a);
      if chunks[0] == [] {
        assert a == buf;
      }
      assert FeedOne(buf, chunks[0]) == d;
      if Clean(a) {
        DrainAppend(a, b);
        FeedIsDrain(d.buf, chunks[1..]);
      } else {
        BadBeginning(a, b);
        FeedNothing(d.buf, chunks[1..]);
      }
    }
  }

  /** Every way of cutting s delivers the same packets and leaves the same buffer. */
  ghost predicate ChunkingIrrelevant(s: seq<byte>) {
    forall chunks :: Flatten(chunks) == s ==> FeedAll([], chunks) == Drain(s)
  }

  /**
   Main result. Chunking does not matter if and only if no octet follows a bad
   length prefix; in particular it never matters when all length prefixes are good.
   */
  lemma ChunkingIrrelevantExactly(s: seq<byte>)
    ensures ChunkingIrrelevant(s) <==> NothingAfterBad(s)
    ensures Clean(s) ==> NothingAfterBad(s)
  {
    hide Drain, Clean, NothingAfterBad;
    assert [] + s == s;
    if NothingAfterBad(s) {
      forall chunks | Flatten(chunks) == s
        ensures FeedAll([], chunks) == Drain(s)
      {
        EmptyIsStable();
        FeedIsDrain([], chunks);
      }
    } else {
      CutBeforeLast(s);
    }
    if Clean(s) {
      CleanIsFine(s);
    }
  }

  lemma EmptyIsStable()
    ensures Stable([])
  {
  }

  lemma {:induction false} CleanIsFine(s: seq<byte>)
    requires Clean(s)
    ensures NothingAfterBad(s)
  {
    if |s| >= 4 {
      var n := Be(s[..4]);
      if |s| >= 4 + n {
        CleanIsFine(s[4 + n..]);
      }
    }
  }

  /** The witness: cut off the last octet, which survives only when it comes in a chunk of its own. */
  lemma CutBeforeLast(s: seq<byte>)
    requires !NothingAfterBad(s)
    ensures !ChunkingIrrelevant(s)
  {
    hide Drain, Clean, NothingAfterBad, FeedAll, Flatten;
    assert !Clean(s) by {
      if Clean(s) {
        CleanIsFine(s);
      }
    }
    BadBeginning(s, []);
    var a, b := s[..|s| - 1], [s[|s| - 1]];
    BadBeginning(a, b);
    ShortIsClean(b);
    FeedTwo(a, b);
    assert a + b == s && [] + b == b;
    var chunks := [a, b];
    assert Flatten(chunks) == s && FeedAll([], chunks) != Drain(s);
  }

  lemma FeedTwo(a: seq<byte>, b: seq<byte>)
    requires a != [] && b != []
    ensures Flatten([a, b]) == a + b
    ensures FeedAll([], [a, b]).buf == Drain(Drain(a).buf + b).buf
  {
    hide Drain;
    assert [a, b][1..] == [b] && [b][1..] == [];
    assert a + (b + []) == a + b && [] + a == a;
    assert Flatten([a, b]) == a + Flatten([b]) && Flatten([b]) == b + [];
    var d := Drain(a).buf;
    assert FeedAll([], [a, b]).buf == FeedAll(d, [b]).buf;
    assert FeedAll(d, [b]).buf == FeedAll(Drain(d + b).buf, []).buf;
  }

  lemma ShortIsClean(s: seq<byte>)
    ensures |s| < 4 ==> Clean(s) && Drain(s) == Drained([], s)
  {
  }
}
