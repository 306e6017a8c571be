/** One end of a connection, as the proxies see it: octets to read, octets written. */
module Streams {
  import opened Bytes

  const LF: byte := 10

  /** The length of the first line of s, its line feed included; 0 when s has no line feed. */
  function LineLength(s: seq<byte>): (n: nat)
    ensures n <= |s|
    ensures n > 0 ==> s[n - 1] == LF && LF !in s[..n - 1]
    ensures n == 0 ==> LF !in s
  {
    if s == [] then 0
    else if s[0] == LF then 1
    else
      var n := LineLength(s[1..]);
      assert n > 0 ==> s[..n] == [s[0]] + s[1..][..n - 1];
      assert s == [s[0]] + s[1..];
      if n == 0 then 0 else n + 1
  }

  lemma {:induction false} LineLengthIs(line: seq<byte>, rest: seq<byte>)
    requires LF !in line
    ensures LineLength(line + [LF] + rest) == |line| + 1
  {
    var s := line + [LF] + rest;
    var n := LineLength(s);
    assert s[|line|] == LF && s[..|line|] == line;
  }

  /** The peer got the octets `wire`, or, ok being false, as many of them as it took. */
  predicate Wrote(wire: seq<byte>, out: seq<byte>, room: nat, out': seq<byte>, room': nat, ok: bool) {
    && ok == (|wire| <= room)
    && (ok ==> out' == out + wire && room' == room - |wire|)
    && (!ok ==> out' == out + wire[..room] && room' == 0)
  }

  lemma WroteNothing(out: seq<byte>, room: nat)
    ensures Wrote([], out, room, out, room, true)
  {
    assert out + [] == out;
  }

  /** After `done`, the next part b of a message `wire`; when it does not get through, neither does the message. */
  lemma WroteMore(done: seq<byte>, b: seq<byte>, wire: seq<byte>, out: seq<byte>, room: nat,
                  mid: seq<byte>, midRoom: nat, out': seq<byte>, room': nat, ok: bool)
    requires Wrote(done, out, room, mid, midRoom, true) && Wrote(b, mid, midRoom, out', room', ok)
    requires done + b <= wire
    ensures Wrote(done + b, out, room, out', room', ok)
    ensures !ok ==> Wrote(wire, out, room, out', room', false)
  {
    if ok {
      assert (out + done) + b == out + (done + b);
    } else {
      assert (done + b)[..room] == wire[..room];
      assert (out + done) + b[..midRoom] == out + (done + b)[..room];
    }
  }

  /**
   A connection. `room` is how many more octets the peer accepts before writing
   to it fails, so a peer may go away at any moment.
   */
  class Conn {
    var input: seq<byte>
    var output: seq<byte>
    var room: nat

    constructor (input: seq<byte>, room: nat)
      ensures this.input == input && this.output == [] && this.room == room
    {
      this.input, this.output, this.room := input, [], room;
    }

    /** Reads exactly n octets; a stream that ends before that is used up and gives None. */
    method ReadFull(n: nat) returns (r: Option<seq<byte>>)
      modifies this`input
      ensures n <= |old(input)| ==> r == Some(old(input)[..n]) && input == old(input)[n..]
      ensures |old(input)| < n ==> r == None && input == []
    {
      if n <= |input| {
        r := Some(input[..n]);
        input := input[n..];
      } else {
        r := None;
        input := [];
      }
    }

    /** Reads up to and including the next line feed. */
    method ReadLine() returns (r: Option<seq<byte>>)
      modifies this`input
      ensures var n := LineLength(old(input));
              if n > 0 then r == Some(old(input)[..n]) && input == old(input)[n..]
              else r == None && input == []
    {
      var n := 0;
      while n < |input| && input[n] != LF
        invariant 0 <= n <= |input|
        invariant LF !in input[..n]
      {
        n := n + 1;
      }
      if n < |input| {
        assert input == input[..n] + [LF] + input[n + 1..];
        LineLengthIs(input[..n], input[n + 1..]);
        r := Some(input[..n + 1]);
        input := input[n + 1..];
      } else {
        assert input[..n] == input;
        r := None;
        input := [];
      }
    }

    /** Writes b, or as much of it as the peer still takes. */
    method Write(b: seq<byte>) returns (ok: bool)
      modifies this`output, this`room
      ensures Wrote(b, old(output), old(room), output, room, ok)
    {
      ok := |b| <= room;
      if ok {
        output := output + b;
        room := room - |b|;
      } else {
        output := output + b[..room];
        room := 0;
      }
    }
  }
}
