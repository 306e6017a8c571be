/** The PostgreSQL startup packet: printed from a parameter map, read and parsed back. */
module PgStartup {
  import opened Bytes
  import opened Text
  import opened Streams

  type Octets = seq<byte>
  type Params = map<Octets, Octets>

  const PROTOCOL_VERSION_3 := 196608
  const NUL: byte := 0

  // ---------------------------------------------------------------- sorted keys

  /** Byte-wise lexicographic order. */
  predicate Less(a: Octets, b: Octets) {
    b != [] && (a == [] || a[0] < b[0] || (a[0] == b[0] && Less(a[1..], b[1..])))
  }

  /** At the first octet that differs a has the smaller one, or a ends there. */
  ghost predicate Before(a: Octets, b: Octets) {
    exists k :: 0 <= k <= |a| && k < |b| && a[..k] == b[..k] && (k == |a| || a[k] < b[k])
  }

  lemma {:induction false} LessExactly(a: Octets, b: Octets)
    ensures Less(a, b) <==> Before(a, b)
  {
    if a != [] && b != [] && a[0] == b[0] {
      LessExactly(a[1..], b[1..]);
      var a', b' := a[1..], b[1..];
      if k :| 0 <= k <= |a'| && k < |b'| && a'[..k] == b'[..k] && (k == |a'| || a'[k] < b'[k]) {
        assert a[..k + 1] == [a[0]] + a[1..][..k] && b[..k + 1] == [b[0]] + b[1..][..k];
      }
      if k :| 0 <= k <= |a| && k < |b| && a[..k] == b[..k] && (k == |a| || a[k] < b[k]) {
        assert a[1..][..k - 1] == a[..k][1..] && b[1..][..k - 1] == b[..k][1..];
      }
    } else {
      assert a[..0] == [] && b[..0] == [];
      assert forall k :: 0 < k <= |a| && k < |b| ==> a[..k][0] == a[0] && b[..k][0] == b[0];
    }
  }

  lemma {:induction false} LessTrans(a: Octets, b: Octets, c: Octets)
    requires Less(a, b) && Less(b, c)
    ensures Less(a, c)
  {
    if a != [] && a[0] == b[0] == c[0] {
      LessTrans(a[1..], b[1..], c[1..]);
    }
  }

  lemma {:induction false} LessTotal(a: Octets, b: Octets)
    ensures a == b || Less(a, b) || Less(b, a)
    ensures !(Less(a, b) && Less(b, a)) && !Less(a, a)
  {
    if a != [] && b != [] {
      LessTotal(a[1..], b[1..]);
      assert a == [a[0]] + a[1..] && b == [b[0]] + b[1..];
    } else if a != [] {
      LessTotal(a[1..], a[1..]);
    }
  }

  predicate Sorted(ks: seq<Octets>) {
    forall i, j :: 0 <= i < j < |ks| ==> Less(ks[i], ks[j])
  }

  /** ks is the sorted list of the keys that are not blank. */
  ghost predicate KeysOf(ks: seq<Octets>, params: Params) {
    Sorted(ks) && forall k :: k in ks <==> k in params && Trim(k) != []
  }

  function InsertKey(ks: seq<Octets>, k: Octets): seq<Octets> {
    if ks == [] then [k] else if Less(k, ks[0]) then [k] + ks else [ks[0]] + InsertKey(ks[1..], k)
  }

  lemma {:induction false} InsertKeyOk(ks: seq<Octets>, k: Octets)
    requires Sorted(ks) && k !in ks
    ensures Sorted(InsertKey(ks, k)) && forall x :: x in InsertKey(ks, k) <==> x == k || x in ks
  {
    hide Less;
    if ks != [] {
      LessTotal(k, ks[0]);
      if Less(k, ks[0]) {
        forall j | 1 <= j < |ks|
          ensures Less(k, ks[j])
        {
          LessTrans(k, ks[0], ks[j]);
        }
      } else {
        InsertKeyOk(ks[1..], k);
        var rest := InsertKey(ks[1..], k);
        forall j | 0 <= j < |rest|
          ensures Less(ks[0], rest[j])
        {
          assert rest[j] in rest;
          if rest[j] != k {
            var i :| 0 <= i < |ks[1..]| && ks[1..][i] == rest[j];
            assert ks[1..][i] == ks[i + 1];
          }
        }
      }
    }
  }

  /** The non-blank keys, collected in any order and sorted. */
  method CollectKeys(params: Params) returns (keys: seq<Octets>)
    ensures KeysOf(keys, params)
  {
    hide Less, Trim;
    keys := [];
    var left := params.Keys;
    while left != {}
      invariant left <= params.Keys
      invariant Sorted(keys) && forall k :: k in keys <==> k in params && k !in left && Trim(k) != []
      decreases left
    {
      var k :| k in left;
      left := left - {k};
      if Trim(k) != [] {
        InsertKeyOk(keys, k);
        keys := InsertKey(keys, k);
      }
    }
  }

  /** There is only one such list, so the packet depends on the map alone. */
  lemma {:induction false} KeysUnique(a: seq<Octets>, b: seq<Octets>)
    requires Sorted(a) && Sorted(b) && forall k :: k in a <==> k in b
    ensures a == b
    decreases |a|
  {
    hide Less;
    SameEmptiness(a, b);
    if a != [] {
      FirstIsLeast(a, b[0]);
      FirstIsLeast(b, a[0]);
      LessTotal(a[0], b[0]);
      forall k
        ensures k in a[1..] <==> k in b[1..]
      {
        TailHas(a, k);
        TailHas(b, k);
      }
      KeysUnique(a[1..], b[1..]);
    }
  }

  lemma SameEmptiness(a: seq<Octets>, b: seq<Octets>)
    requires forall k :: k in a <==> k in b
    ensures a == [] <==> b == []
    ensures a != [] ==> a[0] in b && b[0] in a
  {
    if a != [] {
      assert a[0] in a;
    }
    if b != [] {
      assert b[0] in b;
    }
  }

  lemma FirstIsLeast(a: seq<Octets>, k: Octets)
    ensures Sorted(a) && k in a ==> (k == a[0] || Less(a[0], k))
  {
    hide Less;
  }

  lemma TailHas(a: seq<Octets>, k: Octets)
    requires a != [] && Sorted(a)
    ensures k in a[1..] <==> k in a && k != a[0]
  {
    hide Less;
    if k in a[1..] {
      var i :| 0 <= i < |a[1..]| && a[1..][i] == k;
      assert a[i + 1] == k && Less(a[0], a[i + 1]);
      LessTotal(k, k);
    }
  }

  // ---------------------------------------------------------------- printing

  /** The parameters as key, NUL, value, NUL; blank values are left out. */
  function Entries(keys: seq<Octets>, params: Params): Octets
    requires forall k :: k in keys ==> k in params
  {
    if keys == [] then []
    else
      assert keys[0] in keys;
      var k, v := keys[0], Trim(params[keys[0]]);
      (if v == [] then [] else k + [0] + v + [0]) + Entries(keys[1..], params)
  }

  /** What follows the length word. */
  function Payload(keys: seq<Octets>, params: Params): Octets
    requires forall k :: k in keys ==> k in params
  {
    PutBe(PROTOCOL_VERSION_3, 4) + Entries(keys, params) + [0]
  }

  function Packet(keys: seq<Octets>, params: Params): Octets
    requires forall k :: k in keys ==> k in params
  {
    var p := Payload(keys, params);
    PutBe((|p| + 4) % 0x1_0000_0000, 4) + p
  }

  /** writeStartupPacket. */
  method WriteStartupPacket(c: Conn, params: Params) returns (ok: bool, ghost keys: seq<Octets>)
    modifies c`output, c`room
    ensures KeysOf(keys, params)
    ensures Wrote(Packet(keys, params), old(c.output), old(c.room), c.output, c.room, ok)
  {
    hide Wrote, PutBe, Sorted, Trim;
    var ks := CollectKeys(params);
    keys := ks;
    var payload := PutBe(PROTOCOL_VERSION_3, 4);
    var i := 0;
    assert ks[0..] == ks;
    while i < |ks|
      invariant 0 <= i <= |ks|
      invariant payload + Entries(ks[i..], params) == PutBe(PROTOCOL_VERSION_3, 4) + Entries(ks, params)
    {
      assert ks[i] in ks && ks[i..][1..] == ks[i + 1..];
      var k := ks[i];
      var v := Trim(params[k]);
      i := i + 1;
      ghost var rest := Entries(ks[i..], params);
      if v == [] {
        assert [] + rest == rest;
        continue;
      }
      assert payload + (k + [0] + v + [0] + rest) == (payload + k + [0] + v + [0]) + rest;
      payload := payload + k + [0] + v + [0];
    }
    assert payload + [] == payload;
    payload := payload + [0];
    ok := WriteWithLength(c, payload);
  }

  /** The length word and the payload, in two writes. */
  method WriteWithLength(c: Conn, payload: Octets) returns (ok: bool)
    modifies c`output, c`room
    ensures Wrote(PutBe((|payload| + 4) % 0x1_0000_0000, 4) + payload, old(c.output), old(c.room), c.output, c.room, ok)
  {
    hide Wrote, PutBe;
    var totalLen := PutBe((|payload| + 4) % 0x1_0000_0000, 4);
    ghost var out, room := c.output, c.room;
    ok := c.Write(totalLen);
    WroteNothing(out, room);
    assert [] + totalLen == totalLen;
    WroteMore([], totalLen, totalLen + payload, out, room, out, room, c.output, c.room, ok);
    if !ok {
      return;
    }
    ghost var mid, midRoom := c.output, c.room;
    ok := c.Write(payload);
    WroteMore(totalLen, payload, totalLen + payload, out, room, mid, midRoom, c.output, c.room, ok);
  }

  // ---------------------------------------------------------------- reading

  datatype Error = UnexpectedEof | BadLength(length: nat)

  datatype Read = Done(payload: Octets, rest: Octets) | Failed(error: Error)

  function ReadPacket(s: Octets): Read {
    if |s| < 4 then Failed(UnexpectedEof)
    else
      var n := Be(s[..4]);
      if n < 8 then Failed(BadLength(n))
      else if |s| < n then Failed(UnexpectedEof)
      else Done(s[4..n], s[n..])
  }

  /** readStartupPacket. */
  method ReadStartupPacket(c: Conn) returns (r: Read)
    modifies c`input
    ensures var spec := ReadPacket(old(c.input));
            r == spec && (spec.Done? ==> c.input == spec.rest)
  {
    hide Be;
    ghost var s := c.input;
    var lenBuf := c.ReadFull(4);
    if lenBuf.None? {
      return Failed(UnexpectedEof);
    }
    var totalLen := Be(lenBuf.value);
    if totalLen < 8 {
      return Failed(BadLength(totalLen));
    }
    var payload := c.ReadFull(totalLen - 4);
    if payload.None? {
      return Failed(UnexpectedEof);
    }
    assert s[4..][..totalLen - 4] == s[4..totalLen] && s[4..][totalLen - 4..] == s[totalLen..];
    return Done(payload.value, c.input);
  }

  /** strings.Split at NUL. */
  function SplitNul(s: Octets): (parts: seq<Octets>)
    ensures parts != [] && forall p :: p in parts ==> NUL !in p
  {
    if s == [] then [[]]
    else
      var rest := SplitNul(s[1..]);
      assert rest[0] in rest;
      if s[0] == 0 then [[]] + rest else [[s[0]] + rest[0]] + rest[1..]
  }

  /** The parts with a NUL between any two. */
  function JoinNul(parts: seq<Octets>): Octets
    requires parts != []
  {
    if |parts| == 1 then parts[0] else parts[0] + [NUL] + JoinNul(parts[1..])
  }

  /** With no NUL in them, so the parts are the only ones there are. */
  lemma {:induction false} SplitJoined(s: Octets)
    ensures JoinNul(SplitNul(s)) == s
  {
    if s != [] {
      SplitJoined(s[1..]);
      var rest := SplitNul(s[1..]);
      if s[0] == NUL {
        assert ([[]] + rest)[1..] == rest;
      } else {
        assert ([[s[0]] + rest[0]] + rest[1..])[1..] == rest[1..];
      }
      assert s == [s[0]] + s[1..];
    }
  }

  /** Pairs of parts, up to a blank key; a later pair replaces an earlier one with the same key. */
  function Pairs(parts: seq<Octets>): Params {
    if |parts| < 2 || Trim(parts[0]) == [] then map[]
    else map[Trim(parts[0]) := Trim(parts[1])] + Pairs(parts[2..])
  }

  function Parse(raw: Octets): Params {
    Pairs(SplitNul(raw))
  }

  /** parseStartupParams. */
  method ParseStartupParams(raw: Octets) returns (params: Params)
    ensures params == Parse(raw)
  {
    hide Trim, SplitNul, Pairs;
    params := map[];
    var parts := SplitNul(raw);
    var i := 0;
    assert parts[0..] == parts && params + Pairs(parts) == Pairs(parts);
    while i + 1 < |parts|
      invariant 0 <= i <= |parts|
      invariant params + Pairs(parts[i..]) == Pairs(parts)
    {
      PairsStep(parts, i);
      var k := Trim(parts[i]);
      var v := Trim(parts[i + 1]);
      if k == [] {
        break;
      }
      PutThenRest(params, k, v, Pairs(parts[i + 2..]));
      params := params[k := v];
      i := i + 2;
    }
    PairsEnd(parts, i);
    assert params + map[] == params;
  }

  lemma PairsStep(parts: seq<Octets>, i: nat)
    requires i + 1 < |parts|
    ensures Pairs(parts[i..]) == if Trim(parts[i]) == [] then map[]
                                 else map[Trim(parts[i]) := Trim(parts[i + 1])] + Pairs(parts[i + 2..])
  {
    hide Trim;
    assert parts[i..][2..] == parts[i + 2..];
  }

  lemma PairsEnd(parts: seq<Octets>, i: nat)
    ensures i <= |parts| && (|parts| - i < 2 || Trim(parts[i]) == []) ==> Pairs(parts[i..]) == map[]
  {
  }

  lemma PutThenRest(params: Params, k: Octets, v: Octets, rest: Params)
    ensures params + (map[k := v] + rest) == params[k := v] + rest
  {
  }

  /** Pair i of the parts is one of key k, and no key up to it is blank. */
  ghost predicate PairOf(parts: seq<Octets>, i: nat, k: Octets) {
    2 * i + 1 < |parts| && Between(parts[2 * i], k) && forall j :: 0 <= j <= i ==> !AllSpace(parts[2 * j])
  }

  ghost predicate LastPairOf(parts: seq<Octets>, i: nat, k: Octets) {
    PairOf(parts, i, k) && forall j :: i < j ==> !PairOf(parts, j, k)
  }

  /** Exactly the keys of pairs before a blank key are parsed, with the value of the last such pair. */
  lemma {:induction false} PairsExactly(parts: seq<Octets>, k: Octets)
    ensures k in Pairs(parts) <==> exists i :: PairOf(parts, i, k)
    ensures forall i :: LastPairOf(parts, i, k) ==> k in Pairs(parts) && Between(parts[2 * i + 1], Pairs(parts)[k])
    decreases |parts|
  {
    hide Trim, Between, AllSpace;
    if |parts| >= 2 {
      var key, rest := parts[0], parts[2..];
      BlankTrims(key);
      TrimExactly(key, k);
      TrimExactly(parts[1], Trim(parts[1]));
      if !AllSpace(key) {
        PairsExactly(rest, k);
        forall i: nat
          ensures PairOf(parts, i + 1, k) <==> PairOf(rest, i, k)
        {
          LaterPair(parts, i, k);
        }
        assert forall j: nat :: PairOf(rest, j, k) ==> PairOf(parts, j + 1, k);
        assert PairOf(parts, 0, k) <==> Between(key, k);
        forall i: nat | LastPairOf(parts, i, k)
          ensures k in Pairs(parts) && Between(parts[2 * i + 1], Pairs(parts)[k])
        {
          if i > 0 {
            assert LastPairOf(rest, i - 1, k);
          }
        }
        if i: nat :| PairOf(parts, i, k) {
          assert i == 0 || PairOf(rest, i - 1, k);
        }
      }
    }
  }

  lemma LaterPair(parts: seq<Octets>, i: nat, k: Octets)
    requires |parts| >= 2 && !AllSpace(parts[0])
    ensures PairOf(parts, i + 1, k) <==> PairOf(parts[2..], i, k)
  {
    hide Between, AllSpace;
    var rest := parts[2..];
    if PairOf(parts, i + 1, k) {
      forall j | 0 <= j <= i
        ensures !AllSpace(rest[2 * j])
      {
        assert rest[2 * j] == parts[2 * (j + 1)];
      }
    }
    if PairOf(rest, i, k) {
      forall j | 0 <= j <= i + 1
        ensures !AllSpace(parts[2 * j])
      {
        assert j > 0 ==> parts[2 * j] == rest[2 * (j - 1)];
      }
    }
  }

  // ---------------------------------------------------------------- what is printed

  /** Each key with its value, both followed by NUL. */
  function Printed(ks: seq<Octets>, vs: seq<Octets>): Octets
    requires |ks| == |vs|
  {
    if ks == [] then [] else ks[0] + [NUL] + vs[0] + [NUL] + Printed(ks[1..], vs[1..])
  }

  /** Exactly the keys with a value that is not blank are printed, in their order, each with its value's text. */
  lemma {:induction false} EntriesPrinted(keys: seq<Octets>, params: Params) returns (ks: seq<Octets>, vs: seq<Octets>)
    requires Sorted(keys) && forall k :: k in keys ==> k in params
    ensures |ks| == |vs| && Entries(keys, params) == Printed(ks, vs)
    ensures Sorted(ks) && forall k :: k in ks <==> k in keys && !AllSpace(params[k])
    ensures forall i :: 0 <= i < |ks| ==> Between(params[ks[i]], vs[i])
    decreases |keys|
  {
    hide Trim, Between, AllSpace, Less;
    ks, vs := [], [];
    if keys != [] {
      var k := keys[0];
      assert k in keys;
      var v := Trim(params[k]);
      ks, vs := EntriesPrinted(keys[1..], params);
      forall x
        ensures x in keys[1..] <==> x in keys && x != k
      {
        TailHas(keys, x);
      }
      BlankTrims(params[k]);
      TrimExactly(params[k], v);
      if v != [] {
        forall i | 0 <= i < |ks|
          ensures Less(k, ks[i])
        {
          assert ks[i] in ks;
          FirstIsLeast(keys, ks[i]);
        }
        ghost var ks', vs' := ks, vs;
        ks, vs := [k] + ks, [v] + vs;
        assert ks[1..] == ks' && vs[1..] == vs';
      }
    }
  }

  // ---------------------------------------------------------------- round trip

  /** No white space at either end, and no NUL. */
  predicate Clean(s: Octets) {
    Bare(s) && NUL !in s
  }

  /** The parameters the packet carries faithfully. */
  predicate Good(params: Params) {
    forall k :: k in params ==> Clean(k) && k != [] && Clean(params[k]) && params[k] != []
  }

  lemma {:induction false} SplitPart(p: Octets, rest: Octets)
    requires NUL !in p
    ensures SplitNul(p + [0] + rest) == [p] + SplitNul(rest)
  {
    var s := p + [0] + rest;
    if p == [] {
      assert s[1..] == rest;
    } else {
      assert p[0] in p && NUL !in p[1..];
      assert s[1..] == p[1..] + [0] + rest;
      SplitPart(p[1..], rest);
      assert p == [p[0]] + p[1..];
      assert ([p[1..]] + SplitNul(rest))[1..] == SplitNul(rest);
    }
  }

  lemma OneEntry(k: Octets, v: Octets, rest: Octets)
    requires Clean(k) && k != [] && Clean(v)
    ensures Parse(k + [0] + v + [0] + rest) == map[k := v] + Parse(rest)
  {
    hide Trim, Bare, SplitNul;
    BareTrims(k);
    BareTrims(v);
    assert k + [0] + v + [0] + rest == k + [0] + (v + [0] + rest);
    SplitPart(k, v + [0] + rest);
    SplitPart(v, rest);
    var parts := [k] + ([v] + SplitNul(rest));
    assert parts[2..] == SplitNul(rest) && parts[0] == k && parts[1] == v;
  }

  lemma NoEntry()
    ensures Parse([0]) == map[]
  {
    assert SplitNul([0]) == [[]] + SplitNul([]);
  }

  /** The parameters with these keys whose values are not empty. */
  function Carried(keys: seq<Octets>, params: Params): Params
    requires forall k :: k in keys ==> k in params
  {
    map k | k in keys && params[k] != [] :: params[k]
  }

  lemma CarriedStep(keys: seq<Octets>, params: Params)
    requires keys != [] && Sorted(keys) && forall k :: k in keys ==> k in params
    ensures forall k :: k in keys[1..] ==> k in keys
    ensures var rest := Carried(keys[1..], params);
            Carried(keys, params) == if params[keys[0]] == [] then rest else map[keys[0] := params[keys[0]]] + rest
  {
    hide Sorted;
    forall x
      ensures x in keys[1..] <==> x in keys && x != keys[0]
    {
      TailHas(keys, x);
    }
    assert keys[0] in keys;
  }

  /** Parsing the printed entries gives the parameters with these keys whose values are not empty. */
  lemma {:induction false} EntriesReadBack(keys: seq<Octets>, params: Params)
    requires Sorted(keys)
    requires forall k :: k in keys ==> k in params && Clean(k) && k != [] && Clean(params[k])
    ensures Parse(Entries(keys, params) + [0]) == Carried(keys, params)
    decreases |keys|
  {
    hide Trim, Bare, SplitNul, Less, Parse, Carried;
    if keys == [] {
      NoEntry();
      assert [] + [0] == [0];
      CarriedNone(params);
    } else {
      CarriedStep(keys, params);
      var k, rest := keys[0], Entries(keys[1..], params);
      var v := params[k];
      assert k in keys;
      BareTrims(v);
      EntriesReadBack(keys[1..], params);
      if v == [] {
        assert Entries(keys, params) + [0] == rest + [0];
      } else {
        OneEntry(k, v, rest + [0]);
        assert Entries(keys, params) + [0] == k + [0] + v + [0] + (rest + [0]);
      }
    }
  }

  lemma CarriedNone(params: Params)
    ensures Carried([], params) == map[]
  {
  }

  /** Whatever is parsed, its keys are trimmed, not empty and free of NUL, and its values trimmed and free of NUL. */
  lemma {:induction false} PairsClean(parts: seq<Octets>)
    requires forall p :: p in parts ==> NUL !in p
    ensures forall k :: k in Pairs(parts) ==> Clean(k) && k != [] && Clean(Pairs(parts)[k])
    decreases |parts|
  {
    hide Trim, Bare;
    if |parts| >= 2 && Trim(parts[0]) != [] {
      assert parts[0] in parts && parts[1] in parts;
      PairsClean(parts[2..]);
      BareTrims(parts[0]);
      BareTrims(parts[1]);
      TrimIsPart(parts[0]);
      TrimIsPart(parts[1]);
    }
  }

  /** The packet is read as it was written, when its length fits the length word. */
  lemma PacketReadBack(keys: seq<Octets>, params: Params, rest: Octets)
    requires forall k :: k in keys ==> k in params
    requires |Payload(keys, params)| + 4 < 0x1_0000_0000
    ensures ReadPacket(Packet(keys, params) + rest) == Done(Payload(keys, params), rest)
    ensures Payload(keys, params)[4..] == Entries(keys, params) + [0]
    ensures Be(Payload(keys, params)[..4]) == PROTOCOL_VERSION_3
  {
    hide Entries, Be, PutBe;
    var p := Payload(keys, params);
    var n := |p| + 4;
    var s := Packet(keys, params) + rest;
    Pow256Values();
    BePutBe(n, 4);
    BePutBe(PROTOCOL_VERSION_3, 4);
    assert s[..4] == PutBe(n, 4) && s[4..n] == p && s[n..] == rest;
    assert p[..4] == PutBe(PROTOCOL_VERSION_3, 4);
  }

  /** A length word below 8 is an error, and so is a packet that breaks off. */
  lemma BadPackets(n: nat, body: Octets, rest: Octets)
    requires n < 0x1_0000_0000
    ensures n < 8 ==> ReadPacket(PutBe(n, 4) + rest) == Failed(BadLength(n))
    ensures n >= 8 && |body| < n - 4 ==> ReadPacket(PutBe(n, 4) + body) == Failed(UnexpectedEof)
    ensures |body| < 4 ==> ReadPacket(body) == Failed(UnexpectedEof)
  {
    hide Be, PutBe;
    Pow256Values();
    BePutBe(n, 4);
    assert (PutBe(n, 4) + rest)[..4] == PutBe(n, 4) && (PutBe(n, 4) + body)[..4] == PutBe(n, 4);
  }

  /**
   Main result: reading and parsing what was written gives back the map, if and only
   if all its keys and values are trimmed, not empty and free of NUL.
   */
  lemma StartupRoundTrip(keys: seq<Octets>, params: Params, rest: Octets)
    requires KeysOf(keys, params)
    requires |Payload(keys, params)| + 4 < 0x1_0000_0000
    ensures var r := ReadPacket(Packet(keys, params) + rest);
            && r.Done? && r.rest == rest && |r.payload| >= 4 && Be(r.payload[..4]) == PROTOCOL_VERSION_3
            && (Parse(r.payload[4..]) == params <==> Good(params))
  {
    hide Entries, Be, Trim, Bare, Sorted, ReadPacket, Packet, Pairs, SplitNul;
    PacketReadBack(keys, params, rest);
    var parsed := Parse(Entries(keys, params) + [0]);
    if parsed == params {
      PairsClean(SplitNul(Entries(keys, params) + [0]));
    }
    if parsed == params || Good(params) {
      forall k
        ensures Bare(k) ==> Trim(k) == k
      {
        BareTrims(k);
      }
      EntriesReadBack(keys, params);
    }
  }
}
