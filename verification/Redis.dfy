/** The RESP printer and the reader that must give back exactly the octets it has read. */
module Redis {
  import opened Bytes
  import opened Streams

  const CR: byte := 13
  const DOLLAR: byte := 36  // $
  const STAR: byte := 42    // *
  const PLUS: byte := 43    // +
  const MINUS: byte := 45   // -
  const COLON: byte := 58   // :
  const CRLF: seq<byte> := [13, 10]

  const INT64_MAX := 0x7FFF_FFFF_FFFF_FFFF

  // ---------------------------------------------------------------- decimal numbers

  /** strconv.Itoa of a length. */
  function Itoa(n: nat): (s: seq<byte>)
    ensures s != [] && forall b :: b in s ==> 48 <= b <= 57
  {
    if n < 10 then [(48 + n) as byte] else Itoa(n / 10) + [(48 + n % 10) as byte]
  }

  predicate Digits(s: seq<byte>) {
    forall b :: b in s ==> 48 <= b <= 57
  }

  /** The value of a string of decimal digits. */
  function Decimal(s: seq<byte>): int {
    if s == [] then 0 else 10 * Decimal(s[..|s| - 1]) + (s[|s| - 1] as int - 48)
  }

  /** strconv.Atoi: an optional sign, then digits; None for anything else and outside 64 bits. */
  function Atoi(s: seq<byte>): Option<int> {
    var signed := s != [] && (s[0] == PLUS || s[0] == MINUS);
    var digits := if signed then s[1..] else s;
    if digits == [] || !Digits(digits) then None
    else
      var v := if s[0] == MINUS then -Decimal(digits) else Decimal(digits);
      if -INT64_MAX - 1 <= v <= INT64_MAX then Some(v) else None
  }

  lemma {:induction false} DecimalItoa(n: nat)
    ensures Decimal(Itoa(n)) == n
  {
    if n >= 10 {
      DecimalItoa(n / 10);
      assert Itoa(n)[..|Itoa(n)| - 1] == Itoa(n / 10);
    }
  }

  /** A printed length is read back. */
  lemma AtoiItoa(n: nat)
    requires n <= INT64_MAX
    ensures Atoi(Itoa(n)) == Some(n)
  {
    DecimalItoa(n);
    assert Itoa(n)[0] in Itoa(n);
  }

  /** bytes.TrimSuffix(line, "\r\n"). */
  function TrimCrlf(line: seq<byte>): seq<byte> {
    if |line| >= 2 && line[|line| - 2..] == CRLF then line[..|line| - 2] else line
  }

  /** n * 2 in a 64-bit int. */
  function Doubled(n: nat): int {
    if 2 * n <= INT64_MAX then 2 * n else 2 * n - 0x1_0000_0000_0000_0000
  }

  // ---------------------------------------------------------------- the reader, as functions

  /** Reading from s: what was made of it and what is left, or the end of s in the middle. */
  datatype Read<+T> = Done(value: T, rest: seq<byte>) | Eof

  function ReadLine(s: seq<byte>): (r: Read<seq<byte>>)
    ensures r.Done? ==> r.value != [] && r.value + r.rest == s
  {
    var n := LineLength(s);
    if n == 0 then Eof else Done(s[..n], s[n..])
  }

  predicate IsBlob(prefix: byte) {
    prefix in {36, 33, 61}  // $ ! =
  }

  predicate IsList(prefix: byte) {
    prefix in {42, 126, 62}  // * ~ >
  }

  predicate IsMap(prefix: byte) {
    prefix == 37  // %
  }

  /** How many child frames a line announces. */
  function Children(prefix: byte, line: seq<byte>): int {
    match Atoi(TrimCrlf(line))
    case None => 0
    case Some(n) => if n < 0 then 0 else if IsMap(prefix) then Doubled(n) else n
  }

  /** How many octets of payload a line announces, with the two that end it. */
  function BlobLength(line: seq<byte>): nat {
    match Atoi(TrimCrlf(line))
    case None => 0
    case Some(n) => if n < 0 then 0 else n + 2
  }

  /** What follows the first line of a frame. */
  function Body(prefix: byte, line: seq<byte>, s: seq<byte>): (r: Read<seq<byte>>)
    ensures r.Done? ==> r.value + r.rest == s && |r.rest| <= |s|
    decreases |s|, 3
  {
    if IsBlob(prefix) then
      var n := BlobLength(line);
      if |s| < n then Eof else Done(s[..n], s[n..])
    else if IsList(prefix) || IsMap(prefix) then Frames(Children(prefix, line), s)
    else Done([], s)
  }

  /** readRESPFrameFromPrefix: the raw octets of the frame, prefix included. */
  function FrameFrom(prefix: byte, s: seq<byte>): (r: Read<seq<byte>>)
    ensures r.Done? ==> r.value + r.rest == [prefix] + s && |r.rest| < |s|
    decreases |s|, 0
  {
    match ReadLine(s)
    case Eof => Eof
    case Done(line, rest) =>
      match Body(prefix, line, rest)
      case Eof => Eof
      case Done(body, left) =>
        Rejoin([prefix], line, body, left);
        Done([prefix] + line + body, left)
  }

  lemma Rejoin(a: seq<byte>, b: seq<byte>, c: seq<byte>, d: seq<byte>)
    ensures (a + b + c) + d == a + (b + (c + d))
  {
  }

  /** readRESPFrameRaw. */
  function Frame(s: seq<byte>): (r: Read<seq<byte>>)
    ensures r.Done? ==> r.value + r.rest == s && |r.rest| < |s|
    decreases |s|, 1
  {
    if s == [] then Eof
    else
      assert [s[0]] + s[1..] == s;
      FrameFrom(s[0], s[1..])
  }

  /** n frames, one after the other. */
  function Frames(n: int, s: seq<byte>): (r: Read<seq<byte>>)
    ensures r.Done? ==> r.value + r.rest == s && |r.rest| <= |s|
    decreases |s|, 2
  {
    if n <= 0 then Done([], s)
    else
      match Frame(s)
      case Eof => Eof
      case Done(first, rest) =>
        match Frames(n - 1, rest)
        case Eof => Eof
        case Done(others, left) =>
          Rejoin([], first, others, left);
          assert [] + first == first;
          Done(first + others, left)
  }

  // ---------------------------------------------------------------- well-formed frames

  /** A RESP frame. `Line` is every kind that is one line only, nulls included; a map's items alternate. */
  datatype Resp =
    | Line(prefix: byte, text: seq<byte>)
    | Blob(prefix: byte, data: seq<byte>)
    | List(prefix: byte, items: seq<Resp>)
    | Map(items: seq<Resp>)

  predicate WellFormed(f: Resp) {
    match f
    case Line(prefix, text) =>
      && LF !in text
      && (IsBlob(prefix) || IsList(prefix) || IsMap(prefix) ==>
            match Atoi(TrimCrlf(text + CRLF)) case None => true case Some(n) => n < 0)
    case Blob(prefix, data) => IsBlob(prefix) && |data| <= INT64_MAX
    case List(prefix, items) => IsList(prefix) && |items| <= INT64_MAX && AllWellFormed(items)
    case Map(items) => |items| % 2 == 0 && |items| <= INT64_MAX && AllWellFormed(items)
  }

  predicate AllWellFormed(items: seq<Resp>) {
    items == [] || (WellFormed(items[0]) && AllWellFormed(items[1..]))
  }

  function FirstLine(f: Resp): seq<byte> {
    match f
    case Line(_, text) => text
    case Blob(_, data) => Itoa(|data|)
    case List(_, items) => Itoa(|items|)
    case Map(items) => Itoa(|items| / 2)
  }

  function PrefixOf(f: Resp): byte {
    if f.Map? then 37 else f.prefix
  }

  function Print(f: Resp): (s: seq<byte>)
    ensures s != []
    decreases f, 1
  {
    [PrefixOf(f)] + (FirstLine(f) + CRLF) + PrintBody(f)
  }

  function PrintBody(f: Resp): seq<byte>
    decreases f, 0
  {
    match f
    case Line(_, _) => []
    case Blob(_, data) => data + CRLF
    case List(_, items) => PrintAll(items)
    case Map(items) => PrintAll(items)
  }

  function PrintAll(items: seq<Resp>): seq<byte>
    decreases items
  {
    if items == [] then [] else Print(items[0]) + PrintAll(items[1..])
  }

  lemma ReadLineBack(text: seq<byte>, rest: seq<byte>)
    requires LF !in text
    ensures ReadLine(text + CRLF + rest) == Done(text + CRLF, rest)
    ensures TrimCrlf(text + CRLF) == text
  {
    var line := text + [CR];
    assert LF !in line;
    assert text + CRLF + rest == line + [LF] + rest;
    LineLengthIs(line, rest);
    assert (text + CRLF + rest)[..|text| + 2] == text + CRLF;
    assert (text + CRLF + rest)[|text| + 2..] == rest;
  }

  lemma FirstLineFacts(f: Resp)
    requires WellFormed(f)
    ensures LF !in FirstLine(f)
    ensures f.Blob? ==> Atoi(FirstLine(f)) == Some(|f.data|)
    ensures f.List? ==> Atoi(FirstLine(f)) == Some(|f.items|)
    ensures f.Map? ==> Atoi(FirstLine(f)) == Some(|f.items| / 2)
  {
    hide Atoi, Itoa, AllWellFormed;
    match f
    case Line(_, _) =>
    case Blob(_, data) => AtoiItoa(|data|);
    case List(_, items) => AtoiItoa(|items|);
    case Map(items) => AtoiItoa(|items| / 2);
  }

  /** Main result: a well-formed frame is consumed as a whole, and nothing after it. */
  lemma {:induction false} FrameReadBack(f: Resp, rest: seq<byte>)
    requires WellFormed(f)
    ensures Frame(Print(f) + rest) == Done(Print(f), rest)
    decreases f, 1
  {
    hide Body, FrameFrom, FirstLine, PrintBody, PrefixOf, WellFormed;
    var prefix, line, body := PrefixOf(f), FirstLine(f) + CRLF, PrintBody(f);
    FirstLineFacts(f);
    BodyReadBack(f, rest);
    ReadLineBack(FirstLine(f), body + rest);
    FrameParts(prefix, line, body, rest);
    assert Print(f) + rest == [prefix] + (line + (body + rest));
  }

  lemma FrameParts(prefix: byte, line: seq<byte>, body: seq<byte>, rest: seq<byte>)
    requires ReadLine(line + (body + rest)) == Done(line, body + rest)
    requires Body(prefix, line, body + rest) == Done(body, rest)
    ensures Frame([prefix] + (line + (body + rest))) == Done([prefix] + line + body, rest)
  {
    hide Body, ReadLine;
    var s := [prefix] + (line + (body + rest));
    assert s[0] == prefix && s[1..] == line + (body + rest);
  }

  lemma {:induction false} BodyReadBack(f: Resp, rest: seq<byte>)
    requires WellFormed(f)
    ensures Body(PrefixOf(f), FirstLine(f) + CRLF, PrintBody(f) + rest) == Done(PrintBody(f), rest)
    decreases f, 0
  {
    hide Atoi, Itoa, Frames;
    FirstLineFacts(f);
    ReadLineBack(FirstLine(f), []);
    match f
    case Line(prefix, _) =>
      NoItems(rest);
      assert [] + rest == rest;
    case Blob(_, data) =>
      var s := data + CRLF + rest;
      assert s[..|data| + 2] == data + CRLF && s[|data| + 2..] == rest;
    case List(_, items) => FramesReadBack(items, rest);
    case Map(items) => FramesReadBack(items, rest);
  }

  lemma NoItems(s: seq<byte>)
    ensures Frames(0, s) == Done([], s)
  {
  }

  lemma {:induction false} FramesReadBack(items: seq<Resp>, rest: seq<byte>)
    requires AllWellFormed(items)
    ensures Frames(|items|, PrintAll(items) + rest) == Done(PrintAll(items), rest)
    decreases items
  {
    hide Frame, Print;
    if items == [] {
      assert [] + rest == rest;
    } else {
      var first, others := Print(items[0]), PrintAll(items[1..]);
      assert PrintAll(items) + rest == first + (others + rest);
      FrameReadBack(items[0], others + rest);
      FramesReadBack(items[1..], rest);
    }
  }

  // ---------------------------------------------------------------- the reader itself

  /** The method's result r, and what it leaves unread, are what the function says. */
  predicate Agrees<T(==)>(spec: Read<T>, r: Option<T>, left: seq<byte>) {
    match spec
    case Eof => r.None?
    case Done(v, rest) => r == Some(v) && left == rest
  }

  /** After reading `done` of what `total` reads, `part` is still to be read. */
  predicate Part(total: Read<seq<byte>>, done: seq<byte>, part: Read<seq<byte>>) {
    match part
    case Eof => total.Eof?
    case Done(v, rest) => total == Done(done + v, rest)
  }

  method ReadByte(c: Conn) returns (b: Option<byte>)
    modifies c`input
    ensures if old(c.input) == [] then b == None && c.input == []
            else b == Some(old(c.input)[0]) && c.input == old(c.input)[1..]
  {
    var r := c.ReadFull(1);
    b := if r.None? then None else Some(r.value[0]);
  }

  /** readLineCRLF. */
  method ReadLineCrlf(c: Conn) returns (line: Option<seq<byte>>)
    modifies c`input
    ensures Agrees(ReadLine(old(c.input)), line, c.input)
  {
    line := c.ReadLine();
  }

  method ReadFrames(c: Conn, n: int) returns (raw: Option<seq<byte>>)
    modifies c`input
    ensures Agrees(Frames(n, old(c.input)), raw, c.input)
    decreases |c.input|, 2
  {
    hide Frame;
    ghost var s := c.input;
    var done, i := [], 0;
    assert Frames(n, s).Done? ==> [] + Frames(n, s).value == Frames(n, s).value;
    while i < n
      invariant 0 <= i && (i <= n || i == 0)
      invariant |c.input| <= |s|
      invariant Part(Frames(n, s), done, Frames(n - i, c.input))
      decreases n - i
    {
      ghost var here := c.input;
      var child := ReadFrameRaw(c);
      if child.None? {
        return None;
      }
      ghost var rest := Frames(n - (i + 1), c.input);
      assert Frames(n - i, here) == if rest.Eof? then Eof else Done(child.value + rest.value, rest.rest);
      assert rest.Done? ==> done + (child.value + rest.value) == (done + child.value) + rest.value;
      done := done + child.value;
      i := i + 1;
    }
    assert done + [] == done;
    raw := Some(done);
  }

  /** readRESPFrameFromPrefix. */
  method ReadFrameFromPrefix(c: Conn, prefix: byte) returns (raw: Option<seq<byte>>)
    modifies c`input
    ensures Agrees(FrameFrom(prefix, old(c.input)), raw, c.input)
    decreases |c.input|, 0
  {
    hide Atoi, Frames;
    var line := ReadLineCrlf(c);
    if line.None? {
      return None;
    }
    var head := [prefix] + line.value;
    var n := Atoi(TrimCrlf(line.value));
    assert head + [] == head;
    if IsBlob(prefix) {
      if n.None? || n.value < 0 {
        assert c.input[..0] == [] && c.input[0..] == c.input;
        return Some(head);
      }
      var payload := c.ReadFull(n.value + 2);
      if payload.None? {
        return None;
      }
      return Some(head + payload.value);
    } else if IsList(prefix) {
      if n.None? || n.value < 0 {
        NoItems(c.input);
        return Some(head);
      }
      var children := ReadFrames(c, n.value);
      if children.None? {
        return None;
      }
      return Some(head + children.value);
    } else if IsMap(prefix) {
      if n.None? || n.value < 0 {
        NoItems(c.input);
        return Some(head);
      }
      var children := ReadFrames(c, Doubled(n.value));
      if children.None? {
        return None;
      }
      return Some(head + children.value);
    }
    return Some(head);
  }

  /** readRESPFrameRaw. */
  method ReadFrameRaw(c: Conn) returns (raw: Option<seq<byte>>)
    modifies c`input
    ensures Agrees(Frame(old(c.input)), raw, c.input)
    decreases |c.input|, 1
  {
    hide FrameFrom;
    var prefix := ReadByte(c);
    if prefix.None? {
      return None;
    }
    raw := ReadFrameFromPrefix(c, prefix.value);
  }
}
