/** Commands as the proxy prints them, and as it reads them off the client to log them. */
module RedisCommands {
  import opened Bytes
  import opened Text
  import opened Streams
  import opened Redis

  type Octets = seq<byte>

  /** buildRESPCommand. */
  function Build(args: seq<Octets>): Octets {
    [STAR] + (Itoa(|args|) + CRLF) + BuildItems(args)
  }

  function BuildItems(args: seq<Octets>): Octets {
    if args == [] then [] else BuildItem(args[0]) + BuildItems(args[1..])
  }

  function BuildItem(arg: Octets): Octets {
    [DOLLAR] + (Itoa(|arg|) + CRLF) + (arg + CRLF)
  }

  datatype Value = Value(raw: Octets, text: Octets)
  datatype Values = Values(raw: Octets, texts: seq<Octets>)
  datatype Command = Command(raw: Octets, name: Octets, args: seq<Octets>)

  /** readRESPValueForCommand. */
  function ReadValue(prefix: byte, s: Octets): (r: Read<Value>)
    ensures r.Done? ==> r.value.raw + r.rest == [prefix] + s && |r.rest| < |s|
  {
    if prefix == DOLLAR then ReadBulk(s)
    else if prefix == PLUS || prefix == COLON then
      match ReadLine(s)
      case Eof => Eof
      case Done(line, rest) =>
        Rejoin([prefix], line, [], rest);
        Done(Value([prefix] + line, TrimCrlf(line)), rest)
    else
      match FrameFrom(prefix, s)
      case Eof => Eof
      case Done(raw, rest) => Done(Value(raw, []), rest)
  }

  /** A bulk string: its length, then that many octets and two more. */
  function ReadBulk(s: Octets): (r: Read<Value>)
    ensures r.Done? ==> r.value.raw + r.rest == [DOLLAR] + s && |r.rest| < |s|
  {
    match ReadLine(s)
    case Eof => Eof
    case Done(line, rest) => BulkAfter(line, BlobLength(line), rest)
  }

  /** The n octets after the line of a bulk string, the last two of which end it. */
  function BulkAfter(line: Octets, n: nat, s: Octets): (r: Read<Value>)
    ensures r.Done? ==> r.value.raw + r.rest == [DOLLAR] + (line + s) && |r.rest| <= |s|
  {
    if |s| < n then Eof
    else
      Rejoin([DOLLAR], line, s[..n], s[n..]);
      assert s[..n] + s[n..] == s;
      Done(Value([DOLLAR] + line + s[..n], if n < 2 then [] else s[..n - 2]), s[n..])
  }

  function ReadValues(n: nat, s: Octets): (r: Read<Values>)
    ensures r.Done? ==> r.value.raw + r.rest == s && |r.value.texts| == n && |r.rest| <= |s|
  {
    if n == 0 then Done(Values([], []), s)
    else if s == [] then Eof
    else
      assert [s[0]] + s[1..] == s;
      match ReadValue(s[0], s[1..])
      case Eof => Eof
      case Done(v, rest) => OneBefore(v, rest, ReadValues(n - 1, rest))
  }

  /** An item in front of those read after it. */
  function OneBefore(v: Value, s: Octets, others: Read<Values>): (r: Read<Values>)
    requires others.Done? ==> others.value.raw + others.rest == s
    ensures r.Done? ==> r.value.raw + r.rest == v.raw + s
    ensures if others.Eof? then r.Eof?
            else r.Done? && r.rest == others.rest && |r.value.texts| == |others.value.texts| + 1
  {
    match others
    case Eof => Eof
    case Done(vs, left) =>
      assert (v.raw + vs.raw) + left == v.raw + (vs.raw + left);
      Done(Values(v.raw + vs.raw, [v.text] + vs.texts), left)
  }

  function TrimAll(texts: seq<Octets>): seq<Octets> {
    seq(|texts|, i requires 0 <= i < |texts| => Trim(texts[i]))
  }

  /** readRESPCommand; `upper` stands for the library's upper-casing of text. */
  function ReadCommand(upper: Octets -> Octets, s: Octets): (r: Read<Command>)
    ensures r.Done? ==> r.value.raw + r.rest == s && r.value.raw != []
  {
    if s == [] then Eof
    else
      assert [s[0]] + s[1..] == s;
      if s[0] != STAR then
        match FrameFrom(s[0], s[1..])
        case Eof => Eof
        case Done(raw, rest) => Done(Command(raw, [], []), rest)
      else
        match ReadLine(s[1..])
        case Eof => Eof
        case Done(line, rest) =>
          assert ([STAR] + line) + rest == [STAR] + (line + rest);
          var count := Atoi(TrimCrlf(line));
          if count.None? || count.value <= 0 then Done(Command([STAR] + line, [], []), rest)
          else
            match ReadValues(count.value, rest)
            case Eof => Eof
            case Done(vs, left) =>
              Rejoin([STAR], line, vs.raw, left);
              Done(Command([STAR] + line + vs.raw, upper(Trim(vs.texts[0])), TrimAll(vs.texts[1..])), left)
  }

  // ---------------------------------------------------------------- round trip

  /** Lengths are 64-bit integers. */
  predicate Sized(args: seq<Octets>) {
    |args| <= INT64_MAX && forall i :: 0 <= i < |args| ==> |args[i]| <= INT64_MAX
  }

  lemma {:induction false} ItoaNoLf(n: nat)
    ensures LF !in Itoa(n)
  {
    forall b | b in Itoa(n)
      ensures b != LF
    {
    }
  }

  lemma BlobParts(line: Octets, payload: Octets, rest: Octets)
    requires ReadLine(line + (payload + rest)) == Done(line, payload + rest)
    requires BlobLength(line) == |payload| >= 2
    ensures ReadValue(DOLLAR, line + (payload + rest))
            == Done(Value([DOLLAR] + line + payload, payload[..|payload| - 2]), rest)
  {
    hide ReadLine, BlobLength;
    var n := |payload|;
    var s := payload + rest;
    assert s[..n] == payload && s[n..] == rest && s[..n - 2] == payload[..n - 2];
  }

  /** The text of an item: of a bulk string its octets, of a simple string or an integer its line; of others none. */
  function TextOf(f: Resp): Octets {
    if f.Blob? && f.prefix == DOLLAR then f.data
    else if f.Line? && (f.prefix == PLUS || f.prefix == COLON) then f.text
    else []
  }

  function Texts(items: seq<Resp>): (ts: seq<Octets>)
    ensures |ts| == |items| && forall i :: 0 <= i < |ts| ==> ts[i] == TextOf(items[i])
  {
    seq(|items|, i requires 0 <= i < |items| => TextOf(items[i]))
  }

  lemma ItemReadBack(f: Resp, rest: Octets)
    requires WellFormed(f)
    ensures ReadValue(PrefixOf(f), FirstLine(f) + CRLF + (PrintBody(f) + rest))
            == Done(Value(Print(f), TextOf(f)), rest)
  {
    hide Itoa, Atoi, ReadLine, TrimCrlf, FrameFrom, ReadBulk, WellFormed, FirstLine, PrintBody;
    var line := FirstLine(f) + CRLF;
    FirstLineFacts(f);
    ReadLineBack(FirstLine(f), PrintBody(f) + rest);
    if PrefixOf(f) == DOLLAR {
      DollarReadBack(f, rest);
    } else if PrefixOf(f) == PLUS || PrefixOf(f) == COLON {
      LineReadBack(f, rest);
    } else {
      FrameReadBack(f, rest);
      var s := Print(f) + rest;
      assert s[0] == PrefixOf(f) && s[1..] == line + (PrintBody(f) + rest);
    }
  }

  lemma LineReadBack(f: Resp, rest: Octets)
    requires WellFormed(f) && (PrefixOf(f) == PLUS || PrefixOf(f) == COLON)
    requires var line := FirstLine(f) + CRLF;
             ReadLine(line + (PrintBody(f) + rest)) == Done(line, PrintBody(f) + rest)
             && TrimCrlf(line) == FirstLine(f)
    ensures ReadValue(PrefixOf(f), FirstLine(f) + CRLF + (PrintBody(f) + rest))
            == Done(Value(Print(f), TextOf(f)), rest)
  {
    hide ReadLine, TrimCrlf;
    var line := FirstLine(f) + CRLF;
    assert f.Line? && PrintBody(f) == [] && [] + rest == rest && [PrefixOf(f)] + line + [] == [PrefixOf(f)] + line;
  }

  lemma DollarReadBack(f: Resp, rest: Octets)
    requires WellFormed(f) && PrefixOf(f) == DOLLAR
    requires var line := FirstLine(f) + CRLF;
             ReadLine(line + (PrintBody(f) + rest)) == Done(line, PrintBody(f) + rest)
             && TrimCrlf(line) == FirstLine(f)
    ensures ReadValue(DOLLAR, FirstLine(f) + CRLF + (PrintBody(f) + rest)) == Done(Value(Print(f), TextOf(f)), rest)
  {
    hide Itoa, Atoi, ReadLine, TrimCrlf;
    var line := FirstLine(f) + CRLF;
    if f.Blob? {
      FirstLineFacts(f);
      BlobParts(line, f.data + CRLF, rest);
      assert (f.data + CRLF)[..|f.data|] == f.data;
    } else {
      assert ([] + rest)[..0] == [] && ([] + rest)[0..] == rest;
    }
  }

  lemma FirstValue(n: nat, prefix: byte, body: Octets, v: Value, mid: Octets, vs: Values, rest: Octets)
    requires ReadValue(prefix, body) == Done(v, mid) && ReadValues(n, mid) == Done(vs, rest)
    ensures ReadValues(n + 1, [prefix] + body) == Done(Values(v.raw + vs.raw, [v.text] + vs.texts), rest)
  {
    hide ReadValue;
    assert ([prefix] + body)[1..] == body;
  }

  lemma {:induction false} ItemsReadBack(items: seq<Resp>, rest: Octets)
    requires AllWellFormed(items)
    ensures ReadValues(|items|, PrintAll(items) + rest) == Done(Values(PrintAll(items), Texts(items)), rest)
    decreases |items|
  {
    hide ReadValue, ReadValues, FirstLine, PrefixOf, TextOf, PrintBody;
    if items == [] {
      NoValues(rest);
      assert [] + rest == rest;
    } else {
      var f, others := items[0], PrintAll(items[1..]);
      var body := FirstLine(f) + CRLF + (PrintBody(f) + (others + rest));
      ItemReadBack(f, others + rest);
      ItemsReadBack(items[1..], rest);
      FirstValue(|items| - 1, PrefixOf(f), body, Value(Print(f), TextOf(f)), others + rest,
                 Values(others, Texts(items[1..])), rest);
      assert PrintAll(items) + rest == [PrefixOf(f)] + body;
      assert Texts(items) == [TextOf(f)] + Texts(items[1..]);
    }
  }

  lemma NoValues(s: Octets)
    ensures ReadValues(0, s) == Done(Values([], []), s)
  {
  }

  /** What a command of these texts is logged as: its name upper-cased, all white space at the ends gone. */
  ghost predicate Says(upper: Octets -> Octets, texts: seq<Octets>, c: Command)
    requires texts != []
  {
    && (exists name :: Between(texts[0], name) && c.name == upper(name))
    && (Bare(texts[0]) ==> c.name == upper(texts[0]))
    && |c.args| == |texts| - 1
    && (forall i :: 0 <= i < |c.args| ==> Between(texts[i + 1], c.args[i]))
    && (forall i :: 0 <= i < |c.args| && Bare(texts[i + 1]) ==> c.args[i] == texts[i + 1])
  }

  lemma TrimmedSays(upper: Octets -> Octets, texts: seq<Octets>, raw: Octets)
    requires texts != []
    ensures Says(upper, texts, Command(raw, upper(Trim(texts[0])), TrimAll(texts[1..])))
  {
    hide Trim, Between, Bare;
    var args := TrimAll(texts[1..]);
    TrimmedIs(texts[0]);
    forall i | 0 <= i < |args|
      ensures Between(texts[i + 1], args[i]) && (Bare(texts[i + 1]) ==> args[i] == texts[i + 1])
    {
      TrimmedIs(texts[i + 1]);
    }
  }

  lemma TrimmedIs(text: Octets)
    ensures Between(text, Trim(text)) && (Bare(text) ==> Trim(text) == text)
  {
    TrimExactly(text, Trim(text));
    BareTrims(text);
  }

  /**
   Main result: an array of frames of any kind, however nested, is read as one command
   octet for octet, whatever follows; it is logged with the texts of its items.
   */
  lemma FramesAsCommand(upper: Octets -> Octets, items: seq<Resp>, rest: Octets)
    requires items != [] && WellFormed(List(STAR, items))
    ensures var r := ReadCommand(upper, Print(List(STAR, items)) + rest);
            && r.Done? && r.value.raw == Print(List(STAR, items)) && r.rest == rest
            && Says(upper, Texts(items), r.value)
  {
    hide ReadLine, ReadValues, Itoa, Atoi, Trim, TrimAll, Says;
    var n := |items|;
    var line, body := Itoa(n) + CRLF, PrintAll(items);
    AtoiItoa(n);
    ItoaNoLf(n);
    ReadLineBack(Itoa(n), body + rest);
    ItemsReadBack(items, rest);
    var s := Print(List(STAR, items)) + rest;
    assert Print(List(STAR, items)) == [STAR] + line + body;
    assert s[0] == STAR && s[1..] == line + (body + rest);
    TrimmedSays(upper, Texts(items), [STAR] + line + body);
  }

  /** A frame of another kind, an empty array, or one with a bad length is passed on, and is no command. */
  lemma OtherFrames(upper: Octets -> Octets, f: Resp, rest: Octets)
    requires WellFormed(f) && (PrefixOf(f) == STAR && f.List? ==> f.items == [])
    ensures ReadCommand(upper, Print(f) + rest) == Done(Command(Print(f), [], []), rest)
  {
    hide ReadLine, ReadValues, Itoa, Atoi, TrimCrlf, Trim, TrimAll, FrameFrom;
    var line := FirstLine(f) + CRLF;
    var s := Print(f) + rest;
    assert s[0] == PrefixOf(f) && s[1..] == line + (PrintBody(f) + rest);
    if PrefixOf(f) != STAR {
      FrameReadBack(f, rest);
    } else {
      FirstLineFacts(f);
      ReadLineBack(FirstLine(f), PrintBody(f) + rest);
      assert PrintBody(f) == [] && [] + rest == rest && Print(f) == [STAR] + line;
    }
  }

  /** The arguments as bulk strings. */
  function Bulks(args: seq<Octets>): (items: seq<Resp>)
    ensures |items| == |args| && forall i :: 0 <= i < |args| ==> items[i] == Blob(DOLLAR, args[i])
  {
    seq(|args|, i requires 0 <= i < |args| => Blob(DOLLAR, args[i]))
  }

  lemma {:induction false} BulksPrinted(args: seq<Octets>)
    requires forall i :: 0 <= i < |args| ==> |args[i]| <= INT64_MAX
    ensures AllWellFormed(Bulks(args)) && PrintAll(Bulks(args)) == BuildItems(args)
  {
    hide Itoa;
    if args != [] {
      BulksPrinted(args[1..]);
      assert Bulks(args)[1..] == Bulks(args[1..]);
      assert Print(Bulks(args)[0]) == BuildItem(args[0]);
    }
  }

  /**
   Main result: any non-empty list of arbitrary octet strings, printed as a command,
   is read back octet for octet and logged as these strings, whatever follows; a string
   with no white space at its ends comes back whole.
   */
  lemma CommandReadBack(upper: Octets -> Octets, args: seq<Octets>, rest: Octets)
    requires args != [] && Sized(args)
    ensures var r := ReadCommand(upper, Build(args) + rest);
            r.Done? && r.value.raw == Build(args) && r.rest == rest && Says(upper, args, r.value)
  {
    hide ReadCommand, Says, Itoa, PrintAll, BuildItems;
    BulksPrinted(args);
    assert Texts(Bulks(args)) == args;
    assert Build(args) == Print(List(STAR, Bulks(args)));
    FramesAsCommand(upper, Bulks(args), rest);
  }

  // ---------------------------------------------------------------- the methods

  method WriteItem(b: Octets, arg: Octets) returns (r: Octets)
    ensures r == b + BuildItem(arg)
  {
    r := b + [DOLLAR];
    r := r + Itoa(|arg|);
    r := r + CRLF;
    r := r + arg;
    r := r + CRLF;
  }

  /** buildRESPCommand. */
  method BuildRespCommand(args: seq<Octets>) returns (b: Octets)
    ensures b == Build(args)
  {
    hide BuildItem, Itoa;
    b := [STAR] + Itoa(|args|) + CRLF;
    ghost var head := b;
    var i := 0;
    while i < |args|
      invariant 0 <= i <= |args|
      invariant b + BuildItems(args[i..]) == head + BuildItems(args)
    {
      assert args[i..][1..] == args[i + 1..];
      ghost var before := b;
      b := WriteItem(b, args[i]);
      assert before + (BuildItem(args[i]) + BuildItems(args[i + 1..])) == b + BuildItems(args[i + 1..]);
      i := i + 1;
    }
    assert BuildItems(args[i..]) == [] && b + [] == b;
    assert [STAR] + (Itoa(|args|) + CRLF) == head;
  }

  /** readRESPValueForCommand. */
  method ReadRespValueForCommand(c: Conn, prefix: byte) returns (v: Option<Value>)
    modifies c`input
    ensures Agrees(ReadValue(prefix, old(c.input)), v, c.input)
  {
    hide Atoi, FrameFrom, TrimCrlf;
    if prefix == DOLLAR {
      var line := ReadLineCrlf(c);
      if line.None? {
        return None;
      }
      var raw := [prefix] + line.value;
      var n := Atoi(TrimCrlf(line.value));
      if n.None? || n.value < 0 {
        assert c.input[..0] == [] && c.input[0..] == c.input && raw + [] == raw;
        return Some(Value(raw, []));
      }
      ghost var rest := c.input;
      var payload := c.ReadFull(n.value + 2);
      if payload.None? {
        return None;
      }
      assert payload.value[..n.value] == rest[..n.value];
      return Some(Value(raw + payload.value, payload.value[..n.value]));
    }
    if prefix == PLUS || prefix == COLON {
      var line := ReadLineCrlf(c);
      if line.None? {
        return None;
      }
      return Some(Value([prefix] + line.value, TrimCrlf(line.value)));
    }
    var raw := ReadFrameFromPrefix(c, prefix);
    if raw.None? {
      return None;
    }
    return Some(Value(raw.value, []));
  }

  /** After reading `done` of what `total` reads, `part` is still to be read. */
  predicate PartOfValues(total: Read<Values>, done: Values, part: Read<Values>) {
    match part
    case Eof => total.Eof?
    case Done(vs, rest) => total == Done(Values(done.raw + vs.raw, done.texts + vs.texts), rest)
  }

  lemma OneMoreValue(total: Read<Values>, done: Values, n: nat, here: Octets, v: Value, rest: Octets)
    requires n > 0 && here != [] && PartOfValues(total, done, ReadValues(n, here))
    requires ReadValue(here[0], here[1..]) == Done(v, rest)
    ensures PartOfValues(total, Values(done.raw + v.raw, done.texts + [v.text]), ReadValues(n - 1, rest))
  {
    hide ReadValue;
    var part := ReadValues(n - 1, rest);
    if part.Done? {
      assert done.raw + (v.raw + part.value.raw) == (done.raw + v.raw) + part.value.raw;
      assert done.texts + ([v.text] + part.value.texts) == (done.texts + [v.text]) + part.value.texts;
    }
  }

  method ReadRespValues(c: Conn, count: nat) returns (vs: Option<Values>)
    modifies c`input
    ensures Agrees(ReadValues(count, old(c.input)), vs, c.input)
  {
    hide ReadValue;
    ghost var s := c.input;
    var done, i := Values([], []), 0;
    assert PartOfValues(ReadValues(count, s), done, ReadValues(count, s)) by {
      var r := ReadValues(count, s);
      assert r.Done? ==> [] + r.value.raw == r.value.raw && [] + r.value.texts == r.value.texts;
    }
    while i < count
      invariant 0 <= i <= count
      invariant PartOfValues(ReadValues(count, s), done, ReadValues(count - i, c.input))
    {
      ghost var here := c.input;
      var p := ReadByte(c);
      if p.None? {
        return None;
      }
      var v := ReadRespValueForCommand(c, p.value);
      if v.None? {
        return None;
      }
      OneMoreValue(ReadValues(count, s), done, count - i, here, v.value, c.input);
      done := Values(done.raw + v.value.raw, done.texts + [v.value.text]);
      i := i + 1;
    }
    assert done.raw + [] == done.raw && done.texts + [] == done.texts;
    vs := Some(done);
  }

  /** readRESPCommand. */
  method ReadRespCommand(c: Conn, upper: Octets -> Octets) returns (cmd: Option<Command>)
    modifies c`input
    ensures Agrees(ReadCommand(upper, old(c.input)), cmd, c.input)
  {
    hide Atoi, FrameFrom, TrimCrlf, ReadValues, Trim, TrimAll;
    var prefix := ReadByte(c);
    if prefix.None? {
      return None;
    }
    if prefix.value != STAR {
      var raw := ReadFrameFromPrefix(c, prefix.value);
      if raw.None? {
        return None;
      }
      return Some(Command(raw.value, [], []));
    }
    var line := ReadLineCrlf(c);
    if line.None? {
      return None;
    }
    var raw := [STAR] + line.value;
    var count := Atoi(TrimCrlf(line.value));
    if count.None? || count.value <= 0 {
      return Some(Command(raw, [], []));
    }
    var vs := ReadRespValues(c, count.value);
    if vs.None? {
      return None;
    }
    var args := TrimRest(vs.value.texts);
    cmd := Some(Command(raw + vs.value.raw, upper(Trim(vs.value.texts[0])), args));
  }

  /** The loop over the items after the first. */
  method TrimRest(items: seq<Octets>) returns (args: seq<Octets>)
    requires items != []
    ensures args == TrimAll(items[1..])
  {
    hide Trim;
    args := [];
    var i := 1;
    while i < |items|
      invariant 1 <= i <= |items|
      invariant args == TrimAll(items[1..])[..i - 1]
    {
      args := args + [Trim(items[i])];
      i := i + 1;
    }
  }
}
