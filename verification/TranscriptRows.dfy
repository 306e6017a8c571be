/** The rows of a transcript: which commands and lines appear, and which lines are echoes. */
module TranscriptRows {
  import opened Bytes
  import opened Text
  import opened Transcript

  const MAX_PENDING := 32

  datatype Kind = DataIn | DataOut | OtherEvent

  /** A session event; `decoded` is None when its data is missing, blank, or not base64 of UTF-8. */
  datatype Item = Item(id: nat, time: int, kind: Kind, decoded: Option<Runes>)

  datatype Row = Row(id: nat, time: int, input: bool, text: Runes)

  /** What became of a command or an output line: a row, or an echo of the command at mark `of`. */
  datatype Mark = Shows(row: Row) | Echo(text: Runes, of: nat)

  datatype Waiting = Waiting(text: Runes, at: nat)

  datatype State = State(marks: seq<Mark>, pending: seq<Waiting>, buffer: Runes)

  const START := State([], [], [])

  function AddCommand(s: State, item: Item, command: Runes): State {
    var text := TrimRunes(command);
    if text == [] then s
    else
      var pending := s.pending + [Waiting(text, |s.marks|)];
      s.(marks := s.marks + [Shows(Row(item.id, item.time, true, text))],
         pending := if |pending| > MAX_PENDING then pending[1..] else pending)
  }

  function AddLine(s: State, item: Item, line: Runes): State {
    var text := TrimRunes(line);
    if text == [] then s
    else if s.pending != [] && text == s.pending[0].text then
      s.(marks := s.marks + [Echo(text, s.pending[0].at)], pending := s.pending[1..])
    else s.(marks := s.marks + [Shows(Row(item.id, item.time, false, text))])
  }

  function AddCommands(s: State, item: Item, commands: seq<Runes>): State
    decreases |commands|
  {
    if commands == [] then s else AddCommands(AddCommand(s, item, commands[0]), item, commands[1..])
  }

  function AddLines(s: State, item: Item, lines: seq<Runes>): State
    decreases |lines|
  {
    if lines == [] then s else AddLines(AddLine(s, item, lines[0]), item, lines[1..])
  }

  function AddItem(s: State, item: Item): State {
    if item.decoded.None? then s
    else
      match item.kind
      case DataIn =>
        var t := Consume(item.decoded.value, s.buffer);
        AddCommands(s.(buffer := t.buffer), item, t.commands)
      case DataOut => AddLines(s, item, Lines(item.decoded.value))
      case OtherEvent => s
  }

  function Normalize(s: State, items: seq<Item>): State
    decreases |items|
  {
    if items == [] then s else Normalize(AddItem(s, items[0]), items[1..])
  }

  function Rows(marks: seq<Mark>): seq<Row> {
    if marks == [] then []
    else Rows(marks[..|marks| - 1]) + (if marks[|marks| - 1].Shows? then [marks[|marks| - 1].row] else [])
  }

  function Texts(pending: seq<Waiting>): (s: seq<Runes>)
    ensures |s| == |pending| && forall i :: 0 <= i < |s| ==> s[i] == pending[i].text
  {
    seq(|pending|, i requires 0 <= i < |pending| => pending[i].text)
  }

  lemma RowsSnoc(marks: seq<Mark>, m: Mark)
    ensures Rows(marks + [m]) == Rows(marks) + (if m.Shows? then [m.row] else [])
  {
    assert (marks + [m])[..|marks|] == marks;
  }

  // ---------------------------------------------------------------- the loops

  /** The rows and the pending echoes, as the loops hold them, are those of state s. */
  predicate Holds(s: State, rows: seq<Row>, pending: seq<Runes>) {
    Rows(s.marks) == rows && Texts(s.pending) == pending
  }

  method AddCommandRows(item: Item, commands: seq<Runes>, rows: seq<Row>, pending: seq<Runes>, ghost s: State)
    returns (rows': seq<Row>, pending': seq<Runes>)
    requires Holds(s, rows, pending)
    ensures Holds(AddCommands(s, item, commands), rows', pending')
  {
    hide Rows, Texts;
    rows', pending' := rows, pending;
    ghost var t := s;
    var i := 0;
    assert commands[0..] == commands;
    while i < |commands|
      invariant 0 <= i <= |commands|
      invariant Holds(t, rows', pending') && AddCommands(t, item, commands[i..]) == AddCommands(s, item, commands)
    {
      assert commands[i..][1..] == commands[i + 1..];
      var trimmed := TrimRunes(commands[i]);
      i := i + 1;
      ghost var t' := AddCommand(t, item, commands[i - 1]);
      if trimmed != [] {
        RowsSnoc(t.marks, Shows(Row(item.id, item.time, true, trimmed)));
        rows' := rows' + [Row(item.id, item.time, true, trimmed)];
        pending' := pending' + [trimmed];
        if |pending'| > MAX_PENDING {
          pending' := pending'[1..];
        }
        assert Texts(t'.pending) == pending';
      }
      t := t';
    }
  }

  method AddLineRows(item: Item, lines: seq<Runes>, rows: seq<Row>, pending: seq<Runes>, ghost s: State)
    returns (rows': seq<Row>, pending': seq<Runes>)
    requires Holds(s, rows, pending)
    ensures Holds(AddLines(s, item, lines), rows', pending')
  {
    hide Rows, Texts;
    rows', pending' := rows, pending;
    ghost var t := s;
    var i := 0;
    assert lines[0..] == lines;
    while i < |lines|
      invariant 0 <= i <= |lines|
      invariant Holds(t, rows', pending') && AddLines(t, item, lines[i..]) == AddLines(s, item, lines)
    {
      assert lines[i..][1..] == lines[i + 1..];
      var trimmed := TrimRunes(lines[i]);
      i := i + 1;
      ghost var t' := AddLine(t, item, lines[i - 1]);
      if trimmed != [] {
        if |pending'| > 0 && trimmed == pending'[0] {
          RowsSnoc(t.marks, Echo(trimmed, t.pending[0].at));
          pending' := pending'[1..];
          assert Texts(t'.pending) == pending';
          assert rows' + [] == rows';
        } else {
          RowsSnoc(t.marks, Shows(Row(item.id, item.time, false, trimmed)));
          rows' := rows' + [Row(item.id, item.time, false, trimmed)];
        }
      }
      t := t';
    }
  }

  /** normalizeTranscriptRows. */
  method NormalizeTranscriptRows(items: seq<Item>) returns (rows: seq<Row>)
    ensures rows == Rows(Normalize(START, items).marks)
  {
    hide AddCommands, AddLines, Holds, Lines, Type, StripAnsi;
    rows := [];
    var pendingEchoes: seq<Runes> := [];
    var inputBuffer: Runes := [];
    ghost var s := START;
    var i := 0;
    assert Holds(START, [], []) && items[0..] == items by {
      HoldsStart();
    }
    while i < |items|
      invariant 0 <= i <= |items|
      invariant Holds(s, rows, pendingEchoes) && inputBuffer == s.buffer
      invariant Normalize(s, items[i..]) == Normalize(START, items)
    {
      var item := items[i];
      assert items[i..][1..] == items[i + 1..];
      i := i + 1;
      ghost var before := s;
      s := AddItem(s, item);
      if item.kind.OtherEvent? || item.decoded.None? {
        continue;
      }
      if item.kind.DataIn? {
        var commands, nextBuf := ConsumeInputChunk(item.decoded.value, inputBuffer);
        inputBuffer := nextBuf;
        HoldsBuffer(before, nextBuf, rows, pendingEchoes);
        rows, pendingEchoes := AddCommandRows(item, commands, rows, pendingEchoes, before.(buffer := nextBuf));
        CommandsKeepBuffer(before.(buffer := nextBuf), item, commands);
        continue;
      }
      var lines := NormalizeOutputChunk(item.decoded.value);
      rows, pendingEchoes := AddLineRows(item, lines, rows, pendingEchoes, before);
      LinesKeepBuffer(before, item, lines);
    }
    HoldsRows(s, rows, pendingEchoes);
  }

  lemma HoldsStart()
    ensures Holds(START, [], [])
  {
  }

  lemma HoldsBuffer(s: State, buffer: Runes, rows: seq<Row>, pending: seq<Runes>)
    ensures Holds(s, rows, pending) ==> Holds(s.(buffer := buffer), rows, pending)
  {
  }

  lemma HoldsRows(s: State, rows: seq<Row>, pending: seq<Runes>)
    ensures Holds(s, rows, pending) ==> rows == Rows(s.marks)
  {
  }

  lemma {:induction false} CommandsKeepBuffer(s: State, item: Item, commands: seq<Runes>)
    ensures AddCommands(s, item, commands).buffer == s.buffer
    decreases |commands|
  {
    if commands != [] {
      CommandsKeepBuffer(AddCommand(s, item, commands[0]), item, commands[1..]);
    }
  }

  lemma {:induction false} LinesKeepBuffer(s: State, item: Item, lines: seq<Runes>)
    ensures AddLines(s, item, lines).buffer == s.buffer
    decreases |lines|
  {
    if lines != [] {
      LinesKeepBuffer(AddLine(s, item, lines[0]), item, lines[1..]);
    }
  }

  // ---------------------------------------------------------------- conservation

  /** The texts of the marks that are commands. */
  function Commands(marks: seq<Mark>): seq<Runes> {
    if marks == [] then []
    else
      var m := marks[|marks| - 1];
      Commands(marks[..|marks| - 1]) + (if m.Shows? && m.row.input then [m.row.text] else [])
  }

  /** The texts of the marks that are output lines, shown or suppressed. */
  function OutputLines(marks: seq<Mark>): seq<Runes> {
    if marks == [] then []
    else
      var m := marks[|marks| - 1];
      OutputLines(marks[..|marks| - 1])
      + (if m.Echo? then [m.text] else if m.row.input then [] else [m.row.text])
  }

  /** The lines, trimmed, without those that are blank. */
  function NonBlank(lines: seq<Runes>): seq<Runes> {
    if lines == [] then []
    else (if TrimRunes(lines[0]) == [] then [] else [TrimRunes(lines[0])]) + NonBlank(lines[1..])
  }

  /** All that was typed, chunk by chunk, from a buffer on. */
  function TypedCommands(items: seq<Item>, buffer: Runes): seq<Runes>
    decreases |items|
  {
    if items == [] then []
    else if items[0].kind.DataIn? && items[0].decoded.Some? then
      var t := Consume(items[0].decoded.value, buffer);
      t.commands + TypedCommands(items[1..], t.buffer)
    else TypedCommands(items[1..], buffer)
  }

  function ShownLines(items: seq<Item>): seq<Runes> {
    if items == [] then []
    else
      (if items[0].kind.DataOut? && items[0].decoded.Some? then Lines(items[0].decoded.value) else [])
      + ShownLines(items[1..])
  }

  lemma MarksSnoc(marks: seq<Mark>, m: Mark)
    ensures Commands(marks + [m]) == Commands(marks) + (if m.Shows? && m.row.input then [m.row.text] else [])
    ensures OutputLines(marks + [m])
            == OutputLines(marks) + (if m.Echo? then [m.text] else if m.row.input then [] else [m.row.text])
  {
    assert (marks + [m])[..|marks|] == marks;
  }

  lemma {:induction false} NonBlankAppend(a: seq<Runes>, b: seq<Runes>)
    ensures NonBlank(a + b) == NonBlank(a) + NonBlank(b)
    decreases |a|
  {
    hide TrimRunes;
    if a == [] {
      assert a + b == b;
    } else {
      NonBlankAppend(a[1..], b);
      assert (a + b)[1..] == a[1..] + b;
      var first := if TrimRunes(a[0]) == [] then [] else [TrimRunes(a[0])];
      assert first + (NonBlank(a[1..]) + NonBlank(b)) == (first + NonBlank(a[1..])) + NonBlank(b);
    }
  }

  /** Three pieces joined one way or the other. */
  lemma Joined(a: seq<Runes>, b: seq<Runes>, c: seq<Runes>)
    ensures (a + b) + c == a + (b + c) && a + [] == a && [] + c == c
  {
  }

  lemma CommandConserved(s: State, item: Item, command: Runes)
    ensures var t, text := AddCommand(s, item, command), TrimRunes(command);
            && Commands(t.marks) == Commands(s.marks) + (if text == [] then [] else [text])
            && OutputLines(t.marks) == OutputLines(s.marks)
  {
    hide Commands, OutputLines, TrimRunes;
    MarksSnoc(s.marks, Shows(Row(item.id, item.time, true, TrimRunes(command))));
    Joined(Commands(s.marks), [], []);
    Joined(OutputLines(s.marks), [], []);
  }

  lemma {:induction false} CommandsConserved(s: State, item: Item, commands: seq<Runes>)
    ensures var t := AddCommands(s, item, commands);
            Commands(t.marks) == Commands(s.marks) + NonBlank(commands) && OutputLines(t.marks) == OutputLines(s.marks)
    decreases |commands|
  {
    hide Commands, OutputLines, AddCommand, TrimRunes;
    Joined(Commands(s.marks), [], []);
    if commands != [] {
      var text := TrimRunes(commands[0]);
      CommandConserved(s, item, commands[0]);
      CommandsConserved(AddCommand(s, item, commands[0]), item, commands[1..]);
      Joined(Commands(s.marks), if text == [] then [] else [text], NonBlank(commands[1..]));
    }
  }

  lemma LineConserved(s: State, item: Item, line: Runes)
    ensures var t, text := AddLine(s, item, line), TrimRunes(line);
            && OutputLines(t.marks) == OutputLines(s.marks) + (if text == [] then [] else [text])
            && Commands(t.marks) == Commands(s.marks)
  {
    hide Commands, OutputLines, TrimRunes;
    var text := TrimRunes(line);
    Joined(Commands(s.marks), [], []);
    Joined(OutputLines(s.marks), [], []);
    MarksSnoc(s.marks, Shows(Row(item.id, item.time, false, text)));
    if s.pending != [] {
      MarksSnoc(s.marks, Echo(text, s.pending[0].at));
    }
  }

  lemma {:induction false} LinesConserved(s: State, item: Item, lines: seq<Runes>)
    ensures var t := AddLines(s, item, lines);
            OutputLines(t.marks) == OutputLines(s.marks) + NonBlank(lines) && Commands(t.marks) == Commands(s.marks)
    decreases |lines|
  {
    hide Commands, OutputLines, AddLine, TrimRunes;
    Joined(OutputLines(s.marks), [], []);
    if lines != [] {
      var text := TrimRunes(lines[0]);
      LineConserved(s, item, lines[0]);
      LinesConserved(AddLine(s, item, lines[0]), item, lines[1..]);
      Joined(OutputLines(s.marks), if text == [] then [] else [text], NonBlank(lines[1..]));
    }
  }

  /** The lines one item completes or shows. */
  function ItemCommands(item: Item, buffer: Runes): seq<Runes> {
    if item.kind.DataIn? && item.decoded.Some? then Consume(item.decoded.value, buffer).commands else []
  }

  function ItemLines(item: Item): seq<Runes> {
    if item.kind.DataOut? && item.decoded.Some? then Lines(item.decoded.value) else []
  }

  lemma ItemConserves(s: State, item: Item)
    ensures var t := AddItem(s, item);
            && Commands(t.marks) == Commands(s.marks) + NonBlank(ItemCommands(item, s.buffer))
            && OutputLines(t.marks) == OutputLines(s.marks) + NonBlank(ItemLines(item))
            && t.buffer == (if item.kind.DataIn? && item.decoded.Some? then Consume(item.decoded.value, s.buffer).buffer
                            else s.buffer)
  {
    hide Commands, OutputLines, AddCommands, AddLines, Lines, Consume;
    assert Commands(s.marks) + [] == Commands(s.marks) && OutputLines(s.marks) + [] == OutputLines(s.marks);
    if item.decoded.Some? && item.kind.DataIn? {
      var t := Consume(item.decoded.value, s.buffer);
      CommandsConserved(s.(buffer := t.buffer), item, t.commands);
      CommandsKeepBuffer(s.(buffer := t.buffer), item, t.commands);
    } else if item.decoded.Some? && item.kind.DataOut? {
      LinesConserved(s, item, Lines(item.decoded.value));
      LinesKeepBuffer(s, item, Lines(item.decoded.value));
    }
  }

  lemma {:induction false} NormalizeConserves(s: State, items: seq<Item>)
    ensures var t := Normalize(s, items);
            && Commands(t.marks) == Commands(s.marks) + NonBlank(TypedCommands(items, s.buffer))
            && OutputLines(t.marks) == OutputLines(s.marks) + NonBlank(ShownLines(items))
    decreases |items|
  {
    hide Commands, OutputLines, Lines, Consume, AddItem, NonBlank;
    if items == [] {
      NonBlankNone();
      Joined(Commands(s.marks), [], []);
      Joined(OutputLines(s.marks), [], []);
    } else {
      var item, one := items[0], AddItem(s, items[0]);
      ItemConserves(s, item);
      NormalizeConserves(one, items[1..]);
      var c, l := ItemCommands(item, s.buffer), ItemLines(item);
      var c', l' := TypedCommands(items[1..], one.buffer), ShownLines(items[1..]);
      assert [] + c' == c';
      assert TypedCommands(items, s.buffer) == c + c' && ShownLines(items) == l + l';
      NonBlankAppend(c, c');
      NonBlankAppend(l, l');
      Joined(Commands(s.marks), NonBlank(c), NonBlank(c'));
      Joined(OutputLines(s.marks), NonBlank(l), NonBlank(l'));
    }
  }

  lemma NonBlankNone()
    ensures NonBlank([]) == []
  {
  }

  /** The texts of the "in" rows. */
  function InTexts(rows: seq<Row>): seq<Runes> {
    if rows == [] then []
    else InTexts(rows[..|rows| - 1]) + (if rows[|rows| - 1].input then [rows[|rows| - 1].text] else [])
  }

  lemma {:induction false} InRowsAreCommands(marks: seq<Mark>)
    ensures InTexts(Rows(marks)) == Commands(marks)
  {
    if marks != [] {
      var n := |marks| - 1;
      InRowsAreCommands(marks[..n]);
      if marks[n].Shows? {
        assert Rows(marks)[..|Rows(marks)| - 1] == Rows(marks[..n]);
      } else {
        assert Rows(marks) == Rows(marks[..n]);
      }
    }
  }

  // ---------------------------------------------------------------- echoes

  /** Mark i is an echo: it repeats an earlier command. */
  predicate EchoOk(marks: seq<Mark>, i: nat)
    requires i < |marks|
  {
    marks[i].Echo? ==>
      && marks[i].of < i
      && IsCommand(marks[marks[i].of], marks[i].text)
  }

  predicate IsCommand(m: Mark, text: Runes) {
    m.Shows? && m.row.input && m.row.text == text
  }

  /** Echoes are of earlier commands, in the order of the commands, each command at most once. */
  predicate EchoesOk(marks: seq<Mark>) {
    && (forall i :: 0 <= i < |marks| ==> EchoOk(marks, i))
    && (forall i, j :: 0 <= i < j < |marks| && marks[i].Echo? && marks[j].Echo? ==> marks[i].of < marks[j].of)
  }

  predicate Inv(s: State) {
    Linked(s) && |s.pending| <= MAX_PENDING
  }

  /** The pending echoes are later commands than those echoed so far, in order. */
  predicate Linked(s: State) {
    && EchoesOk(s.marks)
    && (forall k :: 0 <= k < |s.pending| ==>
          s.pending[k].at < |s.marks| && IsCommand(s.marks[s.pending[k].at], s.pending[k].text))
    && (forall j, k :: 0 <= j < k < |s.pending| ==> s.pending[j].at < s.pending[k].at)
    && (forall i, k :: 0 <= i < |s.marks| && s.marks[i].Echo? && 0 <= k < |s.pending| ==>
          s.marks[i].of < s.pending[k].at)
  }

  // ---------------------------------------------------------------- which lines are echoes

  predicate CommandMark(m: Mark) {
    m.Shows? && m.row.input
  }

  /** How many commands were typed after the mark at c. */
  function CommandsAfter(marks: seq<Mark>, c: nat): (n: nat)
  {
    if |marks| <= c + 1 then 0
    else CommandsAfter(marks[..|marks| - 1], c) + (if CommandMark(marks[|marks| - 1]) then 1 else 0)
  }

  /** The command at mark c has not been echoed, and fewer than 32 were typed after it. */
  predicate Awaits(marks: seq<Mark>, c: nat)
    requires c < |marks|
  {
    && CommandMark(marks[c]) && CommandsAfter(marks, c) < MAX_PENDING
    && forall i :: 0 <= i < |marks| && marks[i].Echo? ==> marks[i].of != c
  }

  /** The oldest command that still awaits its echo. */
  predicate Oldest(marks: seq<Mark>, c: int) {
    0 <= c < |marks| && Awaits(marks, c) && forall d :: 0 <= d < c ==> !Awaits(marks, d)
  }

  /** Mark i, if an output line, is suppressed exactly if it equals the oldest command that awaits its echo. */
  ghost predicate EchoRight(marks: seq<Mark>, i: nat)
    requires i < |marks|
  {
    match marks[i]
    case Echo(text, of) => Oldest(marks[..i], of) && IsCommand(marks[of], text)
    case Shows(row) => row.input || forall c :: Oldest(marks[..i], c) ==> !IsCommand(marks[c], row.text)
  }

  ghost predicate EchoesRight(marks: seq<Mark>) {
    forall i :: 0 <= i < |marks| ==> EchoRight(marks, i)
  }

  /** The pending echoes are the commands that await theirs, each with those after it behind it. */
  predicate Counted(s: State) {
    && (forall k :: 0 <= k < |s.pending| ==>
          s.pending[k].at < |s.marks| && CommandsAfter(s.marks, s.pending[k].at) == |s.pending| - 1 - k)
    && (forall c :: 0 <= c < |s.marks| && Awaits(s.marks, c) ==>
          exists k :: 0 <= k < |s.pending| && s.pending[k].at == c)
  }

  ghost predicate QueueOk(s: State) {
    Inv(s) && Counted(s) && EchoesRight(s.marks)
  }

  lemma CommandsAfterSnoc(marks: seq<Mark>, m: Mark, c: nat)
    requires c < |marks|
    ensures CommandsAfter(marks + [m], c) == CommandsAfter(marks, c) + (if CommandMark(m) then 1 else 0)
  {
    assert (marks + [m])[..|marks|] == marks;
  }

  lemma NoneAfter(marks: seq<Mark>, m: Mark)
    ensures CommandsAfter(marks + [m], |marks|) == 0
  {
  }

  /** The head of the queue is the oldest command that awaits its echo. */
  lemma HeadIsOldest(s: State)
    requires Inv(s) && Counted(s)
    ensures s.pending != [] ==> Oldest(s.marks, s.pending[0].at)
    ensures forall c :: Oldest(s.marks, c) ==> s.pending != [] && c == s.pending[0].at
  {
    hide EchoesOk, CommandsAfter, Awaits;
    assert forall k :: 0 < k < |s.pending| ==> s.pending[0].at < s.pending[k].at;
    if s.pending != [] {
      PendingAwaits(s, 0);
    }
  }

  lemma PendingAwaits(s: State, k: nat)
    requires Inv(s) && Counted(s) && k < |s.pending|
    ensures s.pending[k].at < |s.marks| && Awaits(s.marks, s.pending[k].at)
  {
    hide EchoesOk, CommandsAfter;
    assert IsCommand(s.marks[s.pending[k].at], s.pending[k].text);
    forall i | 0 <= i < |s.marks| && s.marks[i].Echo?
      ensures s.marks[i].of != s.pending[k].at
    {
    }
  }

  /** One more mark that is right. */
  lemma EchoesRightSnoc(marks: seq<Mark>, m: Mark)
    requires EchoesRight(marks) && EchoRight(marks + [m], |marks|)
    requires EchoesOk(marks)
    ensures EchoesRight(marks + [m])
  {
    hide Oldest, EchoOk;
    var marks' := marks + [m];
    forall i | 0 <= i < |marks'|
      ensures EchoRight(marks', i)
    {
      if i < |marks| {
        assert EchoRight(marks, i) && marks'[..i] == marks[..i];
        OldestBound(marks, i);
      }
    }
  }

  lemma OldestBound(marks: seq<Mark>, i: nat)
    ensures i < |marks| ==> (forall c :: Oldest(marks[..i], c) ==> 0 <= c < i)
  {
  }

  /** An old command awaits its echo after one more mark exactly if it did, is not echoed by it, nor pushed out. */
  lemma AwaitsSnoc(marks: seq<Mark>, m: Mark, c: nat)
    requires c < |marks|
    ensures Awaits(marks + [m], c)
            <==> Awaits(marks, c) && !(m.Echo? && m.of == c)
                 && (CommandMark(m) ==> CommandsAfter(marks, c) + 1 < MAX_PENDING)
  {
    hide CommandsAfter;
    CommandsAfterSnoc(marks, m, c);
    var marks' := marks + [m];
    assert forall i :: 0 <= i < |marks| ==> marks'[i] == marks[i];
    assert marks'[|marks|] == m;
  }

  lemma AddCommandCounts(s: State, item: Item, command: Runes)
    requires QueueOk(s)
    ensures QueueOk(AddCommand(s, item, command))
  {
    hide TrimRunes, Linked, EchoesRight, CommandsAfter, Awaits;
    var text := TrimRunes(command);
    if text != [] {
      var m, n := Shows(Row(item.id, item.time, true, text)), |s.marks|;
      var s', full := AddCommand(s, item, command), s.pending + [Waiting(text, n)];
      ShowKeeps(s, m.row);
      ForgetFirst(s.(marks := s.marks + [m], pending := full));
      InvMarks(s);
      assert EchoRight(s.marks + [m], n);
      EchoesRightSnoc(s.marks, m);
      NoneAfter(s.marks, m);
      forall k | 0 <= k < |s'.pending|
        ensures s'.pending[k].at <= n && CommandsAfter(s'.marks, s'.pending[k].at) == |s'.pending| - 1 - k
      {
        if s'.pending[k].at < n {
          CommandsAfterSnoc(s.marks, m, s'.pending[k].at);
        }
      }
      forall c | 0 <= c < n && Awaits(s'.marks, c)
        ensures exists k :: 0 <= k < |s'.pending| && s'.pending[k].at == c
      {
        AwaitsSnoc(s.marks, m, c);
        var k :| 0 <= k < |s.pending| && s.pending[k].at == c;
        assert full[k].at == c;
        if |full| > MAX_PENDING {
          assert k > 0 && s'.pending[k - 1].at == c;
        }
      }
      var last := |s'.pending| - 1;
      assert s'.pending[last].at == n;
    }
  }

  lemma InvMarks(s: State)
    requires Inv(s)
    ensures EchoesOk(s.marks) && |s.pending| <= MAX_PENDING
    ensures forall k :: 0 <= k < |s.pending| ==>
              s.pending[k].at < |s.marks| && IsCommand(s.marks[s.pending[k].at], s.pending[k].text)
  {
  }

  /** What is left to show of a line: the queue as it is, or without its head. */
  lemma LineCounts(s: State, s': State, m: Mark)
    requires Counted(s) && Inv(s) && !CommandMark(m) && s'.marks == s.marks + [m]
    requires if m.Echo? then s.pending != [] && m.of == s.pending[0].at && s'.pending == s.pending[1..]
             else s'.pending == s.pending
    ensures Counted(s')
  {
    hide Inv, CommandsAfter, Awaits;
    InvMarks(s);
    forall k | 0 <= k < |s'.pending|
      ensures s'.pending[k].at < |s'.marks| && CommandsAfter(s'.marks, s'.pending[k].at) == |s'.pending| - 1 - k
    {
      CommandsAfterSnoc(s.marks, m, s'.pending[k].at);
    }
    forall c | 0 <= c < |s'.marks| && Awaits(s'.marks, c)
      ensures exists k :: 0 <= k < |s'.pending| && s'.pending[k].at == c
    {
      if c == |s.marks| {
        NoAwait(s'.marks, c);
      } else {
        AwaitsSnoc(s.marks, m, c);
        var k :| 0 <= k < |s.pending| && s.pending[k].at == c;
        if m.Echo? {
          assert k > 0 && s'.pending[k - 1].at == c;
        }
      }
    }
  }

  lemma NoAwait(marks: seq<Mark>, c: nat)
    ensures c < |marks| && !CommandMark(marks[c]) ==> !Awaits(marks, c)
  {
  }

  lemma AddLineCounts(s: State, item: Item, line: Runes)
    requires QueueOk(s)
    ensures QueueOk(AddLine(s, item, line))
  {
    hide TrimRunes, Linked, EchoesRight, Counted, Oldest;
    var text := TrimRunes(line);
    if text != [] {
      var s' := AddLine(s, item, line);
      if s.pending != [] {
        EchoKeeps(s);
      }
      ShowKeeps(s, Row(item.id, item.time, false, text));
      InvMarks(s);
      HeadIsOldest(s);
      var m := s'.marks[|s.marks|];
      assert s'.marks == s.marks + [m] && s'.marks[..|s.marks|] == s.marks;
      assert EchoRight(s'.marks, |s.marks|);
      EchoesRightSnoc(s.marks, m);
      LineCounts(s, s', m);
    }
  }

  lemma {:induction false} AddCommandsCount(s: State, item: Item, commands: seq<Runes>)
    requires QueueOk(s)
    ensures QueueOk(AddCommands(s, item, commands))
    decreases |commands|
  {
    hide QueueOk, AddCommand;
    if commands != [] {
      AddCommandCounts(s, item, commands[0]);
      AddCommandsCount(AddCommand(s, item, commands[0]), item, commands[1..]);
    }
  }

  lemma {:induction false} AddLinesCount(s: State, item: Item, lines: seq<Runes>)
    requires QueueOk(s)
    ensures QueueOk(AddLines(s, item, lines))
    decreases |lines|
  {
    hide QueueOk, AddLine;
    if lines != [] {
      AddLineCounts(s, item, lines[0]);
      AddLinesCount(AddLine(s, item, lines[0]), item, lines[1..]);
    }
  }

  lemma {:induction false} NormalizeCounts(s: State, items: seq<Item>)
    requires QueueOk(s)
    ensures QueueOk(Normalize(s, items))
    decreases |items|
  {
    hide QueueOk, AddCommands, AddLines, Consume, Lines;
    if items != [] {
      var item := items[0];
      if item.decoded.Some? && item.kind.DataIn? {
        var t := Consume(item.decoded.value, s.buffer);
        QueueBuffer(s, t.buffer);
        AddCommandsCount(s.(buffer := t.buffer), item, t.commands);
      } else if item.decoded.Some? && item.kind.DataOut? {
        AddLinesCount(s, item, Lines(item.decoded.value));
      }
      NormalizeCounts(AddItem(s, item), items[1..]);
    }
  }

  lemma QueueBuffer(s: State, buffer: Runes)
    requires QueueOk(s)
    ensures QueueOk(s.(buffer := buffer))
  {
    InvBuffer(s, buffer);
  }

  /**
   Main result: an output line is suppressed if and only if it equals the oldest command
   that awaits its echo, one not echoed so far and with fewer than 32 typed after it.
   */
  lemma EchoesExactly(items: seq<Item>)
    ensures EchoesRight(Normalize(START, items).marks)
  {
    hide Normalize;
    NormalizeCounts(START, items);
  }

  lemma ForgetFirst(s: State)
    requires Linked(s) && s.pending != []
    ensures Linked(s.(pending := s.pending[1..]))
  {
    hide EchoesOk;
    assert forall k :: 0 <= k < |s.pending| - 1 ==> s.pending[1..][k] == s.pending[k + 1];
  }

  lemma ShowEchoes(marks: seq<Mark>, row: Row)
    requires EchoesOk(marks)
    ensures EchoesOk(marks + [Shows(row)])
    ensures forall i :: 0 <= i < |marks| && marks[i].Echo? ==> marks[i].of < |marks|
  {
    var marks' := marks + [Shows(row)];
    forall i | 0 <= i < |marks| && marks[i].Echo?
      ensures marks[i].of < |marks|
    {
      assert EchoOk(marks, i);
    }
    forall i | 0 <= i < |marks'|
      ensures EchoOk(marks', i)
    {
      if i < |marks| {
        assert EchoOk(marks, i);
      }
    }
  }

  lemma ShowKeeps(s: State, row: Row)
    requires Linked(s)
    ensures Linked(s.(marks := s.marks + [Shows(row)]))
    ensures row.input ==>
              Linked(s.(marks := s.marks + [Shows(row)], pending := s.pending + [Waiting(row.text, |s.marks|)]))
  {
    hide EchoesOk;
    ShowEchoes(s.marks, row);
    var marks, pending := s.marks + [Shows(row)], s.pending + [Waiting(row.text, |s.marks|)];
    assert forall i :: 0 <= i < |s.marks| ==> marks[i] == s.marks[i];
    assert forall k :: 0 <= k < |s.pending| ==> pending[k] == s.pending[k];
  }

  lemma EchoKeeps(s: State)
    requires Linked(s) && s.pending != []
    ensures Linked(s.(marks := s.marks + [Echo(s.pending[0].text, s.pending[0].at)], pending := s.pending[1..]))
  {
    var marks := s.marks + [Echo(s.pending[0].text, s.pending[0].at)];
    assert forall i :: 0 <= i < |s.marks| ==> marks[i] == s.marks[i];
    assert forall k :: 0 <= k < |s.pending| - 1 ==> s.pending[1..][k] == s.pending[k + 1];
    forall i | 0 <= i < |marks|
      ensures EchoOk(marks, i)
    {
      if i < |s.marks| {
        assert EchoOk(s.marks, i);
      }
    }
  }

  lemma InvBuffer(s: State, buffer: Runes)
    ensures Inv(s) ==> Inv(s.(buffer := buffer))
  {
  }

  /**
   Main result. The marks account for everything: the "in" rows are all non-blank
   commands, in order; the "out" rows and the suppressed lines are all non-blank output
   lines, in order; the suppressed lines repeat earlier commands, in the commands' order,
   no command twice; and at most 32 commands wait for their echo.
   */
  lemma TranscriptConserves(items: seq<Item>)
    ensures var s := Normalize(START, items);
            && InTexts(Rows(s.marks)) == Commands(s.marks) == NonBlank(TypedCommands(items, []))
            && OutputLines(s.marks) == NonBlank(ShownLines(items))
            && EchoesOk(s.marks)
            && |s.pending| <= MAX_PENDING
  {
    hide Normalize, TypedCommands, ShownLines, NonBlank;
    NormalizeConserves(START, items);
    NormalizeCounts(START, items);
    var s := Normalize(START, items);
    assert Commands(START.marks) == [] && OutputLines(START.marks) == [];
    InRowsAreCommands(s.marks);
  }

  // ---------------------------------------------------------------- row by row

  /** A row for each of these texts of an item, trimmed, unless it is blank. */
  function RowsOf(item: Item, input: bool, texts: seq<Runes>): seq<Row> {
    if texts == [] then []
    else
      var text := TrimRunes(texts[0]);
      (if text == [] then [] else [Row(item.id, item.time, input, text)]) + RowsOf(item, input, texts[1..])
  }

  /** Every command and output line of the items, one after the other, under its item's id and time. */
  function AllRows(items: seq<Item>, buffer: Runes): seq<Row>
    decreases |items|
  {
    if items == [] then []
    else
      var item := items[0];
      match item.kind
      case OtherEvent => AllRows(items[1..], buffer)
      case DataOut =>
        (if item.decoded.None? then [] else RowsOf(item, false, Lines(item.decoded.value)))
        + AllRows(items[1..], buffer)
      case DataIn =>
        if item.decoded.None? then AllRows(items[1..], buffer)
        else
          var t := Consume(item.decoded.value, buffer);
          RowsOf(item, true, t.commands) + AllRows(items[1..], t.buffer)
  }

  /** Mark by mark: what is shown is that row; what is suppressed would have been that output row. */
  predicate Accounts(marks: seq<Mark>, rows: seq<Row>) {
    && |marks| == |rows|
    && forall i :: 0 <= i < |marks| ==>
         match marks[i] case Shows(row) => row == rows[i] case Echo(text, _) => !rows[i].input && text == rows[i].text
  }

  lemma AccountsSnoc(marks: seq<Mark>, rows: seq<Row>, m: Mark, row: Row)
    requires Accounts(marks, rows)
    requires match m case Shows(r) => r == row case Echo(text, _) => !row.input && text == row.text
    ensures Accounts(marks + [m], rows + [row])
  {
  }

  lemma {:induction false} CommandsAccounted(s: State, item: Item, commands: seq<Runes>, rows: seq<Row>)
    requires Accounts(s.marks, rows)
    ensures Accounts(AddCommands(s, item, commands).marks, rows + RowsOf(item, true, commands))
    decreases |commands|
  {
    hide TrimRunes, Accounts;
    if commands == [] {
      assert rows + [] == rows;
    } else {
      var text := TrimRunes(commands[0]);
      var row := Row(item.id, item.time, true, text);
      AccountsSnoc(s.marks, rows, Shows(row), row);
      RowsJoined(rows, [row], RowsOf(item, true, commands[1..]));
      CommandsAccounted(AddCommand(s, item, commands[0]), item, commands[1..],
                        if text == [] then rows else rows + [row]);
    }
  }

  lemma {:induction false} LinesAccounted(s: State, item: Item, lines: seq<Runes>, rows: seq<Row>)
    requires Accounts(s.marks, rows)
    ensures Accounts(AddLines(s, item, lines).marks, rows + RowsOf(item, false, lines))
    decreases |lines|
  {
    hide TrimRunes, Accounts;
    if lines == [] {
      assert rows + [] == rows;
    } else {
      var text := TrimRunes(lines[0]);
      var row := Row(item.id, item.time, false, text);
      var m := if s.pending != [] && text == s.pending[0].text then Echo(text, s.pending[0].at) else Shows(row);
      AccountsSnoc(s.marks, rows, m, row);
      RowsJoined(rows, [row], RowsOf(item, false, lines[1..]));
      LinesAccounted(AddLine(s, item, lines[0]), item, lines[1..], if text == [] then rows else rows + [row]);
    }
  }

  lemma {:induction false} ItemsAccounted(s: State, items: seq<Item>, rows: seq<Row>)
    requires Accounts(s.marks, rows)
    ensures Accounts(Normalize(s, items).marks, rows + AllRows(items, s.buffer))
    decreases |items|
  {
    hide Accounts, RowsOf, Lines, Consume, AddCommands, AddLines;
    if items == [] {
      assert rows + [] == rows;
    } else {
      var item, rest := items[0], items[1..];
      if item.decoded.Some? && item.kind.DataIn? {
        var t := Consume(item.decoded.value, s.buffer);
        CommandsAccounted(s.(buffer := t.buffer), item, t.commands, rows);
        CommandsKeepBuffer(s.(buffer := t.buffer), item, t.commands);
        ItemsAccounted(AddItem(s, item), rest, rows + RowsOf(item, true, t.commands));
        RowsJoined(rows, RowsOf(item, true, t.commands), AllRows(rest, t.buffer));
      } else if item.decoded.Some? && item.kind.DataOut? {
        var lines := Lines(item.decoded.value);
        LinesAccounted(s, item, lines, rows);
        LinesKeepBuffer(s, item, lines);
        ItemsAccounted(AddItem(s, item), rest, rows + RowsOf(item, false, lines));
        RowsJoined(rows, RowsOf(item, false, lines), AllRows(rest, s.buffer));
      } else {
        ItemsAccounted(s, rest, rows);
        RowsJoined([], [], AllRows(rest, s.buffer));
      }
    }
  }

  lemma RowsJoined(a: seq<Row>, b: seq<Row>, c: seq<Row>)
    ensures (a + b) + c == a + (b + c) && [] + c == c
  {
  }

  /**
   Main result: the transcript has every command and every output line that is not blank, in
   the order of the items and under the id and time of its own, less the suppressed lines.
   */
  lemma RowByRow(items: seq<Item>)
    ensures Accounts(Normalize(START, items).marks, AllRows(items, []))
  {
    hide Normalize, AllRows;
    ItemsAccounted(START, items, []);
    assert [] + AllRows(items, []) == AllRows(items, []);
  }

  // ---------------------------------------------------------------- how the input was cut up

  /** All input of a session, in one piece. */
  function AllInput(items: seq<Item>): Runes {
    if items == [] then []
    else (if items[0].kind.DataIn? && items[0].decoded.Some? then items[0].decoded.value else []) + AllInput(items[1..])
  }

  /** Each piece of input that more input follows is settled. */
  predicate CutsSettled(items: seq<Item>) {
    items == [] ||
    (&& CutsSettled(items[1..])
     && (items[0].kind.DataIn? && items[0].decoded.Some? && AllInput(items[1..]) != [] ==>
           Settled(items[0].decoded.value)))
  }

  /** When the pieces are settled, the commands are those of the whole input, however it was cut into events. */
  lemma {:induction false} CommandsOfWholeInput(items: seq<Item>, buffer: Runes)
    requires CutsSettled(items)
    ensures TypedCommands(items, buffer) == Consume(AllInput(items), buffer).commands
    decreases |items|
  {
    hide Consume, Settled;
    ConsumeNothing(buffer);
    if items != [] {
      var rest := AllInput(items[1..]);
      if items[0].kind.DataIn? && items[0].decoded.Some? {
        var first := items[0].decoded.value;
        assert AllInput(items) == first + rest;
        CutHarmless(first, rest, buffer);
        CommandsOfWholeInput(items[1..], Consume(first, buffer).buffer);
      } else {
        assert AllInput(items) == rest;
        CommandsOfWholeInput(items[1..], buffer);
      }
    }
  }

  lemma CutHarmless(a: Runes, b: Runes, buffer: Runes)
    requires b == [] || Settled(a)
    ensures Harmless(a, b, buffer)
  {
    hide Consume, Settled;
    if b == [] {
      ConsumeNothing(Consume(a, buffer).buffer);
      assert a + b == a && Consume(a, buffer).commands + [] == Consume(a, buffer).commands;
    } else {
      SettledIsHarmless(a, b, buffer);
    }
  }

  /** In particular input without ESC may be cut anywhere. */
  lemma {:induction false} NoEscCutsSettled(items: seq<Item>)
    requires ESC !in AllInput(items)
    ensures CutsSettled(items)
  {
    hide Settled;
    if items != [] {
      NoEscCutsSettled(items[1..]);
      if items[0].kind.DataIn? && items[0].decoded.Some? {
        SplittingInput(items[0].decoded.value, [], []);
      }
    }
  }

  /** And so may a series of whole control sequences, cut between any two of them. */
  lemma {:induction false} WholeSequencesCutsSettled(items: seq<Item>)
    requires forall i :: i in items && i.decoded.Some? ==> CsiLength(i.decoded.value) == |i.decoded.value| > 0
    ensures CutsSettled(items)
  {
    hide Settled, CsiLength;
    if items != [] {
      assert items[0] in items && forall i :: i in items[1..] ==> i in items;
      WholeSequencesCutsSettled(items[1..]);
      if items[0].decoded.Some? {
        WholeSequenceIsSettled(items[0].decoded.value);
      }
    }
  }

  lemma ConsumeNothing(buffer: Runes)
    ensures Consume([], buffer) == Typed([], buffer)
  {
  }
}
