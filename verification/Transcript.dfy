/**
 A terminal session's transcript: commands typed, line by line, and output lines,
 without the terminal's echo of the commands. Text is a sequence of runes.
 */
module Transcript {
  import opened Bytes
  import opened Text

  type Runes = seq<rune>

  const BS: rune := 0x08
  const TAB: rune := 0x09
  const LF: rune := 0x0A
  const CR: rune := 0x0D
  const BEL: rune := 0x07
  const ESC: rune := 0x1B
  const DEL: rune := 0x7F

  // ---------------------------------------------------------------- escape sequences

  /** The length of a control sequence at the start of s: ESC [ , parameters, intermediates, final; 0 if none. */
  function CsiLength(s: Runes): (n: nat)
    ensures n <= |s|
  {
    if |s| < 2 || s[0] != ESC || s[1] != 0x5B then 0
    else
      var p := Span(s, 2, 0x30, 0x3F);
      var i := Span(s, p, 0x20, 0x2F);
      if i < |s| && 0x40 <= s[i] <= 0x7E then i + 1 else 0
  }

  /** The end of the longest run of runes in lo..hi from position at on. */
  function Span(s: Runes, at: nat, lo: rune, hi: rune): (end: nat)
    requires at <= |s|
    ensures at <= end <= |s|
    decreases |s| - at
  {
    if at < |s| && lo <= s[at] <= hi then Span(s, at + 1, lo, hi) else at
  }

  /** The first BEL from position at on; |s| if there is none. */
  function FindBel(s: Runes, at: nat): (k: nat)
    requires at <= |s|
    ensures at <= k <= |s|
    decreases |s| - at
  {
    if at == |s| || s[at] == BEL then at else FindBel(s, at + 1)
  }

  /** The end of the last ESC \ that begins at or after lo and ends at or before hi; 0 if there is none. */
  function LastTerminator(s: Runes, lo: nat, hi: nat): (k: nat)
    requires hi <= |s|
    ensures k <= |s|
    decreases hi
  {
    if hi < lo + 2 then 0
    else if s[hi - 2] == ESC && s[hi - 1] == 0x5C then hi
    else LastTerminator(s, lo, hi - 1)
  }

  /** The length of an operating system command at the start of s: up to the first BEL, else the last ESC \ . */
  function OscLength(s: Runes): (n: nat)
    ensures n <= |s|
  {
    if |s| < 2 || s[0] != ESC || s[1] != 0x5D then 0
    else
      var bel := FindBel(s, 2);
      if bel < |s| then bel + 1 else LastTerminator(s, 2, |s|)
  }

  function StripOsc(s: Runes): Runes {
    if s == [] then []
    else
      var n := OscLength(s);
      if n > 0 then StripOsc(s[n..]) else [s[0]] + StripOsc(s[1..])
  }

  function StripCsi(s: Runes): Runes {
    if s == [] then []
    else
      var n := CsiLength(s);
      if n > 0 then StripCsi(s[n..]) else [s[0]] + StripCsi(s[1..])
  }

  /** stripANSI. */
  function StripAnsi(s: Runes): Runes {
    StripCsi(StripOsc(s))
  }

  lemma {:induction false} StripNothing(s: Runes)
    requires ESC !in s
    ensures StripAnsi(s) == s && StripOsc(s) == s && StripCsi(s) == s
  {
    if s != [] {
      assert s[0] in s && forall r :: r in s[1..] ==> r in s;
      StripNothing(s[1..]);
      assert s == [s[0]] + s[1..];
    }
  }

  predicate IsControl(r: rune) {
    r != TAB && r < 0x20
  }

  function DropLast(s: Runes): Runes {
    if s == [] then s else s[..|s| - 1]
  }

  // ---------------------------------------------------------------- typed commands

  /** Completed lines, and the line being edited. */
  datatype Typed = Typed(commands: seq<Runes>, buffer: Runes)

  /** The line editor, rune by rune; every line break of either kind ends the line. */
  function Type(t: Typed, text: Runes): Typed
    decreases |text|
  {
    if text == [] then t else Type(TypeOne(t, text[0]), text[1..])
  }

  function TypeOne(t: Typed, r: rune): Typed {
    if r == CR || r == LF then Typed(if BlankRunes(t.buffer) then t.commands else t.commands + [t.buffer], [])
    else if r == BS || r == DEL then t.(buffer := DropLast(t.buffer))
    else if IsControl(r) then t
    else t.(buffer := t.buffer + [r])
  }

  /** consumeInputChunk, whose loop takes CR LF as one line break, does the same as taking both for line breaks. */
  method ConsumeInputChunk(chunk: Runes, buffer: Runes) returns (commands: seq<Runes>, current: Runes)
    ensures Typed(commands, current) == Type(Typed([], buffer), StripAnsi(chunk))
  {
    var clean := StripAnsi(chunk);
    commands, current := [], buffer;
    var lastBreak: rune := 0;
    var i := 0;
    assert clean[0..] == clean;
    while i < |clean|
      invariant 0 <= i <= |clean|
      invariant lastBreak == CR ==> current == []
      invariant Type(Typed(commands, current), clean[i..]) == Type(Typed([], buffer), clean)
    {
      var r := clean[i];
      assert clean[i..][1..] == clean[i + 1..];
      i := i + 1;
      if r == CR || r == LF {
        if lastBreak == CR && r == LF {
          assert TypeOne(Typed(commands, current), r) == Typed(commands, []);
          lastBreak := r;
          continue;
        }
        if TrimRunes(current) != [] {
          commands := commands + [current];
        }
        current := [];
        lastBreak := r;
        continue;
      }
      lastBreak := 0;
      if r == BS || r == DEL {
        current := DropLast(current);
        continue;
      }
      if IsControl(r) {
        continue;
      }
      current := current + [r];
    }
  }

  /** Typing on after what was typed before. */
  lemma {:induction false} TypeAppend(t: Typed, a: Runes, b: Runes)
    ensures Type(t, a + b) == Type(Type(t, a), b)
    decreases |a|
  {
    hide TypeOne;
    if a == [] {
      assert a + b == b;
    } else {
      TypeAppend(TypeOne(t, a[0]), a[1..], b);
      assert (a + b)[1..] == a[1..] + b;
    }
  }

  /** Earlier commands do not influence later ones. */
  lemma {:induction false} TypeFrom(commands: seq<Runes>, buffer: Runes, text: Runes)
    ensures var t := Type(Typed([], buffer), text);
            Type(Typed(commands, buffer), text) == Typed(commands + t.commands, t.buffer)
    decreases |text|
  {
    hide TypeOne;
    if text == [] {
      assert commands + [] == commands;
    } else {
      var one := TypeOne(Typed([], buffer), text[0]);
      var t := Type(Typed([], one.buffer), text[1..]);
      TypeOneFrom(commands, buffer, text[0]);
      TypeFrom(one.commands, one.buffer, text[1..]);
      TypeFrom(commands + one.commands, one.buffer, text[1..]);
      assert (commands + one.commands) + t.commands == commands + (one.commands + t.commands);
    }
  }

  lemma TypeOneFrom(commands: seq<Runes>, buffer: Runes, r: rune)
    ensures var one := TypeOne(Typed([], buffer), r);
            TypeOne(Typed(commands, buffer), r) == Typed(commands + one.commands, one.buffer)
  {
    assert commands + [] == commands && [] + [buffer] == [buffer];
  }

  /** What consumeInputChunk gives for one chunk. */
  function Consume(chunk: Runes, buffer: Runes): Typed {
    Type(Typed([], buffer), StripAnsi(chunk))
  }

  // ---------------------------------------------------------------- where input may be cut

  /** Taking a and b one after the other gives the commands and the leftover of a + b. */
  predicate Harmless(a: Runes, b: Runes, buffer: Runes) {
    var first := Consume(a, buffer);
    var second := Consume(b, first.buffer);
    Consume(a + b, buffer) == Typed(first.commands + second.commands, second.buffer)
  }

  ghost predicate AlwaysHarmless(a: Runes, buffer: Runes) {
    forall b :: Harmless(a, b, buffer)
  }

  /** A control sequence that more text could still finish: ESC, or ESC [ with parameters and intermediates only. */
  predicate Unfinished(s: Runes) {
    || s == [ESC]
    || (|s| >= 2 && s[0] == ESC && s[1] == 0x5B && Span(s, Span(s, 2, 0x30, 0x3F), 0x20, 0x2F) == |s|)
  }

  /** The scan for control sequences does not end in an unfinished one. */
  predicate CsiSettled(s: Runes) {
    s == [] ||
    var n := CsiLength(s);
    if n > 0 then CsiSettled(s[n..]) else !Unfinished(s) && CsiSettled(s[1..])
  }

  predicate OpensOsc(s: Runes) {
    |s| >= 2 && s[0] == ESC && s[1] == 0x5D
  }

  /** Every operating system command that the scan meets has a BEL after it, and the scan does not end on an ESC. */
  predicate OscSettled(s: Runes) {
    s == [] ||
    if OpensOsc(s) then FindBel(s, 2) < |s| && OscSettled(s[FindBel(s, 2) + 1..]) else s != [ESC] && OscSettled(s[1..])
  }

  /** Whatever comes after a cannot change what a itself stands for. */
  predicate Settled(a: Runes) {
    OscSettled(a) && CsiSettled(StripOsc(a))
  }

  lemma {:induction false} SpanAppend(s: Runes, more: Runes, at: nat, lo: rune, hi: rune)
    requires at <= |s|
    ensures Span(s, at, lo, hi) < |s| ==> Span(s + more, at, lo, hi) == Span(s, at, lo, hi)
    ensures Span(s + more, at, lo, hi) >= Span(s, at, lo, hi)
    decreases |s| - at
  {
    if at < |s| && lo <= s[at] <= hi {
      SpanAppend(s, more, at + 1, lo, hi);
    }
  }

  lemma {:induction false} FindBelAppend(s: Runes, more: Runes, at: nat)
    requires at <= |s|
    ensures FindBel(s, at) < |s| ==> FindBel(s + more, at) == FindBel(s, at)
    ensures FindBel(s, at) == |s| ==> FindBel(s + more, at) == FindBel(s + more, |s|)
    decreases |s| - at
  {
    if at < |s| && s[at] != BEL {
      FindBelAppend(s, more, at + 1);
    }
  }

  /** More text changes the length of a control sequence only when it is unfinished. */
  lemma CsiLengthAppend(s: Runes, more: Runes)
    requires s != [] && !Unfinished(s)
    ensures CsiLength(s + more) == CsiLength(s)
  {
    if |s| >= 2 && s[0] == ESC && s[1] == 0x5B {
      var p := Span(s, 2, 0x30, 0x3F);
      SpanAppend(s, more, 2, 0x30, 0x3F);
      SpanAppend(s, more, p, 0x20, 0x2F);
    }
  }

  lemma FinishedCsi(s: Runes)
    ensures CsiLength(s) > 0 ==> !Unfinished(s)
  {
  }

  lemma {:induction false} StripCsiAppend(s: Runes, more: Runes)
    requires CsiSettled(s)
    ensures StripCsi(s + more) == StripCsi(s) + StripCsi(more)
  {
    hide CsiLength, Unfinished;
    if s == [] {
      assert s + more == more;
    } else {
      var n := CsiLength(s);
      if n > 0 {
        FinishedCsi(s);
      }
      CsiLengthAppend(s, more);
      var k := if n > 0 then n else 1;
      StripCsiAppend(s[k..], more);
      assert (s + more)[k..] == s[k..] + more;
    }
  }

  /** More text changes the length of an operating system command only without a BEL, or when it has yet to open. */
  lemma OscLengthAppend(s: Runes, more: Runes)
    requires s != [] && (OpensOsc(s) ==> FindBel(s, 2) < |s|)
    requires s == [ESC] ==> more == [] || more[0] != 0x5D
    ensures OscLength(s + more) == OscLength(s)
    ensures OpensOsc(s) ==> OscLength(s) == FindBel(s, 2) + 1
    ensures !OpensOsc(s) ==> OscLength(s) == 0
  {
    if OpensOsc(s) {
      FindBelAppend(s, more, 2);
    }
  }

  /** The scan takes n runes first, and keeps these of them. */
  predicate Takes(s: Runes, n: nat, kept: Runes)
    requires s != []
  {
    && 1 <= n <= |s|
    && (if OscLength(s) > 0 then n == OscLength(s) && kept == [] else n == 1 && kept == [s[0]])
  }

  lemma StripOscTakes(s: Runes, n: nat, kept: Runes)
    ensures s != [] && Takes(s, n, kept) ==> StripOsc(s) == kept + StripOsc(s[n..])
  {
    hide OscLength;
  }

  /** One step of the scan for operating system commands, the same with more text after s and without. */
  lemma OscStep(s: Runes, more: Runes) returns (n: nat, kept: Runes)
    requires s != [] && (OpensOsc(s) ==> FindBel(s, 2) < |s|)
    requires s == [ESC] ==> more == [] || more[0] != 0x5D
    ensures n == (if OpensOsc(s) then FindBel(s, 2) + 1 else 1) <= |s|
    ensures kept == if OpensOsc(s) then [] else [s[0]]
    ensures StripOsc(s) == kept + StripOsc(s[n..])
    ensures StripOsc(s + more) == kept + StripOsc(s[n..] + more)
  {
    hide OscLength, OpensOsc, StripOsc, FindBel;
    OscLengthAppend(s, more);
    n, kept := if OpensOsc(s) then FindBel(s, 2) + 1 else 1, if OpensOsc(s) then [] else [s[0]];
    StripOscTakes(s, n, kept);
    StripOscTakes(s + more, n, kept);
    TailAppend(s, more, n);
  }

  lemma TailAppend(s: Runes, more: Runes, n: nat)
    ensures n <= |s| ==> (s + more)[n..] == s[n..] + more
  {
  }

  lemma {:induction false} StripOscAppend(s: Runes, more: Runes)
    requires OscSettled(s)
    ensures StripOsc(s + more) == StripOsc(s) + StripOsc(more)
  {
    hide StripOsc, OpensOsc, FindBel;
    if s == [] {
      assert s + more == more;
      StripOscNone();
    } else {
      var n, kept := OscStep(s, more);
      StripOscAppend(s[n..], more);
      assert kept + (StripOsc(s[n..]) + StripOsc(more)) == (kept + StripOsc(s[n..])) + StripOsc(more);
    }
  }

  lemma StripOscNone()
    ensures StripOsc([]) == []
  {
  }

  lemma SettledIsHarmless(a: Runes, b: Runes, buffer: Runes)
    requires Settled(a)
    ensures Harmless(a, b, buffer)
  {
    hide Type, OscSettled, CsiSettled;
    StripOscAppend(a, b);
    StripCsiAppend(StripOsc(a), StripOsc(b));
    TypeAppend(Typed([], buffer), StripAnsi(a), StripAnsi(b));
    var first := Consume(a, buffer);
    TypeFrom(first.commands, first.buffer, StripAnsi(b));
  }

  /** What is left of the text before an operating system command without a BEL after it, if the scan meets one. */
  function Unclosed(s: Runes): Option<Runes> {
    if s == [] then None
    else if OpensOsc(s) then
      if FindBel(s, 2) < |s| then Unclosed(s[FindBel(s, 2) + 1..]) else Some([])
    else
      match Unclosed(s[1..])
      case None => None
      case Some(p) => Some([s[0]] + p)
  }

  lemma SwallowHere(a: Runes, x: rune)
    requires OpensOsc(a) && FindBel(a, 2) == |a| && x != BEL
    ensures StripOsc(a + [x, BEL]) == []
  {
    var s := a + [x, BEL];
    FindBelAppend(a, [x, BEL], 2);
    assert FindBel(s, |a|) == FindBel(s, |a| + 1) == |a| + 1;
    assert OscLength(s) == |s| && s[|s|..] == [];
  }

  /** A BEL that comes later swallows everything from there on, even when ESC \ had closed the command. */
  lemma {:induction false} BelSwallows(a: Runes, x: rune)
    requires Unclosed(a).Some? && x != BEL
    ensures StripOsc(a + [x, BEL]) == Unclosed(a).value
  {
    hide StripOsc, FindBel, OscLength;
    if OpensOsc(a) && FindBel(a, 2) == |a| {
      SwallowHere(a, x);
    } else {
      var n, kept := OscStep(a, [x, BEL]);
      BelSwallows(a[n..], x);
      assert [] + Unclosed(a[n..]).value == Unclosed(a[n..]).value;
    }
  }

  /** Plain text after a stays as it is. */
  lemma {:induction false} PlainAfter(a: Runes, b: Runes)
    requires Unclosed(a).None? && ESC !in b && b != [] && b[0] != 0x5D
    ensures StripOsc(a + b) == StripOsc(a) + b
    ensures !OscSettled(a) ==> StripOsc(a) != [] && StripOsc(a)[|StripOsc(a)| - 1] == ESC
  {
    hide StripOsc, OpensOsc, FindBel;
    StripOscNone();
    if a == [] {
      assert a + b == b;
      StripNothing(b);
    } else {
      var n, kept := OscStep(a, b);
      PlainAfter(a[n..], b);
      assert kept + (StripOsc(a[n..]) + b) == (kept + StripOsc(a[n..])) + b;
    }
  }

  lemma {:induction false} EndsInEsc(s: Runes)
    requires s != [] && s[|s| - 1] == ESC
    ensures !CsiSettled(s)
  {
    var n := CsiLength(s);
    assert n > 0 ==> s[n - 1] != ESC;
    if n > 0 {
      EndsInEsc(s[n..]);
    } else if |s| > 1 {
      EndsInEsc(s[1..]);
    }
  }

  /** ESC and text that is typed as it is. */
  predicate Plain(s: Runes) {
    forall r :: r in s ==> r == ESC || 0x20 <= r < DEL
  }

  lemma {:induction false} SpanRunes(s: Runes, at: nat, lo: rune, hi: rune)
    requires at <= |s|
    ensures forall i :: at <= i < Span(s, at, lo, hi) ==> lo <= s[i] <= hi
    decreases |s| - at
  {
    if at < |s| && lo <= s[at] <= hi {
      SpanRunes(s, at + 1, lo, hi);
    }
  }

  lemma {:induction false} SpanAll(s: Runes, more: Runes, at: nat, lo: rune, hi: rune)
    requires at <= |s| && Span(s, at, lo, hi) == |s|
    ensures Span(s + more, at, lo, hi) == Span(s + more, |s|, lo, hi)
    decreases |s| - at
  {
    if at < |s| {
      SpanAll(s, more, at + 1, lo, hi);
    }
  }

  lemma UnfinishedNoLength(s: Runes)
    ensures Unfinished(s) ==> CsiLength(s) == 0
  {
  }

  lemma OneKept(s: Runes)
    ensures s != [] && CsiLength(s) == 0 ==> StripCsi(s) == [s[0]] + StripCsi(s[1..])
  {
    hide CsiLength;
  }

  /** An unfinished control sequence stays as text. */
  lemma UnfinishedStays(s: Runes)
    requires Unfinished(s)
    ensures StripCsi(s) == s && Plain(s)
  {
    hide StripCsi, StripOsc, CsiLength;
    UnfinishedNoLength(s);
    OneKept(s);
    assert s == [ESC] + s[1..];
    if |s| >= 2 {
      var p := Span(s, 2, 0x30, 0x3F);
      SpanRunes(s, 2, 0x30, 0x3F);
      SpanRunes(s, p, 0x20, 0x2F);
      assert forall i :: 2 <= i < |s| ==> 0x20 <= s[i] <= 0x3F;
      assert forall i :: 1 <= i < |s| ==> 0x20 <= s[i] < DEL && s[i] != ESC;
    }
    StripNothing(s[1..]);
  }

  lemma WholeIsStripped(s: Runes)
    requires s != [] && CsiLength(s) == |s|
    ensures StripCsi(s) == []
  {
    hide CsiLength;
    assert s[|s|..] == [];
  }

  /** One or two more runes make an unfinished control sequence disappear. */
  lemma UnfinishedCsi(s: Runes) returns (y: Runes)
    requires Unfinished(s)
    ensures y == [0x41] || y == [0x5B, 0x41]
    ensures StripCsi(s + y) == []
  {
    hide StripCsi;
    if s == [ESC] {
      y := [0x5B, 0x41];
      assert s + y == [ESC, 0x5B, 0x41];
    } else {
      y := [0x41];
      var p := Span(s, 2, 0x30, 0x3F);
      if p < |s| {
        SpanAppend(s, y, 2, 0x30, 0x3F);
        SpanAll(s, y, p, 0x20, 0x2F);
      } else {
        SpanAll(s, y, 2, 0x30, 0x3F);
      }
    }
    WholeIsStripped(s + y);
  }

  /** An unfinished control sequence u at the end of s: y makes it disappear. */
  lemma {:induction false} CsiHurts(s: Runes) returns (w: Runes, u: Runes, y: Runes)
    requires !CsiSettled(s)
    ensures y == [0x41] || y == [0x5B, 0x41]
    ensures StripCsi(s) == w + u && Plain(u) && StripCsi(s + y) == w
  {
    hide CsiLength, Unfinished, Plain;
    if Unfinished(s) {
      y := UnfinishedCsi(s);
      UnfinishedStays(s);
      w, u := [], s;
      assert w + u == s;
    } else {
      var n := CsiLength(s);
      var k := if n > 0 then n else 1;
      w, u, y := CsiHurts(s[k..]);
      CsiLengthAppend(s, y);
      assert (s + y)[k..] == s[k..] + y;
      if n == 0 {
        assert [s[0]] + (w + u) == ([s[0]] + w) + u;
        w := [s[0]] + w;
      }
    }
  }

  /** Typing plain text makes the buffer longer, by one at least unless it is all ESC. */
  lemma {:induction false} TypePlain(t: Typed, s: Runes)
    requires Plain(s)
    ensures |Type(t, s).buffer| >= |t.buffer|
    ensures s != [] && s[0] != ESC ==> |Type(t, s).buffer| > |t.buffer|
    decreases |s|
  {
    if s != [] {
      assert s[0] in s && forall r :: r in s[1..] ==> r in s;
      TypePlain(TypeOne(t, s[0]), s[1..]);
    }
  }

  /** For a text that is not settled there is, whatever is in the buffer, a continuation that the cut harms. */
  lemma UnsettledHurts(a: Runes, buffer: Runes) returns (b: Runes)
    requires !Settled(a)
    ensures !Harmless(a, b, buffer)
  {
    hide Type, OscSettled, CsiSettled, StripOsc, StripCsi, Unclosed;
    if Unclosed(a).Some? {
      var whole := Type(Typed([], buffer), StripCsi(Unclosed(a).value)).buffer;
      var x: rune := if whole != [] && whole[|whole| - 1] == 0x41 then 0x42 else 0x41;
      b := [x, BEL];
      BelSwallows(a, x);
      StripNothing(b);
      TypeBel(Consume(a, buffer).buffer, x);
    } else {
      PlainAfter(a, [0x41]);
      if !OscSettled(a) {
        EndsInEsc(StripOsc(a));
      }
      var w, u;
      w, u, b := CsiHurts(StripOsc(a));
      PlainAfter(a, b);
      StripNothing(b);
      var start := Typed([], buffer);
      TypeAppend(start, w, u);
      TypePlain(Type(start, w), u);
      TypePlain(Typed([], Consume(a, buffer).buffer), b);
    }
  }

  lemma TypeBel(buffer: Runes, x: rune)
    requires x == 0x41 || x == 0x42
    ensures Type(Typed([], buffer), [x, BEL]).buffer == buffer + [x]
  {
    assert [x, BEL][1..] == [BEL] && [BEL][1..] == [];
    var t := Typed([], buffer + [x]);
    assert Type(Typed([], buffer), [x, BEL]) == Type(t, [BEL]) == Type(t, []);
  }

  /**
   Main result: cutting the input after a changes neither commands nor leftover, whatever
   follows, if and only if a is settled; and then it does not matter what was in the buffer.
   */
  lemma SplittingInputExactly(a: Runes)
    ensures (forall b, buffer :: Harmless(a, b, buffer)) <==> Settled(a)
    ensures forall buffer :: AlwaysHarmless(a, buffer) <==> Settled(a)
  {
    hide Harmless, Settled;
    forall buffer
      ensures AlwaysHarmless(a, buffer) <==> Settled(a)
    {
      if Settled(a) {
        forall b
          ensures Harmless(a, b, buffer)
        {
          SettledIsHarmless(a, b, buffer);
        }
      } else {
        var b := UnsettledHurts(a, buffer);
      }
    }
    if Settled(a) {
      forall b, buffer
        ensures Harmless(a, b, buffer)
      {
        SettledIsHarmless(a, b, buffer);
      }
    } else {
      var b := UnsettledHurts(a, []);
    }
  }

  /** In particular after text without ESC, even between CR and LF. */
  lemma SplittingInput(a: Runes, b: Runes, buffer: Runes)
    requires ESC !in a
    ensures Settled(a) && Harmless(a, b, buffer)
  {
    NoEscIsSettled(a);
    StripNothing(a);
    SettledIsHarmless(a, b, buffer);
  }

  lemma {:induction false} NoEscIsSettled(a: Runes)
    requires ESC !in a
    ensures OscSettled(a) && CsiSettled(a)
  {
    if a != [] {
      assert a[0] in a && forall r :: r in a[1..] ==> r in a;
      NoEscIsSettled(a[1..]);
    }
  }

  /** A whole control sequence, such as an arrow key sends, is settled. */
  lemma {:induction false} WholeSequenceIsSettled(a: Runes)
    requires CsiLength(a) == |a| > 0
    ensures Settled(a)
  {
    SpanRunes(a, 2, 0x30, 0x3F);
    SpanRunes(a, Span(a, 2, 0x30, 0x3F), 0x20, 0x2F);
    assert forall i :: 1 <= i < |a| ==> a[i] != ESC;
    assert ESC !in a[1..];
    NoEscIsSettled(a[1..]);
    StripNothing(a[1..]);
    assert StripOsc(a) == [a[0]] + a[1..] == a;
    assert a[|a|..] == [];
  }

  /** With ESC it does: a control sequence cut in two is not recognised. */
  lemma SplittingEscape()
    ensures var a, b: Runes := [ESC, 0x5B], [0x41];
            Consume(a + b, []).buffer != Consume(b, Consume(a, []).buffer).buffer
  {
    var a, b: Runes := [ESC, 0x5B], [0x41];
    var ab := a + b;
    assert ab == [ESC, 0x5B, 0x41];
    OneSequence(ab);
    NoSequence(a);
    StripNothing(b);
    TypeTwo(ESC, 0x5B);
    var first := Consume(a, []);
    assert first == Typed([], [0x5B]);
    assert b[1..] == [];
    assert Consume(b, first.buffer) == TypeOne(Typed([], [0x5B]), 0x41);
    assert Consume(ab, []).buffer == [];
  }

  lemma OneSequence(s: Runes)
    requires s == [ESC, 0x5B, 0x41]
    ensures StripAnsi(s) == []
  {
    assert OscLength(s) == 0 && CsiLength(s) == 3;
    assert ESC !in s[1..];
    StripNothing(s[1..]);
    assert StripOsc(s) == [s[0]] + s[1..] == s;
    assert s[3..] == [];
  }

  lemma NoSequence(s: Runes)
    requires s == [ESC, 0x5B]
    ensures StripAnsi(s) == s
  {
    assert OscLength(s) == 0 && CsiLength(s) == 0;
    assert s[1..] == [0x5B];
    StripNothing(s[1..]);
    assert [s[0]] + s[1..] == s;
  }

  lemma TypeTwo(x: rune, y: rune)
    requires x == ESC && y == 0x5B
    ensures Type(Typed([], []), [x, y]) == Typed([], [y])
  {
    assert [x, y][1..] == [y] && [y][1..] == [];
    assert Type(Typed([], []), [x, y]) == Type(Typed([], []), [y]);
    assert [] + [y] == [y];
  }

  // ---------------------------------------------------------------- output lines

  /** strings.ReplaceAll(s, "\r\n", "\n"). */
  function JoinCrLf(s: Runes): Runes {
    if s == [] then []
    else if |s| > 1 && s[0] == CR && s[1] == LF then [LF] + JoinCrLf(s[2..])
    else [s[0]] + JoinCrLf(s[1..])
  }

  /** ReplaceAll of one of the bracketed-paste switches ESC [ ? 2 0 0 4 h or l. */
  function DropAll(s: Runes, what: Runes): Runes
    requires what != []
  {
    if s == [] then []
    else if what <= s then DropAll(s[|what|..], what)
    else [s[0]] + DropAll(s[1..], what)
  }

  const PASTE_ON: Runes := [0x1B, 0x5B, 0x3F, 0x32, 0x30, 0x30, 0x34, 0x68]
  const PASTE_OFF: Runes := [0x1B, 0x5B, 0x3F, 0x32, 0x30, 0x30, 0x34, 0x6C]

  function CleanOutput(chunk: Runes): Runes {
    DropAll(DropAll(JoinCrLf(StripAnsi(chunk)), PASTE_ON), PASTE_OFF)
  }

  datatype Shown = Shown(lines: seq<Runes>, current: Runes)

  function ShowOne(t: Shown, r: rune): Shown {
    if r == CR then t.(current := [])
    else if r == LF then Shown(if t.current != [] then t.lines + [t.current] else t.lines, [])
    else if r == BS || r == DEL then t.(current := DropLast(t.current))
    else if IsControl(r) then t
    else t.(current := t.current + [r])
  }

  function Show(t: Shown, text: Runes): Shown
    decreases |text|
  {
    if text == [] then t else Show(ShowOne(t, text[0]), text[1..])
  }

  /** normalizeOutputChunk. */
  function Lines(chunk: Runes): seq<Runes> {
    var t := Show(Shown([], []), CleanOutput(chunk));
    if t.current != [] then t.lines + [t.current] else t.lines
  }

  method NormalizeOutputChunk(chunk: Runes) returns (lines: seq<Runes>)
    ensures lines == Lines(chunk)
  {
    var clean := CleanOutput(chunk);
    lines := [];
    var current: Runes := [];
    var i := 0;
    assert clean[0..] == clean;
    while i < |clean|
      invariant 0 <= i <= |clean|
      invariant Show(Shown(lines, current), clean[i..]) == Show(Shown([], []), clean)
    {
      var r := clean[i];
      assert clean[i..][1..] == clean[i + 1..];
      i := i + 1;
      if r == CR {
        current := [];
        continue;
      }
      if r == LF {
        if current != [] {
          lines := lines + [current];
        }
        current := [];
        continue;
      }
      if r == BS || r == DEL {
        current := DropLast(current);
        continue;
      }
      if IsControl(r) {
        continue;
      }
      current := current + [r];
    }
    if current != [] {
      lines := lines + [current];
    }
  }
}
