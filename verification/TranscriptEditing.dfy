/**
 What the line editor of the transcript stands for: which escape sequences are taken out of
 the text, and what is left of a line after its backspaces.
 */
module TranscriptEditing {
  import opened Bytes
  import opened Text
  import opened Transcript

  // ---------------------------------------------------------------- escape sequences

  predicate Within(s: Runes, from: nat, to: nat, lo: rune, hi: rune)
    requires from <= to <= |s|
  {
    forall i :: from <= i < to ==> lo <= s[i] <= hi
  }

  /** A control sequence: ESC [ , parameters, intermediates, one final. */
  predicate IsCsi(p: Runes) {
    && |p| >= 3 && p[0] == ESC && p[1] == 0x5B && 0x40 <= p[|p| - 1] <= 0x7E
    && exists k :: 2 <= k <= |p| - 1 && Within(p, 2, k, 0x30, 0x3F) && Within(p, k, |p| - 1, 0x20, 0x2F)
  }

  /** An operating system command: ESC ] , anything but BEL, and BEL or ESC \ . */
  predicate IsOsc(p: Runes) {
    && |p| >= 3 && p[0] == ESC && p[1] == 0x5D
    && (|| (p[|p| - 1] == BEL && BEL !in p[2..|p| - 1])
        || (|p| >= 4 && p[|p| - 2] == ESC && p[|p| - 1] == 0x5C && BEL !in p[2..]))
  }

  lemma {:induction false} SpanIs(s: Runes, at: nat, end: nat, lo: rune, hi: rune)
    requires at <= end <= |s| && Within(s, at, end, lo, hi) && (end == |s| || !(lo <= s[end] <= hi))
    ensures Span(s, at, lo, hi) == end
    decreases end - at
  {
    if at < end {
      SpanIs(s, at + 1, end, lo, hi);
    }
  }

  lemma {:induction false} SpanWithin(s: Runes, at: nat, lo: rune, hi: rune)
    requires at <= |s|
    ensures Within(s, at, Span(s, at, lo, hi), lo, hi)
    decreases |s| - at
  {
    if at < |s| && lo <= s[at] <= hi {
      SpanWithin(s, at + 1, lo, hi);
    }
  }

  /** At the start of s there is a control sequence of that length, and no other. */
  lemma CsiIs(s: Runes, n: nat)
    ensures n <= |s| && IsCsi(s[..n]) ==> CsiLength(s) == n
    ensures CsiLength(s) > 0 ==> IsCsi(s[..CsiLength(s)])
  {
    if n <= |s| && IsCsi(s[..n]) {
      var p := s[..n];
      var k :| 2 <= k <= n - 1 && Within(p, 2, k, 0x30, 0x3F) && Within(p, k, n - 1, 0x20, 0x2F);
      assert forall i :: 0 <= i < n ==> s[i] == p[i];
      SpanIs(s, 2, k, 0x30, 0x3F);
      SpanIs(s, k, n - 1, 0x20, 0x2F);
    }
    var m := CsiLength(s);
    if m > 0 {
      var k := Span(s, 2, 0x30, 0x3F);
      SpanWithin(s, 2, 0x30, 0x3F);
      SpanWithin(s, k, 0x20, 0x2F);
      var p := s[..m];
      assert Within(p, 2, k, 0x30, 0x3F) && Within(p, k, m - 1, 0x20, 0x2F);
    }
  }

  lemma {:induction false} FindBelIs(s: Runes, at: nat)
    requires at <= |s|
    ensures var k := FindBel(s, at); BEL !in s[at..k] && (k < |s| ==> s[k] == BEL)
    decreases |s| - at
  {
    if at < |s| && s[at] != BEL {
      FindBelIs(s, at + 1);
      var k := FindBel(s, at);
      assert s[at..k] == [s[at]] + s[at + 1..k];
    }
  }

  /** An ESC \ ends at position m. */
  predicate Terminated(s: Runes, m: nat) {
    2 <= m <= |s| && s[m - 2] == ESC && s[m - 1] == 0x5C
  }

  lemma {:induction false} LastTerminatorIs(s: Runes, lo: nat, hi: nat)
    requires hi <= |s|
    ensures var k := LastTerminator(s, lo, hi);
            && (k > 0 ==> lo + 2 <= k <= hi && Terminated(s, k))
            && forall m :: lo + 2 <= m <= hi && Terminated(s, m) ==> m <= k
    decreases hi
  {
    if hi >= lo + 2 {
      LastTerminatorIs(s, lo, hi - 1);
    }
  }

  /** At the start of s there is an operating system command of that length, and no longer one. */
  lemma OscIs(s: Runes)
    ensures OscLength(s) > 0 ==> IsOsc(s[..OscLength(s)])
    ensures forall m :: 0 <= m <= |s| && IsOsc(s[..m]) ==> m <= OscLength(s)
  {
    if |s| >= 2 && s[0] == ESC && s[1] == 0x5D {
      var k, n := FindBel(s, 2), OscLength(s);
      FindBelIs(s, 2);
      LastTerminatorIs(s, 2, |s|);
      if k < |s| {
        assert s[..n][2..n - 1] == s[2..k];
      } else if n > 0 {
        assert s[..n][2..] == s[2..n] && s[2..n] <= s[2..k];
      }
      forall m | 0 <= m <= |s| && IsOsc(s[..m])
        ensures m <= n
      {
        NoLongerOsc(s, k, m);
      }
    }
  }

  lemma NoLongerOsc(s: Runes, k: nat, m: nat)
    requires 2 <= k <= |s| && (k < |s| ==> s[k] == BEL) && m <= |s| && IsOsc(s[..m])
    ensures k < |s| ==> m <= k + 1
    ensures k == |s| && BEL !in s[2..] ==> m >= 4 && Terminated(s, m)
  {
    var p := s[..m];
    InSlice(p, 2, m - 1, k);
    InSlice(p, 2, m, k);
    InSlice(s, 2, |s|, m - 1);
    assert p[2..m] == p[2..] && s[2..|s|] == s[2..];
  }

  lemma InSlice(s: Runes, lo: int, hi: int, k: int)
    ensures 0 <= lo <= k < hi <= |s| ==> s[k] in s[lo..hi]
  {
    if 0 <= lo <= k < hi <= |s| {
      assert s[lo..hi][k - lo] == s[k];
    }
  }

  /** Some sequence of the kind starts at the beginning of s. */
  predicate StartsCsi(s: Runes) {
    exists n :: 0 <= n <= |s| && IsCsi(s[..n])
  }

  predicate StartsOsc(s: Runes) {
    exists n :: 0 <= n <= |s| && IsOsc(s[..n])
  }

  lemma StartsExactly(s: Runes)
    ensures StartsCsi(s) <==> CsiLength(s) > 0
    ensures StartsOsc(s) <==> OscLength(s) > 0
  {
    hide IsCsi, IsOsc, CsiLength, OscLength;
    CsiIs(s, 0);
    OscIs(s);
    if n :| 0 <= n <= |s| && IsCsi(s[..n]) {
      CsiIs(s, n);
      NotEmpty(s[..n]);
    }
    if n :| 0 <= n <= |s| && IsOsc(s[..n]) {
      NotEmpty(s[..n]);
    }
  }

  lemma NotEmpty(p: Runes)
    ensures IsCsi(p) || IsOsc(p) ==> p != []
  {
  }

  /**
   Main result: the first control sequence of a text is taken out, the text before it stays,
   and the text after it is taken on by itself; without any, the text stays as it is.
   */
  lemma {:induction false} CsiTakenOut(a: Runes, p: Runes, b: Runes)
    requires IsCsi(p) && forall i :: 0 <= i < |a| ==> !StartsCsi((a + p + b)[i..])
    ensures StripCsi(a + p + b) == a + StripCsi(b)
    decreases |a|
  {
    hide IsCsi, CsiLength, StartsCsi;
    var s := a + p + b;
    NotEmpty(p);
    if a == [] {
      assert s == p + b && s[..|p|] == p && s[|p|..] == b;
      CsiIs(s, |p|);
      assert [] + StripCsi(b) == StripCsi(b);
    } else {
      assert s[0..] == s && s[1..] == a[1..] + p + b;
      StartsExactly(s);
      forall i | 0 <= i < |a[1..]|
        ensures !StartsCsi((a[1..] + p + b)[i..])
      {
        assert (a[1..] + p + b)[i..] == s[i + 1..];
      }
      CsiTakenOut(a[1..], p, b);
      assert a + StripCsi(b) == [a[0]] + (a[1..] + StripCsi(b));
    }
  }

  lemma {:induction false} NoCsiStays(s: Runes)
    requires forall i :: 0 <= i < |s| ==> !StartsCsi(s[i..])
    ensures StripCsi(s) == s
    decreases |s|
  {
    hide CsiLength, StartsCsi;
    if s != [] {
      assert s[0..] == s;
      StartsExactly(s);
      forall i | 0 <= i < |s[1..]|
        ensures !StartsCsi(s[1..][i..])
      {
        assert s[1..][i..] == s[i + 1..];
      }
      NoCsiStays(s[1..]);
    }
  }

  /** The longest operating system command that s starts with, when it is as long as p. */
  predicate StartsWithOsc(s: Runes, p: Runes) {
    p <= s && IsOsc(p) && forall n :: |p| < n <= |s| ==> !IsOsc(s[..n])
  }

  /** And the same of operating system commands, each as long as it can be. */
  lemma {:induction false} OscTakenOut(a: Runes, p: Runes, b: Runes)
    requires StartsWithOsc(p + b, p) && forall i :: 0 <= i < |a| ==> !StartsOsc((a + p + b)[i..])
    ensures StripOsc(a + p + b) == a + StripOsc(b)
    decreases |a|
  {
    hide IsOsc, OscLength, StartsOsc;
    var s := a + p + b;
    NotEmpty(p);
    if a == [] {
      assert s == p + b && s[..|p|] == p && s[|p|..] == b;
      OscIs(s);
      assert [] + StripOsc(b) == StripOsc(b);
    } else {
      assert s[0..] == s && s[1..] == a[1..] + p + b;
      StartsExactly(s);
      forall i | 0 <= i < |a[1..]|
        ensures !StartsOsc((a[1..] + p + b)[i..])
      {
        assert (a[1..] + p + b)[i..] == s[i + 1..];
      }
      OscTakenOut(a[1..], p, b);
      assert a + StripOsc(b) == [a[0]] + (a[1..] + StripOsc(b));
    }
  }

  lemma {:induction false} NoOscStays(s: Runes)
    requires forall i :: 0 <= i < |s| ==> !StartsOsc(s[i..])
    ensures StripOsc(s) == s
    decreases |s|
  {
    hide OscLength, StartsOsc;
    if s != [] {
      assert s[0..] == s;
      StartsExactly(s);
      forall i | 0 <= i < |s[1..]|
        ensures !StartsOsc(s[1..][i..])
      {
        assert s[1..][i..] == s[i + 1..];
      }
      NoOscStays(s[1..]);
    }
  }

  /** A text is taken out where it first occurs, and then in what follows. */
  lemma {:induction false} DropAllFirst(a: Runes, what: Runes, b: Runes)
    requires what != [] && forall i :: 0 <= i < |a| ==> !(what <= (a + what + b)[i..])
    ensures DropAll(a + what + b, what) == a + DropAll(b, what)
    decreases |a|
  {
    var s := a + what + b;
    if a == [] {
      assert s == what + b && s[|what|..] == b && what <= s;
      assert [] + DropAll(b, what) == DropAll(b, what);
    } else {
      assert s[0..] == s && s[1..] == a[1..] + what + b;
      forall i | 0 <= i < |a[1..]|
        ensures !(what <= (a[1..] + what + b)[i..])
      {
        assert (a[1..] + what + b)[i..] == s[i + 1..];
      }
      DropAllFirst(a[1..], what, b);
      assert a + DropAll(b, what) == [a[0]] + (a[1..] + DropAll(b, what));
    }
  }

  lemma {:induction false} DropAllNone(s: Runes, what: Runes)
    requires what != [] && forall i :: 0 <= i < |s| ==> !(what <= s[i..])
    ensures DropAll(s, what) == s
    decreases |s|
  {
    if s != [] {
      assert s[0..] == s;
      forall i | 0 <= i < |s[1..]|
        ensures !(what <= s[1..][i..])
      {
        assert s[1..][i..] == s[i + 1..];
      }
      DropAllNone(s[1..], what);
    }
  }

  lemma JoinCons(r: rune, s: Runes)
    ensures JoinCrLf([r] + s) == if r == CR && s != [] && s[0] == LF then [LF] + JoinCrLf(s[1..]) else [r] + JoinCrLf(s)
  {
    assert ([r] + s)[1..] == s && (s != [] ==> ([r] + s)[2..] == s[1..]);
  }

  lemma JoinNone()
    ensures JoinCrLf([]) == []
  {
  }

  lemma {:induction false} JoinAppend(a: Runes, b: Runes)
    requires a != [] && a[|a| - 1] == CR ==> b == [] || b[0] != LF
    ensures JoinCrLf(a + b) == JoinCrLf(a) + JoinCrLf(b)
    decreases |a|
  {
    hide JoinCrLf;
    if a == [] {
      JoinNone();
      assert a + b == b;
    } else {
      var r, rest := a[0], a[1..];
      assert a == [r] + rest && a + b == [r] + (rest + b);
      JoinCons(r, rest);
      JoinCons(r, rest + b);
      if r == CR && rest != [] && rest[0] == LF {
        JoinAppend(rest[1..], b);
        assert (rest + b)[1..] == rest[1..] + b;
      } else {
        JoinAppend(rest, b);
      }
    }
  }

  /** Every CR LF becomes one LF. */
  lemma JoinCrLfAt(a: Runes, b: Runes)
    ensures JoinCrLf(a + ([CR, LF] + b)) == JoinCrLf(a) + ([LF] + JoinCrLf(b))
  {
    hide JoinCrLf;
    JoinAppend(a, [CR, LF] + b);
    assert [CR, LF] + b == [CR] + ([LF] + b) && ([LF] + b)[1..] == b;
    JoinCons(CR, [LF] + b);
  }

  /** And nothing else changes. */
  lemma {:induction false} NoCrLfStays(s: Runes)
    requires forall i :: 0 <= i < |s| - 1 && s[i] == CR ==> s[i + 1] != LF
    ensures JoinCrLf(s) == s
    decreases |s|
  {
    if s != [] {
      NoCrLfStays(s[1..]);
      assert s == [s[0]] + s[1..];
    }
  }

  // ---------------------------------------------------------------- backspaces

  predicate Erases(r: rune) {
    r == BS || r == DEL
  }

  predicate Shows(r: rune) {
    r == TAB || (r >= 0x20 && r != DEL)
  }

  predicate Breaks(r: rune) {
    r == CR || r == LF
  }

  /** One for a character, one back for a backspace. */
  function Weight(r: rune): int {
    if Shows(r) then 1 else if Erases(r) then -1 else 0
  }

  function Balance(s: Runes): int {
    if s == [] then 0 else Weight(s[0]) + Balance(s[1..])
  }

  /** At no place do the backspaces so far come to more than the characters so far. */
  predicate NeverBack(s: Runes) {
    forall j :: 0 <= j <= |s| ==> Balance(s[..j]) >= 0
  }

  /** The first rune is a character, and what follows never goes back over it. */
  predicate Survives(s: Runes)
    requires s != []
  {
    Shows(s[0]) && NeverBack(s[1..])
  }

  /** The characters that no backspace has taken back, in their order. */
  function Survivors(s: Runes): Runes {
    if s == [] then [] else (if Survives(s) then [s[0]] else []) + Survivors(s[1..])
  }

  /** The least that the balance comes to, from the start on. */
  function Least(s: Runes): (m: int)
    ensures m <= 0
  {
    if s == [] then 0
    else
      var m := Weight(s[0]) + Least(s[1..]);
      if m < 0 then m else 0
  }

  lemma {:induction false} LeastIs(s: Runes)
    ensures forall j :: 0 <= j <= |s| ==> Least(s) <= Balance(s[..j])
    ensures exists j :: 0 <= j <= |s| && Least(s) == Balance(s[..j])
  {
    hide Weight;
    assert s[..0] == [];
    if s != [] {
      LeastIs(s[1..]);
      forall j | 0 < j <= |s|
        ensures Balance(s[..j]) == Weight(s[0]) + Balance(s[1..][..j - 1])
      {
        assert s[..j][1..] == s[1..][..j - 1];
      }
      var k :| 0 <= k <= |s[1..]| && Least(s[1..]) == Balance(s[1..][..k]);
      assert Balance(s[..k + 1]) == Weight(s[0]) + Least(s[1..]);
    }
  }

  lemma FirstSurvives(s: Runes)
    requires s != []
    ensures Survives(s) <==> Shows(s[0]) && Least(s[1..]) == 0
  {
    hide Shows, Balance, Least;
    LeastIs(s[1..]);
  }

  lemma {:induction false} SurvivorCount(s: Runes)
    ensures |Survivors(s)| == Balance(s) - Least(s)
  {
    hide Survives;
    if s != [] {
      SurvivorCount(s[1..]);
      FirstSurvives(s);
    }
  }

  lemma {:induction false} BalanceSnoc(s: Runes, r: rune)
    ensures Balance(s + [r]) == Balance(s) + Weight(r)
    ensures Least(s + [r]) == if Balance(s) + Weight(r) < Least(s) then Balance(s) + Weight(r) else Least(s)
  {
    if s == [] {
      assert (s + [r])[1..] == [];
    } else {
      assert (s + [r])[1..] == s[1..] + [r];
      BalanceSnoc(s[1..], r);
    }
  }

  /** Does the first rune survive one more? */
  lemma StillSurvives(s: Runes, r: rune)
    requires s != []
    ensures Survives(s + [r]) <==> Survives(s) && (Erases(r) ==> Survivors(s[1..]) != [])
  {
    hide Survives, Survivors, Balance, Least;
    var t := s + [r];
    assert t[1..] == s[1..] + [r];
    FirstSurvives(t);
    FirstSurvives(s);
    BalanceSnoc(s[1..], r);
    SurvivorCount(s[1..]);
  }

  /** What one more rune does to the characters that are left. */
  lemma {:induction false} SurvivorsSnoc(s: Runes, r: rune)
    ensures Survivors(s + [r])
            == if Shows(r) then Survivors(s) + [r] else if Erases(r) then DropLast(Survivors(s)) else Survivors(s)
  {
    hide Survives;
    var t := s + [r];
    if s == [] {
      FirstSurvives(t);
      assert t[1..] == [];
    } else {
      assert t[1..] == s[1..] + [r];
      SurvivorsSnoc(s[1..], r);
      StillSurvives(s, r);
    }
  }

  // ---------------------------------------------------------------- the lines that are typed

  lemma OtherTyped(commands: seq<Runes>, done: Runes, r: rune)
    requires !Breaks(r)
    ensures TypeOne(Typed(commands, Survivors(done)), r) == Typed(commands, Survivors(done + [r]))
  {
    hide Survivors;
    SurvivorsSnoc(done, r);
  }

  /** The pieces of a text between its line breaks, CR and LF alike. */
  function Pieces(s: Runes): (ps: seq<Runes>)
    ensures ps != []
  {
    if s == [] then [[]]
    else
      var ps := Pieces(s[1..]);
      if Breaks(s[0]) then [[]] + ps else [[s[0]] + ps[0]] + ps[1..]
  }

  /** Of each line what survives, without the blank ones. */
  function CommandsOf(ps: seq<Runes>): seq<Runes> {
    if ps == [] then []
    else (if BlankRunes(Survivors(ps[0])) then [] else [Survivors(ps[0])]) + CommandsOf(ps[1..])
  }

  /** The same pieces, the first with more in front. */
  function Led(done: Runes, ps: seq<Runes>): (all: seq<Runes>)
    requires ps != []
    ensures |all| == |ps|
  {
    [done + ps[0]] + ps[1..]
  }

  lemma LedSteps(done: Runes, r: rune, rest: seq<Runes>)
    requires rest != []
    ensures Led(done, [[r] + rest[0]] + rest[1..]) == Led(done + [r], rest)
    ensures Led(done, [[]] + rest) == [done] + rest && Led([], rest) == rest
  {
    assert done + ([r] + rest[0]) == (done + [r]) + rest[0] && done + [] == done && [] + rest[0] == rest[0];
    assert ([[r] + rest[0]] + rest[1..])[1..] == rest[1..] && ([[]] + rest)[1..] == rest;
    assert [rest[0]] + rest[1..] == rest;
  }

  lemma CommandsCons(p: Runes, ps: seq<Runes>)
    requires ps != []
    ensures CommandsOf(([p] + ps)[..|ps|])
            == (if BlankRunes(Survivors(p)) then [] else [Survivors(p)]) + CommandsOf(ps[..|ps| - 1])
    ensures ([p] + ps)[|ps|] == ps[|ps| - 1]
  {
    assert ([p] + ps)[..|ps|] == [p] + ps[..|ps| - 1];
    assert ([p] + ps[..|ps| - 1])[1..] == ps[..|ps| - 1];
  }

  /** Everything but the last piece is a command. */
  function TypedLines(commands: seq<Runes>, all: seq<Runes>): Typed
    requires all != []
  {
    Typed(commands + CommandsOf(all[..|all| - 1]), Survivors(all[|all| - 1]))
  }

  lemma {:induction false} PiecesTyped(commands: seq<Runes>, done: Runes, s: Runes)
    ensures Type(Typed(commands, Survivors(done)), s) == TypedLines(commands, Led(done, Pieces(s)))
    decreases |s|
  {
    hide Survivors, BlankRunes, CommandsOf, Led, TypeOne;
    if s == [] {
      NoLine(commands, done);
    } else {
      var rest := Pieces(s[1..]);
      LedSteps(done, s[0], rest);
      if Breaks(s[0]) {
        var first := if BlankRunes(Survivors(done)) then [] else [Survivors(done)];
        NothingSurvives();
        PiecesTyped(commands + first, [], s[1..]);
        CommandsCons(done, rest);
        Regroup(commands, first, CommandsOf(rest[..|rest| - 1]));
        BreakEnds(commands, Survivors(done), s[0]);
      } else {
        OtherTyped(commands, done, s[0]);
        PiecesTyped(commands, done + [s[0]], s[1..]);
      }
    }
  }

  lemma Regroup(a: seq<Runes>, b: seq<Runes>, c: seq<Runes>)
    ensures (a + b) + c == a + (b + c)
  {
  }

  lemma BreakEnds(commands: seq<Runes>, buffer: Runes, r: rune)
    ensures Breaks(r) ==>
              TypeOne(Typed(commands, buffer), r)
              == Typed(commands + (if BlankRunes(buffer) then [] else [buffer]), [])
  {
    assert commands + [] == commands;
  }

  lemma NoLine(commands: seq<Runes>, done: Runes)
    ensures TypedLines(commands, Led(done, [[]])) == Typed(commands, Survivors(done))
  {
    hide Survivors;
    assert done + [] == done && Led(done, [[]])[..0] == [] && commands + [] == commands;
  }

  lemma NothingSurvives()
    ensures Survivors([]) == []
  {
  }

  /** A buffer holds characters only. */
  predicate AllShow(s: Runes) {
    forall r :: r in s ==> Shows(r)
  }

  lemma {:induction false} AllSurvive(s: Runes)
    requires AllShow(s)
    ensures Survivors(s) == s && Least(s) == 0
  {
    if s != [] {
      AllSurvive(s[1..]);
      FirstSurvives(s);
      assert s == [s[0]] + s[1..];
    }
  }

  /**
   Main result: the commands of a chunk are its lines, without escape sequences, each with the
   characters that no backspace has taken back, blank ones left out; the buffer comes before the
   first line, and what survives of the last is left over.
   */
  lemma CommandsTyped(chunk: Runes, buffer: Runes)
    requires AllShow(buffer)
    ensures Consume(chunk, buffer) == TypedLines([], Led(buffer, Pieces(StripCsi(StripOsc(chunk)))))
    ensures AllShow(Consume(chunk, buffer).buffer)
  {
    hide Survivors, CommandsOf, Pieces;
    AllSurvive(buffer);
    PiecesTyped([], buffer, StripAnsi(chunk));
    var all := Led(buffer, Pieces(StripAnsi(chunk)));
    SurvivorsShow(all[|all| - 1]);
  }

  lemma {:induction false} SurvivorsShow(s: Runes)
    ensures AllShow(Survivors(s))
  {
    if s != [] {
      SurvivorsShow(s[1..]);
    }
  }

  // ---------------------------------------------------------------- the lines that are shown

  /** The lines of a text, between line feeds. */
  function LfPieces(s: Runes): (ps: seq<Runes>)
    ensures ps != []
  {
    if s == [] then [[]]
    else
      var ps := LfPieces(s[1..]);
      if s[0] == LF then [[]] + ps else [[s[0]] + ps[0]] + ps[1..]
  }

  /** What comes after the last CR. */
  function AfterCr(s: Runes): Runes {
    if CR !in s then s else AfterCr(s[1..])
  }

  /** A line as it is seen: what is written after the last CR, and not taken back. */
  function Seen(s: Runes): Runes {
    Survivors(AfterCr(s))
  }

  function NotEmptySeen(ps: seq<Runes>): seq<Runes> {
    if ps == [] then [] else (if Seen(ps[0]) == [] then [] else [Seen(ps[0])]) + NotEmptySeen(ps[1..])
  }

  lemma {:induction false} AfterCrSnoc(s: Runes, r: rune)
    ensures AfterCr(s + [r]) == if r == CR then [] else AfterCr(s) + [r]
  {
    var t := s + [r];
    if s == [] {
      assert t[1..] == [];
    } else if CR in t {
      assert t[1..] == s[1..] + [r];
      AfterCrSnoc(s[1..], r);
      if CR !in s {
        assert forall x :: x in s[1..] ==> x in s;
      }
    }
  }

  lemma SeenSnoc(s: Runes, r: rune)
    ensures Seen(s + [r])
            == if r == CR then [] else if Shows(r) then Seen(s) + [r] else if Erases(r) then DropLast(Seen(s))
               else Seen(s)
  {
    hide Survivors, AfterCr;
    AfterCrSnoc(s, r);
    NothingSurvives();
    SurvivorsSnoc(AfterCr(s), r);
  }

  function ShownPieces(lines: seq<Runes>, all: seq<Runes>): Shown
    requires all != []
  {
    Shown(lines + NotEmptySeen(all[..|all| - 1]), Seen(all[|all| - 1]))
  }

  lemma NoneShown(lines: seq<Runes>, done: Runes)
    ensures ShownPieces(lines, Led(done, [[]])) == Shown(lines, Seen(done))
  {
    hide Seen;
    assert done + [] == done && Led(done, [[]])[..0] == [] && lines + [] == lines;
  }

  lemma SeenCons(p: Runes, ps: seq<Runes>)
    requires ps != []
    ensures NotEmptySeen(([p] + ps)[..|ps|]) == (if Seen(p) == [] then [] else [Seen(p)]) + NotEmptySeen(ps[..|ps| - 1])
    ensures ([p] + ps)[|ps|] == ps[|ps| - 1]
  {
    hide Seen;
    assert ([p] + ps)[..|ps|] == [p] + ps[..|ps| - 1];
    assert ([p] + ps[..|ps| - 1])[1..] == ps[..|ps| - 1];
  }

  lemma LfEnds(lines: seq<Runes>, current: Runes)
    ensures ShowOne(Shown(lines, current), LF) == Shown(lines + (if current == [] then [] else [current]), [])
  {
    assert lines + [] == lines;
  }

  lemma {:induction false} PiecesShown(lines: seq<Runes>, done: Runes, s: Runes)
    ensures Show(Shown(lines, Seen(done)), s) == ShownPieces(lines, Led(done, LfPieces(s)))
    decreases |s|
  {
    hide Seen, NotEmptySeen, Led;
    if s == [] {
      NoneShown(lines, done);
    } else {
      var rest := LfPieces(s[1..]);
      LedSteps(done, s[0], rest);
      if s[0] == LF {
        var first := if Seen(done) == [] then [] else [Seen(done)];
        NothingSeen();
        PiecesShown(lines + first, [], s[1..]);
        SeenCons(done, rest);
        Regroup(lines, first, NotEmptySeen(rest[..|rest| - 1]));
        LfEnds(lines, Seen(done));
      } else {
        SeenSnoc(done, s[0]);
        PiecesShown(lines, done + [s[0]], s[1..]);
      }
    }
  }

  lemma NothingSeen()
    ensures Seen([]) == []
  {
  }

  lemma {:induction false} NotEmptySeenSnoc(ps: seq<Runes>, p: Runes)
    ensures NotEmptySeen(ps + [p]) == NotEmptySeen(ps) + (if Seen(p) == [] then [] else [Seen(p)])
  {
    hide Seen;
    if ps == [] {
      assert (ps + [p])[1..] == [];
    } else {
      assert (ps + [p])[1..] == ps[1..] + [p];
      NotEmptySeenSnoc(ps[1..], p);
    }
  }

  /**
   Main result: the lines of an output chunk are what is seen of its lines, without escape
   sequences and paste switches and with CR LF as a line feed, empty ones left out.
   */
  lemma LinesShown(chunk: Runes)
    ensures Lines(chunk)
            == NotEmptySeen(LfPieces(DropAll(DropAll(JoinCrLf(StripCsi(StripOsc(chunk))), PASTE_ON), PASTE_OFF)))
  {
    hide Seen, NotEmptySeen, LfPieces, Show, DropAll, JoinCrLf, StripCsi, StripOsc;
    var s := CleanOutput(chunk);
    var ps := LfPieces(s);
    NothingSeen();
    PiecesShown([], [], s);
    LedSteps([], 0, ps);
    assert ps[..|ps| - 1] + [ps[|ps| - 1]] == ps;
    NotEmptySeenSnoc(ps[..|ps| - 1], ps[|ps| - 1]);
    assert [] + NotEmptySeen(ps[..|ps| - 1]) == NotEmptySeen(ps[..|ps| - 1]);
  }
}
