/**
 White space as the standard library's trimming functions see it, on Unicode
 scalar values and on UTF-8 encoded octets.
 */
module Text {
  import opened Bytes

  /** A Unicode scalar value: any code point that is not a surrogate. */
  newtype rune = r: int | 0 <= r < 0xD800 || 0xE000 <= r < 0x11_0000

  /** The code points with the Unicode property White_Space. */
  predicate IsSpace(r: rune) {
    9 <= r <= 13 || r == 0x20 || r == 0x85 || r == 0xA0 || r == 0x1680 || 0x2000 <= r <= 0x200A
    || r == 0x2028 || r == 0x2029 || r == 0x202F || r == 0x205F || r == 0x3000
  }

  function TrimRunesLeft(s: seq<rune>): seq<rune> {
    if s != [] && IsSpace(s[0]) then TrimRunesLeft(s[1..]) else s
  }

  function TrimRunesRight(s: seq<rune>): seq<rune> {
    if s != [] && IsSpace(s[|s| - 1]) then TrimRunesRight(s[..|s| - 1]) else s
  }

  /** White space removed from both ends. */
  function TrimRunes(s: seq<rune>): seq<rune> {
    TrimRunesRight(TrimRunesLeft(s))
  }

  predicate BlankRunes(s: seq<rune>) {
    TrimRunes(s) == []
  }

  lemma {:induction false} TrimRunesRightPrefix(s: seq<rune>)
    ensures TrimRunesRight(s) <= s
  {
    if s != [] && IsSpace(s[|s| - 1]) {
      TrimRunesRightPrefix(s[..|s| - 1]);
    }
  }

  /** What trimming leaves neither starts nor ends with white space. */
  lemma {:induction false} TrimRunesEnds(s: seq<rune>)
    ensures TrimRunes(s) != [] ==> !IsSpace(TrimRunes(s)[0]) && !IsSpace(TrimRunes(s)[|TrimRunes(s)| - 1])
    decreases |s|
  {
    if s != [] {
      if IsSpace(s[0]) {
        TrimRunesEnds(s[1..]);
      } else {
        TrimRunesRightPrefix(s);
        TrimRunesRightEnd(s);
      }
    }
  }

  lemma {:induction false} TrimRunesRightEnd(s: seq<rune>)
    ensures TrimRunesRight(s) != [] ==> !IsSpace(TrimRunesRight(s)[|TrimRunesRight(s)| - 1])
  {
    if s != [] && IsSpace(s[|s| - 1]) {
      TrimRunesRightEnd(s[..|s| - 1]);
    }
  }

  /** Trimming twice is trimming once. */
  lemma TrimRunesTwice(s: seq<rune>)
    ensures TrimRunes(TrimRunes(s)) == TrimRunes(s)
  {
    TrimRunesEnds(s);
  }

  predicate AllSpaceRunes(s: seq<rune>) {
    forall r :: r in s ==> IsSpace(r)
  }

  /** What trimming is for: t is what lies between the white space at both ends of s. */
  ghost predicate RunesBetween(s: seq<rune>, t: seq<rune>) {
    && (t != [] ==> !IsSpace(t[0]) && !IsSpace(t[|t| - 1]))
    && exists l, r :: s == l + t + r && AllSpaceRunes(l) && AllSpaceRunes(r)
  }

  lemma {:induction false} TrimRunesLeftParts(s: seq<rune>) returns (l: seq<rune>)
    ensures s == l + TrimRunesLeft(s) && AllSpaceRunes(l)
  {
    l := [];
    if s != [] && IsSpace(s[0]) {
      var l' := TrimRunesLeftParts(s[1..]);
      l := [s[0]] + l';
    }
  }

  lemma {:induction false} TrimRunesRightParts(s: seq<rune>) returns (r: seq<rune>)
    ensures s == TrimRunesRight(s) + r && AllSpaceRunes(r)
  {
    r := [];
    if s != [] && IsSpace(s[|s| - 1]) {
      var r' := TrimRunesRightParts(s[..|s| - 1]);
      r := r' + [s[|s| - 1]];
    }
  }

  lemma {:induction false} TrimRunesLeftDrops(l: seq<rune>, s: seq<rune>)
    requires AllSpaceRunes(l)
    ensures TrimRunesLeft(l + s) == TrimRunesLeft(s)
  {
    if l == [] {
      assert l + s == s;
    } else {
      assert (l + s)[1..] == l[1..] + s;
      TrimRunesLeftDrops(l[1..], s);
    }
  }

  lemma {:induction false} TrimRunesRightDrops(s: seq<rune>, r: seq<rune>)
    requires AllSpaceRunes(r)
    ensures TrimRunesRight(s + r) == TrimRunesRight(s)
  {
    if r == [] {
      assert s + r == s;
    } else {
      assert (s + r)[..|s + r| - 1] == s + r[..|r| - 1];
      TrimRunesRightDrops(s, r[..|r| - 1]);
    }
  }

  lemma TrimRunesFinds(s: seq<rune>)
    ensures RunesBetween(s, TrimRunes(s))
  {
    hide IsSpace, AllSpaceRunes, TrimRunesLeft, TrimRunesRight;
    var l := TrimRunesLeftParts(s);
    var r := TrimRunesRightParts(TrimRunesLeft(s));
    TrimRunesEnds(s);
    assert s == l + TrimRunes(s) + r;
  }

  lemma NoSpaceNoTrim(t: seq<rune>, r: seq<rune>)
    requires t != [] && !IsSpace(t[0]) && !IsSpace(t[|t| - 1])
    ensures TrimRunesLeft(t + r) == t + r && TrimRunesRight(t) == t
  {
    hide IsSpace;
  }

  /** Trimming finds that text, and there is no other. */
  lemma TrimRunesExactly(s: seq<rune>, t: seq<rune>)
    ensures TrimRunes(s) == t <==> RunesBetween(s, t)
  {
    hide IsSpace, AllSpaceRunes, TrimRunesLeft, TrimRunesRight;
    TrimRunesFinds(s);
    if RunesBetween(s, t) {
      var l, r :| s == l + t + r && AllSpaceRunes(l) && AllSpaceRunes(r);
      assert s == l + (t + r);
      TrimRunesLeftDrops(l, t + r);
      TrimRunesRightDrops(t, r);
      if t == [] {
        TrimRunesLeftDrops(r, []);
        assert t + r == r == r + [];
        NothingToTrim();
      } else {
        NoSpaceNoTrim(t, r);
      }
    }
  }

  lemma NothingToTrim()
    ensures TrimRunesLeft([]) == [] && TrimRunesRight([]) == []
  {
  }

  // ---------------------------------------------------------------- UTF-8 octets

  /** The UTF-8 encoding of a code point, section 3 of RFC 3629. */
  function Utf8(r: rune): seq<byte> {
    var n := r as int;
    if n < 0x80 then [n as byte]
    else if n < 0x800 then [(0xC0 + n / 64) as byte, (0x80 + n % 64) as byte]
    else if n < 0x1_0000 then
      [(0xE0 + n / 4096) as byte, (0x80 + n / 64 % 64) as byte, (0x80 + n % 64) as byte]
    else
      [(0xF0 + n / 262144) as byte, (0x80 + n / 4096 % 64) as byte, (0x80 + n / 64 % 64) as byte,
       (0x80 + n % 64) as byte]
  }

  /** The UTF-8 encoding of a white space character. */
  predicate IsSpaceEncoding(s: seq<byte>) {
    || (|s| == 1 && (9 <= s[0] <= 13 || s[0] == 0x20))
    || (|s| == 2 && s[0] == 0xC2 && (s[1] == 0x85 || s[1] == 0xA0))
    || (|s| == 3 && s[0] == 0xE1 && s[1] == 0x9A && s[2] == 0x80)
    || (|s| == 3 && s[0] == 0xE2 && s[1] == 0x80
        && (0x80 <= s[2] <= 0x8A || s[2] == 0xA8 || s[2] == 0xA9 || s[2] == 0xAF))
    || (|s| == 3 && s[0] == 0xE2 && s[1] == 0x81 && s[2] == 0x9F)
    || (|s| == 3 && s[0] == 0xE3 && s[1] == 0x80 && s[2] == 0x80)
  }

  lemma SpaceEncoded(r: rune)
    requires IsSpace(r)
    ensures IsSpaceEncoding(Utf8(r))
  {
    hide IsSpaceEncoding;
    var n := r as int;
    if 0x2000 <= n <= 0x200A {
      assert n / 4096 == 2 && n / 64 == 128 && n % 64 == n - 0x2000;
      assert Utf8(r) == [0xE2, 0x80, (0x80 + (n - 0x2000)) as byte];
    }
    SpaceOctets();
  }

  /** The encodings one by one. */
  lemma SpaceOctets()
    ensures forall b: byte :: 9 <= b <= 13 || b == 0x20 ==> IsSpaceEncoding([b])
    ensures IsSpaceEncoding([0xC2, 0x85]) && IsSpaceEncoding([0xC2, 0xA0]) && IsSpaceEncoding([0xE1, 0x9A, 0x80])
    ensures forall b: byte :: 0x80 <= b <= 0x8A || b == 0xA8 || b == 0xA9 || b == 0xAF ==>
              IsSpaceEncoding([0xE2, 0x80, b])
    ensures IsSpaceEncoding([0xE2, 0x81, 0x9F]) && IsSpaceEncoding([0xE3, 0x80, 0x80])
  {
  }

  lemma SpaceDecoded(s: seq<byte>) returns (r: rune)
    requires IsSpaceEncoding(s)
    ensures IsSpace(r) && s == Utf8(r)
  {
    if |s| == 1 {
      r := s[0] as rune;
    } else if |s| == 2 {
      r := ((s[0] as int - 0xC0) * 64 + (s[1] as int - 0x80)) as rune;
    } else {
      var a, b, c := s[0] as int - 0xE0, s[1] as int - 0x80, s[2] as int - 0x80;
      var n := a * 4096 + b * 64 + c;
      r := n as rune;
      assert n % 64 == c && n / 64 == a * 64 + b;
    }
  }

  /** The encodings above are those of the white space characters, and no others. */
  lemma SpaceEncodings(s: seq<byte>)
    ensures IsSpaceEncoding(s) <==> exists r :: IsSpace(r) && s == Utf8(r)
  {
    hide IsSpaceEncoding, IsSpace, Utf8;
    if IsSpaceEncoding(s) {
      var r := SpaceDecoded(s);
    }
    forall r | IsSpace(r)
      ensures IsSpaceEncoding(Utf8(r))
    {
      SpaceEncoded(r);
    }
  }

  /** The length of the white space character at the start, 0 when there is none. */
  function LeadingSpace(s: seq<byte>): (n: nat)
    ensures n <= |s|
    ensures n > 0 ==> IsSpaceEncoding(s[..n])
    ensures n == 0 ==> forall k :: 1 <= k <= |s| && k <= 3 ==> !IsSpaceEncoding(s[..k])
  {
    if |s| >= 1 && IsSpaceEncoding(s[..1]) then 1
    else if |s| >= 2 && IsSpaceEncoding(s[..2]) then 2
    else if |s| >= 3 && IsSpaceEncoding(s[..3]) then 3
    else 0
  }

  /** The last k octets are a white space character. */
  predicate EndsInSpace(s: seq<byte>, k: nat) {
    1 <= k <= |s| && IsSpaceEncoding(s[|s| - k..])
  }

  /** The length of the white space character at the end, 0 when there is none. */
  function TrailingSpace(s: seq<byte>): (n: nat)
    ensures n <= 3 && (n > 0 ==> EndsInSpace(s, n))
    ensures n == 0 ==> forall k :: k <= 3 ==> !EndsInSpace(s, k)
  {
    if EndsInSpace(s, 1) then 1 else if EndsInSpace(s, 2) then 2 else if EndsInSpace(s, 3) then 3 else 0
  }

  function TrimLeft(s: seq<byte>): seq<byte> {
    var n := LeadingSpace(s);
    if n > 0 then TrimLeft(s[n..]) else s
  }

  function TrimRight(s: seq<byte>): seq<byte> {
    var n := TrailingSpace(s);
    if n > 0 then TrimRight(s[..|s| - n]) else s
  }

  /** White space removed from both ends. */
  function Trim(s: seq<byte>): seq<byte> {
    TrimRight(TrimLeft(s))
  }

  lemma {:induction false} TrimRightShape(s: seq<byte>)
    ensures TrimRight(s) <= s && TrailingSpace(TrimRight(s)) == 0
    decreases |s|
  {
    hide TrailingSpace, IsSpaceEncoding;
    var n := TrailingSpace(s);
    if n > 0 {
      TrimRightShape(s[..|s| - n]);
    }
  }

  lemma {:induction false} TrimLeftShape(s: seq<byte>)
    ensures LeadingSpace(TrimLeft(s)) == 0
    ensures |TrimLeft(s)| <= |s| && TrimLeft(s) == s[|s| - |TrimLeft(s)|..]
    decreases |s|
  {
    hide LeadingSpace, IsSpaceEncoding;
    if LeadingSpace(s) > 0 {
      TrimLeftShape(s[LeadingSpace(s)..]);
    }
  }

  lemma PrefixLeadingSpace(p: seq<byte>, s: seq<byte>)
    requires p <= s && LeadingSpace(s) == 0
    ensures LeadingSpace(p) == 0
  {
    forall k | 1 <= k <= |p| && k <= 3
      ensures !IsSpaceEncoding(p[..k])
    {
      assert p[..k] == s[..k];
    }
  }

  /** Neither a beginning nor an end of s is a white space character. */
  predicate Bare(s: seq<byte>) {
    forall k :: 1 <= k <= |s| ==> !IsSpaceEncoding(s[..k]) && !IsSpaceEncoding(s[|s| - k..])
  }

  /** White space characters, one after the other. */
  ghost predicate AllSpace(s: seq<byte>)
    decreases |s|
  {
    s == [] || exists k :: 1 <= k <= |s| && IsSpaceEncoding(s[..k]) && AllSpace(s[k..])
  }

  /** What trimming is for: t is what lies between the white space at both ends of s. */
  ghost predicate Between(s: seq<byte>, t: seq<byte>) {
    Bare(t) && exists l, r :: s == l + t + r && AllSpace(l) && AllSpace(r)
  }

  lemma {:induction false} TrimLeftParts(s: seq<byte>) returns (l: seq<byte>)
    ensures s == l + TrimLeft(s) && AllSpace(l)
    decreases |s|
  {
    hide IsSpaceEncoding;
    l := [];
    var n := LeadingSpace(s);
    if n > 0 {
      var l' := TrimLeftParts(s[n..]);
      l := s[..n] + l';
      assert l[..n] == s[..n] && l[n..] == l';
    }
  }

  lemma {:induction false} TrimRightParts(s: seq<byte>) returns (r: seq<byte>)
    ensures s == TrimRight(s) + r && AllSpace(r)
    decreases |s|
  {
    hide IsSpaceEncoding, AllSpace, TrailingSpace;
    r := [];
    var n := TrailingSpace(s);
    if n > 0 {
      var r' := TrimRightParts(s[..|s| - n]);
      r := r' + s[|s| - n..];
      AllSpaceSnoc(r', s[|s| - n..]);
    } else {
      NoneIsSpace();
    }
  }

  lemma NoneIsSpace()
    ensures AllSpace([])
  {
  }

  lemma {:induction false} AllSpaceSnoc(s: seq<byte>, p: seq<byte>)
    requires AllSpace(s) && IsSpaceEncoding(p)
    ensures AllSpace(s + p)
    decreases |s|
  {
    hide IsSpaceEncoding;
    if s == [] {
      SpaceLength(p);
      assert (s + p)[..|p|] == p && (s + p)[|p|..] == [];
    } else {
      var k :| 1 <= k <= |s| && IsSpaceEncoding(s[..k]) && AllSpace(s[k..]);
      AllSpaceSnoc(s[k..], p);
      AllSpaceCons(s[..k], s[k..] + p);
      assert s + p == s[..k] + (s[k..] + p);
    }
  }

  lemma SpaceLength(p: seq<byte>)
    requires IsSpaceEncoding(p)
    ensures 1 <= |p| <= 3
  {
  }

  /** The other way to take white space apart. */
  lemma {:induction false} AllSpaceLast(s: seq<byte>) returns (k: nat)
    requires AllSpace(s) && s != []
    ensures 1 <= k <= |s| && AllSpace(s[..|s| - k]) && IsSpaceEncoding(s[|s| - k..])
    decreases |s|
  {
    hide IsSpaceEncoding;
    var n :| 1 <= n <= |s| && IsSpaceEncoding(s[..n]) && AllSpace(s[n..]);
    var rest := s[n..];
    if rest == [] {
      k := n;
      assert s[..|s| - k] == [] && s[|s| - k..] == s[..n];
    } else {
      k := AllSpaceLast(rest);
      assert s[|s| - k..] == rest[|rest| - k..];
      AllSpaceCons(s[..n], rest[..|rest| - k]);
      assert s[..|s| - k] == s[..n] + rest[..|rest| - k];
    }
  }

  lemma AllSpaceCons(p: seq<byte>, s: seq<byte>)
    requires IsSpaceEncoding(p) && AllSpace(s)
    ensures AllSpace(p + s)
  {
    hide IsSpaceEncoding;
    SpaceLength(p);
    assert (p + s)[..|p|] == p && (p + s)[|p|..] == s;
  }

  lemma LeadingSpaceIs(s: seq<byte>, k: nat)
    ensures 1 <= k <= |s| && IsSpaceEncoding(s[..k]) ==> LeadingSpace(s) == k
  {
  }

  /** What the first octet of a white space character is, and what the others are. */
  lemma SpaceOctetKinds(p: seq<byte>)
    requires IsSpaceEncoding(p)
    ensures p[0] < 0x80 || p[0] >= 0xC2
    ensures forall i :: 1 <= i < |p| ==> 0x80 <= p[i] < 0xC0
  {
  }

  /** No white space character ends in another. */
  lemma ShorterEnds(p: seq<byte>, k: nat)
    requires IsSpaceEncoding(p) && 1 <= k < |p|
    ensures !IsSpaceEncoding(p[k..])
  {
    hide IsSpaceEncoding;
    SpaceOctetKinds(p);
    if IsSpaceEncoding(p[k..]) {
      SpaceOctetKinds(p[k..]);
    }
  }

  lemma NoShorter(s: seq<byte>, k: nat, m: nat)
    requires 1 <= m < k <= |s| && IsSpaceEncoding(s[|s| - k..])
    ensures !IsSpaceEncoding(s[|s| - m..])
  {
    hide IsSpaceEncoding;
    ShorterEnds(s[|s| - k..], k - m);
    assert s[|s| - k..][k - m..] == s[|s| - m..];
  }

  lemma TrailingSpaceIs(s: seq<byte>, k: nat)
    requires 1 <= k <= |s| && IsSpaceEncoding(s[|s| - k..])
    ensures TrailingSpace(s) == k
  {
    hide IsSpaceEncoding, TrailingSpace;
    SpaceLength(s[|s| - k..]);
    assert EndsInSpace(s, k);
    var n := TrailingSpace(s);
    if 0 < n < k {
      NoShorter(s, k, n);
    } else if k < n {
      NoShorter(s, n, k);
    }
  }

  lemma {:induction false} TrimLeftDrops(l: seq<byte>, s: seq<byte>)
    requires AllSpace(l)
    ensures TrimLeft(l + s) == TrimLeft(s)
    decreases |l|
  {
    hide IsSpaceEncoding, LeadingSpace;
    if l == [] {
      assert l + s == s;
    } else {
      var k :| 1 <= k <= |l| && IsSpaceEncoding(l[..k]) && AllSpace(l[k..]);
      assert (l + s)[..k] == l[..k] && (l + s)[k..] == l[k..] + s;
      LeadingSpaceIs(l + s, k);
      TrimLeftDrops(l[k..], s);
    }
  }

  lemma {:induction false} TrimRightDrops(s: seq<byte>, r: seq<byte>)
    requires AllSpace(r)
    ensures TrimRight(s + r) == TrimRight(s)
    decreases |r|
  {
    hide IsSpaceEncoding, TrailingSpace;
    if r == [] {
      assert s + r == s;
    } else {
      var k := AllSpaceLast(r);
      var m := |r| - k;
      assert (s + r)[|s + r| - k..] == r[m..] && (s + r)[..|s + r| - k] == s + r[..m];
      TrailingSpaceIs(s + r, k);
      TrimRightDrops(s, r[..m]);
    }
  }

  /** White space never makes white space of what stands before it. */
  lemma NotLeading(t: seq<byte>, r: seq<byte>)
    requires Bare(t) && t != [] && AllSpace(r)
    ensures LeadingSpace(t + r) == 0
  {
    hide AllSpace;
    forall k | 1 <= k <= |t + r|
      ensures !IsSpaceEncoding((t + r)[..k])
    {
      if k <= |t| {
        assert (t + r)[..k] == t[..k];
      } else {
        FirstOctet(r);
        assert (t + r)[..k][|t|] == r[0];
      }
    }
  }

  lemma FirstOctet(r: seq<byte>)
    requires AllSpace(r) && r != []
    ensures r[0] < 0x80 || r[0] >= 0xC2
  {
    hide IsSpaceEncoding;
    var k :| 1 <= k <= |r| && IsSpaceEncoding(r[..k]) && AllSpace(r[k..]);
    SpaceOctetKinds(r[..k]);
  }

  lemma BareIf(s: seq<byte>)
    requires LeadingSpace(s) == 0 && TrailingSpace(s) == 0
    ensures Bare(s)
  {
    hide IsSpaceEncoding, LeadingSpace, TrailingSpace;
    forall k | 1 <= k <= |s|
      ensures !IsSpaceEncoding(s[..k]) && !IsSpaceEncoding(s[|s| - k..])
    {
      LeadingSpaceIs(s, k);
      if IsSpaceEncoding(s[|s| - k..]) {
        TrailingSpaceIs(s, k);
      }
    }
  }

  lemma BareEnds(s: seq<byte>)
    ensures Bare(s) <==> LeadingSpace(s) == 0 && TrailingSpace(s) == 0
  {
    hide IsSpaceEncoding, LeadingSpace, TrailingSpace;
    if LeadingSpace(s) == 0 && TrailingSpace(s) == 0 {
      BareIf(s);
    } else {
      var n := if LeadingSpace(s) > 0 then LeadingSpace(s) else TrailingSpace(s);
      assert IsSpaceEncoding(s[..n]) || IsSpaceEncoding(s[|s| - n..]);
    }
  }

  lemma TrimFinds(s: seq<byte>)
    ensures Between(s, Trim(s))
  {
    hide IsSpaceEncoding, LeadingSpace, TrailingSpace, AllSpace, Bare, TrimLeft, TrimRight;
    var l := TrimLeftParts(s);
    var r := TrimRightParts(TrimLeft(s));
    TrimLeftShape(s);
    TrimRightShape(TrimLeft(s));
    PrefixLeadingSpace(Trim(s), TrimLeft(s));
    BareEnds(Trim(s));
    assert s == l + Trim(s) + r;
  }

  lemma NoSpaceNoTrimming(t: seq<byte>, r: seq<byte>)
    requires Bare(t) && t != [] && AllSpace(r)
    ensures TrimLeft(t + r) == t + r && TrimRight(t) == t
  {
    hide IsSpaceEncoding, LeadingSpace, TrailingSpace, AllSpace, Bare;
    NotLeading(t, r);
    BareEnds(t);
  }

  /** Trimming finds that text, and there is no other. */
  lemma TrimExactly(s: seq<byte>, t: seq<byte>)
    ensures Trim(s) == t <==> Between(s, t)
  {
    hide IsSpaceEncoding, AllSpace, Bare, TrimLeft, TrimRight;
    TrimFinds(s);
    if Between(s, t) {
      var l, r :| s == l + t + r && AllSpace(l) && AllSpace(r);
      assert s == l + (t + r);
      TrimLeftDrops(l, t + r);
      TrimRightDrops(t, r);
      EmptyTrimmed();
      if t == [] {
        TrimLeftDrops(r, []);
        assert t + r == r == r + [];
      } else {
        NoSpaceNoTrimming(t, r);
      }
    }
  }

  lemma EmptyTrimmed()
    ensures TrimRight([]) == [] && TrimLeft([]) == []
  {
  }

  /** Trimming leaves exactly the text alone that has no white space at its ends. */
  lemma BareTrims(s: seq<byte>)
    ensures Bare(Trim(s)) && (Trim(s) == s <==> Bare(s))
  {
    hide Trim, AllSpace, Bare;
    TrimExactly(s, Trim(s));
    NoneIsSpace();
    assert s == [] + s + [];
    TrimExactly(s, s);
  }

  /** And nothing is left of exactly the text that is all white space. */
  lemma BlankTrims(s: seq<byte>)
    ensures Trim(s) == [] <==> AllSpace(s)
  {
    hide Trim, AllSpace, Bare;
    TrimExactly(s, []);
    NoneIsSpace();
    EmptyBare();
    assert s == s + [] + [];
    if Trim(s) == [] {
      var l, r :| s == l + [] + r && AllSpace(l) && AllSpace(r);
      assert s == l + r;
      AllSpaceJoined(l, r);
    }
  }

  lemma EmptyBare()
    ensures Bare([])
  {
  }

  lemma {:induction false} AllSpaceJoined(l: seq<byte>, r: seq<byte>)
    requires AllSpace(l) && AllSpace(r)
    ensures AllSpace(l + r)
    decreases |l|
  {
    hide IsSpaceEncoding;
    if l == [] {
      assert l + r == r;
    } else {
      var k :| 1 <= k <= |l| && IsSpaceEncoding(l[..k]) && AllSpace(l[k..]);
      AllSpaceJoined(l[k..], r);
      AllSpaceCons(l[..k], l[k..] + r);
      assert l + r == l[..k] + (l[k..] + r);
    }
  }

  /** A trimmed piece of s is made of octets of s. */
  lemma TrimIsPart(s: seq<byte>)
    ensures forall b :: b in Trim(s) ==> b in s
  {
    TrimLeftShape(s);
    TrimRightShape(TrimLeft(s));
  }
}
