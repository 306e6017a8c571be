/** The LOGIN7 record, rewritten in place with the managed credentials. */
module Login7 {
  import opened Bytes
  import opened Text
  import opened Utf16

  const FIXED_LENGTH := 94
  const USER := 40
  const PASSWORD := 44
  const DATABASE := 68

  datatype Error = TooShort | InvalidField(pos: nat) | ReplacementTooLong(pos: nat)

  datatype Result = Ok(record: seq<byte>) | Err(error: Error)

  /** Where the record says field pos starts, and how many characters it has. */
  function Offset(s: seq<byte>, pos: nat): nat
    requires pos + 4 <= |s|
  {
    Le(s[pos..pos + 2])
  }

  function Chars(s: seq<byte>, pos: nat): nat
    requires pos + 4 <= |s|
  {
    Le(s[pos + 2..pos + 4])
  }

  function Overwrite(s: seq<byte>, at: nat, b: seq<byte>): (t: seq<byte>)
    requires at + |b| <= |s|
    ensures |t| == |s|
    ensures forall i :: 0 <= i < |s| ==> t[i] == if at <= i < at + |b| then b[i - at] else s[i]
  {
    s[..at] + b + s[at + |b|..]
  }

  function Zeros(n: nat): (s: seq<byte>)
    ensures |s| == n && forall i :: 0 <= i < n ==> s[i] == 0
  {
    seq(n, _ => 0)
  }

  /** setUTF16Field: the replacement, zeros up to the old length, then the new character count. */
  function SetField(s: seq<byte>, pos: nat, raw: seq<byte>, chars: nat): (r: Result)
    requires pos + 4 <= |s|
    ensures r.Ok? ==> |r.record| == |s|
  {
    var off, room := Offset(s, pos), 2 * Chars(s, pos);
    if off + room > |s| then Err(InvalidField(pos))
    else if |raw| > room then Err(ReplacementTooLong(pos))
    else Ok(Overwrite(Overwrite(s, off, raw + Zeros(room - |raw|)), pos + 2, PutLe(chars % 0x1_0000, 2)))
  }

  /** The integrated-security bit off, the three fields set, the total length set. */
  function Rewrite(s: seq<byte>, user: seq<rune>, password: seq<rune>, database: seq<rune>): (r: Result)
    ensures r.Ok? ==> |r.record| == |s|
  {
    if |s| < FIXED_LENGTH then Err(TooShort)
    else
      var a := SetField(s[25 := s[25] % 0x80], USER, EncodeLe(user), |user|);
      if a.Err? then a
      else
        var b := SetField(a.record, PASSWORD, Obfuscated(EncodeLe(password)), |password|);
        if b.Err? then b
        else
          var c := if BlankRunes(database) then b else SetField(b.record, DATABASE, EncodeLe(database), |database|);
          if c.Err? then c else Ok(Overwrite(c.record, 0, PutLe(|s| % 0x1_0000_0000, 4)))
  }

  // ---------------------------------------------------------------- in place

  /** setUTF16Field, on the record's own octets. */
  method SetUtf16Field(out: array<byte>, pos: nat, raw: seq<byte>, chars: nat) returns (error: Option<Error>)
    requires pos + 4 <= out.Length
    modifies out
    ensures match SetField(old(out[..]), pos, raw, chars)
            case Ok(s) => error == None && out[..] == s
            case Err(e) => error == Some(e) && out[..] == old(out[..])
  {
    hide Le, PutLe, Overwrite, Zeros;
    ghost var s := out[..];
    var off := Le(out[pos..pos + 2]);
    var ln := Le(out[pos + 2..pos + 4]);
    assert out[pos..pos + 2] == s[pos..pos + 2] && out[pos + 2..pos + 4] == s[pos + 2..pos + 4];
    var byteLen := ln * 2;
    if off > out.Length || off + byteLen > out.Length {
      return Some(InvalidField(pos));
    }
    if |raw| > byteLen {
      return Some(ReplacementTooLong(pos));
    }
    CopyInto(out, off, raw);
    ZeroFill(out, off + |raw|, off + byteLen);
    OverwriteTwice(s, off, raw, Zeros(byteLen - |raw|));
    PutUint16(out, pos + 2, chars % 0x1_0000);
    error := None;
  }

  method PutUint16(out: array<byte>, at: nat, n: nat)
    requires at + 2 <= out.Length
    modifies out
    ensures out[..] == Overwrite(old(out[..]), at, PutLe(n, 2))
  {
    hide PutLe;
    ghost var s := out[..];
    var word := PutLe(n, 2);
    out[at], out[at + 1] := word[0], word[1];
    assert out[..] == Overwrite(s, at, word);
  }

  /** The copy of raw into out at off. */
  method CopyInto(out: array<byte>, off: nat, raw: seq<byte>)
    requires off + |raw| <= out.Length
    modifies out
    ensures out[..] == Overwrite(old(out[..]), off, raw)
  {
    ghost var s := out[..];
    var i := 0;
    while i < |raw|
      invariant 0 <= i <= |raw|
      invariant forall k :: 0 <= k < out.Length ==> out[k] == if off <= k < off + i then raw[k - off] else s[k]
    {
      out[off + i] := raw[i];
      i := i + 1;
    }
  }

  /** Zeros from one position up to another. */
  method ZeroFill(out: array<byte>, from: nat, to: nat)
    requires from <= to <= out.Length
    modifies out
    ensures out[..] == Overwrite(old(out[..]), from, Zeros(to - from))
  {
    ghost var s := out[..];
    var i := from;
    while i < to
      invariant from <= i <= to
      invariant forall k :: 0 <= k < out.Length ==> out[k] == if from <= k < i then 0 else s[k]
    {
      out[i] := 0;
      i := i + 1;
    }
  }

  lemma OverwriteTwice(s: seq<byte>, off: nat, a: seq<byte>, b: seq<byte>)
    ensures off + |a| + |b| <= |s| ==> Overwrite(Overwrite(s, off, a), off + |a|, b) == Overwrite(s, off, a + b)
  {
  }

  method CopyOf(payload: array<byte>) returns (out: array<byte>)
    ensures fresh(out) && out[..] == payload[..]
  {
    out := new byte[payload.Length];
    var i := 0;
    while i < payload.Length
      invariant 0 <= i <= payload.Length
      invariant forall k :: 0 <= k < i ==> out[k] == payload[k]
    {
      out[i] := payload[i];
      i := i + 1;
    }
  }

  /** rewriteLogin7WithManagedCreds. */
  method RewriteLogin7WithManagedCreds(payload: array<byte>, username: seq<rune>, password: seq<rune>,
                                       database: seq<rune>)
    returns (out: array<byte>, error: Option<Error>)
    ensures payload[..] == old(payload[..]) && fresh(out)
    ensures match Rewrite(payload[..], username, password, database)
            case Ok(s) => error == None && out[..] == s
            case Err(e) => error == Some(e)
  {
    hide SetField, EncodeLe, PutLe;
    if payload.Length < FIXED_LENGTH {
      out := new byte[0];
      return out, Some(TooShort);
    }
    out := CopyOf(payload);
    out[25] := out[25] % 0x80;
    assert out[..] == payload[..][25 := payload[25] % 0x80];
    var user := EncodeUtf16Le(username);
    error := SetUtf16Field(out, USER, user, |username|);
    if error.Some? {
      return;
    }
    var secret := ObfuscateTdsPassword(password);
    error := SetUtf16Field(out, PASSWORD, secret[..], |password|);
    if error.Some? {
      return;
    }
    if TrimRunes(database) != [] {
      var name := EncodeUtf16Le(database);
      error := SetUtf16Field(out, DATABASE, name, |database|);
      if error.Some? {
        return;
      }
    }
    ghost var s := out[..];
    var word := PutLe(out.Length % 0x1_0000_0000, 4);
    out[0], out[1], out[2], out[3] := word[0], word[1], word[2], word[3];
    assert out[..] == Overwrite(s, 0, word);
  }

  // ---------------------------------------------------------------- reading fields back

  /** The field starts past the header. */
  predicate Past(s: seq<byte>, pos: nat)
    requires pos + 4 <= |s|
  {
    FIXED_LENGTH <= Offset(s, pos)
  }

  /** The field ends in the record. */
  predicate Inside(s: seq<byte>, pos: nat)
    requires pos + 4 <= |s|
  {
    Offset(s, pos) + 2 * Chars(s, pos) <= |s|
  }

  predicate InRange(s: seq<byte>, pos: nat)
    requires pos + 4 <= |s|
  {
    Past(s, pos) && Inside(s, pos)
  }

  /** The octets of a field, as the record describes it. */
  function FieldOctets(s: seq<byte>, pos: nat): seq<byte>
    requires pos + 4 <= |s| && InRange(s, pos)
  {
    s[Offset(s, pos)..Offset(s, pos) + 2 * Chars(s, pos)]
  }

  /** A text field as a server reads it. */
  function ReadText(s: seq<byte>, pos: nat): seq<rune>
    requires pos + 4 <= |s| && InRange(s, pos)
  {
    Decode(UnitsOf(FieldOctets(s, pos)))
  }

  function ReadPassword(s: seq<byte>): seq<rune>
    requires PASSWORD + 4 <= |s| && InRange(s, PASSWORD)
  {
    Decode(UnitsOf(Revealed(FieldOctets(s, PASSWORD))))
  }

  /** parseLogin7Database. */
  function ParseDatabase(s: seq<byte>): seq<rune> {
    if |s| < FIXED_LENGTH then []
    else
      var off, n := Offset(s, DATABASE), Chars(s, DATABASE);
      if n == 0 || off + 2 * n > |s| then [] else TrimRunes(DecodeLe(s[off..off + 2 * n]))
  }

  /** Octet i belongs to the field's data, or to its length word. */
  predicate InField(s: seq<byte>, pos: nat, i: int)
    requires pos + 4 <= |s|
  {
    Offset(s, pos) <= i < Offset(s, pos) + 2 * Chars(s, pos) || i == pos + 2 || i == pos + 3
  }

  predicate Apart(s: seq<byte>, p: nat, q: nat)
    requires p + 4 <= |s| && q + 4 <= |s|
  {
    || Offset(s, p) + 2 * Chars(s, p) <= Offset(s, q)
    || Offset(s, q) + 2 * Chars(s, q) <= Offset(s, p)
  }

  /**
   The fields to be set, the database one only if d, start past the header; they may
   overlap, and may end outside the record.
   */
  predicate Laid(s: seq<byte>, d: bool) {
    |s| >= FIXED_LENGTH && Past(s, USER) && Past(s, PASSWORD) && (d ==> Past(s, DATABASE))
  }

  predicate Disjoint(s: seq<byte>, d: bool)
    requires |s| >= FIXED_LENGTH
  {
    Apart(s, USER, PASSWORD) && (d ==> Apart(s, USER, DATABASE) && Apart(s, PASSWORD, DATABASE))
  }

  /** The octets that a field of s takes up, as they are in t. */
  function Room(t: seq<byte>, s: seq<byte>, pos: nat): seq<byte>
    requires pos + 4 <= |s| == |t| && InRange(s, pos)
  {
    t[Offset(s, pos)..Offset(s, pos) + 2 * Chars(s, pos)]
  }

  /** The octets, then zeros up to this length. */
  function Padded(raw: seq<byte>, length: nat): (p: seq<byte>)
    requires |raw| <= length
    ensures |p| == length
  {
    raw + Zeros(length - |raw|)
  }

  /** What setting one field does and does not change. */
  lemma SetFieldEffect(s: seq<byte>, pos: nat, raw: seq<byte>, chars: nat)
    requires pos + 4 <= FIXED_LENGTH <= |s| && Past(s, pos)
    ensures SetField(s, pos, raw, chars).Ok? <==> Inside(s, pos) && |raw| <= 2 * Chars(s, pos)
    ensures var r := SetField(s, pos, raw, chars);
            r.Err? ==> r.error == if Inside(s, pos) then ReplacementTooLong(pos) else InvalidField(pos)
    ensures var r := SetField(s, pos, raw, chars);
            r.Ok? ==>
              && |r.record| == |s|
              && (forall i :: 0 <= i < |s| && !InField(s, pos, i) ==> r.record[i] == s[i])
              && Offset(r.record, pos) == Offset(s, pos) && Chars(r.record, pos) == chars % 0x1_0000
              && Room(r.record, s, pos) == Padded(raw, 2 * Chars(s, pos))
  {
    hide Le, PutLe;
    var r := SetField(s, pos, raw, chars);
    if r.Ok? {
      var t, off, n := r.record, Offset(s, pos), 2 * Chars(s, pos);
      assert t[pos..pos + 2] == s[pos..pos + 2];
      assert t[pos + 2..pos + 4] == PutLe(chars % 0x1_0000, 2);
      WordReadBack(chars % 0x1_0000);
      assert t[off..off + n] == Padded(raw, n);
    }
  }

  lemma WordBound(w: seq<byte>)
    requires |w| == 2
    ensures Le(w) < 0x1_0000
  {
    Pow256Values();
  }

  lemma WordReadBack(n: nat)
    requires n < 0x1_0000
    ensures Le(PutLe(n, 2)) == n
  {
    Pow256Values();
    LePutLe(n, 2);
  }

  /** Octets outside field p say nothing about where another field q is. */
  lemma OtherHead(s: seq<byte>, t: seq<byte>, t': seq<byte>, p: nat, q: nat)
    requires q + 4 <= FIXED_LENGTH <= |s| == |t| == |t'| && p + 4 <= FIXED_LENGTH && (p + 4 <= q || q + 4 <= p)
    requires Past(s, p) && forall i :: 0 <= i < |s| && !InField(s, p, i) ==> t'[i] == t[i]
    ensures Offset(t', q) == Offset(t, q) && Chars(t', q) == Chars(t, q)
  {
    hide Le;
    assert t'[q..q + 2] == t[q..q + 2];
    assert t'[q + 2..q + 4] == t[q + 2..q + 4];
  }

  /** And setting p leaves the octets of q as they were, when the two lie apart. */
  lemma OtherRoom(s: seq<byte>, t: seq<byte>, t': seq<byte>, p: nat, q: nat)
    requires q + 4 <= FIXED_LENGTH <= |s| == |t| == |t'| && p + 4 <= FIXED_LENGTH
    requires InRange(s, q) && Apart(s, p, q)
    requires forall i :: 0 <= i < |s| && !InField(s, p, i) ==> t'[i] == t[i]
    ensures Room(t', s, q) == Room(t, s, q)
  {
    var off, n := Offset(s, q), 2 * Chars(s, q);
    assert t'[off..off + n] == t[off..off + n];
  }

  /** The header octets the rewriting touches before and after the fields say nothing about the fields. */
  lemma HeaderOnly(s: seq<byte>, t: seq<byte>, t': seq<byte>, q: nat)
    requires q + 4 <= FIXED_LENGTH <= |s| == |t| == |t'| && 26 <= q
    requires forall i :: 26 <= i < |s| ==> t'[i] == t[i]
    ensures Offset(t', q) == Offset(t, q) && Chars(t', q) == Chars(t, q)
    ensures InRange(s, q) ==> Room(t', s, q) == Room(t, s, q)
  {
    hide Le;
    assert t'[q..q + 2] == t[q..q + 2];
    assert t'[q + 2..q + 4] == t[q + 2..q + 4];
    if InRange(s, q) {
      var off, n := Offset(s, q), 2 * Chars(s, q);
      assert t'[off..off + n] == t[off..off + n];
    }
  }

  // ---------------------------------------------------------------- the rewritten record

  /** The new values, and for each field the octets and the character count it gets. */
  datatype Values = Values(user: seq<rune>, password: seq<rune>, database: seq<rune>) {
    function Octets(pos: nat): seq<byte> {
      if pos == USER then EncodeLe(user)
      else if pos == PASSWORD then Obfuscated(EncodeLe(password))
      else EncodeLe(database)
    }

    function Count(pos: nat): nat {
      if pos == USER then |user| else if pos == PASSWORD then |password| else |database|
    }
  }

  predicate FieldFits(s: seq<byte>, pos: nat, v: Values)
    requires pos + 4 <= |s|
  {
    Inside(s, pos) && |v.Octets(pos)| <= 2 * Chars(s, pos)
  }

  /** Every new value fits where the old one was, in the record; a blank database is not written. */
  predicate Fits(s: seq<byte>, v: Values)
    requires |s| >= FIXED_LENGTH
  {
    FieldFits(s, USER, v) && FieldFits(s, PASSWORD, v) && (BlankRunes(v.database) || FieldFits(s, DATABASE, v))
  }

  /** Field pos of t is where s had it; its count is the new one, in 16 bits, when set, else the old one. */
  predicate HeadIs(t: seq<byte>, s: seq<byte>, pos: nat, set': bool, v: Values)
    requires pos + 4 <= |s| == |t|
  {
    && Offset(t, pos) == Offset(s, pos)
    && (if set' then Past(s, pos) && FieldFits(s, pos, v) && Chars(t, pos) == v.Count(pos) % 0x1_0000
        else Chars(t, pos) == Chars(s, pos))
  }

  /** The octets it has in the record: when set, the new ones and zeros after them; else those it had. */
  predicate RoomIs(t: seq<byte>, s: seq<byte>, pos: nat, set': bool, v: Values)
    requires pos + 4 <= |s| == |t|
  {
    InRange(s, pos) && (set' ==> FieldFits(s, pos, v)) ==>
      Room(t, s, pos) == if set' then Padded(v.Octets(pos), 2 * Chars(s, pos)) else Room(s, s, pos)
  }

  predicate FieldIs(t: seq<byte>, s: seq<byte>, pos: nat, set': bool, v: Values)
    requires pos + 4 <= |s| == |t|
  {
    HeadIs(t, s, pos, set', v) && RoomIs(t, s, pos, set', v)
  }

  /** Of the fields marked by u, p and d, those written after field pos lie apart from it. */
  predicate Spared(s: seq<byte>, pos: nat, u: bool, p: bool, d: bool)
    requires |s| >= FIXED_LENGTH
  {
    if pos == USER then (p ==> Apart(s, USER, PASSWORD)) && (d ==> Apart(s, USER, DATABASE))
    else if pos == PASSWORD then (u && !p ==> Apart(s, USER, PASSWORD)) && (d ==> Apart(s, PASSWORD, DATABASE))
    else d || ((u ==> Apart(s, USER, DATABASE)) && (p ==> Apart(s, PASSWORD, DATABASE)))
  }

  /** Octet i of the record belongs to a field that has been set. */
  predicate Touched(s: seq<byte>, u: bool, p: bool, d: bool, i: int)
    requires |s| >= FIXED_LENGTH
  {
    (u && InField(s, USER, i)) || (p && InField(s, PASSWORD, i)) || (d && InField(s, DATABASE, i))
  }

  /** One field of t, where the fields of s marked by u, p and d have been set. */
  predicate FieldDone(t: seq<byte>, s: seq<byte>, pos: nat, u: bool, p: bool, d: bool, v: Values)
    requires |s| == |t| >= FIXED_LENGTH && pos in {USER, PASSWORD, DATABASE}
  {
    var set' := if pos == USER then u else if pos == PASSWORD then p else d;
    HeadIs(t, s, pos, set', v) && (Spared(s, pos, u, p, d) ==> RoomIs(t, s, pos, set', v))
  }

  /** t is s with the fields marked by u, p and d set. */
  predicate Progress(t: seq<byte>, s: seq<byte>, u: bool, p: bool, d: bool, v: Values) {
    && |t| == |s| >= FIXED_LENGTH
    && FieldDone(t, s, USER, u, p, d, v) && FieldDone(t, s, PASSWORD, u, p, d, v)
    && FieldDone(t, s, DATABASE, u, p, d, v)
    && forall i :: 0 <= i < |s| && !Touched(s, u, p, d, i) ==> t[i] == s[i]
  }

  /** Another field is set: q keeps its head and, lying apart, its octets. */
  lemma FieldKept(t: seq<byte>, s: seq<byte>, p: nat, q: nat, t': seq<byte>, set': bool, v: Values)
    requires q + 4 <= FIXED_LENGTH <= |s| == |t| == |t'| && p + 4 <= FIXED_LENGTH && (p + 4 <= q || q + 4 <= p)
    requires Past(s, p) && HeadIs(t, s, q, set', v)
    requires forall i :: 0 <= i < |s| && !InField(s, p, i) ==> t'[i] == t[i]
    ensures HeadIs(t', s, q, set', v)
    ensures Apart(s, p, q) && RoomIs(t, s, q, set', v) ==> RoomIs(t', s, q, set', v)
  {
    hide Offset, Chars, Room, Padded;
    OtherHead(s, t, t', p, q);
    if Apart(s, p, q) && InRange(s, q) {
      OtherRoom(s, t, t', p, q);
    }
  }

  /** Setting the field at pos, on top of what has been set before. */
  lemma SetNext(t: seq<byte>, s: seq<byte>, u: bool, p: bool, d: bool, v: Values, pos: nat)
    requires pos + 4 <= |s| && Past(s, pos) && Progress(t, s, u, p, d, v) && !d
    requires (pos == USER && !u && !p) || (pos == PASSWORD && u && !p) || (pos == DATABASE && u && p)
    ensures var r := SetField(t, pos, v.Octets(pos), v.Count(pos));
            && (r.Ok? <==> FieldFits(s, pos, v))
            && (r.Ok? ==> Progress(r.record, s, u || pos == USER, p || pos == PASSWORD, d || pos == DATABASE, v))
  {
    hide SetField, Offset, Chars, Room, Padded;
    SetFieldEffect(t, pos, v.Octets(pos), v.Count(pos));
    var r := SetField(t, pos, v.Octets(pos), v.Count(pos));
    if r.Ok? {
      var t' := r.record;
      SameField(t, s, pos);
      if pos != USER { FieldKept(t, s, pos, USER, t', u, v); }
      if pos != PASSWORD { FieldKept(t, s, pos, PASSWORD, t', p, v); }
      if pos != DATABASE { FieldKept(t, s, pos, DATABASE, t', d, v); }
    }
  }

  /** A field that t has where s has it, with the same count, takes up the same octets. */
  lemma SameField(t: seq<byte>, s: seq<byte>, pos: nat)
    requires pos + 4 <= |s| == |t| && Offset(t, pos) == Offset(s, pos) && Chars(t, pos) == Chars(s, pos)
    ensures forall i :: InField(t, pos, i) <==> InField(s, pos, i)
    ensures InRange(t, pos) <==> InRange(s, pos)
    ensures InRange(s, pos) ==> forall t' | |t'| == |s| :: Room(t', t, pos) == Room(t', s, pos)
  {
    hide Offset, Chars;
  }

  /** The two records have the three fields in the same places. */
  predicate SameFields(s: seq<byte>, s0: seq<byte>) {
    && |s0| == |s| >= FIXED_LENGTH
    && Offset(s0, USER) == Offset(s, USER) && Chars(s0, USER) == Chars(s, USER)
    && Offset(s0, PASSWORD) == Offset(s, PASSWORD) && Chars(s0, PASSWORD) == Chars(s, PASSWORD)
    && Offset(s0, DATABASE) == Offset(s, DATABASE) && Chars(s0, DATABASE) == Chars(s, DATABASE)
  }

  /** Octets below 26 are in no field. */
  lemma HeaderStep(s: seq<byte>, s0: seq<byte>, u: bool, p: bool, d: bool, v: Values)
    requires Laid(s, d) && |s0| == |s| && forall i :: 26 <= i < |s| ==> s0[i] == s[i]
    ensures Laid(s0, d) && (Fits(s0, v) <==> Fits(s, v))
    ensures forall i :: Touched(s0, u, p, d, i) <==> Touched(s, u, p, d, i)
    ensures forall t | |t| == |s| :: FieldDone(t, s0, USER, u, p, d, v) <==> FieldDone(t, s, USER, u, p, d, v)
    ensures forall t | |t| == |s| :: FieldDone(t, s0, PASSWORD, u, p, d, v) <==> FieldDone(t, s, PASSWORD, u, p, d, v)
    ensures forall t | |t| == |s| :: FieldDone(t, s0, DATABASE, u, p, d, v) <==> FieldDone(t, s, DATABASE, u, p, d, v)
  {
    hide Offset, Chars, FieldDone;
    HeaderOnly(s, s, s0, USER);
    HeaderOnly(s, s, s0, PASSWORD);
    HeaderOnly(s, s, s0, DATABASE);
    DoneTheSame(s, s0, USER, u, p, d, v);
    DoneTheSame(s, s0, PASSWORD, u, p, d, v);
    DoneTheSame(s, s0, DATABASE, u, p, d, v);
  }

  lemma DoneTheSame(s: seq<byte>, s0: seq<byte>, pos: nat, u: bool, p: bool, d: bool, v: Values)
    requires SameFields(s, s0) && pos in {USER, PASSWORD, DATABASE}
    requires InRange(s, pos) ==> Room(s0, s, pos) == Room(s, s, pos)
    ensures forall t | |t| == |s| :: FieldDone(t, s0, pos, u, p, d, v) <==> FieldDone(t, s, pos, u, p, d, v)
  {
    hide Offset, Chars, Room, Padded;
    SameField(s0, s, pos);
    assert Spared(s0, pos, u, p, d) <==> Spared(s, pos, u, p, d);
    forall t | |t| == |s|
      ensures RoomIs(t, s0, pos, false, v) <==> RoomIs(t, s, pos, false, v)
      ensures RoomIs(t, s0, pos, true, v) <==> RoomIs(t, s, pos, true, v)
    {
    }
  }

  /** Writing below octet 26 leaves the fields as they are. */
  lemma LengthStep(t: seq<byte>, t': seq<byte>, s: seq<byte>, pos: nat, u: bool, p: bool, d: bool, v: Values)
    requires FIXED_LENGTH <= |s| == |t| == |t'| && pos in {USER, PASSWORD, DATABASE}
    requires FieldDone(t, s, pos, u, p, d, v) && forall i :: 26 <= i < |s| ==> t'[i] == t[i]
    ensures FieldDone(t', s, pos, u, p, d, v)
  {
    hide Offset, Chars, Room, Padded;
    HeaderOnly(s, t, t', pos);
  }

  /** The record after all three steps, before the header is finished. */
  lemma RewriteFields(s0: seq<byte>, v: Values)
    requires Laid(s0, !BlankRunes(v.database))
    ensures var a := SetField(s0, USER, v.Octets(USER), v.Count(USER));
            if !Fits(s0, v) then
              a.Err? || (var b := SetField(a.record, PASSWORD, v.Octets(PASSWORD), v.Count(PASSWORD));
                         b.Err? || (!BlankRunes(v.database)
                                    && SetField(b.record, DATABASE, v.Octets(DATABASE), v.Count(DATABASE)).Err?))
            else
              && a.Ok?
              && var b := SetField(a.record, PASSWORD, v.Octets(PASSWORD), v.Count(PASSWORD));
                 && b.Ok?
                 && var c := if BlankRunes(v.database) then b
                             else SetField(b.record, DATABASE, v.Octets(DATABASE), v.Count(DATABASE));
                    c.Ok? && Progress(c.record, s0, true, true, !BlankRunes(v.database), v)
  {
    hide SetField, Progress, FieldFits, BlankRunes, Past;
    StartProgress(s0, v);
    SetNext(s0, s0, false, false, false, v, USER);
    var a := SetField(s0, USER, v.Octets(USER), v.Count(USER));
    if a.Ok? {
      SetNext(a.record, s0, true, false, false, v, PASSWORD);
      var b := SetField(a.record, PASSWORD, v.Octets(PASSWORD), v.Count(PASSWORD));
      if b.Ok? && !BlankRunes(v.database) {
        SetNext(b.record, s0, true, true, false, v, DATABASE);
      }
    }
  }

  lemma StartProgress(s: seq<byte>, v: Values)
    ensures |s| >= FIXED_LENGTH ==> Progress(s, s, false, false, false, v)
  {
  }

  /**
   Main result: when the fields to be set start past the header, the record is rewritten
   exactly when every new value fits, whatever the values and even if fields overlap. Its
   length stays; each field stays where it was and gets its new count; its octets are the
   new ones and zeros after them, unless a field written later overlaps it; and nothing
   else changes but the length word and the top bit of octet 25.
   */
  lemma RewriteEffect(s: seq<byte>, v: Values)
    requires Laid(s, !BlankRunes(v.database))
    ensures var r := Rewrite(s, v.user, v.password, v.database);
            && (r.Ok? <==> Fits(s, v))
            && (r.Ok? ==>
                  var t, d := r.record, !BlankRunes(v.database);
                  && |t| == |s|
                  && FieldDone(t, s, USER, true, true, d, v) && FieldDone(t, s, PASSWORD, true, true, d, v)
                  && FieldDone(t, s, DATABASE, true, true, d, v)
                  && t[..4] == PutLe(|s| % 0x1_0000_0000, 4) && t[25] == s[25] % 0x80
                  && forall i :: 4 <= i < |s| && i != 25 && !Touched(s, true, true, d, i) ==> t[i] == s[i])
  {
    hide SetField, BlankRunes, FieldDone, Laid, Touched, FieldFits, PutLe, Obfuscated, EncodeLe;
    LaidLength(s, !BlankRunes(v.database));
    var s0, d := s[25 := s[25] % 0x80], !BlankRunes(v.database);
    HeaderStep(s, s0, true, true, d, v);
    RewriteFields(s0, v);
    var r := Rewrite(s, v.user, v.password, v.database);
    if Fits(s, v) {
      var a := SetField(s0, USER, v.Octets(USER), v.Count(USER));
      var b := SetField(a.record, PASSWORD, v.Octets(PASSWORD), v.Count(PASSWORD));
      var c := if BlankRunes(v.database) then b
               else SetField(b.record, DATABASE, v.Octets(DATABASE), v.Count(DATABASE));
      var t := Overwrite(c.record, 0, PutLe(|s| % 0x1_0000_0000, 4));
      assert r == Ok(t);
      LengthStep(c.record, t, s, USER, true, true, d, v);
      LengthStep(c.record, t, s, PASSWORD, true, true, d, v);
      LengthStep(c.record, t, s, DATABASE, true, true, d, v);
      Untouched25(s, d);
    }
  }

  lemma LaidLength(s: seq<byte>, d: bool)
    ensures Laid(s, d) ==> |s| >= FIXED_LENGTH
  {
  }

  lemma Untouched25(s: seq<byte>, d: bool)
    ensures Laid(s, d) ==> !Touched(s, true, true, d, 25)
  {
  }

  // ---------------------------------------------------------------- what a server reads

  /** The values a field can carry: the empty text, and text in the BMP that is not all white space. */
  predicate Carried(text: seq<rune>) {
    text == [] || (!BlankRunes(text) && Bmp(text))
  }

  /** The octets of the first |text| code units decode to the text exactly when it is in the BMP. */
  lemma TextReadBack(text: seq<rune>)
    requires !BlankRunes(text)
    ensures 2 * |text| <= |EncodeLe(text)|
    ensures Decode(UnitsOf(EncodeLe(text)[..2 * |text|])) == text <==> Bmp(text)
  {
    hide BlankRunes, Encode, Decode, UnitBytes, UnitsOf, Bmp;
    var u := Encode(text);
    UnitBytesPrefix(u, |text|);
    UnitsOfUnitBytes(u[..|text|]);
    PrefixDecodes(text);
  }

  lemma PasswordReadBack(text: seq<rune>)
    requires !BlankRunes(text)
    ensures 2 * |text| <= |EncodeLe(text)|
    ensures Decode(UnitsOf(Revealed(Obfuscated(EncodeLe(text))[..2 * |text|]))) == text <==> Bmp(text)
  {
    hide BlankRunes, EncodeLe, ObfuscateByte, RevealByte, Decode, UnitsOf;
    TextReadBack(text);
    var s, n := EncodeLe(text), 2 * |text|;
    RevealObfuscated(s[..n]);
    assert Obfuscated(s)[..n] == Obfuscated(s[..n]);
  }

  /** A set field whose octets hold all its characters reads as the first of them. */
  lemma ShownOctets(t: seq<byte>, s: seq<byte>, pos: nat, v: Values)
    requires pos + 4 <= FIXED_LENGTH <= |s| == |t| && FieldIs(t, s, pos, true, v)
    requires 2 * v.Count(pos) <= |v.Octets(pos)|
    ensures InRange(t, pos) && FieldOctets(t, pos) == v.Octets(pos)[..2 * v.Count(pos)]
  {
    hide Le, EncodeLe, Obfuscated, BlankRunes;
    WordBound(s[pos + 2..pos + 4]);
    var n, room, raw := 2 * v.Count(pos), Room(t, s, pos), v.Octets(pos);
    assert room[..n] == Padded(raw, |room|)[..n] == raw[..n];
    assert FieldOctets(t, pos) == room[..n];
  }

  predicate StartsWithTwo(octets: seq<byte>, b: byte) {
    |octets| >= 2 && octets[0] == b && octets[1] == b
  }

  /** A set field that held characters, and now has no octets, starts with two zeros. */
  lemma ShownZeros(t: seq<byte>, s: seq<byte>, pos: nat, v: Values)
    requires pos + 4 <= FIXED_LENGTH <= |s| == |t| && FieldIs(t, s, pos, true, v)
    requires v.Octets(pos) == [] && Chars(s, pos) > 0 && InRange(t, pos)
    ensures |FieldOctets(t, pos)| == 2 * Chars(t, pos)
    ensures FieldOctets(t, pos) != [] ==> |FieldOctets(t, pos)| >= 2 && StartsWithTwo(FieldOctets(t, pos), 0)
  {
    hide Le;
    var room := Room(t, s, pos);
    assert room == Zeros(|room|) && |room| >= 2;
    if Chars(t, pos) > 0 {
      assert FieldOctets(t, pos)[0] == room[0] == 0 && FieldOctets(t, pos)[1] == room[1] == 0;
    }
  }

  lemma {:induction false} BlankStartsWithSpace(text: seq<rune>)
    requires BlankRunes(text) && text != []
    ensures IsSpace(text[0])
  {
    if !IsSpace(text[0]) {
      TrimRunesRightKeeps(text);
    }
  }

  lemma {:induction false} TrimRunesRightKeeps(text: seq<rune>)
    requires text != [] && !IsSpace(text[0])
    ensures TrimRunesRight(text) != []
    decreases |text|
  {
    if IsSpace(text[|text| - 1]) {
      TrimRunesRightKeeps(text[..|text| - 1]);
    }
  }

  /** Text that is all white space does not read back from octets whose first code unit is 0 or 0x5A5A. */
  lemma NotRead(text: seq<rune>, octets: seq<byte>)
    requires BlankRunes(text) && text != []
    requires octets == [] || StartsWithTwo(octets, 0) || StartsWithTwo(octets, 0x5A)
    ensures Decode(UnitsOf(octets)) != text
  {
    hide Decode, UnitsOf;
    BlankStartsWithSpace(text);
    if octets == [] {
      NothingDecoded();
    } else {
      FirstUnit(octets);
      FirstDecoded(UnitsOf(octets));
    }
  }

  lemma FirstUnit(octets: seq<byte>)
    requires |octets| >= 2
    ensures UnitsOf(octets) != [] && UnitsOf(octets)[0] as nat == octets[0] as nat + 256 * octets[1] as nat
  {
    var w := octets[..2];
    assert w[1..][1..] == [];
    assert Le(w) == w[0] as nat + 256 * Le(w[1..]);
    assert Le(w[1..]) == w[1] as nat + 256 * Le([]);
  }

  /** A code unit that is no surrogate is decoded by itself. */
  lemma FirstDecoded(u: seq<unit>)
    ensures u != [] && !High(u[0]) && !Low(u[0]) ==> Decode(u) != [] && Decode(u)[0] as int == u[0] as int
  {
  }

  lemma RevealedZero()
    ensures RevealByte(0) == 0x5A
  {
    hide XorBits;
    assert PowTwo(4) == 16;
    assert PowTwo(6) == 64;
    XorZero(0xA5, 8);
  }

  lemma RevealedZeros(octets: seq<byte>)
    requires StartsWithTwo(octets, 0)
    ensures StartsWithTwo(Revealed(octets), 0x5A)
  {
    hide RevealByte;
    RevealedZero();
  }

  /** The user or database field reads back. */
  lemma FieldReadBack(t: seq<byte>, s: seq<byte>, pos: nat, text: seq<rune>, v: Values)
    requires pos + 4 <= FIXED_LENGTH <= |s| == |t| && FieldIs(t, s, pos, true, v)
    requires v.Octets(pos) == EncodeLe(text) && v.Count(pos) == |text|
    ensures Carried(text) ==> InRange(t, pos) && ReadText(t, pos) == text
    ensures !Carried(text) && Chars(s, pos) > 0 ==> !(InRange(t, pos) && ReadText(t, pos) == text)
  {
    hide FieldIs, Decode, UnitsOf, Bmp, Chars, Offset, BlankRunes, Encode;
    if !BlankRunes(text) {
      TextReadBack(text);
      ShownOctets(t, s, pos, v);
      NotEmpty(text);
    } else if text == [] {
      ShownOctets(t, s, pos, v);
      NothingDecoded();
    } else if Chars(s, pos) > 0 && InRange(t, pos) {
      ShownZeros(t, s, pos, v);
      NotRead(text, FieldOctets(t, pos));
    }
  }

  lemma PasswordFieldReadBack(t: seq<byte>, s: seq<byte>, v: Values)
    requires FIXED_LENGTH <= |s| == |t| && FieldIs(t, s, PASSWORD, true, v)
    ensures Carried(v.password) ==> InRange(t, PASSWORD) && ReadPassword(t) == v.password
    ensures !Carried(v.password) && Chars(s, PASSWORD) > 0
            ==> !(InRange(t, PASSWORD) && ReadPassword(t) == v.password)
  {
    hide FieldIs, Decode, UnitsOf, Bmp, Chars, Offset, BlankRunes, Encode, RevealByte, ObfuscateByte;
    if !BlankRunes(v.password) {
      PasswordReadBack(v.password);
      ShownOctets(t, s, PASSWORD, v);
      NotEmpty(v.password);
    } else if v.password == [] {
      ShownOctets(t, s, PASSWORD, v);
      NothingDecoded();
    } else if Chars(s, PASSWORD) > 0 && InRange(t, PASSWORD) {
      ShownZeros(t, s, PASSWORD, v);
      if FieldOctets(t, PASSWORD) != [] {
        RevealedZeros(FieldOctets(t, PASSWORD));
      }
      NotRead(v.password, Revealed(FieldOctets(t, PASSWORD)));
    }
  }

  lemma NothingDecoded()
    ensures Decode(UnitsOf([])) == []
  {
  }

  /**
   Main result: when the fields to be set do not overlap, a server reads from the rewritten record
   the given user, password and, when it is not blank, database, if they are empty or are
   text in the Basic Multilingual Plane that is not all white space; and, of a field that
   held any character, only if. A blank database leaves the old one, if that lies apart. The
   proxy's own parser reads the (trimmed) database.
   */
  lemma CredentialsReadBack(s: seq<byte>, v: Values)
    requires Laid(s, !BlankRunes(v.database)) && Disjoint(s, !BlankRunes(v.database))
    ensures var r := Rewrite(s, v.user, v.password, v.database);
            r.Ok? ==>
               var t := r.record;
               && |t| == |s|
               && (Carried(v.user) ==> InRange(t, USER) && ReadText(t, USER) == v.user)
               && (!Carried(v.user) && Chars(s, USER) > 0 ==> !(InRange(t, USER) && ReadText(t, USER) == v.user))
               && (Carried(v.password) ==> InRange(t, PASSWORD) && ReadPassword(t) == v.password)
               && (!Carried(v.password) && Chars(s, PASSWORD) > 0 ==>
                     !(InRange(t, PASSWORD) && ReadPassword(t) == v.password))
               && (if BlankRunes(v.database) then
                     InRange(s, DATABASE) && Disjoint(s, true) ==>
                       InRange(t, DATABASE) && ReadText(t, DATABASE) == ReadText(s, DATABASE)
                   else
                     && InRange(t, DATABASE) && (ReadText(t, DATABASE) == v.database <==> Bmp(v.database))
                     && (Bmp(v.database) ==> ParseDatabase(t) == TrimRunes(v.database)))
  {
    hide Rewrite, BlankRunes, EncodeLe, Obfuscated, Decode, UnitsOf, Bmp, Offset, Chars, TrimRunes;
    hide HeadIs, RoomIs, Touched, Carried, Apart;
    RewriteEffect(s, v);
    var r := Rewrite(s, v.user, v.password, v.database);
    if r.Ok? {
      assert Spared(s, USER, true, true, !BlankRunes(v.database));
      assert Spared(s, PASSWORD, true, true, !BlankRunes(v.database));
      assert Disjoint(s, true) ==> Spared(s, DATABASE, true, true, !BlankRunes(v.database));
      FieldReadBack(r.record, s, USER, v.user, v);
      PasswordFieldReadBack(r.record, s, v);
      if Disjoint(s, true) {
        DatabaseReadBack(r.record, s, v);
      }
    }
  }

  lemma DatabaseReadBack(t: seq<byte>, s: seq<byte>, v: Values)
    requires FIXED_LENGTH <= |s| == |t| && FieldIs(t, s, DATABASE, !BlankRunes(v.database), v)
    ensures BlankRunes(v.database) && InRange(s, DATABASE)
            ==> InRange(t, DATABASE) && ReadText(t, DATABASE) == ReadText(s, DATABASE)
    ensures !BlankRunes(v.database) ==>
              && InRange(t, DATABASE) && (ReadText(t, DATABASE) == v.database <==> Bmp(v.database))
              && (Bmp(v.database) ==> ParseDatabase(t) == TrimRunes(v.database))
  {
    hide BlankRunes, Decode, UnitsOf, Bmp, TrimRunes, Encode, Le;
    if !BlankRunes(v.database) {
      TextReadBack(v.database);
      ShownOctets(t, s, DATABASE, v);
      NotEmpty(v.database);
      TrimRunesTwice(v.database);
    }
  }

  lemma NotEmpty(text: seq<rune>)
    ensures !BlankRunes(text) ==> text != []
  {
  }

  // ---------------------------------------------------------------- where it goes wrong

  /**
   A blank user fits anywhere, as it has no octets, but its count is written all the same:
   when the old field was shorter, the record then claims more characters than it had.
   */
  lemma BlankUserGrows(s: seq<byte>, v: Values)
    requires Laid(s, !BlankRunes(v.database))
    ensures var r := Rewrite(s, v.user, v.password, v.database);
            Fits(s, v) && BlankRunes(v.user) && Chars(s, USER) < |v.user| < 0x1_0000 ==>
              r.Ok? && |r.record| == |s| && Chars(r.record, USER) == |v.user| > Chars(s, USER)
  {
    hide Rewrite, Chars, Touched, RoomIs, Spared, Offset, EncodeLe, BlankRunes, Obfuscated;
    RewriteEffect(s, v);
  }
}
