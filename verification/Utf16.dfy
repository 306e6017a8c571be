/** UTF-16 text in little-endian octets, and the obfuscation of TDS passwords. */
module Utf16 {
  import opened Bytes
  import opened Text

  newtype unit = u: int | 0 <= u < 0x1_0000

  predicate Bmp(v: seq<rune>) {
    forall i :: 0 <= i < |v| ==> v[i] < 0x1_0000
  }

  // ---------------------------------------------------------------- code units

  /** utf16.Encode: a code point above 0xFFFF becomes a surrogate pair. */
  function Encode(v: seq<rune>): (u: seq<unit>)
    ensures |u| >= |v|
  {
    if v == [] then []
    else
      var r := v[0] as int;
      (if r < 0x1_0000 then [r as unit]
       else [(0xD800 + (r - 0x1_0000) / 0x400) as unit, (0xDC00 + (r - 0x1_0000) % 0x400) as unit]) + Encode(v[1..])
  }

  predicate High(u: unit) {
    0xD800 <= u < 0xDC00
  }

  predicate Low(u: unit) {
    0xDC00 <= u < 0xE000
  }

  /** utf16.Decode: a lone surrogate becomes U+FFFD. */
  function Decode(u: seq<unit>): (v: seq<rune>)
    ensures |v| <= |u|
  {
    if u == [] then []
    else if High(u[0]) && |u| > 1 && Low(u[1]) then
      [(0x1_0000 + (u[0] as int - 0xD800) * 0x400 + (u[1] as int - 0xDC00)) as rune] + Decode(u[2..])
    else if High(u[0]) || Low(u[0]) then [0xFFFD] + Decode(u[1..])
    else [u[0] as int as rune] + Decode(u[1..])
  }

  lemma {:induction false} DecodeEncode(v: seq<rune>)
    ensures Decode(Encode(v)) == v
  {
    if v != [] {
      DecodeEncode(v[1..]);
      var u, rest := Encode(v), Encode(v[1..]);
      if v[0] < 0x1_0000 {
        assert u[1..] == rest;
      } else {
        assert u[2..] == rest;
        var d := v[0] as int - 0x1_0000;
        assert d == d / 0x400 * 0x400 + d % 0x400;
      }
      assert v == [v[0]] + v[1..];
    }
  }

  /** Decoding keeps the number of code units the text takes. */
  lemma {:induction false} DecodeKeepsUnits(u: seq<unit>)
    ensures |Encode(Decode(u))| == |u|
    decreases |u|
  {
    if u != [] {
      var v := Decode(u);
      if High(u[0]) && |u| > 1 && Low(u[1]) {
        DecodeKeepsUnits(u[2..]);
        assert v[1..] == Decode(u[2..]);
      } else {
        DecodeKeepsUnits(u[1..]);
        assert v[1..] == Decode(u[1..]);
      }
    }
  }

  /** A text takes one code unit per code point exactly when all of it is in the BMP. */
  lemma {:induction false} BmpUnits(v: seq<rune>)
    ensures |Encode(v)| == |v| <==> Bmp(v)
  {
    if v != [] {
      BmpUnits(v[1..]);
      assert forall i :: 1 <= i < |v| ==> v[i] == v[1..][i - 1];
      assert forall i :: 0 <= i < |v[1..]| ==> v[1..][i] == v[i + 1];
    }
  }

  /** As many code units as the text has code points decode to the text exactly when it is in the BMP. */
  lemma PrefixDecodes(v: seq<rune>)
    ensures Decode(Encode(v)[..|v|]) == v <==> Bmp(v)
  {
    BmpUnits(v);
    DecodeEncode(v);
    DecodeKeepsUnits(Encode(v)[..|v|]);
    if |Encode(v)| == |v| {
      assert Encode(v)[..|v|] == Encode(v);
    }
  }

  // ---------------------------------------------------------------- octets

  function UnitBytes(u: seq<unit>): (s: seq<byte>)
    ensures |s| == 2 * |u|
  {
    if u == [] then [] else PutLe(u[0] as nat, 2) + UnitBytes(u[1..])
  }

  /** Pairs of octets as code units; a last odd octet is dropped. */
  function UnitsOf(s: seq<byte>): (u: seq<unit>)
    ensures |u| == |s| / 2
  {
    if |s| < 2 then []
    else
      assert Le(s[..2]) < 0x1_0000 by { Pow256Values(); }
      [Le(s[..2]) as unit] + UnitsOf(s[2..])
  }

  lemma {:induction false} UnitsOfUnitBytes(u: seq<unit>)
    ensures UnitsOf(UnitBytes(u)) == u
  {
    if u != [] {
      UnitsOfUnitBytes(u[1..]);
      Pow256Values();
      LePutLe(u[0] as nat, 2);
      assert UnitBytes(u)[..2] == PutLe(u[0] as nat, 2);
      assert UnitBytes(u)[2..] == UnitBytes(u[1..]);
      assert u == [u[0]] + u[1..];
    }
  }

  lemma {:induction false} UnitBytesPrefix(u: seq<unit>, n: nat)
    requires n <= |u|
    ensures UnitBytes(u)[..2 * n] == UnitBytes(u[..n])
  {
    if n > 0 {
      UnitBytesPrefix(u[1..], n - 1);
      assert u[..n][1..] == u[1..][..n - 1] && u[..n][0] == u[0];
      var a, b := PutLe(u[0] as nat, 2), UnitBytes(u[1..]);
      assert (a + b)[..2 * n] == a + b[..2 * (n - 1)];
    }
  }

  /** encodeUTF16LE: nothing at all for blank text. */
  function EncodeLe(v: seq<rune>): seq<byte> {
    if BlankRunes(v) then [] else UnitBytes(Encode(v))
  }

  /** decodeUTF16LE: trimmed. */
  function DecodeLe(s: seq<byte>): seq<rune> {
    if |s| < 2 then [] else TrimRunes(Decode(UnitsOf(s)))
  }

  // ---------------------------------------------------------------- passwords

  /** (b << 4) | (b >> 4), in eight bits. */
  function Swap(b: byte): byte {
    (b % 16) * 16 + b / 16
  }

  function ObfuscateByte(b: byte): byte {
    Xor(Swap(b), 0xA5)
  }

  function RevealByte(b: byte): byte {
    Swap(Xor(b, 0xA5))
  }

  function Obfuscated(s: seq<byte>): (t: seq<byte>)
    ensures |t| == |s| && forall i :: 0 <= i < |t| ==> t[i] == ObfuscateByte(s[i])
  {
    seq(|s|, i requires 0 <= i < |s| => ObfuscateByte(s[i]))
  }

  /** What a server does to a password field: the obfuscation undone. */
  function Revealed(s: seq<byte>): (t: seq<byte>)
    ensures |t| == |s| && forall i :: 0 <= i < |t| ==> t[i] == RevealByte(s[i])
  {
    seq(|s|, i requires 0 <= i < |s| => RevealByte(s[i]))
  }

  lemma RevealObfuscated(s: seq<byte>)
    ensures Revealed(Obfuscated(s)) == s
  {
    hide Xor;
    forall i | 0 <= i < |s|
      ensures RevealByte(ObfuscateByte(s[i])) == s[i]
    {
      XorTwice(Swap(s[i]), 0xA5);
      SwapTwice(s[i]);
    }
  }

  lemma SwapTwice(b: byte)
    ensures Swap(Swap(b)) == b
  {
  }

  /** The loop of encodeUTF16LE over the code units. */
  method EncodeUtf16Le(v: seq<rune>) returns (buf: seq<byte>)
    ensures buf == EncodeLe(v)
  {
    if TrimRunes(v) == [] {
      return [];
    }
    var u := Encode(v);
    buf := [];
    var i := 0;
    while i < |u|
      invariant 0 <= i <= |u|
      invariant buf + UnitBytes(u[i..]) == UnitBytes(u)
    {
      assert u[i..][1..] == u[i + 1..];
      ghost var one, more := PutLe(u[i] as nat, 2), UnitBytes(u[i + 1..]);
      assert buf + (one + more) == (buf + one) + more;
      buf := buf + PutLe(u[i] as nat, 2);
      i := i + 1;
    }
  }

  /** obfuscateTDSPassword. */
  method ObfuscateTdsPassword(password: seq<rune>) returns (out: array<byte>)
    ensures fresh(out) && out[..] == Obfuscated(EncodeLe(password))
  {
    var raw := EncodeUtf16Le(password);
    out := new byte[|raw|];
    var i := 0;
    while i < |raw|
      invariant 0 <= i <= |raw|
      invariant forall k :: 0 <= k < i ==> out[k] == ObfuscateByte(raw[k])
    {
      var rot := Swap(raw[i]);
      out[i] := Xor(rot, 0xA5);
      i := i + 1;
    }
  }
}
