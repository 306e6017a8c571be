/** Octets, fixed-width integers on the wire, exclusive or and flattening. */
module Bytes {

  newtype byte = b: int | 0 <= b < 256

  datatype Option<+T> = None | Some(value: T)

  /** 256 to the power n: one more than the largest n-octet integer. */
  function Pow256(n: nat): (p: nat)
    ensures p > 0
  {
    if n == 0 then 1 else 256 * Pow256(n - 1)
  }

  lemma Pow256Values()
    ensures Pow256(2) == 0x1_0000
    ensures Pow256(3) == 0x100_0000
    ensures Pow256(4) == 0x1_0000_0000
    ensures Pow256(8) == 0x1_0000_0000_0000_0000
  {
    assert Pow256(4) == 0x1_0000_0000;
    assert Pow256(6) == 256 * 256 * Pow256(4);
    assert Pow256(8) == 256 * 256 * Pow256(6);
  }

  // ---------------------------------------------------------------- little endian

  /** The little-endian value of a string of octets. */
  function Le(s: seq<byte>): (v: nat)
    ensures v < Pow256(|s|)
  {
    if s == [] then 0 else s[0] as nat + 256 * Le(s[1..])
  }

  /** The low n octets of v, least significant first. */
  function PutLe(v: nat, n: nat): (s: seq<byte>)
    ensures |s| == n
  {
    if n == 0 then [] else [(v % 256) as byte] + PutLe(v / 256, n - 1)
  }

  lemma {:induction false} LePutLe(v: nat, n: nat)
    requires v < Pow256(n)
    ensures Le(PutLe(v, n)) == v
  {
    if n > 0 {
      LePutLe(v / 256, n - 1);
    }
  }

  lemma LowOctet(b: byte, rest: nat)
    ensures (b as nat + 256 * rest) % 256 == b as nat && (b as nat + 256 * rest) / 256 == rest
  {
  }

  lemma {:induction false} PutLeLe(s: seq<byte>)
    ensures PutLe(Le(s), |s|) == s
  {
    if s != [] {
      var rest := Le(s[1..]);
      PutLeLe(s[1..]);
      LowOctet(s[0], rest);
      assert PutLe(Le(s), |s|) == [s[0]] + PutLe(rest, |s| - 1);
    }
  }

  lemma Shift(first: nat, low: nat, p: nat, more: nat)
    ensures first + 256 * (low + p * more) == (first + 256 * low) + (256 * p) * more
  {
  }

  /** What comes before counts less, what comes after counts more. */
  lemma {:induction false} LeAppend(a: seq<byte>, b: seq<byte>)
    ensures Le(a + b) == Le(a) + Pow256(|a|) * Le(b)
  {
    if a == [] {
      assert a + b == b;
    } else {
      var low, p, more := Le(a[1..]), Pow256(|a| - 1), Le(b);
      assert (a + b)[1..] == a[1..] + b;
      LeAppend(a[1..], b);
      calc {
        Le(a + b);
        a[0] as nat + 256 * Le(a[1..] + b);
        a[0] as nat + 256 * (low + p * more);
        { Shift(a[0] as nat, low, p, more); }
        (a[0] as nat + 256 * low) + (256 * p) * more;
        Le(a) + Pow256(|a|) * more;
      }
    }
  }

  lemma LeOne(b: byte)
    ensures Le([b]) == b as nat == Be([b])
  {
    assert [b][1..] == [] && [b][..0] == [];
  }

  // ---------------------------------------------------------------- big endian

  /** The big-endian value of a string of octets. */
  function Be(s: seq<byte>): (v: nat)
    ensures v < Pow256(|s|)
  {
    if s == [] then 0 else 256 * Be(s[..|s| - 1]) + s[|s| - 1] as nat
  }

  /** The low n octets of v, most significant first. */
  function PutBe(v: nat, n: nat): (s: seq<byte>)
    ensures |s| == n
  {
    if n == 0 then [] else PutBe(v / 256, n - 1) + [(v % 256) as byte]
  }

  lemma {:induction false} BePutBe(v: nat, n: nat)
    requires v < Pow256(n)
    ensures Be(PutBe(v, n)) == v
  {
    if n > 0 {
      BePutBe(v / 256, n - 1);
      assert PutBe(v, n)[..n - 1] == PutBe(v / 256, n - 1);
    }
  }

  lemma {:induction false} PutBeBe(s: seq<byte>)
    ensures PutBe(Be(s), |s|) == s
  {
    if s != [] {
      var rest := Be(s[..|s| - 1]);
      PutBeBe(s[..|s| - 1]);
      LowOctet(s[|s| - 1], rest);
      assert PutBe(Be(s), |s|) == PutBe(rest, |s| - 1) + [s[|s| - 1]];
    }
  }

  /** What comes after counts less, what comes before counts more. */
  lemma {:induction false} BeAppend(a: seq<byte>, b: seq<byte>)
    ensures Be(a + b) == Be(b) + Pow256(|b|) * Be(a)
    decreases |b|
  {
    if b == [] {
      assert a + b == a;
    } else {
      var n := |b| - 1;
      var low, p, more := Be(b[..n]), Pow256(n), Be(a);
      assert (a + b)[..|a + b| - 1] == a + b[..n];
      BeAppend(a, b[..n]);
      calc {
        Be(a + b);
        b[n] as nat + 256 * Be(a + b[..n]);
        b[n] as nat + 256 * (low + p * more);
        { Shift(b[n] as nat, low, p, more); }
        (b[n] as nat + 256 * low) + (256 * p) * more;
        Be(b) + Pow256(|b|) * more;
      }
    }
  }

  // ---------------------------------------------------------------- exclusive or

  /** Bitwise exclusive or on the lowest `bits` bits. */
  function XorBits(a: nat, b: nat, bits: nat): (x: nat)
  {
    if bits == 0 then 0 else (a + b) % 2 + 2 * XorBits(a / 2, b / 2, bits - 1)
  }

  function PowTwo(n: nat): nat {
    if n == 0 then 1 else 2 * PowTwo(n - 1)
  }

  lemma {:induction false} XorBitsBound(a: nat, b: nat, bits: nat)
    ensures XorBits(a, b, bits) < PowTwo(bits)
  {
    if bits > 0 {
      XorBitsBound(a / 2, b / 2, bits - 1);
    }
  }

  /** Bit k of a number. */
  function Bit(a: nat, k: nat): nat {
    if k == 0 then a % 2 else Bit(a / 2, k - 1)
  }

  /** Every bit of an exclusive or is 1 where exactly one of the two is. */
  lemma {:induction false} XorBitsIs(a: nat, b: nat, bits: nat, k: nat)
    requires k < bits
    ensures Bit(XorBits(a, b, bits), k) == if Bit(a, k) == Bit(b, k) then 0 else 1
  {
    var rest := XorBits(a / 2, b / 2, bits - 1);
    LowBit((a + b) % 2, rest);
    if k > 0 {
      XorBitsIs(a / 2, b / 2, bits - 1, k - 1);
    }
  }

  lemma LowBit(bit: nat, rest: nat)
    ensures bit < 2 ==> (bit + 2 * rest) / 2 == rest && (bit + 2 * rest) % 2 == bit
  {
  }

  lemma LowBitTwice(a: nat, b: nat, rest: nat)
    ensures ((a + b) % 2 + 2 * rest + b) % 2 == a % 2
  {
    assert (a + b) % 2 + 2 * rest + b == a + 2 * (b + rest - (a + b) / 2);
  }

  lemma {:induction false} XorBitsTwice(a: nat, b: nat, bits: nat)
    requires a < PowTwo(bits)
    ensures XorBits(XorBits(a, b, bits), b, bits) == a
  {
    if bits > 0 {
      var rest := XorBits(a / 2, b / 2, bits - 1);
      XorBitsTwice(a / 2, b / 2, bits - 1);
      LowBit((a + b) % 2, rest);
      LowBitTwice(a, b, rest);
    }
  }

  lemma {:induction false} XorNone(a: nat, bits: nat)
    requires a < PowTwo(bits)
    ensures XorBits(a, 0, bits) == a
  {
    if bits > 0 {
      XorNone(a / 2, bits - 1);
    }
  }

  lemma {:induction false} XorZero(b: nat, bits: nat)
    requires b < PowTwo(bits)
    ensures XorBits(0, b, bits) == b
  {
    if bits > 0 {
      XorZero(b / 2, bits - 1);
    }
  }

  /** The exclusive or of two octets. */
  function Xor(a: byte, b: byte): byte {
    assert XorBits(a as nat, b as nat, 8) < 256 by {
      XorBitsBound(a as nat, b as nat, 8);
      assert PowTwo(4) == 16;
      assert PowTwo(6) == 64;
    }
    XorBits(a as nat, b as nat, 8) as byte
  }

  lemma XorIs(a: byte, b: byte, k: nat)
    requires k < 8
    ensures Bit(Xor(a, b) as nat, k) == if Bit(a as nat, k) == Bit(b as nat, k) then 0 else 1
  {
    XorBitsIs(a as nat, b as nat, 8, k);
  }

  lemma XorTwice(a: byte, b: byte)
    ensures Xor(Xor(a, b), b) == a
  {
    assert PowTwo(4) == 16;
    assert PowTwo(6) == 64;
    XorBitsTwice(a as nat, b as nat, 8);
  }

  // ---------------------------------------------------------------- concatenation

  /** All the parts, one after the other. */
  function Flatten<T>(parts: seq<seq<T>>): seq<T> {
    if parts == [] then [] else parts[0] + Flatten(parts[1..])
  }
}
