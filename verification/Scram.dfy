/** SCRAM-SHA-256 as the proxy runs it against an upstream server: key derivation, proof, and its last check. */
module Scram {
  import opened Bytes

  type Octets = seq<byte>

  const DIGEST := 32
  const COMMA: byte := 44

  /** "Client Key" and "Server Key". */
  const CLIENT_KEY: Octets := [67, 108, 105, 101, 110, 116, 32, 75, 101, 121]
  const SERVER_KEY: Octets := [83, 101, 114, 118, 101, 114, 32, 75, 101, 121]

  /** "n,,", "c=", ",r=", ",p=" and "v=". */
  const GS2: Octets := [110, 44, 44]
  const C_ATTR: Octets := [99, 61]
  const R_ATTR: Octets := [44, 114, 61]
  const P_ATTR: Octets := [44, 112, 61]
  const V_ATTR: Octets := [118, 61]

  /** The library functions; nothing is assumed of them but what `Sound` says. */
  datatype Crypto = Crypto(hmac: (Octets, Octets) -> Octets, hash: Octets -> Octets,
                           base64: Octets -> Octets, unbase64: Octets -> Option<Octets>)

  /** HMAC values have 32 octets; base64 can be undone and contains no comma. */
  ghost predicate Sound(c: Crypto) {
    && (forall k: Octets, m: Octets :: |c.hmac(k, m)| == DIGEST)
    && (forall x: Octets :: c.unbase64(c.base64(x)) == Some(x) && COMMA !in c.base64(x))
  }

  // ---------------------------------------------------------------- Hi

  function XorAll(a: Octets, b: Octets): (x: Octets)
    requires |a| == |b|
    ensures |x| == |a| && forall i :: 0 <= i < |x| ==> x[i] == Xor(a[i], b[i])
  {
    seq(|a|, i requires 0 <= i < |a| => Xor(a[i], b[i]))
  }

  /** U1, U2, ... of section 2.2 of RFC 5802. */
  function U(c: Crypto, password: Octets, salt: Octets, i: nat): Octets
    requires i >= 1
  {
    if i == 1 then c.hmac(password, salt + [0, 0, 0, 1]) else c.hmac(password, U(c, password, salt, i - 1))
  }

  /** Hi(password, salt, i): the exclusive or of U1 to Ui. */
  ghost function Hi(c: Crypto, password: Octets, salt: Octets, i: nat): (h: Octets)
    requires i >= 1 && Sound(c)
    ensures |h| == DIGEST
  {
    if i == 1 then U(c, password, salt, 1) else XorAll(Hi(c, password, salt, i - 1), U(c, password, salt, i))
  }

  /** XORs b into a, octet by octet, in place. */
  method XorInto(a: array<byte>, b: Octets)
    requires a.Length == |b|
    modifies a
    ensures a[..] == XorAll(old(a[..]), b)
  {
    hide Xor;
    var j := 0;
    while j < a.Length
      invariant 0 <= j <= a.Length
      invariant forall k :: 0 <= k < a.Length ==> a[k] == if k < j then Xor(old(a[k]), b[k]) else old(a[k])
    {
      a[j] := Xor(a[j], b[j]);
      j := j + 1;
    }
  }

  /** scramHi; an iteration count below 1 counts as 1. */
  method ScramHi(c: Crypto, password: Octets, salt: Octets, iterations: int) returns (result: array<byte>)
    requires Sound(c)
    ensures fresh(result) && result[..] == Hi(c, password, salt, if iterations < 1 then 1 else iterations)
  {
    hide XorAll;
    var u := c.hmac(password, salt + [0, 0, 0, 1]);
    result := new byte[|u|](i requires 0 <= i < |u| => u[i]);
    assert result[..] == u;
    var i := 1;
    while i < iterations
      invariant 1 <= i && (i <= iterations || i == 1)
      invariant u == U(c, password, salt, i) && |u| == DIGEST == result.Length
      invariant fresh(result) && result[..] == Hi(c, password, salt, i)
    {
      u := c.hmac(password, u);
      XorInto(result, u);
      i := i + 1;
    }
  }

  // ---------------------------------------------------------------- the exchange

  /** ClientKey of section 3 of RFC 5802, of a password that has been normalised already. */
  ghost function ClientKey(c: Crypto, password: Octets, salt: Octets, iterations: nat): (k: Octets)
    requires Sound(c) && iterations >= 1
    ensures |k| == DIGEST
  {
    c.hmac(Hi(c, password, salt, iterations), CLIENT_KEY)
  }

  function WithoutProof(c: Crypto, nonce: Octets): Octets {
    C_ATTR + c.base64(GS2) + R_ATTR + nonce
  }

  function AuthMessage(bare: Octets, serverFirst: Octets, withoutProof: Octets): Octets {
    bare + [COMMA] + serverFirst + [COMMA] + withoutProof
  }

  /** What the proxy sends and expects after deriving its keys; it takes the password as it is. */
  datatype Final = Final(message: Octets, expected: Octets)

  ghost function ClientFinal(c: Crypto, password: Octets, salt: Octets, iterations: nat, bare: Octets,
                             serverFirst: Octets, nonce: Octets): Final
    requires Sound(c) && iterations >= 1
  {
    var clientKey := ClientKey(c, password, salt, iterations);
    var auth := AuthMessage(bare, serverFirst, WithoutProof(c, nonce));
    var proof := XorAll(clientKey, c.hmac(c.hash(clientKey), auth));
    var serverKey := c.hmac(Hi(c, password, salt, iterations), SERVER_KEY);
    Final(WithoutProof(c, nonce) + P_ATTR + c.base64(proof), c.hmac(serverKey, auth))
  }

  /** The middle of handleSCRAMAuth: derive the keys, build the proof octet by octet. */
  method BuildClientFinal(c: Crypto, password: Octets, salt: Octets, iterations: int, bare: Octets,
                          serverFirst: Octets, nonce: Octets) returns (message: Octets, expected: Octets)
    requires Sound(c)
    ensures Final(message, expected)
            == ClientFinal(c, password, salt, if iterations < 1 then 1 else iterations, bare, serverFirst, nonce)
  {
    hide Xor, Hi;
    var saltedPassword := ScramHi(c, password, salt, iterations);
    var clientKey := c.hmac(saltedPassword[..], CLIENT_KEY);
    var storedKey := c.hash(clientKey);
    var serverKey := c.hmac(saltedPassword[..], SERVER_KEY);
    var withoutProof := C_ATTR + c.base64(GS2) + R_ATTR + nonce;
    var authMessage := bare + [COMMA] + serverFirst + [COMMA] + withoutProof;
    var clientSig := c.hmac(storedKey, authMessage);
    var clientProof := new byte[|clientKey|];
    var i := 0;
    while i < |clientKey|
      invariant 0 <= i <= |clientKey|
      invariant forall k :: 0 <= k < i ==> clientProof[k] == Xor(clientKey[k], clientSig[k])
    {
      clientProof[i] := Xor(clientKey[i], clientSig[i]);
      i := i + 1;
    }
    assert clientProof[..] == XorAll(clientKey, clientSig);
    expected := c.hmac(serverKey, authMessage);
    message := withoutProof + P_ATTR + c.base64(clientProof[..]);
  }

  /** The proxy's check of the server's final message. */
  predicate ClientAccepts(c: Crypto, serverFinal: Octets, expected: Octets) {
    V_ATTR <= serverFinal && c.unbase64(serverFinal[|V_ATTR|..]) == Some(expected)
  }

  lemma XorAllTwice(a: Octets, b: Octets)
    requires |a| == |b|
    ensures XorAll(XorAll(a, b), b) == a
  {
    hide Xor;
    forall i | 0 <= i < |a|
      ensures Xor(Xor(a[i], b[i]), b[i]) == a[i]
    {
      XorTwice(a[i], b[i]);
    }
  }
}
