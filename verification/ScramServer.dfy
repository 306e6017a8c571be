/** A server that follows section 3 of RFC 5802, in the terms of that section alone, and the proxy as its client. */
module ScramServer {
  import opened Bytes
  import opened Scram

  function Ascii(s: string): (o: Octets)
    ensures |o| == |s|
  {
    seq(|s|, i requires 0 <= i < |s| => if s[i] < 128 as char then s[i] as int as byte else 0)
  }

  // ---------------------------------------------------------------- the keys

  /** Ui of section 2.2: U1 := HMAC(str, salt + INT(1)), Ui := HMAC(str, Ui-1). */
  function HashU(c: Crypto, str: Octets, salt: Octets, i: nat): Octets
    requires i >= 1
  {
    if i == 1 then c.hmac(str, salt + PutBe(1, 4)) else c.hmac(str, HashU(c, str, salt, i - 1))
  }

  function XorOf(bs: Octets): byte {
    if bs == [] then 0 else Xor(XorOf(bs[..|bs| - 1]), bs[|bs| - 1])
  }

  /** Hi(str, salt, i) := U1 XOR U2 XOR ... XOR Ui, octet by octet. */
  ghost function SaltedPassword(c: Crypto, str: Octets, salt: Octets, i: nat): (h: Octets)
    requires i >= 1 && Sound(c)
    ensures |h| == DIGEST
  {
    seq(DIGEST, k requires 0 <= k < DIGEST => XorOf(Column(c, str, salt, i, k)))
  }

  /** Octet k of each of U1 to Ui. */
  ghost function Column(c: Crypto, str: Octets, salt: Octets, i: nat, k: nat): (bs: Octets)
    requires Sound(c) && k < DIGEST
    ensures |bs| == i && forall j :: 0 <= j < i ==> bs[j] == HashU(c, str, salt, j + 1)[k]
  {
    seq(i, j requires 0 <= j < i => HashU(c, str, salt, j + 1)[k])
  }

  /** ClientKey := HMAC(SaltedPassword, "Client Key"). */
  ghost function KeyOfClient(c: Crypto, str: Octets, salt: Octets, iterations: nat): (k: Octets)
    requires Sound(c) && iterations >= 1
    ensures |k| == DIGEST
  {
    c.hmac(SaltedPassword(c, str, salt, iterations), Ascii("Client Key"))
  }

  /** What a server stores for a user: StoredKey := H(ClientKey) and ServerKey := HMAC(SaltedPassword, "Server Key"). */
  datatype Stored = Stored(salt: Octets, iterations: nat, storedKey: Octets, serverKey: Octets)

  /** The server normalises the password first; SASLprep is what `normalize` stands for. */
  ghost function StoredFor(c: Crypto, normalize: Octets -> Octets, password: Octets, salt: Octets,
                           iterations: nat): Stored
    requires Sound(c) && iterations >= 1
  {
    Stored(salt, iterations, c.hash(KeyOfClient(c, normalize(password), salt, iterations)),
           c.hmac(SaltedPassword(c, normalize(password), salt, iterations), Ascii("Server Key")))
  }

  lemma XorOfSnoc(bs: Octets, b: byte)
    ensures XorOf(bs + [b]) == Xor(XorOf(bs), b)
  {
    assert (bs + [b])[..|bs|] == bs;
  }

  lemma XorOfOne(b: byte)
    ensures XorOf([b]) == b
  {
    hide XorBits;
    assert [b][..0] == [];
    assert PowTwo(4) == 16;
    assert PowTwo(8) == 256;
    ZeroXor(b as nat, 8);
  }

  lemma {:induction false} ZeroXor(b: nat, bits: nat)
    requires b < PowTwo(bits)
    ensures XorBits(0, b, bits) == b
  {
    if bits > 0 {
      ZeroXor(b / 2, bits - 1);
    }
  }

  lemma IntOne()
    ensures PutBe(1, 4) == [0, 0, 0, 1]
  {
    assert PutBe(1, 1) == [1];
    assert PutBe(0, 3) == [0, 0, 0];
  }

  lemma {:induction false} SameU(c: Crypto, password: Octets, salt: Octets, i: nat)
    requires i >= 1
    ensures U(c, password, salt, i) == HashU(c, password, salt, i)
  {
    if i == 1 {
      IntOne();
    } else {
      SameU(c, password, salt, i - 1);
    }
  }

  lemma ColumnSnoc(c: Crypto, str: Octets, salt: Octets, i: nat, k: nat)
    requires i >= 1 && Sound(c) && k < DIGEST
    ensures Column(c, str, salt, i, k) == Column(c, str, salt, i - 1, k) + [HashU(c, str, salt, i)[k]]
  {
  }

  /** The proxy's running exclusive or is the salted password. */
  lemma {:induction false} HiIsSaltedPassword(c: Crypto, password: Octets, salt: Octets, i: nat)
    requires i >= 1 && Sound(c)
    ensures Hi(c, password, salt, i) == SaltedPassword(c, password, salt, i)
  {
    hide Xor, XorOf, U, HashU;
    SameU(c, password, salt, i);
    if i > 1 {
      HiIsSaltedPassword(c, password, salt, i - 1);
    }
    forall k | 0 <= k < DIGEST
      ensures Hi(c, password, salt, i)[k] == SaltedPassword(c, password, salt, i)[k]
    {
      ColumnSnoc(c, password, salt, i, k);
      if i == 1 {
        var first := Column(c, password, salt, 1, k);
        assert first == [first[0]];
        XorOfOne(first[0]);
      } else {
        XorOfSnoc(Column(c, password, salt, i - 1, k), Column(c, password, salt, i, k)[i - 1]);
      }
    }
  }

  // ---------------------------------------------------------------- the messages

  /** Where the last comma of a message is; its length when there is none. */
  function LastComma(s: Octets): (k: nat)
    ensures k <= |s| && (k < |s| ==> s[k] == COMMA && COMMA !in s[k + 1..])
    ensures k == |s| ==> COMMA !in s
  {
    if s == [] then 0
    else
      var k := LastComma(s[1..]);
      assert s == [s[0]] + s[1..];
      if k < |s| - 1 then
        assert s[k + 2..] == s[1..][k + 1..];
        k + 1
      else if s[0] == COMMA then 0
      else |s|
  }

  lemma {:induction false} LastCommaIs(a: Octets, b: Octets)
    requires COMMA !in b
    ensures LastComma(a + [COMMA] + b) == |a|
  {
    var s := a + [COMMA] + b;
    assert s[|a|] == COMMA && s[|a| + 1..] == b;
  }

  /** client-final-message-without-proof: the channel binding of "n,,", and the nonce. */
  function BindingAndNonce(c: Crypto, nonce: Octets): Octets {
    Ascii("c=") + c.base64(Ascii("n,,")) + Ascii(",r=") + nonce
  }

  /** AuthMessage: client-first-message-bare, server-first-message, client-final-message-without-proof. */
  function Signed(bare: Octets, serverFirst: Octets, withoutProof: Octets): Octets {
    bare + Ascii(",") + serverFirst + Ascii(",") + withoutProof
  }

  /** A server's verdict, and the key it recovers from the proof. */
  datatype Verdict = Rejected | Accepted(clientKey: Octets, reply: Octets)

  /** The server checks header, channel binding, nonce and proof, from the messages as they arrive. */
  function ServerVerify(c: Crypto, st: Stored, clientFirst: Octets, serverFirst: Octets, nonce: Octets,
                        clientFinal: Octets): Verdict {
    var at := LastComma(clientFinal);
    if !(Ascii("n,,") <= clientFirst) || !(Ascii(",p=") <= clientFinal[at..])
       || clientFinal[..at] != BindingAndNonce(c, nonce) then Rejected
    else
      var auth := Signed(clientFirst[3..], serverFirst, clientFinal[..at]);
      var signature := c.hmac(st.storedKey, auth);
      match c.unbase64(clientFinal[at + 3..])
      case None => Rejected
      case Some(proof) =>
        if |proof| != |signature| then Rejected
        else
          var clientKey := XorAll(proof, signature);
          if c.hash(clientKey) != st.storedKey then Rejected
          else Accepted(clientKey, Ascii("v=") + c.base64(c.hmac(st.serverKey, auth)))
  }

  /** The proxy's constants are those texts. */
  lemma Texts()
    ensures CLIENT_KEY == Ascii("Client Key") && SERVER_KEY == Ascii("Server Key")
    ensures GS2 == Ascii("n,,") && C_ATTR == Ascii("c=") && R_ATTR == Ascii(",r=") && P_ATTR == Ascii(",p=")
    ensures V_ATTR == Ascii("v=") && [COMMA] == Ascii(",")
  {
  }

  lemma SameKeys(c: Crypto, password: Octets, salt: Octets, iterations: nat)
    requires Sound(c) && iterations >= 1
    ensures ClientKey(c, password, salt, iterations) == KeyOfClient(c, password, salt, iterations)
    ensures c.hmac(Hi(c, password, salt, iterations), SERVER_KEY)
            == c.hmac(SaltedPassword(c, password, salt, iterations), Ascii("Server Key"))
  {
    hide Hi, SaltedPassword, Ascii;
    Texts();
    HiIsSaltedPassword(c, password, salt, iterations);
  }

  lemma SameMessages(c: Crypto, bare: Octets, serverFirst: Octets, nonce: Octets)
    ensures WithoutProof(c, nonce) == BindingAndNonce(c, nonce)
    ensures forall w :: AuthMessage(bare, serverFirst, w) == Signed(bare, serverFirst, w)
  {
    hide Ascii;
    Texts();
  }

  // ---------------------------------------------------------------- the exchange

  /** The server, given the proxy's messages. */
  ghost function Exchange(c: Crypto, normalize: Octets -> Octets, password: Octets, salt: Octets, iterations: nat,
                          bare: Octets, serverFirst: Octets, nonce: Octets): Verdict
    requires Sound(c) && iterations >= 1
  {
    ServerVerify(c, StoredFor(c, normalize, password, salt, iterations), Ascii("n,,") + bare, serverFirst, nonce,
                 ClientFinal(c, password, salt, iterations, bare, serverFirst, nonce).message)
  }

  lemma ProofParts(w: Octets, text: Octets, bare: Octets)
    requires COMMA !in text
    ensures var m := w + Ascii(",p=") + text;
            && LastComma(m) == |w| && m[..|w|] == w && Ascii(",p=") <= m[|w|..] && m[|w| + 3..] == text
    ensures Ascii("n,,") <= Ascii("n,,") + bare && (Ascii("n,,") + bare)[3..] == bare
  {
    hide LastComma;
    var m, tail := w + Ascii(",p=") + text, [112, 61] + text;
    assert Ascii(",p=") == [COMMA, 112, 61];
    assert m == w + [COMMA] + tail;
    LastCommaIs(w, tail);
  }

  /** What the server makes of the proxy's final message, whatever key it has stored. */
  lemma ServerReads(c: Crypto, st: Stored, password: Octets, salt: Octets, iterations: nat, bare: Octets,
                    serverFirst: Octets, nonce: Octets)
    requires Sound(c) && iterations >= 1
    ensures var key := KeyOfClient(c, password, salt, iterations);
            var auth := Signed(bare, serverFirst, BindingAndNonce(c, nonce));
            var got := XorAll(XorAll(key, c.hmac(c.hash(key), auth)), c.hmac(st.storedKey, auth));
            ServerVerify(c, st, Ascii("n,,") + bare, serverFirst, nonce,
                         ClientFinal(c, password, salt, iterations, bare, serverFirst, nonce).message)
            == if c.hash(got) != st.storedKey then Rejected
               else Accepted(got, Ascii("v=") + c.base64(c.hmac(st.serverKey, auth)))
  {
    hide Hi, LastComma, XorAll, AuthMessage, WithoutProof, ClientKey, KeyOfClient, Signed, BindingAndNonce, Ascii;
    SameKeys(c, password, salt, iterations);
    SameMessages(c, bare, serverFirst, nonce);
    Texts();
    var key, w := KeyOfClient(c, password, salt, iterations), BindingAndNonce(c, nonce);
    var auth := Signed(bare, serverFirst, w);
    var proof := XorAll(key, c.hmac(c.hash(key), auth));
    ProofParts(w, c.base64(proof), bare);
  }

  /**
   Main result, for any HMAC with 32-octet values, any hash and any normalisation: the
   server recovers the proxy's ClientKey and accepts it if and only if the keys of the
   password and of the normalised password, which the proxy does not compute, have the
   same hash.
   */
  lemma ExchangeSucceedsExactly(c: Crypto, normalize: Octets -> Octets, password: Octets, salt: Octets,
                                iterations: nat, bare: Octets, serverFirst: Octets, nonce: Octets)
    requires Sound(c) && iterations >= 1
    ensures var v := Exchange(c, normalize, password, salt, iterations, bare, serverFirst, nonce);
            var key := KeyOfClient(c, password, salt, iterations);
            (v.Accepted? && v.clientKey == key)
            <==> c.hash(KeyOfClient(c, normalize(password), salt, iterations)) == c.hash(key)
  {
    hide XorAll, Signed, BindingAndNonce, KeyOfClient, ServerVerify, ClientFinal, SaltedPassword, Ascii;
    var st, key := StoredFor(c, normalize, password, salt, iterations), KeyOfClient(c, password, salt, iterations);
    var auth := Signed(bare, serverFirst, BindingAndNonce(c, nonce));
    ServerReads(c, st, password, salt, iterations, bare, serverFirst, nonce);
    XorAllTwice(key, c.hmac(c.hash(key), auth));
  }

  /**
   Main result: a password that normalisation leaves alone is accepted, with the proxy's
   ClientKey, and the proxy accepts the server's answer.
   */
  lemma ExchangeSucceeds(c: Crypto, normalize: Octets -> Octets, password: Octets, salt: Octets, iterations: nat,
                         bare: Octets, serverFirst: Octets, nonce: Octets)
    requires Sound(c) && iterations >= 1
    ensures var f := ClientFinal(c, password, salt, iterations, bare, serverFirst, nonce);
            var v := Exchange(c, normalize, password, salt, iterations, bare, serverFirst, nonce);
            normalize(password) == password ==>
              && v.Accepted? && v.clientKey == KeyOfClient(c, password, salt, iterations)
              && ClientAccepts(c, v.reply, f.expected)
  {
    hide XorAll, Signed, BindingAndNonce, KeyOfClient, ServerVerify, SaltedPassword, Ascii, Hi, AuthMessage,
         WithoutProof, ClientKey;
    if normalize(password) == password {
      var st, key := StoredFor(c, normalize, password, salt, iterations), KeyOfClient(c, password, salt, iterations);
      var auth := Signed(bare, serverFirst, BindingAndNonce(c, nonce));
      SameKeys(c, password, salt, iterations);
      SameMessages(c, bare, serverFirst, nonce);
      Texts();
      ServerReads(c, st, password, salt, iterations, bare, serverFirst, nonce);
      XorAllTwice(key, c.hmac(c.hash(key), auth));
      var reply := V_ATTR + c.base64(c.hmac(st.serverKey, auth));
      assert reply[2..] == c.base64(c.hmac(st.serverKey, auth));
    }
  }

  /** The proxy accepts the expected signature, and no other. */
  lemma OnlyExpectedAccepted(c: Crypto, signature: Octets, expected: Octets)
    requires Sound(c)
    ensures ClientAccepts(c, Ascii("v=") + c.base64(signature), expected) <==> signature == expected
  {
    hide Ascii;
    Texts();
    assert (V_ATTR + c.base64(signature))[2..] == c.base64(signature);
  }

  // ---------------------------------------------------------------- a password that is normalised

  /** The no-break space, U+00A0 in UTF-8, and the space to which SASLprep maps it (section 2.1 of RFC 4013). */
  const NO_BREAK_SPACE: Octets := [0xC2, 0xA0]
  const SPACE: Octets := [0x20]

  function SpacePrep(s: Octets): Octets {
    if s == NO_BREAK_SPACE then SPACE else s
  }

  function Fill(n: nat, b: byte): (s: Octets)
    ensures |s| == n && forall i :: 0 <= i < n ==> s[i] == b
  {
    seq(n, _ => b)
  }

  /** A keyed function with 32-octet values: the key itself, cut or filled up. */
  function Pad(k: Octets): (s: Octets)
    ensures |s| == DIGEST
  {
    if |k| >= DIGEST then k[..DIGEST] else k + Fill(DIGEST - |k|, 0)
  }

  /** A hash that tells the space's key from all others. */
  function SpaceHash(x: Octets): (h: Octets)
    ensures |h| == DIGEST
  {
    Fill(DIGEST, if x == Pad(SPACE) then 1 else 0)
  }

  /** Each octet as two letters. */
  function Letters(x: Octets): (s: Octets)
    ensures COMMA !in s
  {
    if x == [] then [] else [64 + x[0] / 16, 64 + x[0] % 16] + Letters(x[1..])
  }

  function Unletters(s: Octets): Option<Octets> {
    if s == [] then Some([])
    else if |s| < 2 || !(64 <= s[0] < 80) || !(64 <= s[1] < 80) then None
    else
      match Unletters(s[2..])
      case None => None
      case Some(x) => Some([(s[0] - 64) * 16 + (s[1] - 64)] + x)
  }

  lemma {:induction false} UnlettersLetters(x: Octets)
    ensures Unletters(Letters(x)) == Some(x)
  {
    if x != [] {
      UnlettersLetters(x[1..]);
      assert Letters(x)[2..] == Letters(x[1..]);
      assert x == [x[0]] + x[1..];
    }
  }

  const TOY := Crypto((k: Octets, m: Octets) => Pad(k), SpaceHash, Letters, Unletters)

  lemma ToyIsSound()
    ensures Sound(TOY)
  {
    forall x: Octets
      ensures TOY.unbase64(TOY.base64(x)) == Some(x)
    {
      UnlettersLetters(x);
    }
  }

  /** The condition cannot be dropped: the no-break space as a password is rejected. */
  lemma UnpreparedRejected(salt: Octets, bare: Octets, serverFirst: Octets, nonce: Octets)
    ensures Sound(TOY)
    ensures Exchange(TOY, SpacePrep, NO_BREAK_SPACE, salt, 1, bare, serverFirst, nonce).Rejected?
  {
    ToyIsSound();
    hide Sound, XorAll, Signed, BindingAndNonce, ServerVerify, ClientFinal, Xor, Ascii;
    var st := StoredFor(TOY, SpacePrep, NO_BREAK_SPACE, salt, 1);
    var key := KeyOfClient(TOY, NO_BREAK_SPACE, salt, 1);
    ToyKey(NO_BREAK_SPACE, salt);
    ToyKey(SPACE, salt);
    assert key[1] == 0xA0 && Pad(SPACE)[1] == 0;
    assert TOY.hash(key) == Fill(DIGEST, 0) && st.storedKey == Fill(DIGEST, 1);
    ServerReads(TOY, st, NO_BREAK_SPACE, salt, 1, bare, serverFirst, nonce);
    assert Pad(Fill(DIGEST, 0)) == Fill(DIGEST, 0) && Pad(Fill(DIGEST, 1)) == Fill(DIGEST, 1);
    var got := XorAll(XorAll(key, Fill(DIGEST, 0)), Fill(DIGEST, 1));
    assert got[1] == Xor(Xor(0xA0, 0), 1);
    NotZero();
    assert TOY.hash(got) == Fill(DIGEST, 0) && Fill(DIGEST, 0)[0] != Fill(DIGEST, 1)[0];
  }

  lemma ToyKey(password: Octets, salt: Octets)
    requires Sound(TOY) && |password| <= DIGEST
    ensures KeyOfClient(TOY, password, salt, 1) == Pad(password)
  {
    hide Ascii;
    SameKeys(TOY, password, salt, 1);
    assert Hi(TOY, password, salt, 1) == U(TOY, password, salt, 1) == Pad(password);
    assert Pad(Pad(password)) == Pad(password);
  }

  lemma NotZero()
    ensures Xor(Xor(0xA0, 0), 1) != 0
  {
    hide XorBits;
    assert PowTwo(4) == 16;
    assert PowTwo(6) == 64;
    XorNone(0xA0, 8);
    XorTwice(0xA0, 1);
    XorZero(1, 8);
  }
}
