/** The Noise protocol framework, revision 34, written down independently of the program: the symmetric state of
    section 5.2, the message patterns of section 7 with the psk rules of section 9, and IKpsk2 of them. The
    program's handshake is proved to be this protocol, byte for byte and key for key. */
module NoiseReference {
  import opened Octets
  import opened Crypto
  import opened Timestamp
  import Noise
  import Sessions
  import Wire

  // -------------------------------------------------------- the symmetric state

  datatype Symmetric = Symmetric(ck: Bytes, h: Bytes, k: Bytes, n: nat)

  /** HKDF of section 4.3: three outputs, of which the first two or three are used. */
  function Hkdf(ck: Bytes, ikm: Bytes): (Bytes, Bytes, Bytes) {
    var t := Hmac(ck, ikm);
    var o1 := Hmac(t, [Plain(1)]);
    var o2 := Hmac(t, o1 + [Plain(2)]);
    (o1, o2, Hmac(t, o2 + [Plain(3)]))
  }

  /** A protocol name longer than a hash is hashed. */
  function Initialize(name: string): Symmetric
    requires |name| > 32
  {
    Symmetric(HashOf(Text(name)), HashOf(Text(name)), [], 0)
  }

  function MixHash(s: Symmetric, data: Bytes): Symmetric { s.(h := HashOf(s.h + data)) }

  function MixKey(s: Symmetric, ikm: Bytes): Symmetric {
    var (ck, k, _) := Hkdf(s.ck, ikm);
    s.(ck := ck, k := k, n := 0)
  }

  function MixKeyAndHash(s: Symmetric, ikm: Bytes): Symmetric {
    var (ck, th, k) := Hkdf(s.ck, ikm);
    MixHash(s.(ck := ck), th).(k := k, n := 0)
  }

  function EncryptAndHash(s: Symmetric, plain: Bytes): (Symmetric, Bytes) {
    var c := Seal(s.k, s.n, plain, s.h);
    (MixHash(s.(n := s.n + 1), c), c)
  }

  /** The two transport keys: the initiator sends under the first, the responder under the second. */
  function Split(s: Symmetric): (Bytes, Bytes) {
    var (k1, k2, _) := Hkdf(s.ck, []);
    (k1, k2)
  }

  // ---------------------------------------------------------------- the patterns

  datatype Token = E | S | EE | ES | SE | SS | Psk

  /** What the tokens of one message stand for. */
  datatype Keys = Keys(e: Bytes, s: Bytes, ee: Bytes, es: Bytes, se: Bytes, ss: Bytes, psk: Bytes)

  /** One token: the state after it, and the bytes it puts in the message. In a psk pattern an ephemeral key is
      mixed into the key as well as the hash. */
  function Process(s: Symmetric, t: Token, x: Keys): (Symmetric, Bytes) {
    match t
    case E => (MixKey(MixHash(s, x.e), x.e), x.e)
    case S => EncryptAndHash(s, x.s)
    case EE => (MixKey(s, x.ee), [])
    case ES => (MixKey(s, x.es), [])
    case SE => (MixKey(s, x.se), [])
    case SS => (MixKey(s, x.ss), [])
    case Psk => (MixKeyAndHash(s, x.psk), [])
  }

  function Tokens(s: Symmetric, ts: seq<Token>, x: Keys): (Symmetric, Bytes)
    decreases |ts|
  {
    if ts == [] then (s, [])
    else
      var (s1, m) := Process(s, ts[0], x);
      var (s2, rest) := Tokens(s1, ts[1..], x);
      (s2, m + rest)
  }

  /** A whole message: its tokens, then its payload. */
  function WriteMessage(s: Symmetric, ts: seq<Token>, x: Keys, payload: Bytes): (Symmetric, Bytes) {
    var (s1, m) := Tokens(s, ts, x);
    var (s2, c) := EncryptAndHash(s1, payload);
    (s2, m + c)
  }

  /** IKpsk2, section 7.5 and 9.4: the responder's static key is known beforehand. */
  const FIRST := [E, ES, S, SS]
  const SECOND := [E, EE, SE, Psk]

  function Start(responder: Bytes): Symmetric {
    MixHash(MixHash(Initialize("Noise_IKpsk2_25519_ChaChaPoly_BLAKE2s"), Text("WireGuard v1 zx2c4 Jason@zx2c4.com")),
            responder)
  }

  function FirstKeys(e: Bytes, s: Bytes, es: Bytes, ss: Bytes): Keys { Keys(e, s, [], es, [], ss, []) }
  function SecondKeys(e: Bytes, ee: Bytes, se: Bytes): Keys { Keys(e, [], ee, [], se, [], Zeros(32)) }

  // ------------------------------------------------------------------ they agree

  lemma HkdfIsKdf(ck: Bytes, ikm: Bytes)
    ensures Hkdf(ck, ikm) == (Kdf(1, ck, ikm), Kdf(2, ck, ikm), Kdf(3, ck, ikm))
  {
    hide Hmac, Kdf;
    KdfIs(ck, ikm);
  }

  lemma TokensCons(s: Symmetric, t: Token, ts: seq<Token>, x: Keys)
    ensures var (s1, m) := Process(s, t, x);
      var (s2, rest) := Tokens(s1, ts, x);
      Tokens(s, [t] + ts, x) == (s2, m + rest)
  {
    hide Process;
    assert ([t] + ts)[1..] == ts;
  }

  lemma TokensFour(s: Symmetric, a: Token, b: Token, c: Token, d: Token, x: Keys)
    ensures var (s1, m1) := Process(s, a, x);
      var (s2, m2) := Process(s1, b, x);
      var (s3, m3) := Process(s2, c, x);
      var (s4, m4) := Process(s3, d, x);
      Tokens(s, [a, b, c, d], x) == (s4, m1 + m2 + m3 + m4)
  {
    hide Process, Tokens;
    var (s1, m1) := Process(s, a, x);
    var (s2, m2) := Process(s1, b, x);
    var (s3, m3) := Process(s2, c, x);
    var (s4, m4) := Process(s3, d, x);
    TokensCons(s, a, [b, c, d], x);
    TokensCons(s1, b, [c, d], x);
    TokensCons(s2, c, [d], x);
    TokensCons(s3, d, [], x);
    assert [a] + [b, c, d] == [a, b, c, d] && [b] + [c, d] == [b, c, d] && [c] + [d] == [c, d] && [d] + [] == [d];
    assert Tokens(s4, [], x) == (s4, []) by { TokensNone(s4, x); }
    assert m1 + (m2 + (m3 + (m4 + []))) == m1 + m2 + m3 + m4;
  }

  lemma TokensNone(s: Symmetric, x: Keys)
    ensures Tokens(s, [], x) == (s, [])
  {
  }

  /** The initial chain is the framework's, after its prologue and the responder's key. */
  lemma StartIsBegin(responder: Bytes)
    ensures Noise.Begin(responder) == Noise.Chain(Start(responder).ck, Start(responder).h)
  {
  }

  /** The fields of an initiation, from the two shared secrets, are the first message of the pattern. */
  lemma FieldsAreFirst(id: Noise.Identity, e: Bytes, es: Bytes, ss: Bytes, stamp: Bytes)
    ensures var o := Noise.FieldsOf(id, e, es, ss, stamp);
      var (s, m) := WriteMessage(Start(id.peerPublic), FIRST, FirstKeys(PublicKey(e), id.Public(), es, ss), stamp);
      o.ephemeral + o.encStatic + o.encStamp == m && o.chain == Noise.Chain(s.ck, s.h)
  {
    hide Tokens, Kdf, HashOf, Seal, PublicKey, Hkdf, Start, Noise.Begin;
    var x := FirstKeys(PublicKey(e), id.Public(), es, ss);
    var s0 := Start(id.peerPublic);
    StartIsBegin(id.peerPublic);
    TokensFour(s0, E, ES, S, SS, x);
    HkdfIsKdf(s0.ck, x.e);
    var s1 := Process(s0, E, x).0;
    HkdfIsKdf(s1.ck, es);
    var s2 := Process(s1, ES, x).0;
    var s3 := Process(s2, S, x).0;
    HkdfIsKdf(s3.ck, ss);
  }

  /** The end of the exchange is the second message, under an all-zero preshared key. */
  lemma FinishIsSecond(c: Noise.Chain, ephemeral: Bytes, ee: Bytes, se: Bytes, k: Bytes, n: nat)
    ensures var f := Noise.Finished(c, ephemeral, ee, se);
      var (s, m) := WriteMessage(Symmetric(c.key, c.hash, k, n), SECOND, SecondKeys(ephemeral, ee, se), []);
      && ephemeral + Noise.Confirmation(f) == m
      && Split(s) == (Kdf(1, f.key, []), Kdf(2, f.key, []))
  {
    hide Tokens, Kdf, HashOf, Seal, Hkdf;
    var x := SecondKeys(ephemeral, ee, se);
    var s0 := Symmetric(c.key, c.hash, k, n);
    TokensFour(s0, E, EE, SE, Psk, x);
    HkdfIsKdf(s0.ck, ephemeral);
    var s1 := Process(s0, E, x).0;
    HkdfIsKdf(s1.ck, ee);
    var s2 := Process(s1, EE, x).0;
    HkdfIsKdf(s2.ck, se);
    var s3 := Process(s2, SE, x).0;
    HkdfIsKdf(s3.ck, x.psk);
    var s4 := Process(s3, Psk, x).0;
    HkdfIsKdf(s4.ck, []);
    assert ephemeral + [] + [] + [] == ephemeral;
  }

  // ------------------------------------------------------- what is written and read

  /** What the initiator writes between its index and its MACs is the first message of Noise_IKpsk2, and the
      chain it keeps is the framework's. */
  lemma InitiationIsNoise(id: Noise.Identity, e: Bytes, index: nat, now: Clock)
    requires index < U32 && Noise.WriteInitiation(id, e, index, now).Some?
    ensures var (d, h) := Noise.WriteInitiation(id, e, index, now).value;
      && Dh(e, id.peerPublic).Some? && Dh(id.priv, id.peerPublic).Some?
      && var x := FirstKeys(PublicKey(e), PublicKey(id.priv), Dh(e, id.peerPublic).value,
                            Dh(id.priv, id.peerPublic).value);
      var (s, m) := WriteMessage(Start(id.peerPublic), FIRST, x, Stamp(now));
      && |d| == 148 && d[8..116] == m && h.chain == Noise.Chain(s.ck, s.h) && h.ephemeral == e && h.local == index
  {
    hide WriteMessage, Dh, PublicKey, Stamp, Noise.FieldsOf, Start, Wire.Decode;
    var es, ss := Dh(e, id.peerPublic).value, Dh(id.priv, id.peerPublic).value;
    var o := Noise.FieldsOf(id, e, es, ss, Stamp(now));
    FieldsAreFirst(id, e, es, ss, Stamp(now));
    Noise.InitiationOnTheWire(id, e, index, now);
    var d := Noise.WriteInitiation(id, e, index, now).value.0;
    assert d[8..40] == o.ephemeral && d[40..88] == o.encStatic && d[88..116] == o.encStamp by {
      InitiationFieldsAt(d);
    }
    assert d[8..116] == d[8..40] + d[40..88] + d[88..116];
  }

  lemma InitiationFieldsAt(d: Bytes)
    requires Wire.Decode(d).Some? && Wire.Decode(d).value.Initiation?
    ensures var m := Wire.Decode(d).value;
      |d| == 148 && d[8..40] == m.ephemeral && d[40..88] == m.encStatic && d[88..116] == m.encStamp
  {
  }

  /** Of the fields of an initiation the responder accepts exactly those that are the first message of
      Noise_IKpsk2 from the one static key it was configured with, for some stamp. */
  lemma FieldsAcceptedExactly(id: Noise.Identity, ephemeral: Bytes, encStatic: Bytes, encStamp: Bytes, stamp: Bytes)
    requires id.Valid() && |ephemeral| == 32 && |encStatic| == 48 && Dh(id.priv, id.peerPublic).Some?
    requires |encStamp| == |stamp| + 16
    ensures var read := Noise.ReadFields(id, ephemeral, encStatic, encStamp);
      (read.Some? && read.value.1 == stamp) <==>
        && Dh(id.priv, ephemeral).Some?
        && var x := FirstKeys(ephemeral, id.peerPublic, Dh(id.priv, ephemeral).value,
                              Dh(id.priv, id.peerPublic).value);
        var (s, m) := WriteMessage(Start(PublicKey(id.priv)), FIRST, x, stamp);
        ephemeral + encStatic + encStamp == m
  {
    hide Tokens, Kdf, HashOf, PublicKey, Hkdf, Start, Noise.Begin, Dh, Open;
    if Dh(id.priv, ephemeral).Some? {
      var es, ss := Dh(id.priv, ephemeral).value, Dh(id.priv, id.peerPublic).value;
      var x := FirstKeys(ephemeral, id.peerPublic, es, ss);
      FirstMessageIs(PublicKey(id.priv), x, stamp);
      var c1 := Noise.MixEphemeral(Noise.Begin(PublicKey(id.priv)), ephemeral);
      var st := Seal(Noise.FieldKey(c1, es), 0, id.peerPublic, c1.hash);
      var c2 := Noise.MixField(c1, es, st);
      var ts := Seal(Noise.FieldKey(c2, ss), 0, stamp, c2.hash);
      var m := ephemeral + st + ts;
      assert m[32..80] == st && m[80..] == ts;
      var m' := ephemeral + encStatic + encStamp;
      assert m'[32..80] == encStatic && m'[80..] == encStamp;
      OpenedIs(Noise.FieldKey(c1, es), encStatic, c1.hash, id.peerPublic);
      OpenedIs(Noise.FieldKey(c2, ss), encStamp, c2.hash, stamp);
    }
  }

  lemma OpenedIs(key: Bytes, c: Bytes, aad: Bytes, plain: Bytes)
    ensures Open(key, 0, c, aad) == Some(plain) <==> c == Seal(key, 0, plain, aad)
  {
    hide Open;
    if c == Seal(key, 0, plain, aad) {
      OpenSeal(key, 0, plain, aad);
    }
  }

  /** The first message, spelled out. */
  lemma FirstMessageIs(responder: Bytes, x: Keys, payload: Bytes)
    ensures var c1 := Noise.MixEphemeral(Noise.Begin(responder), x.e);
      var st := Seal(Noise.FieldKey(c1, x.es), 0, x.s, c1.hash);
      var c2 := Noise.MixField(c1, x.es, st);
      var ts := Seal(Noise.FieldKey(c2, x.ss), 0, payload, c2.hash);
      WriteMessage(Start(responder), FIRST, x, payload).1 == x.e + st + ts
  {
    hide Tokens, Kdf, HashOf, Seal, Hkdf, Start, Noise.Begin;
    var s0 := Start(responder);
    StartIsBegin(responder);
    TokensFour(s0, E, ES, S, SS, x);
    HkdfIsKdf(s0.ck, x.e);
    var s1 := Process(s0, E, x).0;
    HkdfIsKdf(s1.ck, x.es);
    var s2 := Process(s1, ES, x).0;
    var s3 := Process(s2, S, x).0;
    HkdfIsKdf(s3.ck, x.ss);
  }

  /** A response is the second message, and the responder sends under the second key of the split. */
  lemma ResponseIsNoise(id: Noise.Identity, h: Noise.Handshake, e: Bytes, index: nat, k: Bytes, n: nat)
    requires index < U32 && h.peer < U32 && Noise.WriteResponse(id, h, e, index).Some?
    ensures var (d, keys) := Noise.WriteResponse(id, h, e, index).value;
      && Dh(e, h.peerEphemeral).Some? && Dh(e, id.peerPublic).Some?
      && var x := SecondKeys(PublicKey(e), Dh(e, h.peerEphemeral).value, Dh(e, id.peerPublic).value);
      var (s, m) := WriteMessage(Symmetric(h.chain.key, h.chain.hash, k, n), SECOND, x, []);
      && |d| == 92 && d[12..60] == m
      && keys == Sessions.Keys(Split(s).1, Split(s).0, index, h.peer)
  {
    hide WriteMessage, Split, Dh, PublicKey, Kdf, Noise.Confirmation, Noise.Finished, Wire.Decode;
    var ee, se := Dh(e, h.peerEphemeral).value, Dh(e, id.peerPublic).value;
    FinishIsSecond(h.chain, PublicKey(e), ee, se, k, n);
    Noise.ResponseOnTheWire(id, h, e, index);
    var d := Noise.WriteResponse(id, h, e, index).value.0;
    ResponseFieldsAt(d);
    assert d[12..60] == d[12..44] + d[44..60];
  }

  lemma ResponseFieldsAt(d: Bytes)
    requires Wire.Decode(d).Some? && Wire.Decode(d).value.Response?
    ensures var m := Wire.Decode(d).value;
      |d| == 92 && d[12..44] == m.ephemeral && d[44..60] == m.encNothing
  {
  }

  /** The initiator accepts a response exactly when it is addressed to it, its mac1 is right, and it is the second
      message of the pattern from the chain the initiator stands at; it then sends under the first key. */
  lemma ResponseAcceptedExactly(id: Noise.Identity, h: Noise.Handshake, d: Bytes, k: Bytes, n: nat)
    requires h.Valid()
    ensures Noise.ReadResponse(id, h, d).Some? <==>
      && |d| == 92 && d[..4] == [Plain(2), Plain(0), Plain(0), Plain(0)] && IsPlain(d[4..8]) && IsPlain(d[8..12])
      && LittleValue(d[8..12]) == h.local
      && d[60..76] == MacOf(HashOf(Text("mac1----") + PublicKey(id.priv)), d[..60])
      && Dh(h.ephemeral, d[12..44]).Some? && Dh(id.priv, d[12..44]).Some?
      && var x := SecondKeys(d[12..44], Dh(h.ephemeral, d[12..44]).value, Dh(id.priv, d[12..44]).value);
      d[12..60] == WriteMessage(Symmetric(h.chain.key, h.chain.hash, k, n), SECOND, x, []).1
    ensures Noise.ReadResponse(id, h, d).Some? ==>
      var x := SecondKeys(d[12..44], Dh(h.ephemeral, d[12..44]).value, Dh(id.priv, d[12..44]).value);
      var s := WriteMessage(Symmetric(h.chain.key, h.chain.hash, k, n), SECOND, x, []).0;
      Noise.ReadResponse(id, h, d).value == Sessions.Keys(Split(s).0, Split(s).1, h.local, LittleValue(d[4..8]))
  {
    hide WriteMessage, Split, Dh, Kdf, MacOf, HashOf, Noise.Finished, LittleValue, Seal, Open, PublicKey;
    if |d| == 92 {
      assert d[..4] == [d[0], d[1], d[2], d[3]];
      assert d[12..60] == d[12..44] + d[44..60];
      var e := d[12..44];
      if Dh(h.ephemeral, e).Some? && Dh(id.priv, e).Some? {
        var ee, se := Dh(h.ephemeral, e).value, Dh(id.priv, e).value;
        var f := Noise.Finished(h.chain, e, ee, se);
        FinishIsSecond(h.chain, e, ee, se, k, n);
        OpenedIs(f.confirm, d[44..60], f.hash, []);
        assert (e + Noise.Confirmation(f))[32..] == Noise.Confirmation(f) && (e + d[44..60])[32..] == d[44..60];
      }
    }
  }

  /** The responder accepts an initiation exactly when its mac1 is right, its fields are accepted, and its stamp is
      fresh; it remembers the ephemeral key and the sender's index from where they stand. */
  lemma InitiationAcceptedExactly(id: Noise.Identity, d: Bytes, g: Greatest)
    requires id.Valid() && (g.Some? ==> |g.value| == TIMESTAMP_SIZE)
    ensures Noise.ReadInitiation(id, d, g).Some? <==>
      && |d| == 148 && d[..4] == [Plain(1), Plain(0), Plain(0), Plain(0)] && IsPlain(d[4..8])
      && d[116..132] == MacOf(HashOf(Text("mac1----") + PublicKey(id.priv)), d[..116])
      && var read := Noise.ReadFields(id, d[8..40], d[40..88], d[88..116]);
      read.Some? && Fresh(g, read.value.1)
    ensures Noise.ReadInitiation(id, d, g).Some? ==>
      var r, read := Noise.ReadInitiation(id, d, g).value, Noise.ReadFields(id, d[8..40], d[40..88], d[88..116]);
      && r.stamp == read.value.1 && r.handshake.chain == read.value.0
      && r.handshake.peerEphemeral == d[8..40] && r.handshake.peer == LittleValue(d[4..8])
  {
    hide Noise.ReadFields, MacOf, HashOf, LittleValue, After, PublicKey;
    if |d| == 148 {
      assert d[..4] == [d[0], d[1], d[2], d[3]];
    }
  }
}
