/** The exchange between one honest initiator, whose static key is random value 0, and one honest responder,
    whose static key is random value 1: what each message shows, what determines what, and what stays
    unknown to the network. */
module Exchange {
  import opened Octets
  import opened Crypto
  import opened Knowledge
  import opened Noise
  import opened Timestamp
  import Sessions
  import Wire

  function InitiatorId(): (id: Identity) ensures id.Valid() { Identity(Private(0), PublicKey(Private(1))) }
  function ResponderId(): (id: Identity) ensures id.Valid() { Identity(Private(1), PublicKey(Private(0))) }

  function SharedSecret(m: nat, n: nat): (s: Bytes)
    ensures |s| == KEY_SIZE
  {
    Spread(Shared(multiset{Scalar(Private(m)), Scalar(Private(n))}), KEY_SIZE)
  }

  // ------------------------------------------------------- the first message

  /** An initiation the honest initiator wrote. */
  datatype Offer = Offer(n: nat, index: nat, clock: Clock)

  function Chain1(n: nat): (c: Chain) ensures c.Valid() {
    MixEphemeral(Begin(PublicKey(Private(1))), PublicKey(Private(n)))
  }

  function StaticKey(n: nat): Bytes { FieldKey(Chain1(n), SharedSecret(n, 1)) }

  function StaticField(n: nat): (f: Bytes) ensures |f| == Wire.STATIC_SIZE {
    Seal(StaticKey(n), 0, PublicKey(Private(0)), Chain1(n).hash)
  }

  function Chain2(n: nat): (c: Chain) ensures c.Valid() {
    MixField(Chain1(n), SharedSecret(n, 1), StaticField(n))
  }

  function StampKey(n: nat): Bytes { FieldKey(Chain2(n), SharedSecret(0, 1)) }

  function StampField(n: nat, stamp: Bytes): (f: Bytes) ensures |f| == |stamp| + TAG_SIZE {
    Seal(StampKey(n), 0, stamp, Chain2(n).hash)
  }

  function Chain3(n: nat, stamp: Bytes): (c: Chain) ensures c.Valid() {
    MixField(Chain2(n), SharedSecret(0, 1), StampField(n, stamp))
  }

  function OfferBody(o: Offer): Bytes {
    Wire.InitiationBody(o.index, PublicKey(Private(o.n)), StaticField(o.n), StampField(o.n, Stamp(o.clock)))
  }

  function OfferMessage(o: Offer): Bytes { WithMacs(OfferBody(o), MacKey(PublicKey(Private(1)))) }

  function OfferHandshake(o: Offer): (h: Handshake)
    ensures o.index < U32 ==> h.Valid()
  {
    Blank().(chain := Chain3(o.n, Stamp(o.clock)), ephemeral := Private(o.n), local := o.index)
  }

  /** What the initiator writes, spelled out. */
  lemma OfferIsWritten(o: Offer)
    ensures WriteInitiation(InitiatorId(), Private(o.n), o.index, o.clock)
      == Some((OfferMessage(o), OfferHandshake(o)))
  {
    DhAgrees(Private(o.n), Private(1));
    DhAgrees(Private(0), Private(1));
    assert WriteFields(InitiatorId(), Private(o.n), Stamp(o.clock)) == Some(Outgoing(PublicKey(Private(o.n)),
        StaticField(o.n), StampField(o.n, Stamp(o.clock)), Chain3(o.n, Stamp(o.clock)))) by {
      hide PublicKey, Kdf, HashOf, Seal;
    }
  }

  // ------------------------------------------------------ the second message

  /** A response the honest responder wrote, to the initiation it had read. */
  datatype Answer = Answer(handshake: Handshake, stamp: Bytes, n: nat, index: nat)

  predicate Answerable(x: Answer) { RespondTo(ResponderId(), x.handshake, Private(x.n)).Some? }

  function AnswerFinish(x: Answer): (f: Finish)
    requires Answerable(x)
    ensures |f.key| == |f.hash| == HASH_SIZE
  {
    RespondTo(ResponderId(), x.handshake, Private(x.n)).value
  }

  function AnswerKeys(x: Answer): Sessions.Keys
    requires Answerable(x)
  {
    ResponderKeys(AnswerFinish(x), x.index, x.handshake.peer)
  }

  function AnswerBody(x: Answer): Bytes
    requires Answerable(x)
  {
    Wire.ResponseBody(x.index, x.handshake.peer, PublicKey(Private(x.n)), Confirmation(AnswerFinish(x)))
  }

  function AnswerMessage(x: Answer): Bytes
    requires Answerable(x)
  {
    WithMacs(AnswerBody(x), MacKey(PublicKey(Private(0))))
  }

  // ------------------------------------------------------ what each one shows

  lemma TermsJoin(s: Bytes, t: Bytes)
    ensures TermsOf(s + t) == TermsOf(s) + TermsOf(t)
  {
  }

  lemma TermsSpread(t: Term, n: nat)
    requires n > 0
    ensures TermsOf(Spread(t, n)) == {t}
  {
    assert Spread(t, n)[0] in Spread(t, n);
  }

  lemma TermsPlain(s: Bytes)
    requires IsPlain(s)
    ensures TermsOf(s) == {}
  {
  }

  lemma TermsWithMacs(body: Bytes, key: Bytes)
    ensures TermsOf(WithMacs(body, key)) == TermsOf(body) + {Mac(key, body)}
  {
    TermsJoin(body + MacOf(key, body), Zeros(MAC_SIZE));
    TermsJoin(body, MacOf(key, body));
    TermsSpread(Mac(key, body), MAC_SIZE);
    TermsPlain(Zeros(MAC_SIZE));
  }

  function StaticTerm(n: nat): (t: Term)
    ensures t.Aead? && |t.plain| == KEY_SIZE
  {
    Aead(StaticKey(n), NonceOf(0), PublicKey(Private(0)), Chain1(n).hash)
  }

  function StampTerm(o: Offer): (t: Term)
    ensures t.Aead? && |t.plain| == TIMESTAMP_SIZE && |t.aad| == HASH_SIZE
  {
    Aead(StampKey(o.n), NonceOf(0), Stamp(o.clock), Chain2(o.n).hash)
  }

  function OfferMac(o: Offer): (t: Term)
    ensures t.Mac?
  {
    Mac(MacKey(PublicKey(Private(1))), OfferBody(o))
  }

  function ConfirmTerm(x: Answer): (t: Term)
    requires Answerable(x)
    ensures t.Aead? && t.plain == [] && |t.aad| == HASH_SIZE
  {
    Aead(AnswerFinish(x).confirm, NonceOf(0), [], AnswerFinish(x).hash)
  }

  function AnswerMac(x: Answer): (t: Term)
    requires Answerable(x)
    ensures t.Mac?
  {
    Mac(MacKey(PublicKey(Private(0))), AnswerBody(x))
  }

  lemma OfferBodyShows(o: Offer)
    ensures TermsOf(OfferBody(o)) == {Pub(Private(o.n)), StaticTerm(o.n), StampTerm(o)}
  {
    hide FieldKey, MixField, MixEphemeral, Begin, Stamp, Private, TermsOf, Chain1, Chain2, StaticKey, StampKey;
    var p, i, e := Wire.Prefix(1), LittleEndian(o.index, 4), PublicKey(Private(o.n));
    var st, ts := StaticField(o.n), StampField(o.n, Stamp(o.clock));
    TermsJoin(p + i + e + st, ts);
    TermsJoin(p + i + e, st);
    TermsJoin(p + i, e);
    TermsPlain(p + i);
    TermsSpread(Pub(Private(o.n)), KEY_SIZE);
    TermsSpread(StaticTerm(o.n), Wire.STATIC_SIZE);
    TermsSpread(StampTerm(o), |ts|);
  }

  lemma OfferShows(o: Offer)
    ensures TermsOf(OfferMessage(o)) == {Pub(Private(o.n)), StaticTerm(o.n), StampTerm(o), OfferMac(o)}
  {
    hide TermsOf, OfferBody, MacKey, Private, StaticTerm, StampTerm, WithMacs;
    OfferBodyShows(o);
    TermsWithMacs(OfferBody(o), MacKey(PublicKey(Private(1))));
  }

  lemma AnswerShows(x: Answer)
    requires Answerable(x)
    ensures TermsOf(AnswerMessage(x)) == {Pub(Private(x.n)), ConfirmTerm(x), AnswerMac(x)}
  {
    hide AnswerFinish, Answerable, MacKey, Private;
    var p, i, j := Wire.Prefix(2), LittleEndian(x.index, 4), LittleEndian(x.handshake.peer, 4);
    var e, n := PublicKey(Private(x.n)), Confirmation(AnswerFinish(x));
    TermsJoin(p + i + j + e, n);
    TermsJoin(p + i + j, e);
    TermsPlain(p + i + j);
    TermsSpread(Pub(Private(x.n)), KEY_SIZE);
    TermsSpread(ConfirmTerm(x), TAG_SIZE);
    TermsWithMacs(AnswerBody(x), MacKey(PublicKey(Private(0))));
  }

  /** One sealed packet: who sealed it, under which key and counter. */
  datatype Sealed = Sealed(byInitiator: bool, key: Bytes, counter: nat, packet: Bytes)

  function SealedTerm(x: Sealed): (t: Term)
    ensures t.Aead? && t.aad == []
  {
    Aead(x.key, NonceOf(x.counter), Sessions.Padded(x.packet), [])
  }

  lemma SealedShows(keys: Sessions.Keys, x: Sealed)
    requires keys.send == x.key
    ensures TermsOf(Sessions.Datagram(keys, x.counter, x.packet)) == {SealedTerm(x)}
  {
    TermsJoin(Wire.Header(keys.peer, x.counter), Seal(x.key, x.counter, Sessions.Padded(x.packet), []));
    TermsPlain(Wire.Header(keys.peer, x.counter));
    TermsSpread(SealedTerm(x), Wire.PaddedLength(|x.packet|) + TAG_SIZE);
  }

  // ---------------------------------------------------- what determines what

  lemma HashJoinInjective(a: Bytes, x: Bytes, b: Bytes, y: Bytes)
    requires |a| == |b| && HashOf(a + x) == HashOf(b + y)
    ensures a == b && x == y
  {
    HashInjective(a + x, b + y);
    assert a == (a + x)[..|a|] && b == (b + y)[..|b|];
    assert x == (a + x)[|a|..] && y == (b + y)[|b|..];
  }

  lemma MixFieldInjective(c: Chain, x: Bytes, f: Bytes, d: Chain, y: Bytes, g: Bytes)
    requires c.Valid() && d.Valid() && MixField(c, x, f) == MixField(d, y, g)
    ensures c == d && x == y && f == g
  {
    KdfInjective(1, c.key, x, 1, d.key, y);
    HashJoinInjective(c.hash, f, d.hash, g);
  }

  lemma MixEphemeralInjective(c: Chain, e: Bytes, d: Chain, f: Bytes)
    requires c.Valid() && d.Valid() && MixEphemeral(c, e).key == MixEphemeral(d, f).key
    ensures c.key == d.key && e == f
  {
    KdfInjective(1, c.key, e, 1, d.key, f);
  }

  /** The chain after the first message determines the ephemeral key and the stamp. */
  lemma Chain3Injective(m: nat, s: Bytes, n: nat, t: Bytes)
    requires Chain3(m, s) == Chain3(n, t)
    ensures m == n && s == t
  {
    hide MixField, MixEphemeral;
    MixFieldInjective(Chain2(m), SharedSecret(0, 1), StampField(m, s), Chain2(n), SharedSecret(0, 1), StampField(n, t));
    SealInjective(StampKey(m), 0, s, Chain2(m).hash, StampKey(n), 0, t, Chain2(n).hash);
    MixFieldInjective(Chain1(m), SharedSecret(m, 1), StaticField(m), Chain1(n), SharedSecret(n, 1), StaticField(n));
    var c := Begin(PublicKey(Private(1)));
    MixEphemeralInjective(c, PublicKey(Private(m)), c, PublicKey(Private(n)));
    PrivateInjective(m, n);
  }

  /** The confirmation key determines every secret and chaining key that led to it. */
  lemma FinishInjective(c: Chain, e: Bytes, ee: Bytes, se: Bytes, d: Chain, e': Bytes, ee': Bytes, se': Bytes)
    requires c.Valid() && d.Valid()
    requires var f, g := Finished(c, e, ee, se), Finished(d, e', ee', se'); f.key == g.key || f.confirm == g.confirm
    ensures c.key == d.key && e == e' && ee == ee' && se == se'
  {
    var psk := Zeros(KEY_SIZE);
    var c4, d4 := MixEphemeral(c, e), MixEphemeral(d, e');
    var k, l := Kdf(1, Kdf(1, c4.key, ee), se), Kdf(1, Kdf(1, d4.key, ee'), se');
    if Kdf(3, k, psk) == Kdf(3, l, psk) {
      KdfInjective(3, k, psk, 3, l, psk);
    } else {
      KdfInjective(1, k, psk, 1, l, psk);
    }
    KdfInjective(1, Kdf(1, c4.key, ee), se, 1, Kdf(1, d4.key, ee'), se');
    KdfInjective(1, c4.key, ee, 1, d4.key, ee');
    MixEphemeralInjective(c, e, d, e');
  }

  /** With the additional data it determines the whole transcript. */
  lemma FinishHashInjective(c: Chain, e: Bytes, ee: Bytes, se: Bytes, d: Chain, e': Bytes, ee': Bytes, se': Bytes)
    requires c.Valid() && d.Valid()
    requires Finished(c, e, ee, se).confirm == Finished(d, e', ee', se').confirm
    requires Finished(c, e, ee, se).hash == Finished(d, e', ee', se').hash
    ensures c == d && e == e' && ee == ee' && se == se'
  {
    FinishInjective(c, e, ee, se, d, e', ee', se');
    var psk := Zeros(KEY_SIZE);
    var c4, d4 := MixEphemeral(c, e), MixEphemeral(d, e');
    var k, l := Kdf(1, Kdf(1, c4.key, ee), se), Kdf(1, Kdf(1, d4.key, ee'), se');
    HashJoinInjective(c4.hash, Kdf(2, k, psk), d4.hash, Kdf(2, l, psk));
    HashJoinInjective(c.hash, e, d.hash, e');
  }

  // ------------------------------------------------------ what stays unknown

  lemma StampKeyUnknown(base: set<Term>, c: Chain)
    requires OnlyWireTerms(base) && c.Valid()
    ensures !AllKnown(base, FieldKey(c, SharedSecret(0, 1)))
    ensures !AllKnown(base, Kdf(1, c.key, SharedSecret(0, 1)))
  {
    SecretsUnknown(base, 0, 1);
    if AllKnown(base, FieldKey(c, SharedSecret(0, 1))) {
      KdfUnknown(base, 2, c.key, SharedSecret(0, 1));
    }
    if AllKnown(base, Kdf(1, c.key, SharedSecret(0, 1))) {
      KdfUnknown(base, 1, c.key, SharedSecret(0, 1));
    }
  }

  lemma StaticKeyUnknown(base: set<Term>, n: nat)
    requires OnlyWireTerms(base)
    ensures !AllKnown(base, StaticKey(n))
  {
    SecretsUnknown(base, n, 1);
    if AllKnown(base, StaticKey(n)) {
      KdfUnknown(base, 2, Chain1(n).key, SharedSecret(n, 1));
    }
  }

  /** Whoever does not know the chaining key, or the secret of the two ephemeral keys, knows nothing derived
      from them. */
  lemma FinishUnknown(base: set<Term>, c: Chain, e: Bytes, ee: Bytes, se: Bytes)
    requires NothingDerived(base) && c.Valid() && (!AllKnown(base, c.key) || !AllKnown(base, ee))
    ensures var f := Finished(c, e, ee, se);
      !AllKnown(base, f.confirm) && !AllKnown(base, Kdf(1, f.key, [])) && !AllKnown(base, Kdf(2, f.key, []))
  {
    var f, psk := Finished(c, e, ee, se), Zeros(KEY_SIZE);
    var c4 := MixEphemeral(c, e);
    var k := Kdf(1, Kdf(1, c4.key, ee), se);
    if AllKnown(base, k) {
      KdfUnknown(base, 1, Kdf(1, c4.key, ee), se);
      KdfUnknown(base, 1, c4.key, ee);
      KdfUnknown(base, 1, c.key, e);
    }
    if AllKnown(base, f.confirm) {
      KdfUnknown(base, 3, k, psk);
    }
    if AllKnown(base, Kdf(1, f.key, [])) {
      KdfUnknown(base, 1, f.key, []);
      KdfUnknown(base, 1, k, psk);
    }
    if AllKnown(base, Kdf(2, f.key, [])) {
      KdfUnknown(base, 2, f.key, []);
      KdfUnknown(base, 1, k, psk);
    }
  }
}
