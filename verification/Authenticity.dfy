/** What an accepted message proves about who wrote it. */
module Authenticity {
  import opened Octets
  import opened Crypto
  import opened Exchange
  import opened Knowledge
  import opened Timestamp
  import opened Tunnel
  import Noise
  import NoiseReference
  import Sessions
  import Wire
  import Window

  // ------------------------------------------------------ what was on the wire

  lemma SeenKinds(s: State)
    requires Shape(s) && WireOk(s)
    ensures OnlyWireTerms(s.seen) && NothingDerived(s.seen)
  {
    hide StaticTerm, StampTerm, OfferMac, ConfirmTerm, AnswerMac, SealedTerm, Answerable, Private;
    forall t | t in s.seen ensures t.Pub? || t.Mac? || t.Aead? {
      assert Travelled(s, t);
    }
  }

  /** A travelled ciphertext with a 12-byte plaintext under additional data is an initiation's stamp. */
  lemma StampTravelled(s: State, t: Term) returns (o: Offer)
    requires Shape(s) && WireOk(s) && t in s.seen && t.Aead?
    requires |t.plain| == TIMESTAMP_SIZE && |t.aad| == HASH_SIZE
    ensures o in s.offers && t == StampTerm(o)
  {
    hide StaticTerm, StampTerm, OfferMac, ConfirmTerm, AnswerMac, SealedTerm, Answerable, Private;
    assert Travelled(s, t);
    o :| o in s.offers && t == StampTerm(o);
  }

  /** One with an empty plaintext under additional data is a response's confirmation. */
  lemma ConfirmTravelled(s: State, t: Term) returns (x: Answer)
    requires Shape(s) && WireOk(s) && t in s.seen && t.Aead? && t.plain == [] && |t.aad| == HASH_SIZE
    ensures x in s.answers && Answerable(x) && t == ConfirmTerm(x)
  {
    hide StaticTerm, StampTerm, OfferMac, ConfirmTerm, AnswerMac, SealedTerm, Answerable, Private;
    assert Travelled(s, t);
    x :| x in s.answers && Answerable(x) && t == ConfirmTerm(x);
  }

  /** One without additional data is a sealed packet. */
  lemma PacketTravelled(s: State, t: Term) returns (x: Sealed)
    requires Shape(s) && WireOk(s) && t in s.seen && t.Aead? && t.aad == []
    ensures x in s.sealed && t == SealedTerm(x)
  {
    hide StampTerm, OfferMac, ConfirmTerm, AnswerMac, SealedTerm, Answerable, Private;
    assert Travelled(s, t);
    x :| x in s.sealed && t == SealedTerm(x);
  }

  // ------------------------------------------------------- the first message

  /** The second chain, as the responder computes it from the fields it received. */
  function ReadChain2(ephemeral: Bytes, es: Bytes, encStatic: Bytes): (c: Noise.Chain)
    ensures c.Valid()
  {
    Noise.MixField(Noise.MixEphemeral(Noise.Begin(PublicKey(Private(1))), ephemeral), es, encStatic)
  }

  lemma ReadFieldsMeans(ephemeral: Bytes, encStatic: Bytes, encStamp: Bytes)
    requires Noise.ReadFields(ResponderId(), ephemeral, encStatic, encStamp).Some?
    ensures Dh(Private(1), ephemeral).Some?
    ensures var (chain, stamp) := Noise.ReadFields(ResponderId(), ephemeral, encStatic, encStamp).value;
      var c := ReadChain2(ephemeral, Dh(Private(1), ephemeral).value, encStatic);
      && encStamp == Seal(Noise.FieldKey(c, SharedSecret(0, 1)), 0, stamp, c.hash)
      && chain == Noise.MixField(c, SharedSecret(0, 1), encStamp)
  {
    DhAgrees(Private(1), Private(0));
    DhAgrees(Private(0), Private(1));
    hide Kdf, HashOf, PublicKey, Seal;
  }

  /** Two second chains that agree come from the same ephemeral key. */
  lemma ReadChain2Injective(ephemeral: Bytes, es: Bytes, encStatic: Bytes, n: nat)
    requires ReadChain2(ephemeral, es, encStatic) == Chain2(n)
    ensures ephemeral == PublicKey(Private(n))
  {
    hide Noise.MixField, Noise.MixEphemeral;
    var c := Noise.Begin(PublicKey(Private(1)));
    MixFieldInjective(Noise.MixEphemeral(c, ephemeral), es, encStatic, Chain1(n), SharedSecret(n, 1), StaticField(n));
    MixEphemeralInjective(c, ephemeral, c, PublicKey(Private(n)));
  }

  /** The fields of an accepted initiation are those of one the initiator wrote. */
  lemma FieldsAuthentic(s: State, ephemeral: Bytes, encStatic: Bytes, encStamp: Bytes) returns (o: Offer)
    requires Shape(s) && WireOk(s) && AllKnown(s.seen, encStamp) && |encStamp| == Wire.STAMP_SIZE
    requires Noise.ReadFields(ResponderId(), ephemeral, encStatic, encStamp).Some?
    ensures o in s.offers && ephemeral == PublicKey(Private(o.n))
    ensures Noise.ReadFields(ResponderId(), ephemeral, encStatic, encStamp).value
      == (Chain3(o.n, Stamp(o.clock)), Stamp(o.clock))
  {
    hide Noise.ReadFields, AllKnown, OnlyWireTerms, Dh, Kdf;
    ReadFieldsMeans(ephemeral, encStatic, encStamp);
    var (chain, stamp) := Noise.ReadFields(ResponderId(), ephemeral, encStatic, encStamp).value;
    var es := Dh(Private(1), ephemeral).value;
    var c := ReadChain2(ephemeral, es, encStatic);
    var key := Noise.FieldKey(c, SharedSecret(0, 1));
    SeenKinds(s);
    StampKeyUnknown(s.seen, c);
    CiphertextTravelled(s.seen, key, 0, stamp, c.hash);
    o := StampTravelled(s, Aead(key, NonceOf(0), stamp, c.hash));
    KdfInjective(2, c.key, SharedSecret(0, 1), 2, Chain2(o.n).key, SharedSecret(0, 1));
    assert c == Chain2(o.n);
    ReadChain2Injective(ephemeral, es, encStatic, o.n);
  }

  /** An accepted initiation was written by the initiator, and its stamp is the one it was written with. */
  lemma InitiationAuthentic(s: State, d: Bytes) returns (o: Offer)
    requires Shape(s) && WireOk(s) && AllKnown(s.seen, d)
    requires Noise.ReadInitiation(s.b.id, d, s.b.greatest).Some?
    ensures o in s.offers
    ensures var incoming := Noise.ReadInitiation(s.b.id, d, s.b.greatest).value;
      && incoming.handshake.chain == Chain3(o.n, Stamp(o.clock)) && incoming.stamp == Stamp(o.clock)
      && incoming.handshake.peerEphemeral == PublicKey(Private(o.n))
  {
    hide Noise.ReadFields, Noise.Mac1Ok, PublicKey, AllKnown, OnlyWireTerms, Chain3, WireOk;
    var m := Wire.Decode(d).value;
    assert m.encStamp == d[88..116];
    KnownPart(s.seen, d, 88, 116);
    o := FieldsAuthentic(s, m.ephemeral, m.encStatic, m.encStamp);
  }

  // ------------------------------------------------------ the second message

  lemma Chain3Unknown(s: State, n: nat, stamp: Bytes)
    requires Shape(s) && WireOk(s)
    ensures !AllKnown(s.seen, Chain3(n, stamp).key)
  {
    SeenKinds(s);
    StampKeyUnknown(s.seen, Chain2(n));
  }

  /** A confirmation that opens for the initiator was made by the responder, from the same chain. */
  lemma ConfirmationAuthentic(s: State, o: Offer, ephemeral: Bytes, encNothing: Bytes) returns (x: Answer)
    requires Shape(s) && WireOk(s) && AllKnown(s.seen, encNothing)
    requires forall x | x in s.answers :: x.handshake.chain.Valid()
    requires Noise.FinishWith(InitiatorId(), OfferHandshake(o), ephemeral).Some?
    requires var f := Noise.FinishWith(InitiatorId(), OfferHandshake(o), ephemeral).value;
      Open(f.confirm, 0, encNothing, f.hash) == Some([])
    ensures x in s.answers && Answerable(x)
    ensures AnswerFinish(x) == Noise.FinishWith(InitiatorId(), OfferHandshake(o), ephemeral).value
    ensures x.handshake.chain == Chain3(o.n, Stamp(o.clock))
  {
    hide AllKnown, OnlyWireTerms, Dh, Kdf, HashOf, PublicKey, Private, Chain3, Stamp, Answerable, AnswerFinish,
         WireOk, LowOrder, Noise.Finished;
    var c, e := Chain3(o.n, Stamp(o.clock)), Private(o.n);
    var ee, se := Dh(e, ephemeral).value, Dh(Private(0), ephemeral).value;
    var f := Noise.Finished(c, ephemeral, ee, se);
    SeenKinds(s);
    Chain3Unknown(s, o.n, Stamp(o.clock));
    FinishUnknown(s.seen, c, ephemeral, ee, se);
    CiphertextTravelled(s.seen, f.confirm, 0, [], f.hash);
    x := ConfirmTravelled(s, Aead(f.confirm, NonceOf(0), [], f.hash));
    SameFinish(x, c, ephemeral, ee, se);
  }

  /** A response whose confirmation is this one started from this chain and used this ephemeral key. */
  lemma SameFinish(x: Answer, c: Noise.Chain, ephemeral: Bytes, ee: Bytes, se: Bytes)
    requires Answerable(x) && x.handshake.chain.Valid() && c.Valid()
    requires var f := Noise.Finished(c, ephemeral, ee, se);
      AnswerFinish(x).confirm == f.confirm && AnswerFinish(x).hash == f.hash
    ensures x.handshake.chain == c && AnswerFinish(x) == Noise.Finished(c, ephemeral, ee, se)
    ensures PublicKey(Private(x.n)) == ephemeral
  {
    hide Kdf, HashOf, PublicKey, Private;
    var r := Private(x.n);
    var ee', se' := Dh(r, x.handshake.peerEphemeral).value, Dh(r, ResponderId().peerPublic).value;
    FinishHashInjective(x.handshake.chain, PublicKey(r), ee', se', c, ephemeral, ee, se);
  }

  /** What an accepted response says, field by field. */
  lemma ResponseMeans(s: State, d: Bytes)
    requires s.a.Valid() && s.a.pending.Some? && Noise.ReadResponse(s.a.id, s.a.pending.value, d).Some?
    ensures Wire.Decode(d).Some? && Wire.Decode(d).value.Response? && |d| == Wire.RESPONSE_SIZE
    ensures var m, h := Wire.Decode(d).value, s.a.pending.value;
      && m.encNothing == d[44..60] && m.mac1 == d[60..76] && m.receiver == h.local
      && m.mac1 == MacOf(s.a.id.ReceivingMacKey(), d[..Wire.RESPONSE_MAC1])
      && Noise.FinishWith(s.a.id, h, m.ephemeral).Some?
      && var f := Noise.FinishWith(s.a.id, h, m.ephemeral).value;
      && Open(f.confirm, 0, m.encNothing, f.hash) == Some([])
      && Noise.ReadResponse(s.a.id, h, d).value == Noise.InitiatorKeys(f, h.local, m.sender)
  {
    hide Noise.FinishWith, Open, MacOf;
  }

  /** An accepted response was confirmed by the responder, and the two hold the same keys. */
  lemma ResponseAuthentic(s: State, d: Bytes) returns (x: Answer)
    requires Shape(s) && WireOk(s) && OffersOk(s) && AllKnown(s.seen, d)
    requires forall x | x in s.answers :: x.handshake.chain.Valid()
    requires s.a.pending.Some? && Noise.ReadResponse(s.a.id, s.a.pending.value, d).Some?
    ensures x in s.answers && Answerable(x)
    ensures x.handshake.chain == OfferHandshake(Last(s.offers)).chain
    ensures KeysCross(Noise.ReadResponse(s.a.id, s.a.pending.value, d).value, AnswerKeys(x))
  {
    hide Noise.ReadResponse, Noise.FinishWith, Open, MacOf, AllKnown, WireOk, Wire.Decode, Answerable, Kdf;
    ResponseMeans(s, d);
    KnownPart(s.seen, d, 44, 60);
    var m := Wire.Decode(d).value;
    x := ConfirmationAuthentic(s, Last(s.offers), m.ephemeral, m.encNothing);
  }

  /** Without a side's public key nobody else can write the mac1 it checks. */
  lemma MacKeyUnknown(s: State, side: nat)
    requires Shape(s) && WireOk(s) && side < 2 && Pub(Private(side)) !in s.leak
    ensures !AllKnown(s.seen, Noise.MacKey(PublicKey(Private(side))))
  {
    hide StaticTerm, StampTerm, OfferMac, ConfirmTerm, AnswerMac, SealedTerm, Answerable, AllKnown;
    SeenKinds(s);
    if AllKnown(s.seen, Noise.MacKey(PublicKey(Private(side)))) {
      HashUnknown(s.seen, Text(Noise.LABEL_MAC1) + PublicKey(Private(side)));
      KnownJoin(s.seen, Text(Noise.LABEL_MAC1), PublicKey(Private(side)));
      KnownSpread(s.seen, Pub(Private(side)), KEY_SIZE);
      SecretsUnknown(s.seen, side, side);
      assert Travelled(s, Pub(Private(side)));
      var n: nat :| 2 <= n < s.drawn && Pub(Private(side)) == Pub(Private(n));
      PrivateInjective(side, n);
    }
  }

  lemma MacAuthentic(s: State, input: Bytes) returns (x: Answer)
    requires Shape(s) && WireOk(s) && Pub(Private(0)) !in s.leak
    requires AllKnown(s.seen, MacOf(Noise.MacKey(PublicKey(Private(0))), input))
    ensures x in s.answers && Answerable(x) && input == AnswerBody(x)
  {
    hide StaticTerm, StampTerm, OfferBody, ConfirmTerm, AnswerBody, SealedTerm, Answerable, AllKnown, Private,
         PublicKey;
    var t := Mac(Noise.MacKey(PublicKey(Private(0))), input);
    MacKeyUnknown(s, 0);
    MacTravelled(s.seen, Noise.MacKey(PublicKey(Private(0))), input);
    assert Travelled(s, t);
    if o :| o in s.offers && t == OfferMac(o) {
      HashJoinInjective(Text(Noise.LABEL_MAC1), PublicKey(Private(0)), Text(Noise.LABEL_MAC1), PublicKey(Private(1)));
      PrivateInjective(0, 1);
    }
    x :| x in s.answers && Answerable(x) && t == AnswerMac(x);
  }

  /** Then an accepted response is, up to mac1, one the responder wrote: the indices match as well. */
  lemma ResponseIndices(s: State, d: Bytes) returns (x: Answer)
    requires Shape(s) && WireOk(s) && OffersOk(s) && AllKnown(s.seen, d) && Pub(Private(0)) !in s.leak
    requires forall x | x in s.answers :: x.handshake.Valid() && x.index < U32
    requires s.a.pending.Some? && Noise.ReadResponse(s.a.id, s.a.pending.value, d).Some?
    ensures x in s.answers && Answerable(x)
    ensures x.handshake.chain == OfferHandshake(Last(s.offers)).chain
    ensures IndicesCross(Noise.ReadResponse(s.a.id, s.a.pending.value, d).value, AnswerKeys(x))
  {
    hide Noise.ReadResponse, Open, MacOf, AllKnown, WireOk, Wire.Decode, Answerable, Kdf, HashOf, Dh,
         AnswerFinish, PublicKey, Private, Noise.MacKey, Wire.ResponseBody;
    ResponseMeans(s, d);
    KnownPart(s.seen, d, 60, 76);
    x := MacAuthentic(s, d[..Wire.RESPONSE_MAC1]);
    var m, g := Wire.Decode(d).value, AnswerFinish(x);
    Wire.ResponseWithBody(d, x.index, x.handshake.peer, PublicKey(Private(x.n)), Noise.Confirmation(g));
    var c, ee, se := s.a.pending.value.chain, Dh(s.a.pending.value.ephemeral, m.ephemeral).value,
                     Dh(s.a.id.priv, m.ephemeral).value;
    var f := Noise.Finished(c, m.ephemeral, ee, se);
    assert m.encNothing == Seal(f.confirm, 0, [], f.hash);
    SealInjective(g.confirm, 0, [], g.hash, f.confirm, 0, [], f.hash);
    SameFinish(x, c, m.ephemeral, ee, se);
  }

  // ---------------------------------------------- the index of an initiation

  lemma OfferMacAuthentic(s: State, input: Bytes) returns (o: Offer)
    requires Shape(s) && WireOk(s) && Pub(Private(1)) !in s.leak
    requires AllKnown(s.seen, MacOf(Noise.MacKey(PublicKey(Private(1))), input))
    ensures o in s.offers && input == OfferBody(o)
  {
    hide StaticTerm, StampTerm, OfferBody, ConfirmTerm, AnswerBody, SealedTerm, Answerable, AllKnown, Private,
         PublicKey;
    var t := Mac(Noise.MacKey(PublicKey(Private(1))), input);
    MacKeyUnknown(s, 1);
    MacTravelled(s.seen, Noise.MacKey(PublicKey(Private(1))), input);
    assert Travelled(s, t);
    if x :| x in s.answers && Answerable(x) && t == AnswerMac(x) {
      HashJoinInjective(Text(Noise.LABEL_MAC1), PublicKey(Private(0)), Text(Noise.LABEL_MAC1), PublicKey(Private(1)));
      PrivateInjective(0, 1);
    }
    o :| o in s.offers && t == OfferMac(o);
  }

  /** The index and the ephemeral key stand where the body of an initiation has them. */
  lemma OfferBodyAt(o: Offer, d: Bytes)
    requires o.index < U32 && |d| == 148 && d[..116] == OfferBody(o)
    ensures IsPlain(d[4..8]) && LittleValue(d[4..8]) == o.index && d[8..40] == PublicKey(Private(o.n))
  {
    hide StaticField, StampField, PublicKey, Private, LittleValue, LittleEndian, Stamp;
    assert |StampField(o.n, Stamp(o.clock))| == Wire.STAMP_SIZE;
    Wire.InitiationFields(o.index, PublicKey(Private(o.n)), StaticField(o.n), StampField(o.n, Stamp(o.clock)));
    Wire.FieldRoundTrip(o.index, 4);
    assert d[4..8] == d[..116][4..8] && d[8..40] == d[..116][8..40];
  }

  /** Without the responder's public key an accepted initiation is, up to mac2, one the initiator wrote: the index
      the responder remembers is the one it was sent. */
  lemma InitiationIndex(s: State, d: Bytes) returns (o: Offer)
    requires Shape(s) && WireOk(s) && OffersOk(s) && AllKnown(s.seen, d) && Pub(Private(1)) !in s.leak
    requires Noise.ReadInitiation(s.b.id, d, s.b.greatest).Some?
    ensures o in s.offers
    ensures var incoming := Noise.ReadInitiation(s.b.id, d, s.b.greatest).value;
      && incoming.handshake.peer == o.index
      && incoming.handshake.chain == Chain3(o.n, Stamp(o.clock)) && incoming.stamp == Stamp(o.clock)
      && incoming.handshake.peerEphemeral == PublicKey(Private(o.n))
  {
    hide Noise.ReadInitiation, Noise.ReadFields, MacOf, HashOf, AllKnown, WireOk, PublicKey, Private, Chain3, Stamp,
         OfferBody, LittleValue, After, OfferHandshake;
    var o' := InitiationAuthentic(s, d);
    NoiseReference.InitiationAcceptedExactly(s.b.id, d, s.b.greatest);
    KnownPart(s.seen, d, 116, 132);
    o := OfferMacAuthentic(s, d[..116]);
    OfferBodyAt(o, d);
    PrivateInjective(o.n, o'.n);
    SameOffer(s, o, o');
  }

  lemma SameOffer(s: State, o: Offer, p: Offer)
    requires OffersOk(s) && o in s.offers && p in s.offers && o.n == p.n
    ensures o == p
  {
    hide OfferHandshake;
    var i :| 0 <= i < |s.offers| && s.offers[i] == o;
    var j :| 0 <= j < |s.offers| && s.offers[j] == p;
  }

  // ------------------------------------------------------------ sealed packets

  lemma AnswerKeysUnknown(s: State, x: Answer)
    requires Shape(s) && WireOk(s) && AnswerOk(s, x)
    ensures !AllKnown(s.seen, AnswerKeys(x).send) && !AllKnown(s.seen, AnswerKeys(x).receive)
  {
    hide AllKnown, Dh, Kdf, HashOf, PublicKey, Private, Chain3, WireOk;
    var o :| o in s.offers && Answers(x, o);
    SeenKinds(s);
    Chain3Unknown(s, o.n, Stamp(o.clock));
    var r := Private(x.n);
    FinishUnknown(s.seen, x.handshake.chain, PublicKey(r), Dh(r, x.handshake.peerEphemeral).value,
                  Dh(r, ResponderId().peerPublic).value);
  }

  /** The keys of the two directions never coincide, whatever the sessions. */
  lemma DirectionsNeverMeet(x: Answer, y: Answer)
    requires Answerable(x) && Answerable(y)
    ensures AnswerKeys(x).send != AnswerKeys(y).receive
  {
    hide AnswerFinish, Answerable, Kdf;
    if AnswerKeys(x).send == AnswerKeys(y).receive {
      KdfInjective(2, AnswerFinish(x).key, [], 1, AnswerFinish(y).key, []);
    }
  }

  /** Responses with different ephemeral keys give different transport keys. */
  lemma FreshKeys(x: Answer, y: Answer)
    requires Answerable(x) && Answerable(y) && x.handshake.chain.Valid() && y.handshake.chain.Valid()
    requires x.n != y.n
    ensures AnswerKeys(x).send != AnswerKeys(y).send && AnswerKeys(x).receive != AnswerKeys(y).receive
  {
    hide Kdf, HashOf, PublicKey, Private, Dh;
    var f, g := AnswerFinish(x), AnswerFinish(y);
    if AnswerKeys(x).send == AnswerKeys(y).send {
      KdfInjective(2, f.key, [], 2, g.key, []);
    }
    if AnswerKeys(x).receive == AnswerKeys(y).receive {
      KdfInjective(1, f.key, [], 1, g.key, []);
    }
    if f.key == g.key {
      SameFinishKey(x, y);
    }
  }

  lemma SameFinishKey(x: Answer, y: Answer)
    requires Answerable(x) && Answerable(y) && x.handshake.chain.Valid() && y.handshake.chain.Valid()
    requires AnswerFinish(x).key == AnswerFinish(y).key
    ensures x.n == y.n
  {
    hide Kdf, HashOf, PublicKey, Private;
    var p, q := Private(x.n), Private(y.n);
    FinishInjective(x.handshake.chain, PublicKey(p), Dh(p, x.handshake.peerEphemeral).value,
                    Dh(p, ResponderId().peerPublic).value,
                    y.handshake.chain, PublicKey(q), Dh(q, y.handshake.peerEphemeral).value,
                    Dh(q, ResponderId().peerPublic).value);
    PrivateInjective(x.n, y.n);
  }

  /** Whatever verifies under an unknown key was sealed under it, with that counter, by an honest side. */
  lemma PacketAuthentic(s: State, session: Sessions.State, counter: nat, sealed: Bytes) returns (x: Sealed)
    requires Shape(s) && WireOk(s) && AllKnown(s.seen, sealed) && counter < U64
    requires forall x | x in s.sealed :: x.counter < U64
    requires !AllKnown(s.seen, session.keys.receive)
    requires Sessions.Verified(session, counter, sealed).Some?
    ensures x in s.sealed && x.key == session.keys.receive && x.counter == counter
    ensures Sessions.Verified(session, counter, sealed).value == Sessions.Padded(x.packet)
  {
    hide AllKnown, OnlyWireTerms, Window.Acceptable, WireOk;
    var plain := Sessions.Verified(session, counter, sealed).value;
    CiphertextTravelled(s.seen, session.keys.receive, counter, plain, []);
    x := PacketTravelled(s, Aead(session.keys.receive, NonceOf(counter), plain, []));
    NonceInjective(x.counter, counter);
  }
}
