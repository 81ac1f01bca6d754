/** Session indices are not part of the Noise transcript: only mac1 covers them, and its key is a hash of the
    recipient's public key. The two sides agree on them in every run exactly when the network does not know
    the initiator's public key. */
module Indices {
  import opened Octets
  import opened Crypto
  import opened Exchange
  import opened Knowledge
  import opened Timestamp
  import opened Tunnel
  import opened Safety
  import opened Guarantees
  import opened Recovery
  import Authenticity
  import Noise
  import Relay
  import Sessions
  import Wire

  // -------------------------------------------------------------- one message

  /** The response with another sender index and a mac1 to match. */
  function Renamed(id: Noise.Identity, h: Noise.Handshake, m: Wire.Message, index: nat): Bytes
    requires m.Response?
  {
    Noise.WithMacs(Wire.ResponseBody(index, h.local, m.ephemeral, m.encNothing), id.ReceivingMacKey())
  }

  /** Any accepted response is accepted under any other sender index too, once its mac1 is made anew: the keys
      stay the same, the index does not. */
  lemma SenderIndexIsMalleable(id: Noise.Identity, h: Noise.Handshake, d: Bytes, index: nat)
    requires h.Valid() && index < U32 && Noise.ReadResponse(id, h, d).Some?
    ensures Wire.Decode(d).Some? && Wire.Decode(d).value.Response?
    ensures Noise.ReadResponse(id, h, Renamed(id, h, Wire.Decode(d).value, index))
      == Some(Noise.ReadResponse(id, h, d).value.(peer := index))
  {
    hide Noise.FinishWith, Open, MacOf, Kdf, Noise.MacKey;
    var m := Wire.Decode(d).value;
    var body := Wire.ResponseBody(index, h.local, m.ephemeral, m.encNothing);
    var mac1 := MacOf(id.ReceivingMacKey(), body);
    var m' := Wire.Response(index, h.local, m.ephemeral, m.encNothing, mac1, Zeros(MAC_SIZE));
    Wire.DecodeEncode(m');
    var d' := Wire.Encode(m');
    assert d'[..Wire.RESPONSE_MAC1] == body;
    assert Wire.Mac1Input(d') == Some(body);
  }

  // --------------------------------------------------------------- a whole run

  const NOON := Clock(43200, 0)

  ghost function State0(leak: set<Term>): State {
    State(Relay.Start(Relay.Initiator, 1420, InitiatorId(), Some(SERVER)),
          Relay.Start(Relay.Responder, 1420, ResponderId(), None), leak, leak, 2, NOON, [], [], [], [])
  }

  lemma RunStarts(leak: set<Term>)
    requires leak <= StaticPublicKeys()
    ensures IsRun([State0(leak)]) && Last([State0(leak)]) == State0(leak) && Inv(State0(leak))
  {
    hide StaticPublicKeys;
    RunKeepsInv([State0(leak)], 0);
  }

  /** The smallest packet: an IPv4 header and nothing else. */
  function Smallest(): Bytes { Wire.Ipv4(5, Plain(0), 20, Zeros(16)) }

  /** Whatever the network knows, a run in which it only carries messages ends with crossed sessions and a
      delivered packet. */
  lemma HonestRunConnects(leak: set<Term>)
    requires leak <= StaticPublicKeys()
    ensures exists run: seq<State> ::
      && IsRun(run) && |run| == 6 && run[0].leak == leak && run[3].a.session.active
      && Sessions.Crossed(run[3].a.session.keys, run[3].b.session.keys)
      && |run[5].sealed| == 1 && |run[5].delivered| == 1 && run[5].delivered[0].packet == Smallest()
  {
    hide IsRun, Inv, InitiatorId, ResponderId, StaticPublicKeys, Smallest, Sessions.WellFormed;
    var s := State0(leak);
    RunStarts(leak);
    assert Sessions.WellFormed(Smallest()) && |Smallest()| == 20 by { SmallestIsWellFormed(); }
    var more := Recovers([s], Clock(43201, 0), true, Smallest());
    assert ([s] + more)[3] == more[2] && ([s] + more)[5] == more[4];
  }

  lemma SmallestIsWellFormed()
    ensures Sessions.WellFormed(Smallest()) && |Smallest()| == 20
  {
    Wire.InnerLengthReadsHeader(5, Plain(0), 20, Zeros(16));
  }

  lemma MacKeyKnown(base: set<Term>, side: nat)
    requires Pub(Private(side)) in base
    ensures AllKnown(base, Noise.MacKey(PublicKey(Private(side))))
  {
    hide AllKnown, Private;
    var p := PublicKey(Private(side));
    KnownSpread(base, Pub(Private(side)), KEY_SIZE);
    PlainIsKnown(base, Text(Noise.LABEL_MAC1));
    KnownJoin(base, Text(Noise.LABEL_MAC1), p);
    KnownSpread(base, Hash(Text(Noise.LABEL_MAC1) + p), HASH_SIZE);
  }

  lemma WithMacsKnown(base: set<Term>, body: Bytes, key: Bytes)
    requires AllKnown(base, body) && AllKnown(base, key)
    ensures AllKnown(base, Noise.WithMacs(body, key))
  {
    hide AllKnown;
    KnownSpread(base, Mac(key, body), MAC_SIZE);
    KnownJoin(base, body, MacOf(key, body));
    PlainIsKnown(base, Zeros(MAC_SIZE));
    KnownJoin(base, body + MacOf(key, body), Zeros(MAC_SIZE));
  }

  /** A network that knows the initiator's public key can compute the renamed response. */
  lemma RenamedIsKnown(base: set<Term>, h: Noise.Handshake, m: Wire.Message, index: nat)
    requires m.Response? && Pub(Private(0)) in base && AllKnown(base, m.ephemeral) && AllKnown(base, m.encNothing)
    ensures AllKnown(base, Renamed(InitiatorId(), h, m, index))
  {
    hide AllKnown, Private;
    var key := Noise.MacKey(PublicKey(Private(0)));
    var prefix := Wire.Prefix(2) + LittleEndian(index, 4) + LittleEndian(h.local, 4);
    MacKeyKnown(base, 0);
    PlainIsKnown(base, prefix);
    KnownJoin(base, prefix, m.ephemeral);
    KnownJoin(base, prefix + m.ephemeral, m.encNothing);
    WithMacsKnown(base, prefix + m.ephemeral + m.encNothing, key);
  }

  /** The first move: an initiation. */
  lemma RunOffers(leak: set<Term>) returns (run: seq<State>, o: Offer)
    requires leak <= StaticPublicKeys()
    ensures IsRun(run) && run[0].leak == leak && Inv(Last(run)) && leak <= Last(run).seen
    ensures o.index == 0 && o.clock == NOON
    ensures var s := Last(run);
      && s.a.pending == Some(OfferHandshake(o)) && s.a.mtu == s.b.mtu == 1420 && s.b.greatest == None
      && s.offers == [o] && s.answers == [] && TermsOf(OfferMessage(o)) <= s.seen
  {
    hide Inv, Next, Enabled, Initial, TermsOf, OfferMessage, OfferHandshake, Private, StaticPublicKeys, Stamp;
    var s := State0(leak);
    RunStarts(leak);
    RetryStep(s, NOON);
    o := NextOffer(s, NOON);
    var s1 := Next(s, Retry(s, NOON));
    assert IsStep(s, s1);
    ExtendRun([s], s1);
    run := [s] + [s1];
    RunKeepsInv(run, 1);
  }

  /** The first two moves: an initiation and its answer. */
  lemma RunAnswers(leak: set<Term>) returns (run: seq<State>, o: Offer, x: Answer)
    requires leak <= StaticPublicKeys()
    ensures IsRun(run) && run[0].leak == leak && Shape(Last(run)) && leak <= Last(run).seen
    ensures o.index < U32 && Answerable(x) && x == ReplyTo(o, x.n) && AnswerKeys(x).local == 0
    ensures var s := Last(run);
      && s.a.pending == Some(OfferHandshake(o)) && s.a.id == InitiatorId() && s.a.mtu == 1420
      && s.b.session == Sessions.Activated(AnswerKeys(x)) && TermsOf(AnswerMessage(x)) <= s.seen
  {
    hide Inv, Next, Enabled, Initial, TermsOf, AnswerMessage, Answerable, AnswerKeys, OfferMessage, OfferHandshake,
         Private, StaticPublicKeys, Stamp;
    var first;
    first, o := RunOffers(leak);
    var s1 := Last(first);
    InvShape(s1);
    AnswerStep(s1, o);
    x := ReplyTo(o, s1.drawn);
    var s2 := Next(s1, Deliver(s1, o));
    assert IsStep(s1, s2);
    ExtendRun(first, s2);
    run := first + [s2];
    RunKeepsInv(run, |run| - 1);
    InvShape(s2);
    ReplyIndex(x);
  }

  lemma ReplyIndex(x: Answer)
    requires Answerable(x)
    ensures AnswerKeys(x).local == x.index
  {
  }

  /** And so it can make the initiator use an index the responder never chose. */
  lemma IndicesCanBeForged(leak: set<Term>)
    requires leak <= StaticPublicKeys() && Pub(Private(0)) in leak
    ensures exists run: seq<State> :: IsRun(run) && run[0].leak == leak && !IndicesAgree(run)
  {
    hide Initial, Next, Enabled, TermsOf, AllKnown, Noise.ReadResponse, AnswerMessage, AnswerKeys, Answerable,
         OfferHandshake, Private, StaticPublicKeys, Renamed, Wire.Decode, ReplyTo, Shape;
    var run, o, x := RunAnswers(leak);
    var s, h, d := Last(run), OfferHandshake(o), AnswerMessage(x);
    ShapeValid(s);
    ReplyIsRead(o, x.n);
    SenderIndexIsMalleable(InitiatorId(), h, d, 1);
    var m := Wire.Decode(d).value;
    var forged := Renamed(InitiatorId(), h, m, 1);
    assert AllKnown(s.seen, forged) by {
      SeenIsKnown(s.seen, d);
      KnownFields(s.seen, d);
      RenamedIsKnown(s.seen, h, m, 1);
    }
    var s' := Next(s, Complete(s, forged));
    CompleteStep(s, forged);
    assert IsStep(s, s');
    ExtendRun(run, s');
    var run' := run + [s'];
    assert run'[|run|] == s' && !IndicesCross(s'.a.session.keys, s'.b.session.keys);
    assert IsRun(run') && run'[0].leak == leak && !IndicesAgree(run');
  }

  lemma ShapeValid(s: State)
    requires Shape(s)
    ensures s.a.Valid() && s.b.Valid()
  {
  }

  lemma KnownFields(base: set<Term>, d: Bytes)
    requires AllKnown(base, d) && Wire.Decode(d).Some? && Wire.Decode(d).value.Response?
    ensures AllKnown(base, Wire.Decode(d).value.ephemeral) && AllKnown(base, Wire.Decode(d).value.encNothing)
  {
    hide AllKnown;
    KnownPart(base, d, 12, 44);
    KnownPart(base, d, 44, 60);
  }

  // -------------------------------------------------------- the exact condition

  ghost predicate IndicesAgree(run: seq<State>) {
    forall i | 0 <= i < |run| && run[i].a.session.active ::
      IndicesCross(run[i].a.session.keys, run[i].b.session.keys)
  }

  lemma {:induction false} LeakIsConstant(run: seq<State>, i: nat)
    requires IsRun(run) && i < |run|
    ensures run[i].leak == run[0].leak
    decreases i
  {
    hide Initial, Enabled, Relay.Step;
    if i > 0 {
      LeakIsConstant(run, i - 1);
      assert IsStep(run[i - 1], run[i]);
    }
  }

  /** In every run the two sides agree on the indices, if and only if the network does not know the
      initiator's public key. */
  lemma IndexAgreementExactly(leak: set<Term>)
    requires leak <= StaticPublicKeys()
    ensures (forall run: seq<State> | IsRun(run) && run[0].leak == leak :: IndicesAgree(run))
      <==> Pub(Private(0)) !in leak
  {
    hide Initial, IsStep, Private, StaticPublicKeys;
    if Pub(Private(0)) in leak {
      IndicesCanBeForged(leak);
    } else {
      forall run: seq<State> | IsRun(run) && run[0].leak == leak ensures IndicesAgree(run) {
        forall i | 0 <= i < |run| && run[i].a.session.active
          ensures IndicesCross(run[i].a.session.keys, run[i].b.session.keys)
        {
          LeakIsConstant(run, i);
          Agreement(run, i);
        }
      }
    }
  }

  // --------------------------------------------- the index of an initiation

  /** The initiation with another sender index and a mac1 to match. */
  function RenamedOffer(id: Noise.Identity, m: Wire.Message, index: nat): Bytes
    requires m.Initiation?
  {
    Noise.WithMacs(Wire.InitiationBody(index, m.ephemeral, m.encStatic, m.encStamp), id.ReceivingMacKey())
  }

  /** Any accepted initiation is accepted under any other sender index too, once its mac1 is made anew. */
  lemma OfferIndexIsMalleable(id: Noise.Identity, d: Bytes, g: Greatest, index: nat)
    requires id.Valid() && (g.Some? ==> |g.value| == TIMESTAMP_SIZE) && index < U32
    requires Noise.ReadInitiation(id, d, g).Some?
    ensures Wire.Decode(d).Some? && Wire.Decode(d).value.Initiation?
    ensures Noise.ReadInitiation(id, RenamedOffer(id, Wire.Decode(d).value, index), g).Some?
    ensures Noise.ReadInitiation(id, RenamedOffer(id, Wire.Decode(d).value, index), g).value.handshake.peer == index
  {
    hide Noise.ReadFields, MacOf, Noise.MacKey, After, Wire.Decode, Wire.Mac1Input, Wire.InitiationBody;
    var m := Wire.Decode(d).value;
    var body := Wire.InitiationBody(index, m.ephemeral, m.encStatic, m.encStamp);
    var m' := Wire.Initiation(index, m.ephemeral, m.encStatic, m.encStamp, MacOf(id.ReceivingMacKey(), body),
                              Zeros(MAC_SIZE));
    Wire.DecodeEncode(m');
    Wire.BodyIsMacInput(m');
  }

  lemma RenamedOfferIsKnown(base: set<Term>, d: Bytes, index: nat)
    requires AllKnown(base, d) && Wire.Decode(d).Some? && Wire.Decode(d).value.Initiation? && Pub(Private(1)) in base
    ensures AllKnown(base, RenamedOffer(ResponderId(), Wire.Decode(d).value, index))
  {
    hide AllKnown, Private;
    var m, key := Wire.Decode(d).value, Noise.MacKey(PublicKey(Private(1)));
    KnownPart(base, d, 8, 40);
    KnownPart(base, d, 40, 88);
    KnownPart(base, d, 88, 116);
    assert m.ephemeral == d[8..40] && m.encStatic == d[40..88] && m.encStamp == d[88..116];
    var prefix := Wire.Prefix(1) + LittleEndian(index, 4);
    var body := prefix + m.ephemeral + m.encStatic + m.encStamp;
    MacKeyKnown(base, 1);
    PlainIsKnown(base, prefix);
    KnownJoin(base, prefix, m.ephemeral);
    KnownJoin(base, prefix + m.ephemeral, m.encStatic);
    KnownJoin(base, prefix + m.ephemeral + m.encStatic, m.encStamp);
    WithMacsKnown(base, body, key);
  }

  /** Every response remembers the index of the initiation it answers. */
  ghost predicate IndicesRemembered(run: seq<State>) {
    forall i, x | 0 <= i < |run| && x in run[i].answers :: RemembersIndex(run[i], x)
  }

  ghost predicate RemembersIndex(s: State, x: Answer) {
    exists o | o in s.offers :: Answers(x, o) && x.handshake.peer == o.index
  }

  lemma {:induction false} RunRemembers(run: seq<State>, i: nat, x: Answer)
    requires IsRun(run) && i < |run| && x in run[i].answers && Pub(Private(1)) !in run[0].leak
    ensures RemembersIndex(run[i], x)
    decreases i
  {
    hide Inv, Next, Enabled, RemembersIndex, Private;
    if i > 0 {
      assert IsStep(run[i - 1], run[i]);
      var s := run[i - 1];
      var mv :| Enabled(s, mv) && Side(s, mv.atInitiator).Valid() && run[i] == Next(s, mv);
      RunKeepsInv(run, i - 1);
      LeakIsConstant(run, i - 1);
      if x in s.answers {
        RunRemembers(run, i - 1, x);
        StillRemembers(s, mv, x);
      } else {
        NewlyRemembers(s, mv, x);
      }
    } else {
      NothingAnswered(run[0], x);
    }
  }

  lemma NothingAnswered(s: State, x: Answer)
    requires Initial(s)
    ensures x !in s.answers
  {
  }

  lemma StillRemembers(s: State, mv: Move, x: Answer)
    requires Side(s, mv.atInitiator).Valid() && RemembersIndex(s, x)
    ensures RemembersIndex(Next(s, mv), x)
  {
    hide Relay.Step, Answers, TermsOf, NewAnswer, NewDelivery;
    var o :| o in s.offers && Answers(x, o) && x.handshake.peer == o.index;
    assert o in Next(s, mv).offers;
  }

  lemma NewlyRemembers(s: State, mv: Move, x: Answer)
    requires Inv(s) && Enabled(s, mv) && Side(s, mv.atInitiator).Valid() && Pub(Private(1)) !in s.leak
    requires x in Next(s, mv).answers && x !in s.answers
    ensures RemembersIndex(Next(s, mv), x)
  {
    hide Relay.OnDatagram, Relay.OnPacket, Relay.Quiet, Relay.Completes, Relay.Opens, AllKnown, TermsOf, NewDelivery,
         Noise.ReadInitiation, Noise.WriteResponse, OffersOk, AnswersOk, HistoryOk, WireOk, Agreed, Private,
         Stamp, Chain3, PublicKey, After;
    var ev := mv.event;
    assert ev.FromNet?;
    var r := Side(s, mv.atInitiator);
    var (r', out) := Relay.Step(r, ev);
    Relay.DatagramKinds(r, ev.raw, ev.from, ev.env);
    if !Relay.Answers(r, r', out, ev.raw, ev.env) {
      Relay.SilentKinds(r, r', out, ev.raw);
      assert false;
    }
    var o := Authenticity.InitiationIndex(s, ev.raw);
    assert o in Next(s, mv).offers && Answers(x, o);
  }

  /** What such a network makes of an initiation it has seen. */
  lemma OfferForged(base: set<Term>, o: Offer) returns (d: Bytes)
    requires o.index < U32 && TermsOf(OfferMessage(o)) <= base && Pub(Private(1)) in base
    ensures AllKnown(base, d) && Noise.ReadInitiation(ResponderId(), d, None).Some?
    ensures Noise.ReadInitiation(ResponderId(), d, None).value.handshake.peer == 1
  {
    hide TermsOf, AllKnown, OfferMessage, Private, RenamedOffer, Wire.Decode, Noise.ReadInitiation, After, Stamp,
         ReplyTo, Answerable, AnswerMessage, AnswerKeys, Noise.WriteResponse;
    var genuine := OfferMessage(o);
    SeenIsKnown(base, genuine);
    ReplyIsWritten(None, o, 0);
    OfferIndexIsMalleable(ResponderId(), genuine, None, 1);
    RenamedOfferIsKnown(base, genuine, 1);
    d := RenamedOffer(ResponderId(), Wire.Decode(genuine).value, 1);
  }

  /** A network that knows the responder's public key can make it remember an index nobody sent. */
  lemma OfferIndexCanBeForged(leak: set<Term>)
    requires leak <= StaticPublicKeys() && Pub(Private(1)) in leak
    ensures exists run: seq<State> :: IsRun(run) && run[0].leak == leak && !IndicesRemembered(run)
  {
    hide Initial, Next, Enabled, Inv, TermsOf, AllKnown, OfferMessage, OfferHandshake, Private, StaticPublicKeys,
         Shape, Noise.ReadInitiation, RemembersIndex, ResponderId;
    var run, o := RunOffers(leak);
    var s := Last(run);
    InvShape(s);
    ShapeValid(s);
    ShapeIds(s);
    var forged := OfferForged(s.seen, o);
    AcceptStep(s, forged);
    var s' := Next(s, Knock(s, forged));
    assert IsStep(s, s');
    ExtendRun(run, s');
    var run', x := run + [s'], s'.answers[0];
    Forgets(s', o, x);
    assert run'[|run|] == s' && x in s'.answers;
    assert IsRun(run') && !IndicesRemembered(run');
  }

  lemma ShapeIds(s: State)
    requires Shape(s)
    ensures s.a.id == InitiatorId() && s.b.id == ResponderId()
  {
  }

  lemma Forgets(s: State, o: Offer, x: Answer)
    requires s.offers == [o] && x.handshake.peer != o.index
    ensures !RemembersIndex(s, x)
  {
  }

  /** In every run the responder remembers the indices it was sent, if and only if the network does not know the
      responder's public key. */
  lemma OfferIndexExactly(leak: set<Term>)
    requires leak <= StaticPublicKeys()
    ensures (forall run: seq<State> | IsRun(run) && run[0].leak == leak :: IndicesRemembered(run))
      <==> Pub(Private(1)) !in leak
  {
    hide Initial, IsStep, Private, StaticPublicKeys, RemembersIndex;
    if Pub(Private(1)) in leak {
      OfferIndexCanBeForged(leak);
    } else {
      forall run: seq<State> | IsRun(run) && run[0].leak == leak ensures IndicesRemembered(run) {
        forall i, x | 0 <= i < |run| && x in run[i].answers ensures RemembersIndex(run[i], x) {
          RunRemembers(run, i, x);
        }
      }
    }
  }
}
