/** What every step of the two relays keeps, whatever the network delivers. */
module Safety {
  import opened Octets
  import opened Crypto
  import opened Exchange
  import opened Knowledge
  import opened Timestamp
  import opened Tunnel
  import opened Authenticity
  import Noise
  import Relay
  import Sessions
  import Window
  import Wire

  /** The history only grows. */
  ghost predicate Extends(s: State, s': State) {
    && s'.leak == s.leak && s.drawn <= s'.drawn && s.clock.Nanoseconds() <= s'.clock.Nanoseconds()
    && s.offers <= s'.offers && s.answers <= s'.answers && s.sealed <= s'.sealed
  }

  lemma TravelledStays(s: State, s': State, t: Term)
    requires Extends(s, s') && Travelled(s, t)
    ensures Travelled(s', t)
  {
    hide StaticTerm, StampTerm, OfferMac, ConfirmTerm, AnswerMac, SealedTerm, Answerable, Private;
    if o :| o in s.offers && (t == StaticTerm(o.n) || t == StampTerm(o) || t == OfferMac(o)) {
      assert o in s'.offers;
    } else if x :| x in s.answers && Answerable(x) && (t == ConfirmTerm(x) || t == AnswerMac(x)) {
      assert x in s'.answers;
    } else if x :| x in s.sealed && t == SealedTerm(x) {
      assert x in s'.sealed;
    }
  }

  lemma WireStays(s: State, s': State, shown: set<Term>)
    requires Extends(s, s') && WireOk(s) && s'.seen == s.seen + shown
    requires forall t | t in shown :: Travelled(s', t)
    ensures WireOk(s')
  {
    hide Travelled;
    forall t | t in s'.seen ensures Travelled(s', t) {
      if t in s.seen {
        assert Travelled(s, t);
        TravelledStays(s, s', t);
      }
    }
  }

  lemma AnswerStays(s: State, s': State, x: Answer)
    requires Extends(s, s') && AnswerOk(s, x)
    ensures AnswerOk(s', x)
  {
    hide Answerable, Answers;
    var o :| o in s.offers && Answers(x, o);
    assert o in s'.offers;
  }

  /** Steps that leave both sessions, the guard and the history alone. */
  lemma SameSessions(s: State, s': State)
    requires Inv(s) && Extends(s, s') && Shape(s')
    requires s'.a.session == s.a.session && s'.b.session == s.b.session && s'.b.greatest == s.b.greatest
    requires s'.answers == s.answers && s'.sealed == s.sealed && s'.delivered == s.delivered
    ensures AnswersOk(s') && HistoryOk(s')
  {
    hide Answerable, Answers, AnswerKeys, WireOk, OffersOk;
    forall x | x in s'.answers ensures AnswerOk(s', x) {
      AnswerStays(s, s', x);
    }
    forall x | x in s'.sealed ensures SealedOk(s', x) {
      assert SealedOk(s, x);
    }
    forall d | d in s'.delivered ensures DeliveredOk(s', d) {
      assert DeliveredOk(s, d);
    }
  }

  /** Steps that add no initiation and start none. */
  lemma SameOffers(s: State, s': State)
    requires OffersOk(s) && Extends(s, s') && s'.offers == s.offers
    requires s'.a.pending == s.a.pending || s'.a.pending.None?
    ensures OffersOk(s')
  {
    hide OfferHandshake;
  }

  lemma SameAgreement(s: State, s': State)
    requires AnswersOk(s) && AnswersOk(s') && Agreed(s) && s'.leak == s.leak
    requires s'.a.session.active == s.a.session.active && s'.a.session.keys == s.a.session.keys
    requires s'.b.session.keys == s.b.session.keys && s'.offers == s.offers && s'.answers == s.answers
    requires s'.a.pending == s.a.pending || s'.a.pending.None?
    ensures Agreed(s')
  {
    hide Answers, AnswersOk;
  }

  lemma KeepsQuiet(s: State, mv: Move, r': Relay.State, out: Relay.Output)
    requires Inv(s) && Enabled(s, mv) && Relay.SameParty(Side(s, mv.atInitiator), r')
    requires Relay.Quiet(Side(s, mv.atInitiator), r', out)
    ensures Inv(Afterwards(s, mv, r', out))
  {
    hide WireOk, OffersOk, AnswersOk, HistoryOk, Agreed, AllKnown, TermsOf, NewAnswer, NewDelivery;
    var s' := Afterwards(s, mv, r', out);
    SameOffers(s, s');
    SameSessions(s, s');
    SameAgreement(s, s');
    WireStays(s, s', {});
  }

  lemma NewOffer(s: State, s': State, o: Offer)
    requires OffersOk(s) && Extends(s, s') && s'.offers == s.offers + [o] && s.drawn < s'.drawn
    requires 2 <= o.n == s.drawn && o.index < U32 && o.clock.Valid() && o.clock == s'.clock
    requires s'.a.pending == Some(OfferHandshake(o))
    ensures OffersOk(s')
  {
    hide OfferHandshake;
  }

  lemma OfferTravels(s: State, o: Offer)
    requires o in s.offers && 2 <= o.n < s.drawn
    ensures forall t | t in TermsOf(OfferMessage(o)) :: Travelled(s, t)
  {
    hide TermsOf, OfferMessage, StaticTerm, StampTerm, OfferMac, ConfirmTerm, AnswerMac, SealedTerm, Answerable,
         Private;
    OfferShows(o);
  }

  lemma KeepsOffer(s: State, mv: Move, r': Relay.State, out: Relay.Output)
    requires Inv(s) && Enabled(s, mv) && mv.event.FromTun? && Relay.SameParty(Side(s, mv.atInitiator), r')
    requires Relay.Offers(Side(s, mv.atInitiator), r', out, mv.event.env)
    ensures Inv(Afterwards(s, mv, r', out))
  {
    hide WireOk, OffersOk, AnswersOk, HistoryOk, AllKnown, OfferHandshake, OfferMessage, TermsOf, NewAnswer,
         NewDelivery;
    hide Noise.WriteInitiation, Travelled, Private;
    var s' := Afterwards(s, mv, r', out);
    var o := Offer(s.drawn, mv.event.env.index, mv.event.env.clock);
    OfferIsWritten(o);
    assert o in s'.offers;
    NewOffer(s, s', o);
    SameSessions(s, s');
    OfferTravels(s', o);
    WireStays(s, s', TermsOf(OfferMessage(o)));
  }

  // ------------------------------------------------------------------ sealing

  lemma SealTravels(s: State, x: Sealed)
    requires x in s.sealed
    ensures Travelled(s, SealedTerm(x))
  {
  }

  /** The key a side seals under is not one the other side ever sealed under. */
  lemma SendersDiffer(s: State, x: Sealed, y: Sealed)
    requires AnswersOk(s) && Agreed(s) && SealedOk(s, x) && SealedOk(s, y) && x.byInitiator && !y.byInitiator
    ensures x.key != y.key
  {
    hide Answers, AnswerOk, Answerable, AnswerKeys;
    var z :| z in s.answers && Answerable(z) && y.key == AnswerKeys(z).send;
    DirectionsNeverMeet(z, Last(s.answers));
  }

  /** Sealing with the next counter reuses no pair of key and counter. */
  lemma NewSealed(s: State, s': State, x: Sealed)
    requires Inv(s) && AnswersOk(s') && Agreed(s') && s'.sealed == s.sealed + [x] && s'.delivered == s.delivered
    requires x.counter < Window.REJECT_AFTER && s'.answers == s.answers
    requires var r, r' := Side(s, x.byInitiator).session, Side(s', x.byInitiator).session;
      && r.active && x.key == r.keys.send && x.counter == r.sendCounter
      && r' == r.(sendCounter := x.counter + 1)
      && Side(s', !x.byInitiator).session == Side(s, !x.byInitiator).session
    ensures HistoryOk(s')
  {
    hide Answers, AnswerOk, Answerable, AnswerKeys, WireOk, OffersOk, Shape;
    forall y | y in s'.sealed ensures SealedOk(s', y) {
      if y in s.sealed {
        assert SealedOk(s, y);
      } else {
        assert y == x && Last(s'.answers) in s'.answers;
      }
    }
    forall y | y in s.sealed ensures y.key != x.key || y.counter != x.counter {
      assert SealedOk(s, y);
      if y.byInitiator != x.byInitiator {
        assert SealedOk(s', x) && SealedOk(s', y) by {
          assert x in s'.sealed && y in s'.sealed;
        }
        if x.byInitiator {
          SendersDiffer(s', x, y);
        } else {
          SendersDiffer(s', y, x);
        }
      }
    }
    forall d | d in s'.delivered ensures DeliveredOk(s', d) {
      assert DeliveredOk(s, d);
    }
  }

  lemma KeepsSeal(s: State, mv: Move, r': Relay.State, out: Relay.Output)
    requires Inv(s) && Enabled(s, mv) && mv.event.FromTun? && Relay.SameParty(Side(s, mv.atInitiator), r')
    requires Relay.Seals(Side(s, mv.atInitiator), r', out, mv.event.packet)
    ensures Inv(Afterwards(s, mv, r', out))
  {
    hide WireOk, OffersOk, AnswersOk, HistoryOk, Agreed, AllKnown, TermsOf, NewAnswer, NewDelivery;
    hide Sessions.Datagram, Travelled, Private;
    var s', r := Afterwards(s, mv, r', out), Side(s, mv.atInitiator);
    var x := Sealed(mv.atInitiator, r.session.keys.send, r.session.sendCounter, mv.event.packet);
    SealAnswers(s, s');
    SameOffers(s, s');
    SameAgreement(s, s');
    NewSealed(s, s', x);
    assert x in s'.sealed;
    SealedShows(r.session.keys, x);
    SealTravels(s', x);
    WireStays(s, s', {SealedTerm(x)});
  }

  /** The responder's keys and guard stay while counters move. */
  lemma SealAnswers(s: State, s': State)
    requires AnswersOk(s) && Extends(s, s') && s'.answers == s.answers && s'.b.greatest == s.b.greatest
    requires s'.b.session.active == s.b.session.active && s'.b.session.keys == s.b.session.keys
    ensures AnswersOk(s')
  {
    hide Answerable, Answers, AnswerKeys, AnswerOk;
    forall x | x in s'.answers ensures AnswerOk(s', x) {
      AnswerStays(s, s', x);
    }
  }

  // ---------------------------------------------------------------- answering

  lemma AnswerIsWritten(x: Answer)
    requires Answerable(x)
    ensures Noise.WriteResponse(ResponderId(), x.handshake, Private(x.n), x.index)
      == Some((AnswerMessage(x), AnswerKeys(x)))
  {
    hide Noise.RespondTo, Kdf, PublicKey, Private;
  }

  /** No initiation is stamped later than the last one. */
  lemma LastOfferIsLatest(s: State, o: Offer)
    requires OffersOk(s) && o in s.offers
    ensures !After(Stamp(o.clock), Stamp(Last(s.offers).clock))
  {
    hide OfferHandshake, Stamp, After;
    var i :| 0 <= i < |s.offers| && s.offers[i] == o;
    StampsFollowTheClock(o.clock, Last(s.offers).clock);
  }

  /** Once the initiator's session is up the responder accepts no initiation. */
  lemma NoAnswerWhileActive(s: State, o: Offer)
    requires s.b.Valid() && OffersOk(s) && AnswersOk(s) && Agreed(s) && o in s.offers
    requires Fresh(s.b.greatest, Stamp(o.clock))
    ensures !s.a.session.active
  {
    hide OfferHandshake, OffersOk, Stamp, After, AnswerOk, Answers, Answerable, AnswerKeys;
    if s.a.session.active {
      AnswersStamp(Last(s.answers), Last(s.offers));
      LastOfferIsLatest(s, o);
    }
  }

  lemma NewAnswerOk(s: State, s': State, x: Answer, o: Offer)
    requires s.b.Valid() && AnswersOk(s) && Extends(s, s') && s'.answers == s.answers + [x]
    requires AnswerOk(s', x) && |x.stamp| == TIMESTAMP_SIZE && x.n == s.drawn && Fresh(s.b.greatest, x.stamp)
    requires s'.b.session.active && HasKeysOf(s'.b.session, x) && s'.b.greatest == Some(x.stamp)
    ensures AnswersOk(s')
  {
    hide Answerable, Answers, AnswerKeys, AnswerOk, After;
    forall y | y in s'.answers ensures AnswerOk(s', y) {
      if y in s.answers {
        AnswerStays(s, s', y);
      }
    }
    forall i | 0 <= i < |s.answers| ensures Later(s.answers[i], x) {
      LaterThanLast(s, x, i);
    }
  }

  lemma LaterThanLast(s: State, x: Answer, i: nat)
    requires s.b.Valid() && AnswersOk(s) && i < |s.answers| && x.n == s.drawn && |x.stamp| == TIMESTAMP_SIZE
    requires Fresh(s.b.greatest, x.stamp)
    ensures Later(s.answers[i], x)
  {
    hide Answerable, Answers, AnswerKeys, After;
    var y := s.answers[i];
    assert y in s.answers && Last(s.answers) in s.answers;
    assert AnswerOk(s, y) && AnswerOk(s, Last(s.answers));
    if i < |s.answers| - 1 {
      assert Later(y, Last(s.answers));
      AfterTransitive(x.stamp, Last(s.answers).stamp, y.stamp);
    }
  }

  /** New keys on the responder's side: nothing was sealed under them yet. */
  lemma FreshSession(s: State, s': State, x: Answer)
    requires Inv(s) && !s.a.session.active && AnswersOk(s') && s'.answers == s.answers + [x]
    requires AnswerOk(s', x) && x.n == s.drawn && HasKeysOf(s'.b.session, x)
    requires s'.a.session == s.a.session && s'.sealed == s.sealed && s'.delivered == s.delivered
    ensures HistoryOk(s')
  {
    hide Answers, Answerable, AnswerKeys, WireOk, OffersOk, Shape;
    forall y | y in s'.sealed ensures SealedOk(s', y) {
      assert SealedOk(s, y);
      var z :| z in s.answers && Answerable(z) && y.key == AnswerKeys(z).send;
      assert z in s'.answers && AnswerOk(s, z);
      FreshKeys(z, x);
    }
    NothingDelivered(s);
  }

  lemma DeliveryNeedsInitiator(s: State, d: Delivery)
    requires HistoryOk(s) && d in s.delivered
    ensures s.a.session.active
  {
    hide Answerable, AnswerKeys;
    assert DeliveredOk(s, d);
    if !d.toInitiator {
      var x :| x in s.sealed && x.byInitiator;
      assert SealedOk(s, x);
    }
  }

  lemma NothingDelivered(s: State)
    requires HistoryOk(s) && !s.a.session.active
    ensures s.delivered == []
  {
    hide HistoryOk;
    if s.delivered != [] {
      DeliveryNeedsInitiator(s, s.delivered[0]);
    }
  }

  lemma AnswerTravels(s: State, x: Answer)
    requires x in s.answers && Answerable(x) && 2 <= x.n < s.drawn
    ensures forall t | t in TermsOf(AnswerMessage(x)) :: Travelled(s, t)
  {
    hide TermsOf, AnswerMessage, StaticTerm, StampTerm, OfferMac, ConfirmTerm, AnswerMac, SealedTerm, Answerable,
         Private;
    AnswerShows(x);
  }

  /** The response just written, as a record of the history. */
  lemma AnswerRecorded(s: State, mv: Move, r': Relay.State, out: Relay.Output) returns (x: Answer, o: Offer)
    requires Inv(s) && Enabled(s, mv) && mv.event.FromNet? && Relay.SameParty(Side(s, mv.atInitiator), r')
    requires Relay.Answers(Side(s, mv.atInitiator), r', out, mv.event.raw, mv.event.env)
    ensures !mv.atInitiator && NewAnswer(s.b, mv.event.raw, s.drawn, mv.event.env.index) == [x]
    ensures Answerable(x) && out.datagram.value.0 == AnswerMessage(x) && r'.session.keys == AnswerKeys(x)
    ensures x.handshake.Valid() && |x.stamp| == TIMESTAMP_SIZE && x.n == s.drawn && x.index == mv.event.env.index
    ensures o in s.offers && Answers(x, o) && Fresh(s.b.greatest, x.stamp) && r'.greatest == Some(x.stamp)
  {
    hide WireOk, OffersOk, AnswersOk, HistoryOk, Agreed, AllKnown, Noise.ReadInitiation, Noise.WriteResponse,
         Chain3, PublicKey, Private, Stamp, After, AnswerMessage, AnswerKeys;
    var incoming := Noise.ReadInitiation(s.b.id, mv.event.raw, s.b.greatest).value;
    o := InitiationAuthentic(s, mv.event.raw);
    x := Answer(incoming.handshake, incoming.stamp, s.drawn, mv.event.env.index);
    AnswerIsWritten(x);
  }

  lemma KeepsAnswer(s: State, mv: Move, r': Relay.State, out: Relay.Output)
    requires Inv(s) && Enabled(s, mv) && mv.event.FromNet? && Relay.SameParty(Side(s, mv.atInitiator), r')
    requires Relay.Answers(Side(s, mv.atInitiator), r', out, mv.event.raw, mv.event.env)
    ensures Inv(Afterwards(s, mv, r', out))
  {
    hide WireOk, OffersOk, AnswersOk, HistoryOk, AllKnown, TermsOf, NewAnswer, NewDelivery, Noise.ReadInitiation,
         Noise.WriteResponse, Answers, Answerable, AnswerKeys, AnswerMessage, Travelled, Private, After, Stamp;
    var x, o := AnswerRecorded(s, mv, r', out);
    var s' := Afterwards(s, mv, r', out);
    assert s'.answers == s.answers + [x] && x in s'.answers;
    assert x.stamp == Stamp(o.clock) by { AnswersStamp(x, o); }
    NoAnswerWhileActive(s, o);
    SameOffers(s, s');
    assert AnswerOk(s', x);
    NewAnswerOk(s, s', x, o);
    FreshSession(s, s', x);
    AnswerTravels(s', x);
    WireStays(s, s', TermsOf(AnswerMessage(x)));
  }

  lemma AnswersStamp(x: Answer, o: Offer)
    requires Answers(x, o)
    ensures x.stamp == Stamp(o.clock) && x.handshake.chain == Chain3(o.n, Stamp(o.clock))
  {
  }

  // --------------------------------------------------------------- completing

  /** The only response to the latest initiation is the latest response. */
  lemma OnlyLastAnswers(s: State, x: Answer)
    requires OffersOk(s) && AnswersOk(s) && s.offers != [] && x in s.answers
    requires x.handshake.chain == Chain3(Last(s.offers).n, Stamp(Last(s.offers).clock))
    ensures x == Last(s.answers) && Answers(x, Last(s.offers))
  {
    hide OffersOk, Answerable, AnswerKeys, Chain3, After, Stamp, PublicKey, Private;
    var last := Last(s.offers);
    assert AnswerOk(s, x);
    var o :| o in s.offers && Answers(x, o);
    Chain3Injective(o.n, Stamp(o.clock), last.n, Stamp(last.clock));
    var i :| 0 <= i < |s.answers| && s.answers[i] == x;
    if i < |s.answers| - 1 {
      var y := Last(s.answers);
      assert Later(x, y) && y in s.answers && AnswerOk(s, y);
      var p :| p in s.offers && Answers(y, p);
      LastOfferIsLatest(s, p);
    }
  }

  lemma CompletedKeys(s: State, d: Bytes)
    requires Inv(s) && AllKnown(s.seen, d)
    requires s.a.pending.Some? && Noise.ReadResponse(s.a.id, s.a.pending.value, d).Some?
    ensures s.offers != [] && s.answers != [] && Answers(Last(s.answers), Last(s.offers))
    ensures var keys := Noise.ReadResponse(s.a.id, s.a.pending.value, d).value;
      && KeysCross(keys, s.b.session.keys)
      && (Pub(Private(0)) !in s.leak ==> IndicesCross(keys, s.b.session.keys))
  {
    hide WireOk, AllKnown, Noise.ReadResponse, HistoryOk, Answers, Answerable, AnswerKeys, Agreed, Private,
         Chain3, Stamp;
    forall x | x in s.answers ensures x.handshake.Valid() && x.index < U32 {
      assert AnswerOk(s, x);
    }
    var x := ResponseAuthentic(s, d);
    OnlyLastAnswers(s, x);
    if Pub(Private(0)) !in s.leak {
      var y := ResponseIndices(s, d);
      OnlyLastAnswers(s, y);
    }
  }

  lemma KeepsComplete(s: State, mv: Move, r': Relay.State, out: Relay.Output)
    requires Inv(s) && Enabled(s, mv) && mv.event.FromNet? && Relay.SameParty(Side(s, mv.atInitiator), r')
    requires Relay.Completes(Side(s, mv.atInitiator), r', out, mv.event.raw)
    ensures Inv(Afterwards(s, mv, r', out))
  {
    hide WireOk, OffersOk, AnswersOk, HistoryOk, AllKnown, TermsOf, NewAnswer, NewDelivery, Noise.ReadResponse,
         Answers, KeysCross, IndicesCross;
    var s' := Afterwards(s, mv, r', out);
    CompletedKeys(s, mv.event.raw);
    SameOffers(s, s');
    SealAnswers(s, s');
    FirstSession(s, s');
    WireStays(s, s', {});
  }

  /** The initiator's first session: it has sealed and received nothing yet. */
  lemma FirstSession(s: State, s': State)
    requires HistoryOk(s) && !s.a.session.active && s'.b.session == s.b.session
    requires s'.answers == s.answers && s'.sealed == s.sealed && s'.delivered == s.delivered
    ensures HistoryOk(s')
  {
    hide Answerable, AnswerKeys;
    NothingDelivered(s);
    forall x | x in s'.sealed ensures SealedOk(s', x) {
      assert SealedOk(s, x);
    }
  }

  // ------------------------------------------------------------------ opening

  /** Whoever opens, the key it opens under is unknown to the network and is the other side's sending key. */
  lemma ReceivingKey(s: State, initiator: bool)
    requires Inv(s) && Side(s, initiator).session.active
    ensures !AllKnown(s.seen, Side(s, initiator).session.keys.receive)
    ensures forall x | x in s.sealed && x.key == Side(s, initiator).session.keys.receive :: x.byInitiator != initiator
  {
    hide AllKnown, WireOk, OffersOk, Answers, Answerable, AnswerKeys, Shape, DeliveredOk;
    var last := Last(s.answers);
    assert last in s.answers && AnswerOk(s, last);
    AnswerKeysUnknown(s, last);
    forall x | x in s.sealed && x.key == Side(s, initiator).session.keys.receive ensures x.byInitiator != initiator {
      assert SealedOk(s, x);
      if x.byInitiator {
        if initiator {
          DirectionsNeverMeet(last, last);
        }
      } else if !initiator {
        var z :| z in s.answers && Answerable(z) && x.key == AnswerKeys(z).send;
        DirectionsNeverMeet(z, last);
      }
    }
  }

  /** What verifies was sealed by the other side, once under this key and counter. */
  lemma OpenedAuthentic(s: State, initiator: bool, d: Bytes) returns (x: Sealed)
    requires Inv(s) && AllKnown(s.seen, d) && Wire.Decode(d).Some? && Wire.Decode(d).value.Transport?
    requires var m := Wire.Decode(d).value;
      Sessions.Verified(Side(s, initiator).session, m.counter, m.sealed).Some?
    ensures x in s.sealed && x.byInitiator == !initiator && x.key == Side(s, initiator).session.keys.receive
    ensures var m := Wire.Decode(d).value;
      && x.counter == m.counter && m.counter !in Side(s, initiator).session.accepted
      && Sessions.Verified(Side(s, initiator).session, m.counter, m.sealed).value == Sessions.Padded(x.packet)
  {
    hide AllKnown, WireOk, OffersOk, AnswersOk, Agreed, DeliveredOk;
    var session, m := Side(s, initiator).session, Wire.Decode(d).value;
    assert m.sealed == d[16..|d|];
    KnownPart(s.seen, d, 16, |d|);
    ReceivingKey(s, initiator);
    forall x | x in s.sealed ensures x.counter < U64 {
      assert SealedOk(s, x);
    }
    x := PacketAuthentic(s, session, m.counter, m.sealed);
  }

  /** Marking a counter that was not marked keeps every earlier delivery accounted for, and one more fits. */
  lemma NewDelivered(s: State, s': State, initiator: bool, counter: nat, added: seq<Delivery>)
    requires Inv(s) && AnswersOk(s') && Agreed(s') && s'.answers == s.answers && s'.sealed == s.sealed
    requires var r, r' := Side(s, initiator).session, Side(s', initiator).session;
      && r.active && r' == r.(accepted := r.accepted + {counter}) && counter !in r.accepted
      && Side(s', !initiator).session == Side(s, !initiator).session
    requires s'.delivered == s.delivered + added && |added| <= 1
    requires forall d | d in added ::
      && DeliveredOk(s', d) && d.toInitiator == initiator && d.counter == counter
      && d.key == Side(s, initiator).session.keys.receive
    ensures HistoryOk(s')
  {
    hide Answers, AnswerOk, Answerable, AnswerKeys, WireOk, OffersOk, Shape;
    forall x | x in s'.sealed ensures SealedOk(s', x) {
      assert SealedOk(s, x);
    }
    forall d | d in s'.delivered ensures DeliveredOk(s', d) {
      if d in s.delivered {
        assert DeliveredOk(s, d);
      }
    }
    if added != [] {
      forall e | e in s.delivered ensures e.key != added[0].key || e.counter != added[0].counter {
        assert DeliveredOk(s, e);
        if e.toInitiator != initiator && e.key == added[0].key {
          DeliveriesDiffer(s, initiator, e);
          assert false;
        }
      }
    }
  }

  /** A packet delivered to the other side did not arrive under this side's receiving key. */
  lemma DeliveriesDiffer(s: State, initiator: bool, e: Delivery)
    requires Inv(s) && Side(s, initiator).session.active && e in s.delivered && e.toInitiator != initiator
    ensures e.key != Side(s, initiator).session.keys.receive
  {
    hide WireOk, OffersOk, AnswersOk, Shape, AllKnown;
    assert DeliveredOk(s, e);
    var x :| x in s.sealed && x.byInitiator == !e.toInitiator && x.key == e.key;
    ReceivingKey(s, initiator);
  }

  lemma KeepsOpen(s: State, mv: Move, r': Relay.State, out: Relay.Output)
    requires Inv(s) && Enabled(s, mv) && mv.event.FromNet? && Relay.SameParty(Side(s, mv.atInitiator), r')
    requires Relay.Opens(Side(s, mv.atInitiator), r', out, mv.event.raw)
    ensures Inv(Afterwards(s, mv, r', out))
  {
    hide WireOk, OffersOk, AnswersOk, HistoryOk, Agreed, AllKnown, TermsOf, NewAnswer, Wire.Decode,
         Sessions.Trimmed;
    var s', r := Afterwards(s, mv, r', out), Side(s, mv.atInitiator);
    var x := OpenedAuthentic(s, mv.atInitiator, mv.event.raw);
    SameOffers(s, s');
    SealAnswers(s, s');
    SameAgreement(s, s');
    var added := if out.packet.Some? then NewDelivery(r, mv, out.packet.value) else [];
    assert s'.delivered == s.delivered + added;
    NewDelivered(s, s', mv.atInitiator, x.counter, added);
    WireStays(s, s', {});
  }

  // ----------------------------------------------------------------- any step

  lemma KeepsInv(s: State, mv: Move)
    requires Inv(s) && Enabled(s, mv)
    ensures Inv(Next(s, mv))
  {
    hide Relay.OnPacket, Relay.OnDatagram, Inv, Afterwards, AllKnown, Relay.Quiet, Relay.Offers, Relay.Seals,
         Relay.Answers, Relay.Completes, Relay.Opens;
    assert Shape(s) by { InvShape(s); }
    var r, ev := Side(s, mv.atInitiator), mv.event;
    var (r', out) := Relay.Step(r, ev);
    Relay.StepKeepsValid(r, ev);
    if ev.FromTun? {
      Relay.PacketKinds(r, ev.packet, ev.env);
      if Relay.Quiet(r, r', out) {
        KeepsQuiet(s, mv, r', out);
      } else if Relay.Offers(r, r', out, ev.env) {
        KeepsOffer(s, mv, r', out);
      } else {
        KeepsSeal(s, mv, r', out);
      }
    } else {
      Relay.DatagramKinds(r, ev.raw, ev.from, ev.env);
      if Relay.Quiet(r, r', out) {
        KeepsQuiet(s, mv, r', out);
      } else if Relay.Answers(r, r', out, ev.raw, ev.env) {
        KeepsAnswer(s, mv, r', out);
      } else if Relay.Completes(r, r', out, ev.raw) {
        KeepsComplete(s, mv, r', out);
      } else {
        KeepsOpen(s, mv, r', out);
      }
    }
  }

  lemma InvShape(s: State)
    requires Inv(s)
    ensures Shape(s)
  {
  }
}
