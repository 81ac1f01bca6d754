/** Nothing the network does is final. From every reachable state in which the initiator has no session yet, one
    retry, its delivery and the delivery of the answer give both sides a session, and packets flow. */
module Recovery {
  import opened Octets
  import opened Crypto
  import opened Exchange
  import opened Knowledge
  import opened Timestamp
  import opened Tunnel
  import opened Safety
  import opened Guarantees
  import Noise
  import Progress
  import Relay
  import Sessions
  import Window
  import Wire

  const SERVER := Relay.Endpoint(1, 51820)
  const CLIENT := Relay.Endpoint(2, 40000)

  /** What the operating system supplies to the next step. */
  function EnvAt(s: State, monotonic: nat, now: Clock): Relay.Env {
    Relay.Env(monotonic, now, Private(s.drawn), 0, true)
  }

  lemma SeenIsKnown(base: set<Term>, d: Bytes)
    requires TermsOf(d) <= base
    ensures AllKnown(base, d)
  {
    forall o | o in d ensures OctetKnown(base, o) {
      if o.Of? {
        assert o.term in TermsOf(d);
      }
    }
  }

  lemma ExtendRun(run: seq<State>, s': State)
    requires IsRun(run) && IsStep(Last(run), s')
    ensures IsRun(run + [s']) && Last(run + [s']) == s'
  {
    hide Initial, IsStep;
  }

  // ------------------------------------------------------------------ the retry

  /** A packet arrives a retry interval after the last initiation. */
  function Retry(s: State, now: Clock): Move {
    Move(true, Relay.FromTun([], EnvAt(s, (s.a.lastInitiation + Relay.RETRY_NS) % U64, now)))
  }

  function NextOffer(s: State, now: Clock): Offer { Offer(s.drawn, 0, now) }

  lemma RetryStep(s: State, now: Clock)
    requires Inv(s) && !s.a.session.active && s.a.peer.Some?
    requires now.Valid() && s.clock.Nanoseconds() <= now.Nanoseconds()
    ensures Enabled(s, Retry(s, now))
    ensures var s1, o := Next(s, Retry(s, now)), NextOffer(s, now);
      && s1.a.pending == Some(OfferHandshake(o)) && s1.a.peer == s.a.peer && s1.a.mtu == s.a.mtu
      && s1.a.session == s.a.session && s1.b == s.b && s1.clock == now && s1.drawn == s.drawn + 1
      && s1.offers == s.offers + [o] && s1.seen == s.seen + TermsOf(OfferMessage(o)) && s1.leak == s.leak
      && s1.answers == s.answers && s1.sealed == s.sealed && s1.delivered == s.delivered
  {
    hide Noise.WriteInitiation, TermsOf, OfferMessage, OfferHandshake, OffersOk, AnswersOk, HistoryOk, WireOk,
         Agreed, AllKnown, Private, Relay.Count;
    OfferIsWritten(NextOffer(s, now));
  }

  /** In every reachable state, an initiation stamped 2^24 ns after all earlier ones is no replay to the
      responder, whichever of them it accepted. */
  lemma RetryIsFresh(run: seq<State>, i: nat, now: Clock)
    requires IsRun(run) && i < |run| && now.Valid()
    requires forall o | o in run[i].offers :: o.clock.Nanoseconds() + GRANULE <= now.Nanoseconds()
    ensures run[i].b.Valid() && Fresh(run[i].b.greatest, Stamp(now))
  {
    hide IsRun, HistoryOk, WireOk, Agreed, Stamp, After, Answerable, AnswerKeys, Answers, OfferHandshake;
    RunKeepsInv(run, i);
    var s := run[i];
    if s.answers != [] {
      var x := Last(s.answers);
      assert x in s.answers && AnswerOk(s, x);
      var o :| o in s.offers && Answers(x, o);
      AnswersStamp(x, o);
      StampsSeparate(o.clock, now);
    }
  }

  // ------------------------------------------------------------------ the answer

  /** The responder's answer to `o`, with random value `n` as its ephemeral key. */
  function ReplyTo(o: Offer, n: nat): Answer {
    Answer(Noise.Blank().(chain := Chain3(o.n, Stamp(o.clock)), peerEphemeral := PublicKey(Private(o.n)),
                          peer := o.index), Stamp(o.clock), n, 0)
  }

  function Deliver(s: State, o: Offer): Move {
    Move(false, Relay.FromNet(OfferMessage(o), CLIENT, EnvAt(s, 0, o.clock)))
  }

  lemma ReplyIsWritten(g: Greatest, o: Offer, n: nat)
    requires o.index < U32 && (g.Some? ==> |g.value| == TIMESTAMP_SIZE) && Fresh(g, Stamp(o.clock))
    ensures var x := ReplyTo(o, n);
      && Answerable(x)
      && Noise.ReadInitiation(ResponderId(), OfferMessage(o), g) == Some(Noise.Incoming(x.handshake, x.stamp))
      && Noise.WriteResponse(ResponderId(), x.handshake, Private(n), 0) == Some((AnswerMessage(x), AnswerKeys(x)))
  {
    hide Noise.ReadInitiation, Noise.WriteInitiation, Noise.WriteResponse, PublicKey, Private, Chain3, LowOrder,
         Stamp, After;
    OfferIsWritten(o);
    Noise.InitiationIsRead(Private(0), Private(1), Private(o.n), o.index, o.clock, g);
    assert Answerable(ReplyTo(o, n)) by {
      PublicKeyIsPublic(Private(o.n));
      PublicKeyIsPublic(Private(0));
    }
    AnswerIsWritten(ReplyTo(o, n));
  }

  lemma OfferDecodes(o: Offer)
    requires o.index < U32
    ensures |OfferMessage(o)| == Wire.INITIATION_SIZE
    ensures Wire.Decode(OfferMessage(o)).Some? && Wire.Decode(OfferMessage(o)).value.Initiation?
  {
    hide Noise.WriteInitiation, Wire.Decode, OfferMessage;
    OfferIsWritten(o);
    Noise.InitiationOnTheWire(InitiatorId(), Private(o.n), o.index, o.clock);
  }

  function Knock(s: State, d: Bytes): Move { Move(false, Relay.FromNet(d, CLIENT, EnvAt(s, 0, s.clock))) }

  /** Any initiation the responder accepts is answered and goes into the history. */
  lemma AcceptStep(s: State, d: Bytes)
    requires Shape(s) && AllKnown(s.seen, d) && Noise.ReadInitiation(s.b.id, d, s.b.greatest).Some?
    requires Wire.INITIATION_SIZE <= Wire.MaxDatagram(s.b.mtu)
    ensures Enabled(s, Knock(s, d))
    ensures var s', incoming := Next(s, Knock(s, d)), Noise.ReadInitiation(s.b.id, d, s.b.greatest).value;
      && s'.answers == s.answers + [Answer(incoming.handshake, incoming.stamp, s.drawn, 0)]
      && s'.offers == s.offers && s'.leak == s.leak
  {
    hide Noise.ReadInitiation, Noise.WriteResponse, Wire.Decode, TermsOf, AllKnown, Relay.Count, Relay.Follow, Private,
         LowOrder;
    Noise.AcceptedIsAnswerable(s.b.id, d, s.b.greatest, Private(s.drawn), 0);
    assert |d| == 148 && Wire.Decode(d).Some? && Wire.Decode(d).value.Initiation? by { AcceptedDecodes(s.b, d); }
  }

  lemma AcceptedDecodes(r: Relay.State, d: Bytes)
    requires r.Valid() && Noise.ReadInitiation(r.id, d, r.greatest).Some?
    ensures |d| == 148 && Wire.Decode(d).Some? && Wire.Decode(d).value.Initiation?
  {
    hide Noise.Mac1Ok, Noise.ReadFields;
  }

  lemma AnswerStep(s: State, o: Offer)
    requires Inv(s) && o in s.offers && TermsOf(OfferMessage(o)) <= s.seen && Fresh(s.b.greatest, Stamp(o.clock))
    requires Wire.INITIATION_SIZE <= Wire.MaxDatagram(s.b.mtu)
    ensures Enabled(s, Deliver(s, o)) && Answerable(ReplyTo(o, s.drawn))
    ensures var s2, x := Next(s, Deliver(s, o)), ReplyTo(o, s.drawn);
      && s2.b.session == Sessions.Activated(AnswerKeys(x)) && s2.b.peer == Some(CLIENT) && s2.b.mtu == s.b.mtu
      && s2.a == s.a && s2.clock == s.clock && s2.drawn == s.drawn + 1 && s2.leak == s.leak
      && s2.seen == s.seen + TermsOf(AnswerMessage(x)) && s2.offers == s.offers
      && s2.sealed == s.sealed && s2.delivered == s.delivered
  {
    hide Noise.ReadInitiation, Noise.WriteResponse, Wire.Decode, TermsOf, OfferMessage, AnswerMessage, AnswerKeys,
         Answerable, AllKnown, Relay.Count, Relay.Follow, ReplyTo, Private, AnswersOk, HistoryOk, WireOk, Agreed,
         Stamp, After, OfferHandshake;
    SeenIsKnown(s.seen, OfferMessage(o));
    ReplyIsWritten(s.b.greatest, o, s.drawn);
    ReplyShape(o, s.drawn);
    OfferDecodes(o);
  }

  lemma ReplyShape(o: Offer, n: nat)
    ensures ReplyTo(o, n).n == n && ReplyTo(o, n).index == 0
  {
  }

  // -------------------------------------------------------------- the completion

  function Complete(s: State, d: Bytes): Move { Move(true, Relay.FromNet(d, SERVER, EnvAt(s, 0, s.clock))) }

  /** Any response the pending handshake accepts starts the initiator's session. */
  lemma CompleteStep(s: State, d: Bytes)
    requires Shape(s) && AllKnown(s.seen, d) && Wire.RESPONSE_SIZE <= Wire.MaxDatagram(s.a.mtu)
    requires s.a.pending.Some? && Noise.ReadResponse(s.a.id, s.a.pending.value, d).Some?
    ensures Enabled(s, Complete(s, d))
    ensures var s3, keys := Next(s, Complete(s, d)), Noise.ReadResponse(s.a.id, s.a.pending.value, d).value;
      && s3.a.session == Sessions.Activated(keys) && s3.a.peer == s.a.peer && s3.a.mtu == s.a.mtu && s3.b == s.b
      && s3.clock == s.clock && s3.leak == s.leak && s3.sealed == s.sealed && s3.delivered == s.delivered
  {
    hide Noise.FinishWith, Open, MacOf, Kdf, Noise.MacKey, AllKnown, Relay.Count, TermsOf, NewAnswer, NewDelivery,
         Private;
  }

  /** The responder's own message, read by the initiator. */
  lemma ReplyIsRead(o: Offer, n: nat)
    requires o.index < U32 && Answerable(ReplyTo(o, n))
    ensures var x := ReplyTo(o, n);
      && Noise.ReadResponse(InitiatorId(), OfferHandshake(o), AnswerMessage(x)).Some?
      && Sessions.Crossed(Noise.ReadResponse(InitiatorId(), OfferHandshake(o), AnswerMessage(x)).value, AnswerKeys(x))
  {
    hide Noise.ReadResponse, Noise.WriteResponse, AnswerMessage, AnswerKeys, Answerable, PublicKey, Private,
         Chain3, Stamp, Noise.ReadInitiation;
    ReplyIsWritten(None, o, n);
    Noise.ResponseIsRead(Private(0), Private(1), OfferHandshake(o), ReplyTo(o, n).handshake, Private(n), 0);
  }

  // ------------------------------------------------------------------ one packet

  function Send(s: State, fromInitiator: bool, packet: Bytes): Move {
    Move(fromInitiator, Relay.FromTun(packet, EnvAt(s, 0, s.clock)))
  }

  lemma SendStep(s: State, fromInitiator: bool, packet: Bytes)
    requires Shape(s)
    requires var r := Side(s, fromInitiator); r.peer.Some? && Sessions.CanSeal(r.session) && |packet| <= r.mtu
    ensures Enabled(s, Send(s, fromInitiator, packet))
    ensures var s', r := Next(s, Send(s, fromInitiator, packet)), Side(s, fromInitiator).session;
      && s'.sealed == s.sealed + [Sealed(fromInitiator, r.keys.send, r.sendCounter, packet)]
      && s'.seen == s.seen + TermsOf(Sessions.Datagram(r.keys, r.sendCounter, packet))
      && Side(s', !fromInitiator) == Side(s, !fromInitiator) && s'.delivered == s.delivered
      && s'.clock == s.clock && s'.leak == s.leak
  {
    hide Sessions.Datagram, TermsOf, Private, Relay.Count, Relay.CountSent, AllKnown;
  }

  function Carry(s: State, toInitiator: bool, d: Bytes): Move {
    Move(toInitiator, Relay.FromNet(d, if toInitiator then SERVER else CLIENT, EnvAt(s, 0, s.clock)))
  }

  lemma CarryStep(s: State, toInitiator: bool, keys: Sessions.Keys, counter: nat, packet: Bytes)
    requires Shape(s) && TermsOf(Sessions.Datagram(keys, counter, packet)) <= s.seen
    requires var r := Side(s, toInitiator);
      && r.session.active && keys.Valid() && Sessions.Crossed(keys, r.session.keys)
      && Window.Acceptable(r.session.accepted, counter) && |packet| <= r.mtu
    requires packet != [] && Sessions.WellFormed(packet)
    ensures var mv := Carry(s, toInitiator, Sessions.Datagram(keys, counter, packet));
      && Enabled(s, mv)
      && Next(s, mv).delivered == s.delivered + [Delivery(toInitiator, keys.send, counter, packet)]
      && Next(s, mv).leak == s.leak
  {
    hide Sessions.Datagram, TermsOf, Private, AllKnown, Relay.OnDatagram, Wire.Decode, Sessions.WellFormed,
         Sessions.Opened, Window.Acceptable;
    var d, r := Sessions.Datagram(keys, counter, packet), Side(s, toInitiator);
    var mv := Carry(s, toInitiator, d);
    SeenIsKnown(s.seen, d);
    Progress.GenuineIsDelivered(r, keys, counter, packet, mv.event.from, mv.event.env);
    assert Wire.Decode(d) == Some(Wire.Transport(r.session.keys.local, counter, d[Wire.HEADER_SIZE..])) by {
      assert counter < Window.REJECT_AFTER by { AcceptableBelow(r.session.accepted, counter); }
      Sessions.RoundTrip(keys, r.session, counter, packet);
    }
  }

  lemma AcceptableBelow(accepted: set<nat>, counter: nat)
    requires Window.Acceptable(accepted, counter)
    ensures counter < Window.REJECT_AFTER
  {
  }

  // ------------------------------------------------------------------- all of it

  /** Whatever the network did so far, three moves connect the two sides. */
  lemma Reconnects(run: seq<State>, now: Clock) returns (more: seq<State>)
    requires IsRun(run)
    requires var s := Last(run);
      && !s.a.session.active && s.a.peer.Some? && now.Valid()
      && s.clock.Nanoseconds() + GRANULE <= now.Nanoseconds()
      && Wire.INITIATION_SIZE <= Wire.MaxDatagram(s.b.mtu) && Wire.RESPONSE_SIZE <= Wire.MaxDatagram(s.a.mtu)
    ensures |more| == 3 && IsRun(run + more)
    ensures var s, s3 := Last(run), more[2];
      && s3.a.session == Sessions.Activated(s3.a.session.keys) && s3.b.session == Sessions.Activated(s3.b.session.keys)
      && Sessions.Crossed(s3.a.session.keys, s3.b.session.keys)
      && s3.a.peer == s.a.peer && s3.b.peer == Some(CLIENT) && s3.a.mtu == s.a.mtu && s3.b.mtu == s.b.mtu
      && s3.sealed == s.sealed && s3.delivered == s.delivered && s3.leak == s.leak
  {
    hide Initial, Inv, Next, Enabled, TermsOf, AllKnown, Noise.ReadResponse, AnswerMessage, AnswerKeys, Answerable,
         OfferMessage, OfferHandshake, ReplyTo, Stamp, After, NextOffer;
    var s := Last(run);
    RunKeepsInv(run, |run| - 1);
    InvShape(s);
    var s1, o := Next(s, Retry(s, now)), NextOffer(s, now);
    RetryStep(s, now);
    assert IsStep(s, s1);
    ExtendRun(run, s1);
    RunKeepsInv(run + [s1], |run|);
    InvShape(s1);
    OfferIsNew(run, now);
    var s2, x := Next(s1, Deliver(s1, o)), ReplyTo(o, s1.drawn);
    AnswerStep(s1, o);
    assert IsStep(s1, s2);
    ExtendRun(run + [s1], s2);
    assert run + [s1] + [s2] == run + [s1, s2];
    RunKeepsInv(run + [s1, s2], |run| + 1);
    InvShape(s2);
    var d := AnswerMessage(x);
    SeenIsKnown(s2.seen, d);
    ReplyIsRead(o, s1.drawn);
    var s3 := Next(s2, Complete(s2, d));
    CompleteStep(s2, d);
    assert IsStep(s2, s3);
    ExtendRun(run + [s1, s2], s3);
    assert run + [s1, s2] + [s3] == run + [s1, s2, s3];
    more := [s1, s2, s3];
  }

  /** The retry's initiation is fresh to the responder. */
  lemma OfferIsNew(run: seq<State>, now: Clock)
    requires IsRun(run) && now.Valid() && Last(run).clock.Nanoseconds() + GRANULE <= now.Nanoseconds()
    ensures Last(run).b.Valid() && Fresh(Last(run).b.greatest, Stamp(now))
    ensures NextOffer(Last(run), now).index < U32 && NextOffer(Last(run), now).clock == now
  {
    hide Initial, IsStep, AnswersOk, HistoryOk, WireOk, Agreed, Stamp, After, OfferHandshake;
    RunKeepsInv(run, |run| - 1);
    RetryIsFresh(run, |run| - 1, now);
  }

  /** And two more carry any packet, in either direction. */
  lemma Recovers(run: seq<State>, now: Clock, fromInitiator: bool, packet: Bytes) returns (more: seq<State>)
    requires IsRun(run)
    requires var s := Last(run);
      && !s.a.session.active && s.a.peer.Some? && now.Valid()
      && s.clock.Nanoseconds() + GRANULE <= now.Nanoseconds()
      && Wire.INITIATION_SIZE <= Wire.MaxDatagram(s.b.mtu) && Wire.RESPONSE_SIZE <= Wire.MaxDatagram(s.a.mtu)
      && |packet| <= s.a.mtu && |packet| <= s.b.mtu
    requires packet != [] && Sessions.WellFormed(packet)
    ensures |more| == 5 && IsRun(run + more)
    ensures var s, s3 := Last(run), more[2];
      && s3.a.session.active && Sessions.Crossed(s3.a.session.keys, s3.b.session.keys)
      && var key := Side(s3, fromInitiator).session.keys.send;
      && more[4].sealed == s.sealed + [Sealed(fromInitiator, key, 0, packet)]
      && more[4].delivered == s.delivered + [Delivery(!fromInitiator, key, 0, packet)] && more[4].leak == s.leak
  {
    hide IsRun, Inv, Next, Enabled, TermsOf, AllKnown, Sessions.Datagram, Sessions.WellFormed;
    var first := Reconnects(run, now);
    var s3 := first[2];
    RunKeepsInv(run + first, |run| + 2);
    InvShape(s3);
    assert Last(run + first) == s3;
    var keys := Side(s3, fromInitiator).session.keys;
    var s4 := Next(s3, Send(s3, fromInitiator, packet));
    SendStep(s3, fromInitiator, packet);
    assert IsStep(s3, s4);
    ExtendRun(run + first, s4);
    RunKeepsInv(run + first + [s4], |run| + 3);
    InvShape(s4);
    var s5 := Next(s4, Carry(s4, !fromInitiator, Sessions.Datagram(keys, 0, packet)));
    CarryStep(s4, !fromInitiator, keys, 0, packet);
    SameSealed(s4, Carry(s4, !fromInitiator, Sessions.Datagram(keys, 0, packet)));
    assert IsStep(s4, s5);
    ExtendRun(run + first + [s4], s5);
    more := first + [s4, s5];
    assert run + first + [s4] + [s5] == run + more;
  }

  lemma SameSealed(s: State, mv: Move)
    requires Side(s, mv.atInitiator).Valid() && mv.event.FromNet?
    ensures Next(s, mv).sealed == s.sealed
  {
    hide Relay.OnDatagram, TermsOf, NewAnswer, NewDelivery;
  }
}
