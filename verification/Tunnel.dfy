/** Two relays and a network that sees every datagram and delivers, to either side and at any time, anything
    it can compute from what it has seen. It may know the static public keys, or not. */
module Tunnel {
  import opened Octets
  import opened Crypto
  import opened Exchange
  import opened Knowledge
  import opened Timestamp
  import Noise
  import Relay
  import Sessions
  import Window
  import Wire

  /** One packet written to a TUN device: at which side, and the key and counter it arrived under. */
  datatype Delivery = Delivery(toInitiator: bool, key: Bytes, counter: nat, packet: Bytes)

  /** `a` initiates, `b` responds. `seen` are the terms the network has seen, `drawn` the number of random
      values drawn, `clock` the initiator's last clock reading; the four sequences are the history. */
  datatype State = State(
    a: Relay.State, b: Relay.State, leak: set<Term>, seen: set<Term>, drawn: nat, clock: Clock,
    offers: seq<Offer>, answers: seq<Answer>, sealed: seq<Sealed>, delivered: seq<Delivery>)

  /** One event at one side. */
  datatype Move = Move(atInitiator: bool, event: Relay.Event)

  function StaticPublicKeys(): set<Term> { {Pub(Private(0)), Pub(Private(1))} }

  ghost predicate Initial(s: State) {
    && s.leak <= StaticPublicKeys() && s.seen == s.leak && s.drawn == 2 && s.clock.Valid()
    && s.offers == [] && s.answers == [] && s.sealed == [] && s.delivered == []
    && s.a == Relay.Start(Relay.Initiator, s.a.mtu, InitiatorId(), s.a.peer)
    && s.b == Relay.Start(Relay.Responder, s.b.mtu, ResponderId(), None)
  }

  /** Ephemeral keys are fresh, the initiator's clock does not run backwards, and the network delivers only what
      it can compute. Packets from the TUN device are arbitrary: the network may have chosen them. */
  ghost predicate Enabled(s: State, mv: Move) {
    var r, env := Side(s, mv.atInitiator), mv.event.env;
    && mv.event.Valid(r.mtu) && env.key == Private(s.drawn)
    && (mv.atInitiator ==> s.clock.Nanoseconds() <= env.clock.Nanoseconds())
    && (mv.event.FromNet? ==> AllKnown(s.seen, mv.event.raw))
  }

  function Side(s: State, initiator: bool): Relay.State { if initiator then s.a else s.b }

  // ----------------------------------------------------------------- one step

  ghost function Next(s: State, mv: Move): State
    requires Side(s, mv.atInitiator).Valid()
  {
    var (r', out) := Relay.Step(Side(s, mv.atInitiator), mv.event);
    Afterwards(s, mv, r', out)
  }

  /** The state once the moving side is at `r'` and has put `out` on the network or on its TUN device; what
      happened is told from that output. */
  ghost function Afterwards(s: State, mv: Move, r': Relay.State, out: Relay.Output): State
    requires Side(s, mv.atInitiator).Valid()
  {
    var r, env := Side(s, mv.atInitiator), mv.event.env;
    var s0 := if mv.atInitiator then s.(a := r', clock := env.clock) else s.(b := r');
    var s1 := s0.(drawn := s.drawn + 1);
    if out.datagram.Some? then
      var s2 := s1.(seen := s.seen + TermsOf(out.datagram.value.0));
      if mv.event.FromNet? then s2.(answers := s.answers + NewAnswer(r, mv.event.raw, s.drawn, env.index))
      else if r.session.active then
        s2.(sealed := s.sealed +
              [Sealed(mv.atInitiator, r.session.keys.send, r.session.sendCounter, mv.event.packet)])
      else s2.(offers := s.offers + [Offer(s.drawn, env.index, env.clock)])
    else if out.packet.Some? && mv.event.FromNet? then
      s1.(delivered := s.delivered + NewDelivery(r, mv, out.packet.value))
    else s1
  }

  ghost function NewDelivery(r: Relay.State, mv: Move, packet: Bytes): seq<Delivery>
    requires mv.event.FromNet?
  {
    match Wire.Decode(mv.event.raw)
    case Some(Transport(_, counter, _)) => [Delivery(mv.atInitiator, r.session.keys.receive, counter, packet)]
    case _ => []
  }

  ghost function NewAnswer(r: Relay.State, raw: Bytes, n: nat, index: nat): seq<Answer>
    requires r.Valid()
  {
    match Noise.ReadInitiation(r.id, raw, r.greatest)
    case None => []
    case Some(incoming) => [Answer(incoming.handshake, incoming.stamp, n, index)]
  }

  // --------------------------------------------------------------- invariants

  ghost predicate Shape(s: State) {
    && s.a.Valid() && s.b.Valid()
    && s.a.role == Relay.Initiator && s.b.role == Relay.Responder
    && s.a.id == InitiatorId() && s.b.id == ResponderId()
    && s.drawn >= 2 && s.clock.Valid() && s.leak <= StaticPublicKeys()
  }

  function Last<T>(xs: seq<T>): T requires xs != [] { xs[|xs| - 1] }

  /** Initiations carry fresh ephemeral keys and the clock readings of their time; the pending handshake is
      the latest one's. */
  ghost predicate OffersOk(s: State) {
    && (forall o | o in s.offers ::
         2 <= o.n < s.drawn && o.index < U32 && o.clock.Valid() && o.clock.Nanoseconds() <= s.clock.Nanoseconds())
    && (forall i, j :: 0 <= i < j < |s.offers| ==>
         s.offers[i].n < s.offers[j].n && s.offers[i].clock.Nanoseconds() <= s.offers[j].clock.Nanoseconds())
    && (s.a.pending.Some? ==> s.offers != [] && s.a.pending.value == OfferHandshake(Last(s.offers)))
  }

  /** The response `x` answers the initiation `o`. */
  predicate Answers(x: Answer, o: Offer) {
    && x.handshake.chain == Chain3(o.n, Stamp(o.clock))
    && x.handshake.peerEphemeral == PublicKey(Private(o.n))
    && x.stamp == Stamp(o.clock)
  }

  ghost predicate AnswerOk(s: State, x: Answer) {
    && Answerable(x) && x.handshake.Valid() && |x.stamp| == TIMESTAMP_SIZE && x.index < U32
    && 2 <= x.n < s.drawn
    && exists o | o in s.offers :: Answers(x, o)
  }

  predicate Later(x: Answer, y: Answer) {
    x.n < y.n && |x.stamp| == |y.stamp| && After(y.stamp, x.stamp)
  }

  ghost predicate HasKeysOf(session: Sessions.State, x: Answer) {
    Answerable(x) && session.keys == AnswerKeys(x)
  }

  /** Every response answers a genuine initiation, each a later one than the response before; the responder's
      session and guard are those of the latest. */
  ghost predicate AnswersOk(s: State) {
    && (forall x | x in s.answers :: AnswerOk(s, x))
    && (forall i, j :: 0 <= i < j < |s.answers| ==>
         Later(s.answers[i], s.answers[j]))
    && (s.b.session.active <==> s.answers != [])
    && s.b.greatest == (if s.answers == [] then None else Some(Last(s.answers).stamp))
    && (s.answers != [] ==> HasKeysOf(s.b.session, Last(s.answers)))
  }

  /** Both sides hold the same keys, the other way round. */
  predicate KeysCross(a: Sessions.Keys, b: Sessions.Keys) {
    a.send == b.receive && a.receive == b.send
  }

  predicate IndicesCross(a: Sessions.Keys, b: Sessions.Keys) {
    a.local == b.peer && a.peer == b.local
  }

  /** An active initiator's session is the other end of the responder's, and the exchange they share is the
      initiator's last. The indices match too, unless the network knows the initiator's public key. */
  ghost predicate Agreed(s: State)
    requires AnswersOk(s)
  {
    s.a.session.active ==>
      && s.a.pending.None? && s.offers != [] && s.answers != []
      && KeysCross(s.a.session.keys, s.b.session.keys)
      && (Pub(Private(0)) !in s.leak ==> IndicesCross(s.a.session.keys, s.b.session.keys))
      && Answers(Last(s.answers), Last(s.offers))
  }

  /** Everything the network saw was leaked, or written by an honest side. */
  ghost predicate Travelled(s: State, t: Term) {
    || t in s.leak
    || (exists n: nat | n < s.drawn :: n >= 2 && t == Pub(Private(n)))
    || (exists o | o in s.offers :: t == StaticTerm(o.n) || t == StampTerm(o) || t == OfferMac(o))
    || (exists x | x in s.answers :: Answerable(x) && (t == ConfirmTerm(x) || t == AnswerMac(x)))
    || (exists x | x in s.sealed :: t == SealedTerm(x))
  }

  ghost predicate WireOk(s: State) {
    forall t | t in s.seen :: Travelled(s, t)
  }

  /** Sealed under the current session with a counter below the next, or under an earlier key. */
  ghost predicate SealedOk(s: State, x: Sealed) {
    && x.counter < Window.REJECT_AFTER
    && if x.byInitiator
       then s.a.session.active && x.key == s.a.session.keys.send && x.counter < s.a.session.sendCounter
       else
         && (exists y | y in s.answers :: Answerable(y) && x.key == AnswerKeys(y).send)
         && (x.key == s.b.session.keys.send ==> x.counter < s.b.session.sendCounter)
  }

  /** The packet at the TUN device is what the other side sealed under this key and counter, as far as its
      own header says it reaches; the counter is marked in the window, or the key is an earlier one. */
  ghost predicate DeliveredOk(s: State, d: Delivery) {
    && (exists x | x in s.sealed ::
         && x.byInitiator == !d.toInitiator && x.key == d.key && x.counter == d.counter
         && Sessions.Trimmed(Sessions.Padded(x.packet)) == Some(d.packet))
    && d.packet != []
    && if d.toInitiator
       then s.a.session.active && d.key == s.a.session.keys.receive && d.counter in s.a.session.accepted
       else d.key == s.b.session.keys.receive ==> d.counter in s.b.session.accepted
  }

  ghost predicate HistoryOk(s: State) {
    && (forall x | x in s.sealed :: SealedOk(s, x))
    && (forall d | d in s.delivered :: DeliveredOk(s, d))
    && (forall i, j :: 0 <= i < j < |s.sealed| ==>
         s.sealed[i].key != s.sealed[j].key || s.sealed[i].counter != s.sealed[j].counter)
    && (forall i, j :: 0 <= i < j < |s.delivered| ==>
         s.delivered[i].key != s.delivered[j].key || s.delivered[i].counter != s.delivered[j].counter)
  }

  ghost predicate Inv(s: State) {
    Shape(s) && OffersOk(s) && AnswersOk(s) && Agreed(s) && WireOk(s) && HistoryOk(s)
  }

  lemma InitialInv(s: State)
    requires Initial(s)
    ensures Inv(s)
  {
  }
}
