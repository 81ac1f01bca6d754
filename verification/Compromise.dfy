/** Forward secrecy. Both static private keys become known, and from then on the network uses them: it computes
    with them, opens what they open, and delivers what they let it make. Keys used before stay unknown. */
module Compromise {
  import opened Octets
  import opened Crypto
  import opened Exchange
  import opened Knowledge
  import opened Timestamp
  import opened Tunnel
  import opened Authenticity
  import opened Safety
  import opened Guarantees
  import Noise
  import Relay
  import Sessions

  /** What the network computes from once it has both static private keys. */
  ghost function Exposed(s: State): set<Term> { s.seen + {Secret(0), Secret(1)} }

  /** Any event with a fresh ephemeral key, whose datagram or packet the network can compute. */
  ghost predicate EnabledAfter(s: State, mv: Move) {
    && mv.event.Valid(Side(s, mv.atInitiator).mtu) && mv.event.env.key == Private(s.drawn)
    && AllKnown(Exposed(s), if mv.event.FromTun? then mv.event.packet else mv.event.raw)
  }

  ghost predicate IsStepAfter(s: State, s': State) {
    exists mv :: EnabledAfter(s, mv) && Side(s, mv.atInitiator).Valid() && s' == Next(s, mv)
  }

  /** `tail` goes on from where the honest run ended, with the static keys known. */
  ghost predicate IsTail(run: seq<State>, tail: seq<State>) {
    && run != [] && tail != [] && tail[0] == Last(run)
    && forall i :: 0 <= i < |tail| - 1 ==> IsStepAfter(tail[i], tail[i + 1])
  }

  // ------------------------------------------------------------ what a step shows

  /** Only public keys, MACs, and ciphertexts whose plaintext the network knows anyway. */
  ghost predicate Harmless(base: set<Term>, shown: set<Term>) {
    forall t | t in shown :: t.Pub? || t.Mac? || (t.Aead? && AllKnown(base, t.plain))
  }

  /** The initiator's public key, for whoever has its private key. */
  lemma StaticIsKnown(base: set<Term>)
    requires Secret(0) in base
    ensures AllKnown(base, PublicKey(Private(0)))
  {
    hide AllKnown;
    KnownSpread(base, Secret(0), KEY_SIZE);
    KnownSpread(base, Pub(Private(0)), KEY_SIZE);
  }

  lemma OfferIsHarmless(base: set<Term>, o: Offer)
    requires Secret(0) in base
    ensures Harmless(base, TermsOf(OfferMessage(o)))
  {
    hide TermsOf, OfferMessage, OfferMac, AllKnown, Private, StaticKey, StampKey, Chain1, Chain2, Stamp;
    OfferShows(o);
    StaticIsKnown(base);
    PlainIsKnown(base, Stamp(o.clock));
  }

  lemma AnswerIsHarmless(base: set<Term>, x: Answer)
    requires Answerable(x)
    ensures Harmless(base, TermsOf(AnswerMessage(x)))
  {
    hide TermsOf, AnswerMessage, AnswerMac, AllKnown, Private, Answerable, AnswerFinish;
    AnswerShows(x);
    PlainIsKnown(base, []);
  }

  lemma PacketIsHarmless(base: set<Term>, keys: Sessions.Keys, counter: nat, packet: Bytes)
    requires AllKnown(base, packet)
    ensures Harmless(base, TermsOf(Sessions.Datagram(keys, counter, packet)))
  {
    hide TermsOf, AllKnown, Sessions.Datagram;
    var zeros := Zeros(|Sessions.Padded(packet)| - |packet|);
    SealedShows(keys, Sealed(true, keys.send, counter, packet));
    PlainIsKnown(base, zeros);
    KnownJoin(base, packet, zeros);
  }

  /** Whatever a step sends in any well-formed state, after however much impersonation, is harmless. */
  lemma StepIsHarmless(s: State, mv: Move)
    requires Shape(s) && EnabledAfter(s, mv)
    ensures Shape(Next(s, mv)) && s.seen <= Next(s, mv).seen
    ensures Harmless(Exposed(s), Next(s, mv).seen - s.seen)
  {
    hide Relay.OnPacket, Relay.OnDatagram, AllKnown, TermsOf, NewAnswer, NewDelivery, Noise.WriteInitiation,
         Noise.WriteResponse, Noise.ReadInitiation, Noise.ReadResponse, Relay.Completes, Relay.Opens, Harmless,
         OfferMessage, OfferHandshake, Sessions.Datagram, Private;
    var r, ev := Side(s, mv.atInitiator), mv.event;
    var (r', out) := Relay.Step(r, ev);
    Relay.StepKeepsValid(r, ev);
    assert Harmless(Exposed(s), if out.datagram.Some? then TermsOf(out.datagram.value.0) else {}) by {
      OutputIsHarmless(s, mv);
    }
    HarmlessPart(Exposed(s), if out.datagram.Some? then TermsOf(out.datagram.value.0) else {},
                 Next(s, mv).seen - s.seen);
  }

  lemma HarmlessPart(base: set<Term>, shown: set<Term>, part: set<Term>)
    requires Harmless(base, shown) && part <= shown
    ensures Harmless(base, part)
  {
    hide AllKnown;
  }

  lemma OutputIsHarmless(s: State, mv: Move)
    requires Shape(s) && EnabledAfter(s, mv)
    ensures var out := Relay.Step(Side(s, mv.atInitiator), mv.event).1;
      Harmless(Exposed(s), if out.datagram.Some? then TermsOf(out.datagram.value.0) else {})
  {
    hide Relay.OnPacket, Relay.OnDatagram, AllKnown, TermsOf, Noise.WriteInitiation, Noise.WriteResponse,
         Noise.ReadInitiation, Noise.ReadResponse, Relay.Completes, Relay.Opens, Harmless, OfferMessage,
         OfferHandshake, Sessions.Datagram, Private, Relay.Offers, Relay.Seals, Relay.Answers;
    var r, ev := Side(s, mv.atInitiator), mv.event;
    var (r', out) := Relay.Step(r, ev);
    NothingIsHarmless(Exposed(s));
    if ev.FromTun? {
      Relay.PacketKinds(r, ev.packet, ev.env);
      if Relay.Offers(r, r', out, ev.env) {
        WrittenIsHarmless(s, r', out, mv);
      } else if Relay.Seals(r, r', out, ev.packet) {
        SealedIsHarmless(s, r', out, mv);
      }
    } else {
      Relay.DatagramKinds(r, ev.raw, ev.from, ev.env);
      if Relay.Answers(r, r', out, ev.raw, ev.env) {
        RespondedIsHarmless(s, r', out, mv);
      } else {
        assert out.datagram.None? by {
          assert Relay.Quiet(r, r', out) || Relay.Completes(r, r', out, ev.raw) || Relay.Opens(r, r', out, ev.raw);
          Relay.SilentKinds(r, r', out, ev.raw);
        }
      }
    }
  }

  lemma NothingIsHarmless(base: set<Term>)
    ensures Harmless(base, {})
  {
  }

  lemma WrittenIsHarmless(s: State, r': Relay.State, out: Relay.Output, mv: Move)
    requires Shape(s) && EnabledAfter(s, mv) && Relay.Offers(Side(s, mv.atInitiator), r', out, mv.event.env)
    ensures Harmless(Exposed(s), TermsOf(out.datagram.value.0))
  {
    hide AllKnown, TermsOf, Noise.WriteInitiation, Harmless, OfferMessage, OfferHandshake, Private;
    var o := Offer(s.drawn, mv.event.env.index, mv.event.env.clock);
    OfferIsWritten(o);
    OfferIsHarmless(Exposed(s), o);
  }

  lemma SealedIsHarmless(s: State, r': Relay.State, out: Relay.Output, mv: Move)
    requires Shape(s) && EnabledAfter(s, mv) && mv.event.FromTun?
    requires Relay.Seals(Side(s, mv.atInitiator), r', out, mv.event.packet)
    ensures Harmless(Exposed(s), TermsOf(out.datagram.value.0))
  {
    hide AllKnown, TermsOf, Harmless, Sessions.Datagram;
    var session := Side(s, mv.atInitiator).session;
    PacketIsHarmless(Exposed(s), session.keys, session.sendCounter, mv.event.packet);
  }

  lemma RespondedIsHarmless(s: State, r': Relay.State, out: Relay.Output, mv: Move)
    requires Shape(s) && EnabledAfter(s, mv) && mv.event.FromNet?
    requires Relay.Answers(Side(s, mv.atInitiator), r', out, mv.event.raw, mv.event.env)
    ensures Harmless(Exposed(s), TermsOf(out.datagram.value.0))
  {
    hide AllKnown, TermsOf, Noise.WriteResponse, Noise.ReadInitiation, Harmless, AnswerMessage, AnswerKeys, Private,
         LowOrder;
    var incoming := Noise.ReadInitiation(s.b.id, mv.event.raw, s.b.greatest).value;
    var x := Answer(incoming.handshake, incoming.stamp, s.drawn, mv.event.env.index);
    assert Answerable(x);
    AnswerIsWritten(x);
    AnswerIsHarmless(Exposed(s), x);
  }

  // ----------------------------------------------------------- the rest of the run

  /** Everything seen by the end of the tail was seen before the keys leaked, or is harmless. */
  lemma {:induction false} TailIsHarmless(run: seq<State>, tail: seq<State>, j: nat)
    requires IsRun(run) && IsTail(run, tail) && j < |tail|
    ensures Shape(tail[j]) && Last(run).seen <= tail[j].seen
    ensures Harmless(Exposed(tail[j]), tail[j].seen - Last(run).seen)
    decreases j
  {
    hide IsRun, Next, EnabledAfter, Inv, Harmless, Shape;
    var s := Last(run);
    if j == 0 {
      RunKeepsInv(run, |run| - 1);
      InvShape(s);
      assert tail[0].seen - s.seen == {};
      NothingIsHarmless(Exposed(tail[0]));
    } else {
      TailIsHarmless(run, tail, j - 1);
      var u := tail[j - 1];
      assert IsStepAfter(u, tail[j]);
      var mv :| EnabledAfter(u, mv) && Side(u, mv.atInitiator).Valid() && tail[j] == Next(u, mv);
      StepIsHarmless(u, mv);
      HarmlessGrows(Exposed(u), Exposed(tail[j]), u.seen - s.seen, tail[j].seen - u.seen);
      assert tail[j].seen - s.seen == (u.seen - s.seen) + (tail[j].seen - u.seen);
    }
  }

  lemma HarmlessGrows(base: set<Term>, more: set<Term>, x: set<Term>, y: set<Term>)
    requires base <= more && Harmless(base, x) && Harmless(base, y)
    ensures Harmless(more, x + y)
  {
    hide AllKnown;
    forall t | t in x + y && t.Aead? ensures AllKnown(more, t.plain) {
      AllKnownGrows(base, more, t.plain);
    }
  }

  /** No ephemeral private key, hash or shared secret is ever exposed. */
  lemma EphemeralsStayHidden(run: seq<State>, tail: seq<State>, j: nat)
    requires IsRun(run) && IsTail(run, tail) && j < |tail|
    ensures NothingDerived(Exposed(tail[j]))
    ensures forall n: nat | n >= 2 :: Secret(n) !in Exposed(tail[j])
  {
    hide IsRun, IsStepAfter, OffersOk, AnswersOk, HistoryOk, Agreed, WireOk, AllKnown;
    TailIsHarmless(run, tail, j);
    RunKeepsInv(run, |run| - 1);
    SeenKinds(Last(run));
    forall t | t in Exposed(tail[j]) ensures t.Pub? || t.Mac? || t.Aead? || t == Secret(0) || t == Secret(1) {
      if t in tail[j].seen && t !in Last(run).seen {
        assert t in tail[j].seen - Last(run).seen;
      }
    }
  }

  /** Forward secrecy: a key in use before both static private keys became known stays unknown to a network that
      has them, whatever it then does with them. */
  lemma ForwardSecrecy(run: seq<State>, i: nat, tail: seq<State>, j: nat, initiator: bool)
    requires IsRun(run) && i < |run| && Side(run[i], initiator).session.active
    requires IsTail(run, tail) && j < |tail|
    ensures var keys := Side(run[i], initiator).session.keys;
      !AllKnown(Exposed(tail[j]), keys.send) && !AllKnown(Exposed(tail[j]), keys.receive)
  {
    hide IsRun, IsStepAfter, HistoryOk, OffersOk, WireOk, AllKnown, AnswerKeys, Answerable, Answers, Exposed;
    RunKeepsInv(run, i);
    RunKeepsInv(run, |run| - 1);
    AnswersStay(run, i, |run| - 1);
    var x := SessionAnswer(run[i], initiator);
    var s := Last(run);
    assert x in s.answers && AnswerOk(s, x);
    var o :| o in s.offers && Answers(x, o);
    OfferIsFresh(s, o);
    EphemeralsStayHidden(run, tail, j);
    EphemeralsProtect(Exposed(tail[j]), x, o);
  }

  lemma OfferIsFresh(s: State, o: Offer)
    requires OffersOk(s) && o in s.offers
    ensures o.n >= 2
  {
  }

  // ----------------------------------------------------------------- opening

  /** The keys packets were sealed under before the leak. */
  lemma SealedKeyProtected(s: State, base: set<Term>, z: Sealed)
    requires Inv(s) && z in s.sealed && NothingDerived(base) && forall n: nat | n >= 2 :: Secret(n) !in base
    ensures !AllKnown(base, z.key)
  {
    hide AllKnown, WireOk, OffersOk, Answers, Answerable, AnswerKeys, Shape, DeliveredOk;
    assert SealedOk(s, z);
    var x;
    if z.byInitiator {
      x := Last(s.answers);
    } else {
      x :| x in s.answers && Answerable(x) && z.key == AnswerKeys(x).send;
    }
    assert x in s.answers && AnswerOk(s, x);
    var o :| o in s.offers && Answers(x, o);
    OfferIsFresh(s, o);
    EphemeralsProtect(base, x, o);
  }

  /** Of every ciphertext seen before the leak, the key stays unknown or the plaintext is no news. */
  lemma OpeningIsNoNews(s: State, base: set<Term>, t: Term)
    requires Inv(s) && t in s.seen && t.Aead? && Secret(0) in base && NothingDerived(base)
    requires forall n: nat | n >= 2 :: Secret(n) !in base
    ensures !AllKnown(base, t.key) || AllKnown(base, t.plain)
  {
    hide AllKnown, OffersOk, AnswersOk, HistoryOk, Agreed, Answerable, OfferMac, AnswerMac, Private, AnswerOk,
         Chain1, Chain2, StaticKey, StampKey, AnswerFinish, Stamp;
    assert Travelled(s, t);
    if o :| o in s.offers && (t == StaticTerm(o.n) || t == StampTerm(o)) {
      StaticIsKnown(base);
      PlainIsKnown(base, Stamp(o.clock));
    } else if x :| x in s.answers && Answerable(x) && t == ConfirmTerm(x) {
      PlainIsKnown(base, []);
    } else {
      var z :| z in s.sealed && t == SealedTerm(z);
      SealedKeyProtected(s, base, z);
    }
  }

  /** With the static keys the network can open things, and still learns nothing it could not compute. */
  lemma OpeningStillTeachesNothing(run: seq<State>, tail: seq<State>, j: nat,
                                   key: Bytes, nonce: Bytes, plain: Bytes, aad: Bytes)
    requires IsRun(run) && IsTail(run, tail) && j < |tail|
    requires Known(Exposed(tail[j]), Aead(key, nonce, plain, aad)) && AllKnown(Exposed(tail[j]), key)
    ensures AllKnown(Exposed(tail[j]), plain)
  {
    hide IsRun, IsStepAfter, Inv, AllKnown, Known, Shape;
    var s, base := Last(run), Exposed(tail[j]);
    RunKeepsInv(run, |run| - 1);
    TailIsHarmless(run, tail, j);
    EphemeralsStayHidden(run, tail, j);
    forall t | t in base && t.Aead? ensures !AllKnown(base, t.key) || AllKnown(base, t.plain) {
      if t in s.seen {
        OpeningIsNoNews(s, base, t);
      } else {
        assert t in tail[j].seen - s.seen;
      }
    }
    DecryptionAddsNothing(base, key, nonce, plain, aad);
  }
}
