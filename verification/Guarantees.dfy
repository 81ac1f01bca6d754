/** What holds in every state of every run of the two relays, whatever the network does. */
module Guarantees {
  import opened Octets
  import opened Crypto
  import opened Exchange
  import opened Knowledge
  import opened Timestamp
  import opened Tunnel
  import opened Authenticity
  import opened Safety
  import Sessions
  import Wire

  /** A run of the two relays under any schedule of the network. */
  ghost predicate IsRun(run: seq<State>) {
    && run != [] && Initial(run[0])
    && forall i :: 0 <= i < |run| - 1 ==> IsStep(run[i], run[i + 1])
  }

  ghost predicate IsStep(s: State, s': State) {
    exists mv :: Enabled(s, mv) && Side(s, mv.atInitiator).Valid() && s' == Next(s, mv)
  }

  lemma {:induction false} RunKeepsInv(run: seq<State>, i: nat)
    requires IsRun(run) && i < |run|
    ensures Inv(run[i])
    decreases i
  {
    hide Inv, Next, Enabled, Initial;
    if i == 0 {
      InitialInv(run[0]);
    } else {
      RunKeepsInv(run, i - 1);
      assert IsStep(run[i - 1], run[i]);
      var mv :| Enabled(run[i - 1], mv) && Side(run[i - 1], mv.atInitiator).Valid() && run[i] == Next(run[i - 1], mv);
      KeepsInv(run[i - 1], mv);
    }
  }

  /** Two-party agreement. In every state of every run, an active initiator session is matched by an active
      responder session that holds the same two keys the other way round, and, unless the network was given
      the initiator's public key, the same two indices. */
  lemma Agreement(run: seq<State>, i: nat)
    requires IsRun(run) && i < |run| && run[i].a.session.active
    ensures run[i].b.session.active
    ensures KeysCross(run[i].a.session.keys, run[i].b.session.keys)
    ensures Pub(Private(0)) !in run[i].leak ==> Sessions.Crossed(run[i].a.session.keys, run[i].b.session.keys)
  {
    hide IsRun, WireOk, HistoryOk, OffersOk, Answers, AnswerOk;
    RunKeepsInv(run, i);
  }

  /** No pair of key and counter is ever sealed twice, by either side, across any number of handshakes. */
  lemma NonceUniqueness(run: seq<State>, i: nat, j: nat, k: nat)
    requires IsRun(run) && i < |run| && j < k < |run[i].sealed|
    ensures var x, y := run[i].sealed[j], run[i].sealed[k];
      x.key != y.key || NonceOf(x.counter) != NonceOf(y.counter)
  {
    hide IsRun, WireOk, AnswersOk, OffersOk, Agreed;
    RunKeepsInv(run, i);
    var s := run[i];
    var x, y := s.sealed[j], s.sealed[k];
    assert SealedOk(s, x) && SealedOk(s, y);
    if x.key == y.key && NonceOf(x.counter) == NonceOf(y.counter) {
      NonceInjective(x.counter, y.counter);
    }
  }

  /** At most once, and authentic: no pair of key and counter is delivered twice, and every packet delivered
      is one the other side sealed under that pair, cut where its own header says it ends. */
  lemma DeliveredOnceAndAuthentic(run: seq<State>, i: nat, j: nat)
    requires IsRun(run) && i < |run| && j < |run[i].delivered|
    ensures var d := run[i].delivered[j];
      && (forall k :: 0 <= k < |run[i].delivered| && k != j ==>
           run[i].delivered[k].key != d.key || run[i].delivered[k].counter != d.counter)
      && exists x | x in run[i].sealed ::
           && x.byInitiator == !d.toInitiator && x.key == d.key && x.counter == d.counter
           && Sessions.Trimmed(Sessions.Padded(x.packet)) == Some(d.packet)
  {
    hide IsRun, WireOk, AnswersOk, OffersOk, Agreed, Sessions.Trimmed, Sessions.Padded;
    RunKeepsInv(run, i);
    assert DeliveredOk(run[i], run[i].delivered[j]);
  }

  /** Everything written to a TUN device is an IPv4 packet of exactly its own length, from the front of what the
      other side sealed; and it is that side's packet itself whenever that was such a packet. */
  lemma DeliveredArePackets(run: seq<State>, i: nat, j: nat)
    requires IsRun(run) && i < |run| && j < |run[i].delivered|
    ensures var d := run[i].delivered[j];
      && Wire.InnerLength(d.packet) == Some(|d.packet|)
      && exists x | x in run[i].sealed ::
           && x.byInitiator == !d.toInitiator && x.key == d.key && x.counter == d.counter
           && d.packet <= Sessions.Padded(x.packet)
           && (Sessions.WellFormed(x.packet) ==> d.packet == x.packet)
  {
    hide IsRun, WireOk, AnswersOk, OffersOk, Agreed, Sessions.Trimmed, Sessions.Padded, Wire.InnerLength,
         Sessions.WellFormed;
    RunKeepsInv(run, i);
    var s, d := run[i], run[i].delivered[j];
    assert DeliveredOk(s, d);
    var x :| x in s.sealed && x.byInitiator == !d.toInitiator && x.key == d.key && x.counter == d.counter
      && Sessions.Trimmed(Sessions.Padded(x.packet)) == Some(d.packet);
    Sessions.TrimmedExactly(Sessions.Padded(x.packet), d.packet);
    Wire.InnerLengthOfPrefix(Sessions.Padded(x.packet));
    assert Sessions.Padded(x.packet)[..|d.packet|] == d.packet;
    if Sessions.WellFormed(x.packet) {
      Sessions.TrimPadded(x.packet);
    }
  }

  /** Responses already written stay in the history. */
  lemma {:induction false} AnswersStay(run: seq<State>, i: nat, j: nat)
    requires IsRun(run) && i <= j < |run|
    ensures run[i].answers <= run[j].answers
    decreases j
  {
    hide Enabled, Initial;
    if i < j {
      AnswersStay(run, i, j - 1);
      assert IsStep(run[j - 1], run[j]);
    }
  }

  /** The keys of a session in use are those of a response in the history. */
  lemma SessionAnswer(s: State, initiator: bool) returns (x: Answer)
    requires Inv(s) && Side(s, initiator).session.active
    ensures x in s.answers && Answerable(x)
    ensures var keys := Side(s, initiator).session.keys;
      KeysCross(keys, AnswerKeys(x)) || (keys.send == AnswerKeys(x).send && keys.receive == AnswerKeys(x).receive)
  {
    hide WireOk, HistoryOk, OffersOk, Answers, AnswerOk, AnswerKeys, Answerable;
    x := Last(s.answers);
  }

  /** The network never learns a key that was in use: not then, and not later in the run. */
  lemma KeysStaySecret(run: seq<State>, i: nat, j: nat, initiator: bool)
    requires IsRun(run) && i <= j < |run| && Side(run[i], initiator).session.active
    ensures var keys := Side(run[i], initiator).session.keys;
      !AllKnown(run[j].seen, keys.send) && !AllKnown(run[j].seen, keys.receive)
  {
    hide IsRun, WireOk, HistoryOk, OffersOk, Answers, AnswerOk, AllKnown, AnswerKeys, Answerable;
    RunKeepsInv(run, i);
    RunKeepsInv(run, j);
    AnswersStay(run, i, j);
    var x := SessionAnswer(run[i], initiator);
    AnswerKeysUnknown(run[j], x);
  }

  /** A response's keys are unknown to whoever has neither of the two ephemeral private keys. */
  lemma EphemeralsProtect(base: set<Term>, x: Answer, o: Offer)
    requires NothingDerived(base) && Secret(x.n) !in base && Secret(o.n) !in base
    requires Answerable(x) && x.handshake.chain.Valid() && Answers(x, o)
    ensures !AllKnown(base, AnswerKeys(x).send) && !AllKnown(base, AnswerKeys(x).receive)
  {
    hide AllKnown, Kdf, HashOf, Chain3, Stamp;
    var r := Private(x.n);
    DhAgrees(r, Private(o.n));
    SecretsUnknown(base, x.n, o.n);
    FinishUnknown(base, x.handshake.chain, PublicKey(r), SharedSecret(x.n, o.n), Dh(r, ResponderId().peerPublic).value);
  }

  // ------------------------------------------- why opening need not be modelled

  lemma ConfirmKeyUnknown(s: State, x: Answer)
    requires Shape(s) && WireOk(s) && AnswerOk(s, x)
    ensures !AllKnown(s.seen, ConfirmTerm(x).key)
  {
    hide AllKnown, Dh, Kdf, HashOf, PublicKey, Private, Chain3, WireOk;
    var o :| o in s.offers && Answers(x, o);
    SeenKinds(s);
    Chain3Unknown(s, o.n, Stamp(o.clock));
    var r := Private(x.n);
    FinishUnknown(s.seen, x.handshake.chain, PublicKey(r), Dh(r, x.handshake.peerEphemeral).value,
                  Dh(r, ResponderId().peerPublic).value);
  }

  lemma SealedKeyUnknown(s: State, x: Sealed)
    requires Inv(s) && x in s.sealed
    ensures !AllKnown(s.seen, x.key)
  {
    hide AllKnown, WireOk, OffersOk, Answers, Answerable, AnswerKeys, Shape, DeliveredOk;
    assert SealedOk(s, x);
    if x.byInitiator {
      var last := Last(s.answers);
      assert last in s.answers;
      AnswerKeysUnknown(s, last);
    } else {
      var z :| z in s.answers && Answerable(z) && x.key == AnswerKeys(z).send;
      AnswerKeysUnknown(s, z);
    }
  }

  /** Every ciphertext that travels is under a key the network does not know. */
  lemma CiphertextKeyUnknown(s: State, t: Term)
    requires Inv(s) && t in s.seen && t.Aead?
    ensures !AllKnown(s.seen, t.key)
  {
    hide AllKnown, OffersOk, AnswersOk, HistoryOk, Agreed, Answerable, OfferMac, AnswerMac, Private, AnswerOk,
         Kdf, HashOf, ConfirmTerm, Chain1, Chain2, SharedSecret;
    SeenKinds(s);
    assert Travelled(s, t);
    if o :| o in s.offers && (t == StaticTerm(o.n) || t == StampTerm(o)) {
      StaticKeyUnknown(s.seen, o.n);
      StampKeyUnknown(s.seen, Chain2(o.n));
    } else if x :| x in s.answers && Answerable(x) && t == ConfirmTerm(x) {
      assert AnswerOk(s, x) by { AnswersAreOk(s, x); }
      ConfirmKeyUnknown(s, x);
    } else {
      var x :| x in s.sealed && t == SealedTerm(x);
      SealedKeyUnknown(s, x);
    }
  }

  lemma AnswersAreOk(s: State, x: Answer)
    requires AnswersOk(s) && x in s.answers
    ensures AnswerOk(s, x)
  {
    hide AnswerOk;
  }

  /** The network computes forwards only, and loses nothing by it: in every state of every run, whatever it
      could open it already knew. */
  lemma OpeningTeachesNothing(run: seq<State>, i: nat, key: Bytes, nonce: Bytes, plain: Bytes, aad: Bytes)
    requires IsRun(run) && i < |run|
    requires Known(run[i].seen, Aead(key, nonce, plain, aad)) && AllKnown(run[i].seen, key)
    ensures AllKnown(run[i].seen, plain)
  {
    hide IsRun, Inv, AllKnown, Known;
    RunKeepsInv(run, i);
    forall t | t in run[i].seen && t.Aead? ensures !AllKnown(run[i].seen, t.key) {
      CiphertextKeyUnknown(run[i], t);
    }
    DecryptionAddsNothing(run[i].seen, key, nonce, plain, aad);
  }
}
