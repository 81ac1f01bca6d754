/** No two different ciphertexts are ever made under the same key and nonce, handshake fields included. */
module Nonces {
  import opened Octets
  import opened Crypto
  import opened Exchange
  import opened Knowledge
  import opened Tunnel
  import opened Safety
  import opened Guarantees
  import Noise

  /** Where a ciphertext came from. */
  datatype Origin =
    | StaticOf(offer: Offer) | StampOf(offer: Offer) | ConfirmOf(answer: Answer) | PacketOf(packet: Sealed)

  ghost predicate InHistory(s: State, g: Origin) {
    match g
    case StaticOf(o) => o in s.offers
    case StampOf(o) => o in s.offers
    case ConfirmOf(x) => x in s.answers && Answerable(x)
    case PacketOf(x) => x in s.sealed
  }

  ghost function Ciphertext(g: Origin): (t: Term)
    requires g.ConfirmOf? ==> Answerable(g.answer)
    ensures t.Aead?
  {
    match g
    case StaticOf(o) => StaticTerm(o.n)
    case StampOf(o) => StampTerm(o)
    case ConfirmOf(x) => ConfirmTerm(x)
    case PacketOf(x) => SealedTerm(x)
  }

  lemma OriginOf(s: State, t: Term) returns (g: Origin)
    requires Shape(s) && WireOk(s) && t in s.seen && t.Aead?
    ensures InHistory(s, g) && t == Ciphertext(g)
  {
    hide StaticTerm, StampTerm, OfferMac, ConfirmTerm, AnswerMac, SealedTerm, Answerable, Private;
    assert Travelled(s, t);
    if o :| o in s.offers && t == StaticTerm(o.n) {
      return StaticOf(o);
    } else if o :| o in s.offers && t == StampTerm(o) {
      return StampOf(o);
    } else if x :| x in s.answers && Answerable(x) && t == ConfirmTerm(x) {
      return ConfirmOf(x);
    }
    var x :| x in s.sealed && t == SealedTerm(x);
    return PacketOf(x);
  }

  lemma ConfirmDerivation(y: Answer) returns (c: Bytes)
    requires Answerable(y)
    ensures |c| == HASH_SIZE && ConfirmTerm(y).key == Kdf(3, c, Zeros(KEY_SIZE))
  {
    hide Kdf, HashOf, PublicKey, Private;
    var r := Private(y.n);
    var c4 := Noise.MixEphemeral(y.handshake.chain, PublicKey(r));
    c := Kdf(1, Kdf(1, c4.key, Dh(r, y.handshake.peerEphemeral).value), Dh(r, ResponderId().peerPublic).value);
  }

  lemma SealedDerivation(s: State, z: Sealed) returns (m: Byte, c: Bytes)
    requires Inv(s) && z in s.sealed
    ensures 1 <= m <= 2 && |c| == HASH_SIZE && z.key == Kdf(m, c, [])
  {
    hide AllKnown, WireOk, OffersOk, Answers, Shape, DeliveredOk, AnswerOk, Kdf, AnswerFinish;
    assert SealedOk(s, z);
    if z.byInitiator {
      return 1, AnswerFinish(Last(s.answers)).key;
    } else {
      var y :| y in s.answers && Answerable(y) && z.key == AnswerKeys(y).send;
      return 2, AnswerFinish(y).key;
    }
  }

  lemma SharedSecretInjective(m: nat, n: nat)
    requires SharedSecret(m, 1) == SharedSecret(n, 1)
    ensures m == n
  {
    SpreadInjective(Shared(multiset{Scalar(Private(m)), Scalar(Private(1))}), KEY_SIZE,
                    Shared(multiset{Scalar(Private(n)), Scalar(Private(1))}), KEY_SIZE);
    var one := Scalar(Private(1));
    assert multiset{Scalar(Private(m)), one} - multiset{one} == multiset{Scalar(Private(m))};
    assert multiset{Scalar(Private(n)), one} - multiset{one} == multiset{Scalar(Private(n))};
    assert Scalar(Private(m)) in multiset{Scalar(Private(n))};
    SpreadInjective(Secret(m), KEY_SIZE, Secret(n), KEY_SIZE);
  }

  lemma Chain2KeyInjective(m: nat, n: nat)
    requires Chain2(m).key == Chain2(n).key
    ensures m == n
  {
    hide Kdf;
    KdfInjective(1, Chain1(m).key, SharedSecret(m, 1), 1, Chain1(n).key, SharedSecret(n, 1));
    SharedSecretInjective(m, n);
  }

  lemma SameStamp(s: State, o: Offer, p: Offer)
    requires OffersOk(s) && o in s.offers && p in s.offers && StampTerm(o).key == StampTerm(p).key
    ensures o == p
  {
    hide Kdf, OfferHandshake, Chain2;
    KdfInjective(2, Chain2(o.n).key, SharedSecret(0, 1), 2, Chain2(p.n).key, SharedSecret(0, 1));
    Chain2KeyInjective(o.n, p.n);
    var i :| 0 <= i < |s.offers| && s.offers[i] == o;
    var j :| 0 <= j < |s.offers| && s.offers[j] == p;
  }

  lemma SameConfirm(s: State, x: Answer, y: Answer)
    requires AnswersOk(s) && x in s.answers && y in s.answers && Answerable(x) && Answerable(y)
    requires ConfirmTerm(x).key == ConfirmTerm(y).key
    ensures x == y
  {
    hide Kdf, HashOf, PublicKey, Private, Answers, AnswerKeys;
    assert AnswerOk(s, x) && AnswerOk(s, y);
    var p, q := Private(x.n), Private(y.n);
    FinishInjective(x.handshake.chain, PublicKey(p), Dh(p, x.handshake.peerEphemeral).value,
                    Dh(p, ResponderId().peerPublic).value,
                    y.handshake.chain, PublicKey(q), Dh(q, y.handshake.peerEphemeral).value,
                    Dh(q, ResponderId().peerPublic).value);
    PrivateInjective(x.n, y.n);
    var i :| 0 <= i < |s.answers| && s.answers[i] == x;
    var j :| 0 <= j < |s.answers| && s.answers[j] == y;
  }

  lemma SamePacket(s: State, x: Sealed, y: Sealed)
    requires HistoryOk(s) && x in s.sealed && y in s.sealed
    requires x.key == y.key && NonceOf(x.counter) == NonceOf(y.counter)
    ensures x == y
  {
    assert SealedOk(s, x) && SealedOk(s, y);
    NonceInjective(x.counter, y.counter);
    var i :| 0 <= i < |s.sealed| && s.sealed[i] == x;
    var j :| 0 <= j < |s.sealed| && s.sealed[j] == y;
  }

  /** How each key was derived: which output, of which chaining key and which input. */
  lemma KeyDerivation(s: State, g: Origin) returns (m: Byte, c: Bytes, x: Bytes)
    requires Inv(s) && InHistory(s, g)
    ensures 1 <= m && |c| == HASH_SIZE && Ciphertext(g).key == Kdf(m, c, x)
    ensures match g
      case StaticOf(o) => m == 2 && x == SharedSecret(o.n, 1)
      case StampOf(_) => m == 2 && x == SharedSecret(0, 1)
      case ConfirmOf(_) => m == 3
      case PacketOf(_) => m <= 2 && x == []
  {
    hide Inv, Kdf, Chain1, Chain2, ConfirmTerm, SharedSecret;
    match g
    case StaticOf(o) => return 2, Chain1(o.n).key, SharedSecret(o.n, 1);
    case StampOf(o) => return 2, Chain2(o.n).key, SharedSecret(0, 1);
    case ConfirmOf(y) =>
      c := ConfirmDerivation(y);
      return 3, c, Zeros(KEY_SIZE);
    case PacketOf(z) =>
      m, c := SealedDerivation(s, z);
      return m, c, [];
  }

  /** Different origins, different key or nonce. */
  lemma OriginsDiffer(s: State, g: Origin, h: Origin)
    requires Inv(s) && InHistory(s, g) && InHistory(s, h)
    requires Ciphertext(g).key == Ciphertext(h).key && Ciphertext(g).nonce == Ciphertext(h).nonce
    ensures Ciphertext(g) == Ciphertext(h)
  {
    hide WireOk, Kdf, StaticTerm, StampTerm, ConfirmTerm, SharedSecret, Answerable, AnswersOk, HistoryOk, Agreed;
    var m, c, x := KeyDerivation(s, g);
    var m', c', x' := KeyDerivation(s, h);
    KdfInjective(m, c, x, m', c', x');
    match (g, h)
    case (StaticOf(o), StaticOf(p)) => SharedSecretInjective(o.n, p.n);
    case (StaticOf(o), StampOf(_)) => SharedSecretInjective(o.n, 0);
    case (StampOf(_), StaticOf(p)) => SharedSecretInjective(0, p.n);
    case (StampOf(o), StampOf(p)) => SameStamp(s, o, p);
    case (ConfirmOf(y), ConfirmOf(z)) => SameConfirm(s, y, z);
    case (PacketOf(y), PacketOf(z)) => SamePacket(s, y, z);
    case _ =>
  }

  /** Of all ciphertexts that ever travel, handshake fields and packets alike, no two different ones are under
      the same key and nonce. */
  lemma NoNonceReuse(run: seq<State>, i: nat, t: Term, u: Term)
    requires IsRun(run) && i < |run| && t in run[i].seen && u in run[i].seen
    requires t.Aead? && u.Aead? && t.key == u.key && t.nonce == u.nonce
    ensures t == u
  {
    hide IsRun, WireOk, OffersOk, AnswersOk, HistoryOk, Agreed, InHistory, Ciphertext;
    RunKeepsInv(run, i);
    var g := OriginOf(run[i], t);
    var h := OriginOf(run[i], u);
    OriginsDiffer(run[i], g, h);
  }
}
