/** What someone on the network can compute: every byte that travelled, every plain byte, and whatever the
    primitives make of bytes already known. A primitive's inputs are never recovered from its output. */
module Knowledge {
  import opened Octets
  import opened Crypto

  /** `t` can be computed from the terms of `base`. */
  ghost predicate Known(base: set<Term>, t: Term)
    decreases t
  {
    t in base ||
    match t
    case Secret(_) => false
    case Hash(x) => AllKnown(base, x)
    case Mac(k, x) => AllKnown(base, k) && AllKnown(base, x)
    case Pub(p) => AllKnown(base, p)
    case Shared(keys) => exists k | k in keys :: AllKnown(base, k.bytes)
    case Point(p, _) => AllKnown(base, p)
    case Aead(k, n, p, a) => AllKnown(base, k) && AllKnown(base, n) && AllKnown(base, p) && AllKnown(base, a)
  }

  ghost predicate AllKnown(base: set<Term>, s: Bytes)
    decreases s
  {
    forall o | o in s :: OctetKnown(base, o)
  }

  ghost predicate OctetKnown(base: set<Term>, o: Octet)
    decreases o
  {
    o.Plain? || Known(base, o.term)
  }

  /** The terms a byte string shows. */
  function TermsOf(s: Bytes): (r: set<Term>) {
    set o | o in s && o.Of? :: o.term
  }

  /** Nothing but public keys, MACs and ciphertexts. */
  ghost predicate OnlyWireTerms(base: set<Term>) {
    forall t | t in base :: t.Pub? || t.Mac? || t.Aead?
  }

  /** No hash and no shared secret travelled or leaked as such. */
  ghost predicate NothingDerived(base: set<Term>) {
    forall t | t in base :: !t.Hash? && !t.Shared?
  }

  lemma KnownPart(base: set<Term>, s: Bytes, i: nat, j: nat)
    requires i <= j <= |s| && AllKnown(base, s)
    ensures AllKnown(base, s[i..j])
  {
    forall o | o in s[i..j] ensures OctetKnown(base, o) {
      assert o in s;
    }
  }

  lemma KnownJoin(base: set<Term>, s: Bytes, t: Bytes)
    ensures AllKnown(base, s + t) <==> AllKnown(base, s) && AllKnown(base, t)
  {
    if AllKnown(base, s + t) {
      assert (s + t)[..|s|] == s && (s + t)[|s|..] == t;
      KnownPart(base, s + t, 0, |s|);
      KnownPart(base, s + t, |s|, |s + t|);
    }
    if AllKnown(base, s) && AllKnown(base, t) {
      forall o | o in s + t ensures OctetKnown(base, o) {
        assert o in s || o in t;
      }
    }
  }

  lemma KnownSpread(base: set<Term>, t: Term, n: nat)
    requires n > 0
    ensures AllKnown(base, Spread(t, n)) <==> Known(base, t)
  {
    assert Spread(t, n)[0] == Of(t, 0, 0);
    assert Of(t, 0, 0) in Spread(t, n);
    forall o | o in Spread(t, n) ensures o.Of? && o.term == t {
    }
  }

  lemma KnownXor(base: set<Term>, s: Bytes, m: Byte)
    ensures AllKnown(base, XorAll(s, m)) ==> AllKnown(base, s)
  {
    if AllKnown(base, XorAll(s, m)) {
      forall o | o in s ensures OctetKnown(base, o) {
        var i :| 0 <= i < |s| && s[i] == o;
        assert XorAll(s, m)[i] == XorOctet(o, m);
        assert XorOctet(o, m) in XorAll(s, m);
        assert OctetKnown(base, XorOctet(o, m));
      }
    }
  }

  lemma PlainIsKnown(base: set<Term>, s: Bytes)
    requires IsPlain(s)
    ensures AllKnown(base, s)
  {
  }

  /** A fresh random value is never computable, and neither is the shared secret of two of them. */
  lemma SecretsUnknown(base: set<Term>, m: nat, n: nat)
    requires NothingDerived(base) && Secret(m) !in base && Secret(n) !in base
    ensures !AllKnown(base, Private(m))
    ensures !AllKnown(base, Spread(Shared(multiset{Scalar(Private(m)), Scalar(Private(n))}), KEY_SIZE))
  {
    KnownSpread(base, Secret(m), KEY_SIZE);
    KnownSpread(base, Secret(n), KEY_SIZE);
    KnownSpread(base, Shared(multiset{Scalar(Private(m)), Scalar(Private(n))}), KEY_SIZE);
  }

  /** The n-th random value, as a 32-byte private key. */
  function Private(n: nat): (k: Bytes)
    ensures |k| == KEY_SIZE
  {
    Spread(Secret(n), KEY_SIZE)
  }

  lemma PrivateInjective(m: nat, n: nat)
    requires PublicKey(Private(m)) == PublicKey(Private(n))
    ensures m == n
  {
    SpreadInjective(Pub(Private(m)), KEY_SIZE, Pub(Private(n)), KEY_SIZE);
    SpreadInjective(Secret(m), KEY_SIZE, Secret(n), KEY_SIZE);
  }

  lemma HashUnknown(base: set<Term>, x: Bytes)
    requires NothingDerived(base) && AllKnown(base, HashOf(x))
    ensures AllKnown(base, x)
  {
    KnownSpread(base, Hash(x), HASH_SIZE);
  }

  /** A keyed hash can be computed only by someone who knows both the key and the input. */
  lemma HmacUnknown(base: set<Term>, k: Bytes, x: Bytes)
    requires NothingDerived(base) && |k| <= BLOCK_SIZE && AllKnown(base, Hmac(k, x))
    ensures AllKnown(base, k) && AllKnown(base, x)
  {
    var outer, inner := XorAll(PadKey(k), 0x5c), XorAll(PadKey(k), 0x36);
    HashUnknown(base, outer + HashOf(inner + x));
    KnownJoin(base, outer, HashOf(inner + x));
    HashUnknown(base, inner + x);
    KnownJoin(base, inner, x);
    KnownXor(base, PadKey(k), 0x36);
    KnownJoin(base, k, Zeros(BLOCK_SIZE - |k|));
  }

  /** So can every output of the key derivation. */
  lemma KdfUnknown(base: set<Term>, n: Byte, c: Bytes, x: Bytes)
    requires NothingDerived(base) && n >= 1 && |c| == HASH_SIZE && AllKnown(base, Kdf(n, c, x))
    ensures AllKnown(base, c) && AllKnown(base, x)
  {
    var prk := Hmac(c, x);
    HmacUnknown(base, prk, ExpandBlock(prk, n - 1) + [Plain(n)]);
    HmacUnknown(base, c, x);
  }

  /** A ciphertext under an unknown key was sealed by someone else: it is one that travelled. */
  lemma CiphertextTravelled(base: set<Term>, key: Bytes, counter: nat, plain: Bytes, aad: Bytes)
    requires AllKnown(base, Seal(key, counter, plain, aad)) && !AllKnown(base, key)
    ensures Aead(key, NonceOf(counter), plain, aad) in base
  {
    KnownSpread(base, Aead(key, NonceOf(counter), plain, aad), |plain| + TAG_SIZE);
  }

  lemma MacTravelled(base: set<Term>, key: Bytes, input: Bytes)
    requires AllKnown(base, MacOf(key, input)) && !AllKnown(base, key)
    ensures Mac(key, input) in base
  {
    KnownSpread(base, Mac(key, input), MAC_SIZE);
  }

  /** Opening ciphertexts teaches nothing, if of each that travelled the key is unknown or the plaintext known:
      whoever knows a ciphertext and its key knows the plaintext. */
  lemma DecryptionAddsNothing(base: set<Term>, key: Bytes, nonce: Bytes, plain: Bytes, aad: Bytes)
    requires forall t | t in base && t.Aead? :: !AllKnown(base, t.key) || AllKnown(base, t.plain)
    requires Known(base, Aead(key, nonce, plain, aad)) && AllKnown(base, key)
    ensures AllKnown(base, plain)
  {
    assert Aead(key, nonce, plain, aad).key == key;
  }

  /** More terms, more knowledge. */
  lemma {:induction false} KnownGrows(base: set<Term>, more: set<Term>, t: Term)
    requires base <= more && Known(base, t)
    ensures Known(more, t)
    decreases t
  {
    if t !in base {
      match t
      case Secret(_) =>
      case Hash(x) => AllKnownGrows(base, more, x);
      case Mac(k, x) =>
        AllKnownGrows(base, more, k);
        AllKnownGrows(base, more, x);
      case Pub(p) => AllKnownGrows(base, more, p);
      case Shared(keys) =>
        var k :| k in keys && AllKnown(base, k.bytes);
        AllKnownGrows(base, more, k.bytes);
      case Point(p, _) => AllKnownGrows(base, more, p);
      case Aead(k, n, p, a) =>
        AllKnownGrows(base, more, k);
        AllKnownGrows(base, more, n);
        AllKnownGrows(base, more, p);
        AllKnownGrows(base, more, a);
    }
  }

  lemma {:induction false} AllKnownGrows(base: set<Term>, more: set<Term>, s: Bytes)
    requires base <= more && AllKnown(base, s)
    ensures AllKnown(more, s)
    decreases s
  {
    forall o | o in s ensures OctetKnown(more, o) {
      OctetKnownGrows(base, more, o);
    }
  }

  lemma {:induction false} OctetKnownGrows(base: set<Term>, more: set<Term>, o: Octet)
    requires base <= more && OctetKnown(base, o)
    ensures OctetKnown(more, o)
    decreases o
  {
    if o.Of? {
      KnownGrows(base, more, o.term);
    }
  }
}
