/** The primitives the handshake and the sessions are built from, and the key derivation made of them.
    The inside of BLAKE2s, X25519 and ChaCha20-Poly1305 is symbolic; HMAC, the key derivation and the
    nonce are modelled byte by byte. */
module Crypto {
  import opened Octets

  const KEY_SIZE: nat := 32
  const HASH_SIZE: nat := 32
  const MAC_SIZE: nat := 16
  const TAG_SIZE: nat := 16
  const BLOCK_SIZE: nat := 64

  function HashOf(input: Bytes): (d: Bytes)
    ensures |d| == HASH_SIZE
  {
    Spread(Hash(input), HASH_SIZE)
  }

  function MacOf(key: Bytes, input: Bytes): (d: Bytes)
    ensures |d| == MAC_SIZE
  {
    Spread(Mac(key, input), MAC_SIZE)
  }

  // ---------------------------------------------------------------- X25519

  function PublicKey(priv: Bytes): (p: Bytes)
    ensures |p| == KEY_SIZE
  {
    Spread(Pub(priv), KEY_SIZE)
  }

  predicate IsPublicKey(p: Bytes) {
    |p| == KEY_SIZE && p[0].Of? && p[0].term.Pub? && p == Spread(p[0].term, KEY_SIZE)
  }

  /** Whether a point is rejected depends on the point alone, never on the private key. */
  predicate LowOrder(point: Bytes) {
    point == Zeros(KEY_SIZE)
  }

  function Dh(priv: Bytes, point: Bytes): (r: Option<Bytes>)
    ensures r.None? <==> LowOrder(point)
    ensures r.Some? ==> |r.value| == KEY_SIZE
  {
    if LowOrder(point) then None
    else if IsPublicKey(point) then
      Some(Spread(Shared(multiset{Scalar(priv), Scalar(point[0].term.priv)}), KEY_SIZE))
    else Some(Spread(Point(priv, point), KEY_SIZE))
  }

  lemma PublicKeyIsPublic(priv: Bytes)
    ensures IsPublicKey(PublicKey(priv)) && !LowOrder(PublicKey(priv))
    ensures PublicKey(priv)[0] == Of(Pub(priv), 0, 0)
  {
    assert PublicKey(priv)[0] == Of(Pub(priv), 0, 0);
    assert Zeros(KEY_SIZE)[0] == Plain(0);
  }

  /** Both ends of an exchange compute the same secret. */
  lemma DhAgrees(a: Bytes, b: Bytes)
    ensures Dh(a, PublicKey(b)) == Dh(b, PublicKey(a))
    ensures Dh(a, PublicKey(b)) == Some(Spread(Shared(multiset{Scalar(a), Scalar(b)}), KEY_SIZE))
  {
    PublicKeyIsPublic(a);
    PublicKeyIsPublic(b);
    assert multiset{Scalar(a), Scalar(b)} == multiset{Scalar(b), Scalar(a)};
  }

  // ------------------------------------------------------------------ AEAD

  /** Four zero bytes, then the counter, least significant byte first. */
  function NonceOf(counter: nat): (n: Bytes)
    ensures |n| == 12
  {
    Zeros(4) + LittleEndian(counter, 8)
  }

  lemma NonceInjective(c: nat, d: nat)
    requires c < U64 && d < U64 && NonceOf(c) == NonceOf(d)
    ensures c == d
  {
    WordSizes();
    assert LittleEndian(c, 8) == NonceOf(c)[4..] && LittleEndian(d, 8) == NonceOf(d)[4..];
    LittleRoundTrip(c, 8);
    LittleRoundTrip(d, 8);
  }

  /** The layout byte by byte: sections 2.3 of RFC 8439 and 5.4.6 of the WireGuard whitepaper. */
  lemma NonceLayout(c: nat)
    requires c < U64
    ensures NonceOf(c)[..4] == [Plain(0), Plain(0), Plain(0), Plain(0)]
    ensures IsPlain(NonceOf(c)[4..]) && LittleValue(NonceOf(c)[4..]) == c
  {
    WordSizes();
    assert NonceOf(c)[4..] == LittleEndian(c, 8);
    LittleRoundTrip(c, 8);
  }

  function Seal(key: Bytes, counter: nat, plain: Bytes, aad: Bytes): (c: Bytes)
    ensures |c| == |plain| + TAG_SIZE
  {
    Spread(Aead(key, NonceOf(counter), plain, aad), |plain| + TAG_SIZE)
  }

  function Open(key: Bytes, counter: nat, cipher: Bytes, aad: Bytes): (r: Option<Bytes>)
    ensures r.Some? <==> exists plain :: cipher == Seal(key, counter, plain, aad)
    ensures r.Some? ==> cipher == Seal(key, counter, r.value, aad) && |cipher| == |r.value| + TAG_SIZE
  {
    if |cipher| < TAG_SIZE || cipher[0].Plain? || !cipher[0].term.Aead? then
      SealShape(key, counter, cipher, aad);
      None
    else
      var p := cipher[0].term.plain;
      SealShape(key, counter, cipher, aad);
      if cipher == Seal(key, counter, p, aad) then Some(p) else None
  }

  lemma SealShape(key: Bytes, counter: nat, cipher: Bytes, aad: Bytes)
    ensures forall plain :: cipher == Seal(key, counter, plain, aad) ==>
      |cipher| >= TAG_SIZE && cipher[0] == Of(Aead(key, NonceOf(counter), plain, aad), 0, 0)
  {
  }

  lemma OpenSeal(key: Bytes, counter: nat, plain: Bytes, aad: Bytes)
    ensures Open(key, counter, Seal(key, counter, plain, aad), aad) == Some(plain)
  {
    SealShape(key, counter, Seal(key, counter, plain, aad), aad);
  }

  /** A ciphertext opens only under the key, the counter and the additional data it was sealed with. */
  lemma SealInjective(key: Bytes, counter: nat, plain: Bytes, aad: Bytes,
                      key': Bytes, counter': nat, plain': Bytes, aad': Bytes)
    requires Seal(key, counter, plain, aad) == Seal(key', counter', plain', aad')
    requires counter < U64 && counter' < U64
    ensures key == key' && counter == counter' && plain == plain' && aad == aad'
  {
    SpreadInjective(Aead(key, NonceOf(counter), plain, aad), |plain| + TAG_SIZE,
                    Aead(key', NonceOf(counter'), plain', aad'), |plain'| + TAG_SIZE);
    NonceInjective(counter, counter');
  }

  // ------------------------------------------------------------ HMAC and KDF

  /** The key as one hash block, section 2 of RFC 2104. */
  function PadKey(key: Bytes): (p: Bytes)
    ensures |p| == BLOCK_SIZE
  {
    if |key| > BLOCK_SIZE then HashOf(key) + Zeros(BLOCK_SIZE - HASH_SIZE)
    else key + Zeros(BLOCK_SIZE - |key|)
  }

  function Hmac(key: Bytes, input: Bytes): (d: Bytes)
    ensures |d| == HASH_SIZE
  {
    HashOf(XorAll(PadKey(key), 0x5c) + HashOf(XorAll(PadKey(key), 0x36) + input))
  }

  /** A 32-byte key as one 64-byte block, every byte exclusive-ored with `m`. */
  function PadBlock(key: Bytes, m: Byte): (b: Bytes)
    requires |key| == 32
  {
    seq(64, i requires 0 <= i < 64 => if i < 32 then XorOctet(key[i], m) else Plain(m))
  }

  lemma XorZero(m: Byte)
    ensures XorByte(0, m) == m
  {
    ByteBits();
    XorBitsZero(m, 8);
  }

  lemma {:induction false} XorBitsZero(m: nat, n: nat)
    requires m < Power2(n)
    ensures XorBits(0, m, n) == m
  {
    if n > 0 {
      XorBitsZero(m / 2, n - 1);
    }
  }

  lemma PadBlockIs(key: Bytes, m: Byte)
    requires |key| == 32
    ensures XorAll(PadKey(key), m) == PadBlock(key, m)
  {
    hide XorByte;
    XorZero(m);
  }

  /** HMAC as section 2 of RFC 2104 writes it, with its two pad bytes; a key longer than a block is hashed. */
  lemma HmacIs(key: Bytes, input: Bytes)
    ensures |key| == 32 ==> Hmac(key, input) == HashOf(PadBlock(key, 0x5c) + HashOf(PadBlock(key, 0x36) + input))
    ensures |key| > 64 ==> Hmac(key, input) == Hmac(HashOf(key), input)
  {
    if |key| == 32 {
      PadBlockIs(key, 0x5c);
      PadBlockIs(key, 0x36);
    }
  }

  lemma HashInjective(a: Bytes, b: Bytes)
    requires HashOf(a) == HashOf(b)
    ensures a == b
  {
    SpreadInjective(Hash(a), HASH_SIZE, Hash(b), HASH_SIZE);
  }

  lemma PadKeyInjective(k: Bytes, l: Bytes)
    requires |k| == |l| <= BLOCK_SIZE && PadKey(k) == PadKey(l)
    ensures k == l
  {
    assert k == PadKey(k)[..|k|] && l == PadKey(l)[..|l|];
  }

  /** Keyed hashing is injective in the key and in the input. */
  lemma HmacInjective(k: Bytes, x: Bytes, l: Bytes, y: Bytes)
    requires |k| == |l| <= BLOCK_SIZE && Hmac(k, x) == Hmac(l, y)
    ensures k == l && x == y
  {
    var ok, ol := XorAll(PadKey(k), 0x5c), XorAll(PadKey(l), 0x5c);
    var ik, il := XorAll(PadKey(k), 0x36), XorAll(PadKey(l), 0x36);
    HashInjective(ok + HashOf(ik + x), ol + HashOf(il + y));
    assert HashOf(ik + x) == (ok + HashOf(ik + x))[BLOCK_SIZE..];
    assert HashOf(il + y) == (ol + HashOf(il + y))[BLOCK_SIZE..];
    HashInjective(ik + x, il + y);
    assert ik == (ik + x)[..BLOCK_SIZE] && il == (il + y)[..BLOCK_SIZE];
    assert x == (ik + x)[BLOCK_SIZE..] && y == (il + y)[BLOCK_SIZE..];
    XorAllInjective(PadKey(k), PadKey(l), 0x36);
    PadKeyInjective(k, l);
  }

  /** T(n) of HKDF-Expand with empty info, section 2.3 of RFC 5869. */
  function ExpandBlock(prk: Bytes, n: Byte): (t: Bytes)
    ensures |t| == if n == 0 then 0 else HASH_SIZE
  {
    if n == 0 then [] else Hmac(prk, ExpandBlock(prk, n - 1) + [Plain(n)])
  }

  /** Output `n` of the whitepaper's KDF: extract, then expand. */
  function Kdf(n: Byte, chainingKey: Bytes, input: Bytes): (t: Bytes)
    requires n >= 1
    ensures |t| == HASH_SIZE
  {
    ExpandBlock(Hmac(chainingKey, input), n)
  }

  /** The three outputs, each written out. */
  lemma KdfIs(chainingKey: Bytes, input: Bytes)
    ensures var t0 := Hmac(chainingKey, input);
      var t1 := Hmac(t0, [Plain(1)]);
      var t2 := Hmac(t0, t1 + [Plain(2)]);
      && Kdf(1, chainingKey, input) == t1 && Kdf(2, chainingKey, input) == t2
      && Kdf(3, chainingKey, input) == Hmac(t0, t2 + [Plain(3)])
  {
    hide Hmac;
    var t0 := Hmac(chainingKey, input);
    assert ExpandBlock(t0, 0) == [] && [] + [Plain(1)] == [Plain(1)];
    assert ExpandBlock(t0, 1) == Hmac(t0, [Plain(1)]);
    assert ExpandBlock(t0, 2) == Hmac(t0, ExpandBlock(t0, 1) + [Plain(2)]);
  }

  /** Every output determines the chaining key, the input and which output it is. */
  lemma {:induction false} KdfInjective(n: Byte, c: Bytes, x: Bytes, m: Byte, d: Bytes, y: Bytes)
    requires 1 <= n && 1 <= m && |c| == |d| == HASH_SIZE
    requires Kdf(n, c, x) == Kdf(m, d, y)
    ensures n == m && c == d && x == y
  {
    var p, q := Hmac(c, x), Hmac(d, y);
    var a, b := ExpandBlock(p, n - 1) + [Plain(n)], ExpandBlock(q, m - 1) + [Plain(m)];
    HmacInjective(p, a, q, b);
    assert a[|a| - 1] == Plain(n) && b[|b| - 1] == Plain(m);
    HmacInjective(c, x, d, y);
  }

  // ------------------------------------------- the same, as the program does it

  /** One of HMAC's two pads: the key block with every byte exclusive-ored with `m`. */
  method XorInto(pad: array<Octet>, block: Bytes, m: Byte)
    requires pad.Length == |block|
    modifies pad
    ensures pad[..] == XorAll(block, m)
  {
    for i := 0 to |block|
      invariant forall j :: 0 <= j < i ==> pad[j] == XorOctet(block[j], m)
    {
      pad[i] := XorOctet(block[i], m);
    }
  }

  /** The key, or the hash of a long one, zero-padded to a block. */
  method PaddedKey(key: Bytes) returns (block: Bytes)
    ensures block == PadKey(key)
  {
    var buffer := new Octet[BLOCK_SIZE](_ => Plain(0));
    assert buffer[..] == Zeros(BLOCK_SIZE);
    CopyInto(buffer, 0, if |key| > BLOCK_SIZE then HashOf(key) else key);
    block := buffer[..];
    var n := if |key| > BLOCK_SIZE then HASH_SIZE else |key|;
    assert block == buffer[..n] + buffer[n..];
    assert Zeros(BLOCK_SIZE)[n..] == Zeros(BLOCK_SIZE - n);
  }

  method HmacInto(out: array<Octet>, key: Bytes, input: Bytes)
    requires out.Length == HASH_SIZE
    modifies out
    ensures out[..] == Hmac(key, input)
  {
    hide XorOctet, PadKey, HashOf;
    var block := PaddedKey(key);
    var pad := new Octet[BLOCK_SIZE](_ => Plain(0));
    XorInto(pad, block, 0x36);
    var inner := HashOf(pad[..] + input);
    XorInto(pad, block, 0x5c);
    CopyInto(out, 0, HashOf(pad[..] + inner));
  }

  method CopyInto(out: array<Octet>, at: nat, bytes: Bytes)
    requires at + |bytes| <= out.Length
    modifies out
    ensures out[..at + |bytes|] == old(out[..at]) + bytes
    ensures forall j :: at + |bytes| <= j < out.Length ==> out[j] == old(out[j])
  {
    for i := 0 to |bytes|
      invariant forall j :: 0 <= j < i ==> out[at + j] == bytes[j]
      invariant forall j :: 0 <= j < out.Length && !(at <= j < at + i) ==> out[j] == old(out[j])
    {
      out[at + i] := bytes[i];
    }
  }

  /** The shared body of kdf1, kdf2 and kdf3: `out1` may be the chaining key's own buffer. */
  method KdfInto(out1: array<Octet>, out2: array?<Octet>, out3: array?<Octet>,
                 chainingKey: array<Octet>, input: Bytes)
    requires out1.Length == chainingKey.Length == HASH_SIZE
    requires out2 != null ==> out2.Length == HASH_SIZE && out2 != out1
    requires out3 != null ==> out2 != null && out3.Length == HASH_SIZE && out3 != out1 && out3 != out2
    modifies out1, out2, out3
    ensures out1[..] == Kdf(1, old(chainingKey[..]), input)
    ensures out2 != null ==> out2[..] == Kdf(2, old(chainingKey[..]), input)
    ensures out3 != null ==> out3[..] == Kdf(3, old(chainingKey[..]), input)
  {
    var t0 := new Octet[HASH_SIZE](_ => Plain(0));
    HmacInto(t0, chainingKey[..], input);
    var prk := t0[..];
    var chained := new Octet[HASH_SIZE + 1](_ => Plain(0));
    chained[0] := Plain(1);
    assert chained[..1] == ExpandBlock(prk, 0) + [Plain(1)];
    HmacInto(out1, prk, chained[..1]);
    if out2 == null {
      return;
    }
    RoundInto(out2, prk, chained, out1, 2);
    if out3 == null {
      return;
    }
    RoundInto(out3, prk, chained, out2, 3);
  }

  /** One later round: the previous output fed back in, followed by the round number. */
  method RoundInto(out: array<Octet>, prk: Bytes, chained: array<Octet>, previous: array<Octet>, n: Byte)
    requires out.Length == previous.Length == HASH_SIZE && chained.Length == HASH_SIZE + 1
    requires n >= 2 && previous[..] == ExpandBlock(prk, n - 1)
    modifies out, chained
    ensures out[..] == ExpandBlock(prk, n)
  {
    hide Hmac;
    CopyInto(chained, 0, previous[..]);
    chained[HASH_SIZE] := Plain(n);
    assert chained[..] == ExpandBlock(prk, n - 1) + [Plain(n)];
    HmacInto(out, prk, chained[..]);
  }
}
