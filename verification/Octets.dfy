/** The bytes of the model.

    The program's buffers hold machine bytes; what a proof has to know about the bytes a cryptographic
    primitive wrote is which computation produced them. An `Octet` is therefore either a plain byte or one
    byte of the output of a symbolic computation, a `Term`. Two outputs are equal exactly when the
    computations and their inputs are equal, so hashing, keying and sealing are injective by construction:
    this is where the primitives are taken to be ideal. */
module Octets {

  type Byte = x: int | 0 <= x < 256

  /** `Of(t, i, m)` is byte `i` of the output of `t`, exclusive-ored with the constant `m`. */
  datatype Octet = Plain(value: Byte) | Of(term: Term, at: nat, mask: Byte)

  type Bytes = seq<Octet>

  datatype Scalar = Scalar(bytes: Bytes)

  /** One symbolic computation.
      - `Secret(n)`: the n-th value drawn from the random generator
      - `Hash`, `Mac`: BLAKE2s, plain and keyed
      - `Pub`: the X25519 public key of a private key
      - `Shared`: the X25519 secret of two private keys; unordered, section 6.1 of RFC 7748
      - `Point`: the X25519 product of a private key and bytes that are nobody's public key
      - `Aead`: a ChaCha20-Poly1305 ciphertext with its tag, section 2.8 of RFC 8439 */
  datatype Term =
    | Secret(n: nat)
    | Hash(input: Bytes)
    | Mac(key: Bytes, input: Bytes)
    | Pub(priv: Bytes)
    | Shared(keys: multiset<Scalar>)
    | Point(priv: Bytes, point: Bytes)
    | Aead(key: Bytes, nonce: Bytes, plain: Bytes, aad: Bytes)

  datatype Option<+T> = None | Some(value: T)

  /** The first `n` bytes of the output of `t`. */
  function Spread(t: Term, n: nat): (s: Bytes)
    ensures |s| == n
    ensures forall i :: 0 <= i < n ==> s[i] == Of(t, i, 0)
  {
    seq(n, i requires 0 <= i < n => Of(t, i, 0))
  }

  lemma SpreadInjective(t: Term, n: nat, u: Term, m: nat)
    requires n > 0 && Spread(t, n) == Spread(u, m)
    ensures t == u && n == m
  {
    assert |Spread(t, n)| == n && |Spread(u, m)| == m;
    assert Spread(t, n)[0] == Of(t, 0, 0) && Spread(u, m)[0] == Of(u, 0, 0);
  }

  function Zeros(n: nat): (s: Bytes)
    ensures |s| == n
    ensures forall i :: 0 <= i < n ==> s[i] == Plain(0)
  {
    seq(n, _ => Plain(0))
  }

  /** The bytes of one of the protocol's fixed strings. */
  function Text(s: string): (b: Bytes)
    ensures |b| == |s|
    ensures IsPlain(b)
  {
    seq(|s|, i requires 0 <= i < |s| => Plain(s[i] as int % 256))
  }

  /** One byte a character, for strings of single-byte characters. */
  lemma TextIs(s: string, i: nat)
    requires i < |s| && s[i] as int < 256
    ensures Text(s)[i] == Plain(s[i] as int)
  {
  }

  predicate IsPlain(s: Bytes) {
    forall i :: 0 <= i < |s| ==> s[i].Plain?
  }

  // ------------------------------------------------------------- numbers

  function Power256(n: nat): (p: nat)
    ensures p > 0
  {
    if n == 0 then 1 else 256 * Power256(n - 1)
  }

  const U32: nat := 0x1_0000_0000
  const U64: nat := 0x1_0000_0000_0000_0000

  lemma WordSizes()
    ensures Power256(4) == U32 && Power256(8) == U64
  {
    assert Power256(4) == 256 * 256 * 256 * 256;
    assert Power256(8) == 256 * 256 * 256 * 256 * Power256(4);
  }

  /** The `n` low bytes of `v`, least significant first. */
  function LittleEndian(v: nat, n: nat): (s: Bytes)
    ensures |s| == n && IsPlain(s)
  {
    if n == 0 then [] else [Plain(v % 256)] + LittleEndian(v / 256, n - 1)
  }

  function LittleValue(s: Bytes): (v: nat)
    requires IsPlain(s)
  {
    if s == [] then 0 else s[0].value + 256 * LittleValue(s[1..])
  }

  /** The `n` low bytes of `v`, most significant first. */
  function BigEndian(v: nat, n: nat): (s: Bytes)
    ensures |s| == n && IsPlain(s)
  {
    if n == 0 then [] else BigEndian(v / 256, n - 1) + [Plain(v % 256)]
  }

  function BigValue(s: Bytes): (v: nat)
    requires IsPlain(s)
  {
    if s == [] then 0 else 256 * BigValue(s[..|s| - 1]) + s[|s| - 1].value
  }

  lemma {:induction false} LittleRoundTrip(v: nat, n: nat)
    requires v < Power256(n)
    ensures LittleValue(LittleEndian(v, n)) == v
  {
    if n > 0 {
      LittleRoundTrip(v / 256, n - 1);
      assert LittleEndian(v, n)[1..] == LittleEndian(v / 256, n - 1);
    }
  }

  lemma {:induction false} LittleInverse(s: Bytes)
    requires IsPlain(s)
    ensures LittleValue(s) < Power256(|s|)
    ensures LittleEndian(LittleValue(s), |s|) == s
  {
    if s != [] {
      LittleInverse(s[1..]);
      assert LittleValue(s) / 256 == LittleValue(s[1..]);
      assert s == [s[0]] + s[1..];
    }
  }

  lemma {:induction false} BigRoundTrip(v: nat, n: nat)
    requires v < Power256(n)
    ensures BigValue(BigEndian(v, n)) == v
  {
    if n > 0 {
      BigRoundTrip(v / 256, n - 1);
      assert BigEndian(v, n)[..n - 1] == BigEndian(v / 256, n - 1);
    }
  }

  lemma {:induction false} BigInverse(s: Bytes)
    requires IsPlain(s)
    ensures BigEndian(BigValue(s), |s|) == s
  {
    if s != [] {
      BigInverse(s[..|s| - 1]);
      assert s == s[..|s| - 1] + [s[|s| - 1]];
    }
  }

  /** What the two byte orders mean, digit by digit. */
  lemma Digits(s: Bytes)
    requires IsPlain(s) && |s| == 4
    ensures LittleValue(s) == s[0].value + 0x100 * s[1].value + 0x1_0000 * s[2].value + 0x100_0000 * s[3].value
    ensures BigValue(s) == 0x100_0000 * s[0].value + 0x1_0000 * s[1].value + 0x100 * s[2].value + s[3].value
  {
    assert s[1..][1..] == s[2..] && s[2..][1..] == s[3..] && s[3..][1..] == [];
    assert LittleValue(s[3..]) == s[3].value && LittleValue(s[2..]) == s[2].value + 256 * s[3].value;
    assert s[..3][..2] == s[..2] && s[..2][..1] == s[..1] && s[..1][..0] == [];
    assert BigValue(s[..1]) == s[0].value && BigValue(s[..2]) == 256 * s[0].value + s[1].value;
  }

  /** Eight bytes are two fours. */
  lemma Halves(s: Bytes)
    requires IsPlain(s) && |s| == 8
    ensures LittleValue(s) == LittleValue(s[..4]) + U32 * LittleValue(s[4..])
    ensures BigValue(s) == U32 * BigValue(s[..4]) + BigValue(s[4..])
  {
    WordSizes();
    LittleConcat(s[..4], s[4..]);
    BigConcat(s[..4], s[4..]);
    assert s == s[..4] + s[4..];
  }

  lemma {:induction false} LittleConcat(s: Bytes, t: Bytes)
    requires IsPlain(s) && IsPlain(t)
    ensures LittleValue(s + t) == LittleValue(s) + Power256(|s|) * LittleValue(t)
  {
    if s == [] {
      assert s + t == t;
    } else {
      LittleConcat(s[1..], t);
      assert (s + t)[1..] == s[1..] + t;
      assert 256 * (Power256(|s| - 1) * LittleValue(t)) == Power256(|s|) * LittleValue(t);
    }
  }

  lemma {:induction false} BigConcat(s: Bytes, t: Bytes)
    requires IsPlain(s) && IsPlain(t)
    ensures BigValue(s + t) == Power256(|t|) * BigValue(s) + BigValue(t)
  {
    if t == [] {
      assert s + t == s;
    } else {
      var n := |t| - 1;
      BigConcat(s, t[..n]);
      assert (s + t)[..|s| + n] == s + t[..n];
      assert 256 * (Power256(n) * BigValue(s)) == Power256(|t|) * BigValue(s);
    }
  }

  /** `v` shifted right by `k` bytes. */
  function ShiftRight(v: nat, k: nat): nat {
    if k == 0 then v else ShiftRight(v / 256, k - 1)
  }

  lemma {:induction false} LittleEndianAt(v: nat, n: nat, i: nat)
    requires i < n
    ensures LittleEndian(v, n)[i] == Plain(ShiftRight(v, i) % 256)
  {
    if i > 0 {
      LittleEndianAt(v / 256, n - 1, i - 1);
    }
  }

  lemma {:induction false} BigEndianAt(v: nat, n: nat, i: nat)
    requires i < n
    ensures BigEndian(v, n)[i] == Plain(ShiftRight(v, n - 1 - i) % 256)
  {
    if i < n - 1 {
      BigEndianAt(v / 256, n - 1, i);
    }
  }

  // ------------------------------------------------------- exclusive or

  function Power2(n: nat): (p: nat)
    ensures p > 0
  {
    if n == 0 then 1 else 2 * Power2(n - 1)
  }

  /** The exclusive or of the `n` low bits of `a` and `b`. */
  function XorBits(a: nat, b: nat, n: nat): (r: nat) {
    if n == 0 then 0 else (if a % 2 == b % 2 then 0 else 1) + 2 * XorBits(a / 2, b / 2, n - 1)
  }

  /** Bit `i` of a number: `(w >> i) & 1`. */
  predicate Bit(w: nat, i: nat) {
    if i == 0 then w % 2 == 1 else Bit(w / 2, i - 1)
  }

  /** Each bit is set exactly when the two differ there. */
  lemma {:induction false} XorIsBitwise(a: nat, b: nat, n: nat, i: nat)
    requires i < n
    ensures Bit(XorBits(a, b, n), i) <==> Bit(a, i) != Bit(b, i)
  {
    if i > 0 {
      XorIsBitwise(a / 2, b / 2, n - 1, i - 1);
    }
  }

  lemma {:induction false} XorBitsInjective(a: nat, b: nat, m: nat, n: nat)
    requires a < Power2(n) && b < Power2(n)
    requires XorBits(a, m, n) == XorBits(b, m, n)
    ensures a == b
  {
    if n > 0 {
      XorBitsInjective(a / 2, b / 2, m / 2, n - 1);
    }
  }

  lemma {:induction false} XorBitsBound(a: nat, b: nat, n: nat)
    ensures XorBits(a, b, n) < Power2(n)
  {
    if n > 0 {
      XorBitsBound(a / 2, b / 2, n - 1);
    }
  }

  lemma ByteBits()
    ensures Power2(8) == 256
  {
    assert Power2(8) == 2 * 2 * 2 * 2 * Power2(4);
  }

  function XorByte(a: Byte, m: Byte): (r: Byte) {
    ByteBits();
    XorBitsBound(a, m, 8);
    XorBits(a, m, 8)
  }

  function XorOctet(o: Octet, m: Byte): (r: Octet) {
    match o
    case Plain(v) => Plain(XorByte(v, m))
    case Of(t, i, k) => Of(t, i, XorByte(k, m))
  }

  lemma XorOctetInjective(o: Octet, p: Octet, m: Byte)
    requires XorOctet(o, m) == XorOctet(p, m)
    ensures o == p
  {
    ByteBits();
    if o.Plain? {
      XorBitsInjective(o.value, p.value, m, 8);
    } else {
      XorBitsInjective(o.mask, p.mask, m, 8);
    }
  }

  function XorAll(s: Bytes, m: Byte): (r: Bytes)
    ensures |r| == |s|
    ensures forall i :: 0 <= i < |s| ==> r[i] == XorOctet(s[i], m)
  {
    seq(|s|, i requires 0 <= i < |s| => XorOctet(s[i], m))
  }

  lemma XorAllInjective(s: Bytes, t: Bytes, m: Byte)
    requires XorAll(s, m) == XorAll(t, m)
    ensures s == t
  {
    assert |s| == |XorAll(s, m)| == |t|;
    forall i | 0 <= i < |s| ensures s[i] == t[i] {
      assert XorAll(s, m)[i] == XorAll(t, m)[i];
      XorOctetInjective(s[i], t[i], m);
    }
  }
}
