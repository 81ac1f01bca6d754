/** WireGuard's message framing: the four message types, the byte ranges the two MACs cover, padding, and
    the length of the inner IPv4 packet. */
module Wire {
  import opened Octets
  import opened Crypto

  const STATIC_SIZE: nat := 48
  const STAMP_SIZE: nat := 28
  const COOKIE_NONCE_SIZE: nat := 24
  const COOKIE_SIZE: nat := 32

  const INITIATION_SIZE: nat := 148
  const INITIATION_MAC1: nat := 116
  const INITIATION_MAC2: nat := 132
  const RESPONSE_SIZE: nat := 92
  const RESPONSE_MAC1: nat := 60
  const RESPONSE_MAC2: nat := 76
  const COOKIE_REPLY_SIZE: nat := 64
  const HEADER_SIZE: nat := 16
  const TRANSPORT_MIN_SIZE: nat := 32

  datatype Message =
    | Initiation(sender: nat, ephemeral: Bytes, encStatic: Bytes, encStamp: Bytes, mac1: Bytes, mac2: Bytes)
    | Response(sender: nat, receiver: nat, ephemeral: Bytes, encNothing: Bytes, mac1: Bytes, mac2: Bytes)
    | CookieReply(receiver: nat, nonce: Bytes, encCookie: Bytes)
    | Transport(receiver: nat, counter: nat, sealed: Bytes)
  {
    /** Indices and counters fit their fields and every field has its fixed length. */
    predicate Valid() {
      match this
      case Initiation(s, e, st, ts, m1, m2) =>
        && s < U32 && |e| == KEY_SIZE && |st| == STATIC_SIZE && |ts| == STAMP_SIZE
        && |m1| == |m2| == MAC_SIZE
      case Response(s, r, e, n, m1, m2) =>
        s < U32 && r < U32 && |e| == KEY_SIZE && |n| == TAG_SIZE && |m1| == |m2| == MAC_SIZE
      case CookieReply(r, n, c) => r < U32 && |n| == COOKIE_NONCE_SIZE && |c| == COOKIE_SIZE
      case Transport(r, c, s) => r < U32 && c < U64 && |s| >= TAG_SIZE
    }
  }

  function Prefix(kind: Byte): (p: Bytes)
    ensures |p| == 4
  {
    [Plain(kind)] + Zeros(3)
  }

  function Header(receiver: nat, counter: nat): (h: Bytes)
    ensures |h| == HEADER_SIZE
  {
    Prefix(4) + LittleEndian(receiver, 4) + LittleEndian(counter, 8)
  }

  function InitiationBody(sender: nat, ephemeral: Bytes, encStatic: Bytes, encStamp: Bytes): (b: Bytes) {
    Prefix(1) + LittleEndian(sender, 4) + ephemeral + encStatic + encStamp
  }

  function ResponseBody(sender: nat, receiver: nat, ephemeral: Bytes, encNothing: Bytes): (b: Bytes) {
    Prefix(2) + LittleEndian(sender, 4) + LittleEndian(receiver, 4) + ephemeral + encNothing
  }

  function Encode(m: Message): (d: Bytes) {
    match m
    case Initiation(s, e, st, ts, m1, m2) => InitiationBody(s, e, st, ts) + m1 + m2
    case Response(s, r, e, n, m1, m2) => ResponseBody(s, r, e, n) + m1 + m2
    case CookieReply(r, n, c) => Prefix(3) + LittleEndian(r, 4) + n + c
    case Transport(r, c, s) => Header(r, c) + s
  }

  predicate PrefixOk(d: Bytes) {
    |d| >= 4 && d[1] == Plain(0) && d[2] == Plain(0) && d[3] == Plain(0)
  }

  lemma FieldBound(s: Bytes)
    requires IsPlain(s) && (|s| == 4 || |s| == 8)
    ensures LittleValue(s) < if |s| == 4 then U32 else U64
  {
    WordSizes();
    LittleInverse(s);
  }

  /** None for anything that is not a well-formed message. A number is read from plain bytes only. */
  function Decode(d: Bytes): (r: Option<Message>)
    ensures r.Some? ==> r.value.Valid()
  {
    if !PrefixOk(d) then None
    else if d[0] == Plain(1) then
      if |d| != INITIATION_SIZE || !IsPlain(d[4..8]) then None
      else
        FieldBound(d[4..8]);
        Some(Initiation(LittleValue(d[4..8]), d[8..40], d[40..88], d[88..116],
                        d[116..132], d[132..148]))
    else if d[0] == Plain(2) then
      if |d| != RESPONSE_SIZE || !IsPlain(d[4..8]) || !IsPlain(d[8..12]) then None
      else
        FieldBound(d[4..8]);
        FieldBound(d[8..12]);
        Some(Response(LittleValue(d[4..8]), LittleValue(d[8..12]), d[12..44], d[44..60],
                      d[60..76], d[76..92]))
    else if d[0] == Plain(3) then
      if |d| != COOKIE_REPLY_SIZE || !IsPlain(d[4..8]) then None
      else
        FieldBound(d[4..8]);
        Some(CookieReply(LittleValue(d[4..8]), d[8..32], d[32..64]))
    else if d[0] == Plain(4) then
      if |d| < TRANSPORT_MIN_SIZE || !IsPlain(d[4..8]) || !IsPlain(d[8..16]) then None
      else
        FieldBound(d[4..8]);
        FieldBound(d[8..16]);
        Some(Transport(LittleValue(d[4..8]), LittleValue(d[8..16]), d[16..]))
    else None
  }

  lemma TransportSealed(d: Bytes)
    requires Decode(d).Some? && Decode(d).value.Transport?
    ensures |d| >= TRANSPORT_MIN_SIZE && Decode(d).value.sealed == d[HEADER_SIZE..]
  {
  }

  // ------------------------------------------------------------ codec inverse

  lemma FieldRoundTrip(v: nat, n: nat)
    requires (n == 4 && v < U32) || (n == 8 && v < U64)
    ensures LittleValue(LittleEndian(v, n)) == v
  {
    WordSizes();
    LittleRoundTrip(v, n);
  }

  lemma FieldInverse(s: Bytes)
    requires IsPlain(s) && (|s| == 4 || |s| == 8)
    ensures LittleEndian(LittleValue(s), |s|) == s
    ensures |s| == 4 ==> LittleValue(s) < U32
    ensures |s| == 8 ==> LittleValue(s) < U64
  {
    WordSizes();
    LittleInverse(s);
  }

  /** Decoding what was encoded gives the message back, for all four types. */
  lemma DecodeEncode(m: Message)
    requires m.Valid()
    ensures Decode(Encode(m)) == Some(m)
  {
    hide Decode, Encode;
    match m
    case Initiation(_, _, _, _, _, _) => DecodeEncodeInitiation(m);
    case Response(_, _, _, _, _, _) => DecodeEncodeResponse(m);
    case CookieReply(_, _, _) => DecodeEncodeCookieReply(m);
    case Transport(_, _, _) => DecodeEncodeTransport(m);
  }

  lemma DecodeEncodeCookieReply(m: Message)
    requires m.Valid() && m.CookieReply?
    ensures Decode(Encode(m)) == Some(m)
  {
    hide LittleValue, LittleEndian;
    var d := Encode(m);
    FieldRoundTrip(m.receiver, 4);
    assert d[4..8] == LittleEndian(m.receiver, 4);
    assert d[8..32] == m.nonce;
    assert d[32..64] == m.encCookie;
  }

  lemma DecodeEncodeTransport(m: Message)
    requires m.Valid() && m.Transport?
    ensures Decode(Encode(m)) == Some(m)
  {
    hide LittleValue, LittleEndian;
    var d := Encode(m);
    FieldRoundTrip(m.receiver, 4);
    FieldRoundTrip(m.counter, 8);
    assert d[4..8] == LittleEndian(m.receiver, 4);
    assert d[8..16] == LittleEndian(m.counter, 8);
    assert d[16..] == m.sealed;
  }

  lemma InitiationFields(sender: nat, ephemeral: Bytes, encStatic: Bytes, encStamp: Bytes)
    requires |ephemeral| == KEY_SIZE && |encStatic| == STATIC_SIZE && |encStamp| == STAMP_SIZE
    ensures var b := InitiationBody(sender, ephemeral, encStatic, encStamp);
      && |b| == INITIATION_MAC1 && PrefixOk(b) && b[0] == Plain(1) && b[4..8] == LittleEndian(sender, 4)
      && b[8..40] == ephemeral && b[40..88] == encStatic && b[88..116] == encStamp
  {
    var b := InitiationBody(sender, ephemeral, encStatic, encStamp);
    assert b[4..8] == LittleEndian(sender, 4);
    assert b[8..40] == ephemeral;
    assert b[40..88] == encStatic;
    assert b[88..116] == encStamp;
  }

  lemma DecodeEncodeInitiation(m: Message)
    requires m.Valid() && m.Initiation?
    ensures Decode(Encode(m)) == Some(m)
  {
    var d, b := Encode(m), InitiationBody(m.sender, m.ephemeral, m.encStatic, m.encStamp);
    InitiationFields(m.sender, m.ephemeral, m.encStatic, m.encStamp);
    FieldRoundTrip(m.sender, 4);
    assert d[..116] == b && d[116..132] == m.mac1 && d[132..148] == m.mac2;
    assert forall i, j :: 0 <= i <= j <= 116 ==> d[i..j] == b[i..j];
  }

  lemma ResponseFields(sender: nat, receiver: nat, ephemeral: Bytes, encNothing: Bytes)
    requires sender < U32 && receiver < U32 && |ephemeral| == KEY_SIZE && |encNothing| == TAG_SIZE
    ensures var b := ResponseBody(sender, receiver, ephemeral, encNothing);
      && |b| == RESPONSE_MAC1 && b[12..44] == ephemeral && b[44..60] == encNothing
      && IsPlain(b[4..8]) && LittleValue(b[4..8]) == sender
      && IsPlain(b[8..12]) && LittleValue(b[8..12]) == receiver
  {
    var b := ResponseBody(sender, receiver, ephemeral, encNothing);
    FieldRoundTrip(sender, 4);
    FieldRoundTrip(receiver, 4);
    assert b[4..8] == LittleEndian(sender, 4);
    assert b[8..12] == LittleEndian(receiver, 4);
    assert b[12..44] == ephemeral;
    assert b[44..60] == encNothing;
  }

  /** A response whose bytes before mac1 are known has known fields. */
  lemma ResponseWithBody(d: Bytes, sender: nat, receiver: nat, ephemeral: Bytes, encNothing: Bytes)
    requires sender < U32 && receiver < U32 && |ephemeral| == KEY_SIZE && |encNothing| == TAG_SIZE
    requires Decode(d).Some? && Decode(d).value.Response?
    requires d[..RESPONSE_MAC1] == ResponseBody(sender, receiver, ephemeral, encNothing)
    ensures var m := Decode(d).value;
      m.sender == sender && m.receiver == receiver && m.ephemeral == ephemeral && m.encNothing == encNothing
  {
    var b := d[..RESPONSE_MAC1];
    ResponseFields(sender, receiver, ephemeral, encNothing);
    assert d[4..8] == b[4..8] && d[8..12] == b[8..12] && d[12..44] == b[12..44] && d[44..60] == b[44..60];
  }

  lemma DecodeEncodeResponse(m: Message)
    requires m.Valid() && m.Response?
    ensures Decode(Encode(m)) == Some(m)
  {
    var d := Encode(m);
    FieldRoundTrip(m.sender, 4);
    FieldRoundTrip(m.receiver, 4);
    assert d[4..8] == LittleEndian(m.sender, 4);
    assert d[8..12] == LittleEndian(m.receiver, 4);
    assert d[12..44] == m.ephemeral;
    assert d[44..60] == m.encNothing;
    assert d[60..76] == m.mac1;
    assert d[76..92] == m.mac2;
  }

  /** Every accepted byte string is the encoding of the message it decodes to. */
  lemma EncodeDecode(d: Bytes)
    requires Decode(d).Some?
    ensures Encode(Decode(d).value) == d
  {
    if d[0] == Plain(1) {
      EncodeDecodeInitiation(d);
    } else if d[0] == Plain(2) {
      EncodeDecodeResponse(d);
    } else if d[0] == Plain(3) {
      EncodeDecodeCookieReply(d);
    } else {
      EncodeDecodeTransport(d);
    }
  }

  lemma EncodeDecodeCookieReply(d: Bytes)
    requires Decode(d).Some? && Decode(d).value.CookieReply?
    ensures Encode(Decode(d).value) == d
  {
    hide LittleValue, LittleEndian;
    FieldInverse(d[4..8]);
    assert d[..8] == Prefix(3) + d[4..8];
    assert d[..32] == d[..8] + d[8..32];
    assert d == d[..32] + d[32..64];
  }

  lemma EncodeDecodeTransport(d: Bytes)
    requires Decode(d).Some? && Decode(d).value.Transport?
    ensures Encode(Decode(d).value) == d
  {
    hide LittleValue, LittleEndian;
    FieldInverse(d[4..8]);
    FieldInverse(d[8..16]);
    assert d[..8] == Prefix(4) + d[4..8];
    assert d[..16] == d[..8] + d[8..16];
    assert d == d[..16] + d[16..];
  }

  lemma EncodeDecodeInitiation(d: Bytes)
    requires Decode(d).Some? && Decode(d).value.Initiation?
    ensures Encode(Decode(d).value) == d
  {
    hide LittleValue, LittleEndian;
    FieldInverse(d[4..8]);
    assert d[..8] == Prefix(1) + d[4..8];
    assert d[..40] == d[..8] + d[8..40];
    assert d[..88] == d[..40] + d[40..88];
    assert d[..116] == d[..88] + d[88..116];
    assert d[..132] == d[..116] + d[116..132];
    assert d == d[..132] + d[132..148];
  }

  lemma EncodeDecodeResponse(d: Bytes)
    requires Decode(d).Some? && Decode(d).value.Response?
    ensures Encode(Decode(d).value) == d
  {
    hide LittleValue, LittleEndian;
    FieldInverse(d[4..8]);
    FieldInverse(d[8..12]);
    assert d[..8] == Prefix(2) + d[4..8];
    assert d[..12] == d[..8] + d[8..12];
    assert d[..44] == d[..12] + d[12..44];
    assert d[..60] == d[..44] + d[44..60];
    assert d[..76] == d[..60] + d[60..76];
    assert d == d[..76] + d[76..92];
  }

  /** `Decode` accepts exactly the image of `Encode`, and no two messages share an encoding. */
  lemma DecodeAcceptsExactlyEncodings(d: Bytes)
    ensures Decode(d).Some? <==> exists m: Message :: m.Valid() && Encode(m) == d
    ensures forall m: Message :: m.Valid() && Encode(m) == d ==> Decode(d) == Some(m)
  {
    if Decode(d).Some? {
      EncodeDecode(d);
    }
    forall m: Message | m.Valid() && Encode(m) == d ensures Decode(d) == Some(m) {
      DecodeEncode(m);
    }
  }

  /** Where every field of every message stands, byte offset by byte offset. */
  lemma Layout(m: Message)
    requires m.Valid()
    ensures var d := Encode(m);
      && |d| >= 32 && d[1] == d[2] == d[3] == Plain(0) && IsPlain(d[4..8])
      && (m.Initiation? ==>
           && |d| == 148 && d[0] == Plain(1) && LittleValue(d[4..8]) == m.sender
           && d[8..40] == m.ephemeral && d[40..88] == m.encStatic && d[88..116] == m.encStamp
           && d[116..132] == m.mac1 && d[132..148] == m.mac2)
      && (m.Response? ==>
           && |d| == 92 && d[0] == Plain(2) && LittleValue(d[4..8]) == m.sender
           && IsPlain(d[8..12]) && LittleValue(d[8..12]) == m.receiver
           && d[12..44] == m.ephemeral && d[44..60] == m.encNothing
           && d[60..76] == m.mac1 && d[76..92] == m.mac2)
      && (m.CookieReply? ==>
           && |d| == 64 && d[0] == Plain(3) && LittleValue(d[4..8]) == m.receiver
           && d[8..32] == m.nonce && d[32..64] == m.encCookie)
      && (m.Transport? ==>
           && d[0] == Plain(4) && LittleValue(d[4..8]) == m.receiver
           && IsPlain(d[8..16]) && LittleValue(d[8..16]) == m.counter && d[16..] == m.sealed)
  {
    hide LittleValue, LittleEndian, Encode;
    DecodeEncode(m);
  }

  /** Anything shorter, longer or otherwise headed is refused. */
  lemma Refused(d: Bytes)
    requires Decode(d).Some?
    ensures |d| >= 32 && d[1] == d[2] == d[3] == Plain(0)
    ensures match Decode(d).value
      case Initiation(_, _, _, _, _, _) => d[0] == Plain(1) && |d| == 148
      case Response(_, _, _, _, _, _) => d[0] == Plain(2) && |d| == 92
      case CookieReply(_, _, _) => d[0] == Plain(3) && |d| == 64
      case Transport(_, _, _) => d[0] == Plain(4)
  {
  }

  // ------------------------------------------------- reading and writing buffers

  method ReadLittle(bytes: Bytes) returns (value: nat)
    requires IsPlain(bytes)
    ensures value == LittleValue(bytes)
  {
    value := 0;
    var weight := 1;
    for i := 0 to |bytes|
      invariant weight == Power256(i)
      invariant value == LittleValue(bytes[..i])
    {
      LittleSnoc(bytes[..i], bytes[i]);
      assert bytes[..i + 1] == bytes[..i] + [bytes[i]];
      value := value + weight * bytes[i].value;
      weight := 256 * weight;
    }
    assert bytes[..|bytes|] == bytes;
  }

  lemma {:induction false} LittleSnoc(s: Bytes, o: Octet)
    requires IsPlain(s) && o.Plain?
    ensures LittleValue(s + [o]) == LittleValue(s) + Power256(|s|) * o.value
  {
    if s != [] {
      LittleSnoc(s[1..], o);
      assert (s + [o])[1..] == s[1..] + [o];
      assert 256 * (Power256(|s| - 1) * o.value) == (256 * Power256(|s| - 1)) * o.value;
    }
  }

  method WriteLittle(out: array<Octet>, at: nat, value: nat, n: nat)
    requires at + n <= out.Length
    modifies out
    ensures out[..at + n] == old(out[..at]) + LittleEndian(value, n)
    ensures forall j :: at + n <= j < out.Length ==> out[j] == old(out[j])
  {
    for i := 0 to n
      invariant forall j :: 0 <= j < i ==> out[at + j] == LittleEndian(value, n)[j]
      invariant forall j :: 0 <= j < out.Length && !(at <= j < at + i) ==> out[j] == old(out[j])
    {
      LittleEndianAt(value, n, i);
      out[at + i] := Plain(ShiftRight(value, i) % 256);
    }
  }

  /** The decoder as the program runs it: each number accumulated byte by byte. */
  method Parse(d: Bytes) returns (r: Option<Message>)
    ensures r == Decode(d)
  {
    hide LittleValue;
    if !PrefixOk(d) {
      return None;
    }
    if d[0] == Plain(1) {
      if |d| != INITIATION_SIZE || !IsPlain(d[4..8]) {
        return None;
      }
      var sender := ReadLittle(d[4..8]);
      return Some(Initiation(sender, d[8..40], d[40..88], d[88..116], d[116..132], d[132..148]));
    }
    if d[0] == Plain(2) {
      if |d| != RESPONSE_SIZE || !IsPlain(d[4..8]) || !IsPlain(d[8..12]) {
        return None;
      }
      var sender := ReadLittle(d[4..8]);
      var receiver := ReadLittle(d[8..12]);
      return Some(Response(sender, receiver, d[12..44], d[44..60], d[60..76], d[76..92]));
    }
    if d[0] == Plain(3) {
      if |d| != COOKIE_REPLY_SIZE || !IsPlain(d[4..8]) {
        return None;
      }
      var receiver := ReadLittle(d[4..8]);
      return Some(CookieReply(receiver, d[8..32], d[32..64]));
    }
    if d[0] != Plain(4) || |d| < TRANSPORT_MIN_SIZE || !IsPlain(d[4..8]) || !IsPlain(d[8..16]) {
      return None;
    }
    var receiver := ReadLittle(d[4..8]);
    var counter := ReadLittle(d[8..16]);
    return Some(Transport(receiver, counter, d[16..]));
  }

  /** A write put `bytes` at the front of a buffer and left the rest alone, or wrote nothing. */
  ghost predicate WroteOnly(written: Option<nat>, before: Bytes, after: Bytes, bytes: Bytes) {
    if written.None? then after == before
    else |bytes| <= |before| && after == bytes + before[|bytes|..]
  }

  /** How the encoders end: the front of the buffer is the message, and nothing past it was touched. */
  lemma FrontWritten(before: Bytes, after: Bytes, bytes: Bytes)
    requires |bytes| <= |before| == |after| && after[..|bytes|] == bytes
    requires forall i :: |bytes| <= i < |before| ==> after[i] == before[i]
    ensures WroteOnly(Some(|bytes|), before, after, bytes)
  {
    assert after == after[..|bytes|] + after[|bytes|..];
    assert after[|bytes|..] == before[|bytes|..];
  }

  method WriteHeader(out: array<Octet>, receiver: nat, counter: nat) returns (written: Option<nat>)
    modifies out
    ensures written == if HEADER_SIZE <= out.Length then Some(HEADER_SIZE) else None
    ensures WroteOnly(written, old(out[..]), out[..], Header(receiver, counter))
  {
    if out.Length < HEADER_SIZE {
      return None;
    }
    CopyInto(out, 0, Prefix(4));
    WriteLittle(out, 4, receiver, 4);
    WriteLittle(out, 8, counter, 8);
    return Some(HEADER_SIZE);
  }

  method EncodeInitiation(out: array<Octet>, m: Message) returns (written: Option<nat>)
    requires m.Valid() && m.Initiation?
    modifies out
    ensures written == if |Encode(m)| <= out.Length then Some(|Encode(m)|) else None
    ensures WroteOnly(written, old(out[..]), out[..], Encode(m))
  {
    if out.Length < INITIATION_SIZE {
      return None;
    }
    hide LittleEndian, WroteOnly;
    CopyInto(out, 0, Prefix(1));
    WriteLittle(out, 4, m.sender, 4);
    CopyInto(out, 8, m.ephemeral);
    CopyInto(out, 40, m.encStatic);
    CopyInto(out, 88, m.encStamp);
    assert out[..INITIATION_MAC1] == InitiationBody(m.sender, m.ephemeral, m.encStatic, m.encStamp);
    CopyInto(out, INITIATION_MAC1, m.mac1);
    CopyInto(out, INITIATION_MAC2, m.mac2);
    assert out[..INITIATION_SIZE] == Encode(m);
    FrontWritten(old(out[..]), out[..], Encode(m));
    return Some(INITIATION_SIZE);
  }

  method EncodeResponse(out: array<Octet>, m: Message) returns (written: Option<nat>)
    requires m.Valid() && m.Response?
    modifies out
    ensures written == if |Encode(m)| <= out.Length then Some(|Encode(m)|) else None
    ensures WroteOnly(written, old(out[..]), out[..], Encode(m))
  {
    if out.Length < RESPONSE_SIZE {
      return None;
    }
    hide LittleEndian, WroteOnly;
    CopyInto(out, 0, Prefix(2));
    WriteLittle(out, 4, m.sender, 4);
    WriteLittle(out, 8, m.receiver, 4);
    CopyInto(out, 12, m.ephemeral);
    CopyInto(out, 44, m.encNothing);
    assert out[..RESPONSE_MAC1] == ResponseBody(m.sender, m.receiver, m.ephemeral, m.encNothing);
    CopyInto(out, RESPONSE_MAC1, m.mac1);
    CopyInto(out, RESPONSE_MAC2, m.mac2);
    assert out[..RESPONSE_SIZE] == Encode(m);
    FrontWritten(old(out[..]), out[..], Encode(m));
    return Some(RESPONSE_SIZE);
  }

  method EncodeCookieReply(out: array<Octet>, m: Message) returns (written: Option<nat>)
    requires m.Valid() && m.CookieReply?
    modifies out
    ensures written == if |Encode(m)| <= out.Length then Some(|Encode(m)|) else None
    ensures WroteOnly(written, old(out[..]), out[..], Encode(m))
  {
    if out.Length < COOKIE_REPLY_SIZE {
      return None;
    }
    CopyInto(out, 0, Prefix(3));
    WriteLittle(out, 4, m.receiver, 4);
    CopyInto(out, 8, m.nonce);
    CopyInto(out, 32, m.encCookie);
    assert out[..COOKIE_REPLY_SIZE] == Encode(m);
    FrontWritten(old(out[..]), out[..], Encode(m));
    return Some(COOKIE_REPLY_SIZE);
  }

  method EncodeTransport(out: array<Octet>, m: Message) returns (written: Option<nat>)
    requires m.Transport? && m.receiver < U32 && m.counter < U64
    modifies out
    ensures written == if m.Valid() && |Encode(m)| <= out.Length then Some(|Encode(m)|) else None
    ensures WroteOnly(written, old(out[..]), out[..], Encode(m))
  {
    var total := HEADER_SIZE + |m.sealed|;
    if |m.sealed| < TAG_SIZE || out.Length < total {
      return None;
    }
    var header := WriteHeader(out, m.receiver, m.counter);
    CopyInto(out, HEADER_SIZE, m.sealed);
    return Some(total);
  }

  // ------------------------------------------------------------- MAC ranges

  datatype MacOffsets = MacOffsets(mac1: nat, mac2: nat)

  function Offsets(d: Bytes): (r: Option<MacOffsets>)
    ensures r.Some? ==> r.value.mac1 + MAC_SIZE == r.value.mac2 && r.value.mac2 + MAC_SIZE == |d|
  {
    if !PrefixOk(d) then None
    else if d[0] == Plain(1) && |d| == INITIATION_SIZE then Some(MacOffsets(INITIATION_MAC1, INITIATION_MAC2))
    else if d[0] == Plain(2) && |d| == RESPONSE_SIZE then Some(MacOffsets(RESPONSE_MAC1, RESPONSE_MAC2))
    else None
  }

  function Mac1Input(d: Bytes): (r: Option<Bytes>) {
    if Offsets(d).Some? then Some(d[..Offsets(d).value.mac1]) else None
  }

  function Mac1Field(d: Bytes): (r: Option<Bytes>) {
    if Offsets(d).Some? then Some(d[Offsets(d).value.mac1..][..MAC_SIZE]) else None
  }

  function Mac2Field(d: Bytes): (r: Option<Bytes>) {
    if Offsets(d).Some? then Some(d[Offsets(d).value.mac2..][..MAC_SIZE]) else None
  }

  /** A message that starts with the body of a response has the MACs of one, and likewise of an initiation. */
  lemma BodyDecidesOffsets(d: Bytes, kind: Byte, rest: Bytes)
    requires Prefix(kind) + rest <= d
    ensures kind == 1 && |d| == INITIATION_SIZE ==> Offsets(d) == Some(MacOffsets(INITIATION_MAC1, INITIATION_MAC2))
    ensures kind == 2 && |d| == RESPONSE_SIZE ==> Offsets(d) == Some(MacOffsets(RESPONSE_MAC1, RESPONSE_MAC2))
  {
    var b := Prefix(kind) + rest;
    assert b[0] == Plain(kind) && b[1] == b[2] == b[3] == Plain(0);
    assert d[..|b|] == b;
  }

  /** mac1 of an encoded handshake message covers its body. */
  lemma BodyIsMacInput(m: Message)
    requires m.Valid()
    ensures m.Initiation? ==>
      |Encode(m)| == INITIATION_SIZE
      && Mac1Input(Encode(m)) == Some(InitiationBody(m.sender, m.ephemeral, m.encStatic, m.encStamp))
    ensures m.Response? ==>
      |Encode(m)| == RESPONSE_SIZE
      && Mac1Input(Encode(m)) == Some(ResponseBody(m.sender, m.receiver, m.ephemeral, m.encNothing))
  {
    hide LittleEndian;
    var d := Encode(m);
    if m.Initiation? {
      assert d[..INITIATION_MAC1] == InitiationBody(m.sender, m.ephemeral, m.encStatic, m.encStamp);
    } else if m.Response? {
      assert d[..RESPONSE_MAC1] == ResponseBody(m.sender, m.receiver, m.ephemeral, m.encNothing);
    }
  }

  /** What mac1 covers, mac1 and mac2 partition a handshake message, in that order, and the two fields are
      the ones the decoder reports. */
  lemma MacsPartition(d: Bytes)
    requires Decode(d).Some? && (Decode(d).value.Initiation? || Decode(d).value.Response?)
    ensures Offsets(d).Some?
    ensures d == Mac1Input(d).value + Mac1Field(d).value + Mac2Field(d).value
    ensures Mac1Field(d).value == Decode(d).value.mac1 && Mac2Field(d).value == Decode(d).value.mac2
  {
    var o := Offsets(d).value;
    assert d[o.mac1..][..MAC_SIZE] == d[o.mac1..o.mac2] && d[o.mac2..][..MAC_SIZE] == d[o.mac2..];
    assert d == d[..o.mac1] + d[o.mac1..o.mac2] + d[o.mac2..];
  }

  /** Replacing the mac2 bytes changes the decoded mac2 and nothing else. */
  lemma ReplaceMac2(d: Bytes, mac2: Bytes)
    requires Offsets(d).Some? && |mac2| == MAC_SIZE
    ensures var d' := d[..|d| - MAC_SIZE] + mac2;
      && Mac1Input(d') == Mac1Input(d) && Decode(d').Some? == Decode(d).Some?
      && (Decode(d).Some? ==>
           && (Decode(d).value.Initiation? || Decode(d).value.Response?)
           && Decode(d').value == Decode(d).value.(mac2 := mac2))
  {
    var d', n := d[..|d| - MAC_SIZE] + mac2, |d| - MAC_SIZE;
    assert d'[n..] == mac2 && d'[..n] == d[..n];
    assert d'[..4] == d[..4] && d'[4..8] == d[4..8] && d'[8..12] == d[8..12];
    if d[0] == Plain(1) {
      assert d'[8..40] == d[8..40] && d'[40..88] == d[40..88] && d'[88..116] == d[88..116];
      assert d'[116..132] == d[116..132] && d'[..116] == d[..116];
    } else {
      assert d'[12..44] == d[12..44] && d'[44..60] == d[44..60] && d'[60..76] == d[60..76];
      assert d'[..60] == d[..60];
    }
  }

  // ---------------------------------------------------------------- padding

  function PaddedLength(n: nat): (p: nat) {
    (n + 15) / 16 * 16
  }

  function MaxDatagram(mtu: nat): (m: nat) {
    HEADER_SIZE + PaddedLength(mtu) + TAG_SIZE
  }

  /** The padded length is the least multiple of 16 not below the length, and grows with it. */
  lemma PaddingIsLeast(n: nat, m: nat)
    ensures PaddedLength(n) % 16 == 0 && n <= PaddedLength(n)
    ensures m % 16 == 0 && n <= m ==> PaddedLength(n) <= m
    ensures n <= m ==> PaddedLength(n) <= PaddedLength(m)
  {
    var p, q := (n + 15) / 16, (m + 15) / 16;
    assert n <= 16 * p < n + 16 && m <= 16 * q < m + 16;
  }

  // ------------------------------------------------------- inner IPv4 packet

  const IPV4_MIN_HEADER: nat := 20

  /** The number of bytes of `plain` that are the packet, by the IPv4 header's own fields (section 3.1 of
      RFC 791): version, header length in words, total length. */
  function InnerLength(plain: Bytes): (r: Option<nat>)
    ensures r.Some? ==> IPV4_MIN_HEADER <= r.value <= |plain|
  {
    if |plain| < IPV4_MIN_HEADER || !IsPlain(plain[..4]) then None
    else
      var header := plain[0].value % 16 * 4;
      var total := plain[2].value * 256 + plain[3].value;
      if plain[0].value / 16 != 4 then None
      else if header < IPV4_MIN_HEADER || header > |plain| then None
      else if total < header || total > |plain| then None
      else Some(total)
  }

  /** An IPv4 packet by its header: words of header, service byte, total length, and everything after. */
  function Ipv4(words: nat, service: Octet, total: nat, rest: Bytes): (p: Bytes)
    requires words < 16
  {
    [Plain(4 * 16 + words), service] + BigEndian(total, 2) + rest
  }

  /** The length read back is the length written, exactly when the header fits the packet and the packet fits
      what was received. */
  lemma InnerLengthReadsHeader(words: nat, service: Octet, total: nat, rest: Bytes)
    requires words < 16 && total < 0x1_0000 && service.Plain?
    ensures var p := Ipv4(words, service, total, rest);
      InnerLength(p) == if 5 <= words && 4 * words <= total <= |p| then Some(total) else None
  {
    var p := Ipv4(words, service, total, rest);
    assert BigEndian(total, 2) == [Plain(total / 256), Plain(total % 256)] by {
      assert BigEndian(total / 256, 1) == [] + [Plain(total / 256 % 256)];
    }
    assert p[0] == Plain(64 + words) && p[2] == Plain(total / 256) && p[3] == Plain(total % 256);
    assert p[..4] == [p[0], p[1], p[2], p[3]];
  }

  /** And everything with a length is such a packet. */
  lemma InnerLengthNeedsHeader(plain: Bytes)
    requires InnerLength(plain).Some?
    ensures exists words: nat | words < 16 :: plain == Ipv4(words, plain[1], InnerLength(plain).value, plain[4..])
  {
    var words, total := plain[0].value % 16, InnerLength(plain).value;
    assert plain[..4][0].Plain? && plain[..4][2].Plain? && plain[..4][3].Plain?;
    assert BigEndian(total, 2) == [plain[2], plain[3]] by {
      assert BigEndian(total / 256, 1) == [] + [Plain(total / 256 % 256)];
      assert BigEndian(total, 2) == BigEndian(total / 256, 1) + [Plain(total % 256)];
    }
    assert plain == Ipv4(words, plain[1], total, plain[4..]);
  }

  /** What the header claims of a longer plaintext, it claims of that much of it too. */
  lemma InnerLengthOfPrefix(plain: Bytes)
    requires InnerLength(plain).Some?
    ensures var n := InnerLength(plain).value; InnerLength(plain[..n]) == Some(n)
  {
    var n := InnerLength(plain).value;
    assert plain[..n][..4] == plain[..4];
  }

  /** Padding does not disturb the length of a packet whose header tells its true size. */
  lemma InnerLengthPadded(packet: Bytes, padding: Bytes)
    requires InnerLength(packet) == Some(|packet|)
    ensures InnerLength(packet + padding) == Some(|packet|)
  {
    assert (packet + padding)[..4] == packet[..4];
  }
}
