/** The Noise IK handshake as functions of values: sections 5.4.2 to 5.4.5 of the WireGuard whitepaper. */
module Noise {
  import opened Octets
  import opened Crypto
  import opened Timestamp
  import Wire
  import Sessions

  const CONSTRUCTION := "Noise_IKpsk2_25519_ChaChaPoly_BLAKE2s"
  const IDENTIFIER := "WireGuard v1 zx2c4 Jason@zx2c4.com"
  const LABEL_MAC1 := "mac1----"

  function MacKey(recipient: Bytes): (k: Bytes)
    ensures |k| == HASH_SIZE
  {
    HashOf(Text(LABEL_MAC1) + recipient)
  }

  /** Our static private key and the one peer we talk to. */
  datatype Identity = Identity(priv: Bytes, peerPublic: Bytes) {
    predicate Valid() { |priv| == |peerPublic| == KEY_SIZE }
    function Public(): (p: Bytes) ensures |p| == KEY_SIZE { PublicKey(priv) }
    function SendingMacKey(): Bytes { MacKey(peerPublic) }
    function ReceivingMacKey(): Bytes { MacKey(Public()) }
  }

  // ------------------------------------------------------------- key schedule

  /** The running state of the handshake: the chaining key and the transcript hash. */
  datatype Chain = Chain(key: Bytes, hash: Bytes) {
    predicate Valid() { |key| == |hash| == HASH_SIZE }
  }

  function Begin(responder: Bytes): (c: Chain)
    ensures c.Valid()
  {
    var key := HashOf(Text(CONSTRUCTION));
    Chain(key, HashOf(HashOf(key + Text(IDENTIFIER)) + responder))
  }

  /** An ephemeral public key goes into both halves. */
  function MixEphemeral(c: Chain, ephemeral: Bytes): (r: Chain)
    ensures r.Valid()
  {
    Chain(Kdf(1, c.key, ephemeral), HashOf(c.hash + ephemeral))
  }

  /** The key that seals the next field, once `secret` is mixed in. */
  function FieldKey(c: Chain, secret: Bytes): (k: Bytes)
    ensures |k| == KEY_SIZE
  {
    Kdf(2, c.key, secret)
  }

  /** A shared secret goes into the chaining key, and the field sealed under it into the transcript. */
  function MixField(c: Chain, secret: Bytes, field: Bytes): (r: Chain)
    ensures r.Valid()
  {
    Chain(Kdf(1, c.key, secret), HashOf(c.hash + field))
  }

  /** The end of the exchange: the chaining key the transport keys come from, and the key and additional
      data of the empty field that confirms it. */
  datatype Finish = Finish(key: Bytes, confirm: Bytes, hash: Bytes)

  function Finished(c: Chain, ephemeral: Bytes, ee: Bytes, se: Bytes): (f: Finish)
    ensures |f.key| == |f.confirm| == |f.hash| == HASH_SIZE
  {
    var c4 := MixEphemeral(c, ephemeral);
    var key := Kdf(1, Kdf(1, c4.key, ee), se);
    var psk := Zeros(KEY_SIZE);
    Finish(Kdf(1, key, psk), Kdf(3, key, psk), HashOf(c4.hash + Kdf(2, key, psk)))
  }

  function Confirmation(f: Finish): (b: Bytes)
    ensures |b| == TAG_SIZE
  {
    Seal(f.confirm, 0, [], f.hash)
  }

  function InitiatorKeys(f: Finish, local: nat, peer: nat): Sessions.Keys {
    Sessions.Keys(Kdf(1, f.key, []), Kdf(2, f.key, []), local, peer)
  }

  function ResponderKeys(f: Finish, local: nat, peer: nat): Sessions.Keys {
    Sessions.Keys(Kdf(2, f.key, []), Kdf(1, f.key, []), local, peer)
  }

  // ---------------------------------------------------------------- messages

  function WithMacs(body: Bytes, key: Bytes): (m: Bytes) {
    body + MacOf(key, body) + Zeros(MAC_SIZE)
  }

  predicate Mac1Ok(d: Bytes, key: Bytes, claimed: Bytes) {
    Wire.Mac1Input(d).Some? && MacOf(key, Wire.Mac1Input(d).value) == claimed
  }

  /** What a handshake object remembers between its two calls. */
  datatype Handshake = Handshake(chain: Chain, ephemeral: Bytes, peerEphemeral: Bytes, local: nat, peer: nat) {
    predicate Valid() {
      chain.Valid() && |ephemeral| == |peerEphemeral| == KEY_SIZE && local < U32 && peer < U32
    }
  }

  function Blank(): (h: Handshake)
    ensures h.Valid()
  {
    Handshake(Chain(Zeros(32), Zeros(32)), Zeros(32), Zeros(32), 0, 0)
  }

  /** What an initiation says once it is written: its three variable fields and where the chain stands. */
  datatype Outgoing = Outgoing(ephemeral: Bytes, encStatic: Bytes, encStamp: Bytes, chain: Chain)

  /** The fields of an initiation. None if the peer's static key is rejected. */
  function WriteFields(id: Identity, e: Bytes, stamp: Bytes): (r: Option<Outgoing>)
    ensures r.None? <==> LowOrder(id.peerPublic)
    ensures r.Some? ==> r.value == FieldsOf(id, e, Dh(e, id.peerPublic).value, Dh(id.priv, id.peerPublic).value, stamp)
  {
    match (Dh(e, id.peerPublic), Dh(id.priv, id.peerPublic))
    case (Some(es), Some(ss)) => Some(FieldsOf(id, e, es, ss, stamp))
    case _ => None
  }

  /** The fields of an initiation, from the two shared secrets. */
  function FieldsOf(id: Identity, e: Bytes, es: Bytes, ss: Bytes, stamp: Bytes): (o: Outgoing)
    ensures o.chain.Valid() && |o.ephemeral| == KEY_SIZE && |o.encStatic| == Wire.STATIC_SIZE
    ensures |o.encStamp| == |stamp| + TAG_SIZE
  {
    var c1 := MixEphemeral(Begin(id.peerPublic), PublicKey(e));
    var encStatic := Seal(FieldKey(c1, es), 0, id.Public(), c1.hash);
    var c2 := MixField(c1, es, encStatic);
    var encStamp := Seal(FieldKey(c2, ss), 0, stamp, c2.hash);
    Outgoing(PublicKey(e), encStatic, encStamp, MixField(c2, ss, encStamp))
  }

  /** The message and the object's new state. None only if the peer's static key is rejected. */
  function WriteInitiation(id: Identity, e: Bytes, index: nat, now: Clock): (r: Option<(Bytes, Handshake)>)
    ensures r.None? <==> LowOrder(id.peerPublic)
    ensures r.Some? && |e| == KEY_SIZE && index < U32 ==> r.value.1.Valid()
  {
    match WriteFields(id, e, Stamp(now))
    case None => None
    case Some(o) =>
      Some((WithMacs(Wire.InitiationBody(index, o.ephemeral, o.encStatic, o.encStamp), id.SendingMacKey()),
            Blank().(chain := o.chain, ephemeral := e, local := index)))
  }

  /** A handshake object that writes an initiation was blank before it. */
  lemma WrittenHandshake(id: Identity, e: Bytes, index: nat, now: Clock)
    requires WriteInitiation(id, e, index, now).Some?
    ensures var h := WriteInitiation(id, e, index, now).value.1;
      h == Blank().(chain := h.chain, ephemeral := h.ephemeral, local := h.local)
  {
  }

  /** What the responder gets out of the fields of an initiation: where the chain stands, and the stamp.
      None if a point is rejected, a field does not open, or the static key inside is not the peer's. */
  function ReadFields(id: Identity, ephemeral: Bytes, encStatic: Bytes, encStamp: Bytes): (r: Option<(Chain, Bytes)>)
    ensures r.Some? ==> r.value.0.Valid() && |encStamp| == |r.value.1| + TAG_SIZE
    ensures r.Some? ==> !LowOrder(ephemeral) && !LowOrder(id.peerPublic)
  {
    var c1 := MixEphemeral(Begin(id.Public()), ephemeral);
    match Dh(id.priv, ephemeral)
    case None => None
    case Some(es) =>
      if Open(FieldKey(c1, es), 0, encStatic, c1.hash) != Some(id.peerPublic) then None
      else
        var c2 := MixField(c1, es, encStatic);
        match Dh(id.priv, id.peerPublic)
        case None => None
        case Some(ss) =>
          match Open(FieldKey(c2, ss), 0, encStamp, c2.hash)
          case None => None
          case Some(stamp) => Some((MixField(c2, ss, encStamp), stamp))
  }

  /** What reading an initiation yields: the object's new state and the stamp to remember. */
  datatype Incoming = Incoming(handshake: Handshake, stamp: Bytes)

  function ReadInitiation(id: Identity, d: Bytes, g: Greatest): (r: Option<Incoming>)
    requires id.Valid() && (g.Some? ==> |g.value| == TIMESTAMP_SIZE)
    ensures r.Some? ==> r.value.handshake.Valid() && |r.value.stamp| == TIMESTAMP_SIZE && Fresh(g, r.value.stamp)
  {
    match Wire.Decode(d)
    case Some(Initiation(sender, ephemeral, encStatic, encStamp, mac1, _)) =>
      if !Mac1Ok(d, id.ReceivingMacKey(), mac1) then None
      else
        (match ReadFields(id, ephemeral, encStatic, encStamp)
        case None => None
        case Some((chain, stamp)) =>
          if !Fresh(g, stamp) then None
          else Some(Incoming(Blank().(chain := chain, peerEphemeral := ephemeral, peer := sender), stamp)))
    case _ => None
  }

  /** So was one that reads an initiation. */
  lemma ReadHandshake(id: Identity, d: Bytes, g: Greatest)
    requires id.Valid() && (g.Some? ==> |g.value| == TIMESTAMP_SIZE) && ReadInitiation(id, d, g).Some?
    ensures var h := ReadInitiation(id, d, g).value.handshake;
      h == Blank().(chain := h.chain, peerEphemeral := h.peerEphemeral, peer := h.peer)
  {
    hide Wire.Decode, Mac1Ok, ReadFields, Fresh;
  }

  /** The end of the exchange as the responder computes it. */
  function RespondTo(id: Identity, h: Handshake, e: Bytes): (r: Option<Finish>)
    ensures r.None? <==> LowOrder(h.peerEphemeral) || LowOrder(id.peerPublic)
    ensures r.Some? ==> |r.value.key| == |r.value.hash| == HASH_SIZE
  {
    match (Dh(e, h.peerEphemeral), Dh(e, id.peerPublic))
    case (Some(ee), Some(se)) => Some(Finished(h.chain, PublicKey(e), ee, se))
    case _ => None
  }

  /** The end of the exchange as the initiator computes it. */
  function FinishWith(id: Identity, h: Handshake, ephemeral: Bytes): (r: Option<Finish>)
    ensures r.None? <==> LowOrder(ephemeral)
    ensures r.Some? ==> |r.value.key| == |r.value.hash| == HASH_SIZE
  {
    match (Dh(h.ephemeral, ephemeral), Dh(id.priv, ephemeral))
    case (Some(ee), Some(se)) => Some(Finished(h.chain, ephemeral, ee, se))
    case _ => None
  }

  /** The response and the responder's keys. */
  function WriteResponse(id: Identity, h: Handshake, e: Bytes, index: nat): (r: Option<(Bytes, Sessions.Keys)>)
    ensures r.None? <==> LowOrder(h.peerEphemeral) || LowOrder(id.peerPublic)
    ensures r.Some? && index < U32 && h.peer < U32 ==> r.value.1.Valid()
  {
    match RespondTo(id, h, e)
    case None => None
    case Some(f) =>
      Some((WithMacs(Wire.ResponseBody(index, h.peer, PublicKey(e), Confirmation(f)), id.SendingMacKey()),
            ResponderKeys(f, index, h.peer)))
  }

  /** The initiator's keys, if the response answers this very initiation. */
  function ReadResponse(id: Identity, h: Handshake, d: Bytes): (r: Option<Sessions.Keys>)
    requires h.Valid()
    ensures r.Some? ==> r.value.Valid()
  {
    match Wire.Decode(d)
    case Some(Response(sender, receiver, ephemeral, encNothing, mac1, _)) =>
      if receiver != h.local || !Mac1Ok(d, id.ReceivingMacKey(), mac1) then None
      else
        (match FinishWith(id, h, ephemeral)
        case None => None
        case Some(f) =>
          if Open(f.confirm, 0, encNothing, f.hash) != Some([]) then None
          else Some(InitiatorKeys(f, h.local, sender)))
    case _ => None
  }

  // --------------------------------------------- writers agree with the codec

  /** The bytes of an initiation decode to the fields that were meant, and its mac1 verifies under the key
      its recipient checks. */
  lemma InitiationOnTheWire(id: Identity, e: Bytes, index: nat, now: Clock)
    requires index < U32 && WriteInitiation(id, e, index, now).Some?
    ensures var (d, h) := WriteInitiation(id, e, index, now).value;
      var o := WriteFields(id, e, Stamp(now)).value;
      var body := Wire.InitiationBody(index, o.ephemeral, o.encStatic, o.encStamp);
      && |d| == Wire.INITIATION_SIZE
      && Wire.Decode(d) == Some(Wire.Initiation(index, o.ephemeral, o.encStatic, o.encStamp,
                                               MacOf(MacKey(id.peerPublic), body), Zeros(MAC_SIZE)))
      && Wire.Mac1Input(d) == Some(body)
      && Mac1Ok(d, MacKey(id.peerPublic), Wire.Decode(d).value.mac1)
  {
    hide WriteFields, MacOf, MacKey, Stamp, Wire.Decode, Wire.Mac1Input, Wire.InitiationBody;
    var o := WriteFields(id, e, Stamp(now)).value;
    var body := Wire.InitiationBody(index, o.ephemeral, o.encStatic, o.encStamp);
    var m := Wire.Initiation(index, o.ephemeral, o.encStatic, o.encStamp,
                             MacOf(MacKey(id.peerPublic), body), Zeros(MAC_SIZE));
    Wire.DecodeEncode(m);
    Wire.BodyIsMacInput(m);
  }

  lemma ResponseOnTheWire(id: Identity, h: Handshake, e: Bytes, index: nat)
    requires index < U32 && h.peer < U32 && WriteResponse(id, h, e, index).Some?
    ensures var (d, keys) := WriteResponse(id, h, e, index).value;
      var f := RespondTo(id, h, e).value;
      var body := Wire.ResponseBody(index, h.peer, PublicKey(e), Confirmation(f));
      && |d| == Wire.RESPONSE_SIZE
      && Wire.Decode(d) == Some(Wire.Response(index, h.peer, PublicKey(e), Confirmation(f),
                                              MacOf(MacKey(id.peerPublic), body), Zeros(MAC_SIZE)))
      && Wire.Mac1Input(d) == Some(body)
      && Mac1Ok(d, MacKey(id.peerPublic), Wire.Decode(d).value.mac1)
  {
    hide RespondTo, MacOf, MacKey, Confirmation, PublicKey, Wire.Decode, Wire.Mac1Input, Wire.ResponseBody;
    var f := RespondTo(id, h, e).value;
    var body := Wire.ResponseBody(index, h.peer, PublicKey(e), Confirmation(f));
    var m := Wire.Response(index, h.peer, PublicKey(e), Confirmation(f),
                           MacOf(MacKey(id.peerPublic), body), Zeros(MAC_SIZE));
    Wire.DecodeEncode(m);
    Wire.BodyIsMacInput(m);
  }

  /** Acceptance never depends on the mac2 bytes. */
  lemma Mac2IsIgnored(id: Identity, h: Handshake, g: Greatest, d: Bytes, mac2: Bytes)
    requires id.Valid() && h.Valid() && (g.Some? ==> |g.value| == TIMESTAMP_SIZE)
    requires |mac2| == MAC_SIZE && Wire.Offsets(d).Some?
    ensures var d' := d[..|d| - MAC_SIZE] + mac2;
      ReadInitiation(id, d, g) == ReadInitiation(id, d', g) && ReadResponse(id, h, d) == ReadResponse(id, h, d')
  {
    hide Wire.Decode, Wire.Mac1Input, Wire.Offsets, ReadFields, FinishWith, Fresh, Open, MacOf, InitiatorKeys;
    Wire.ReplaceMac2(d, mac2);
  }

  // ------------------------------------------------------------ key agreement

  lemma FieldsAreRead(si: Bytes, sr: Bytes, e: Bytes, stamp: Bytes)
    ensures var w := WriteFields(Identity(si, PublicKey(sr)), e, stamp);
      && w.Some?
      && ReadFields(Identity(sr, PublicKey(si)), w.value.ephemeral, w.value.encStatic, w.value.encStamp)
         == Some((w.value.chain, stamp))
  {
    DhAgrees(e, sr);
    DhAgrees(si, sr);
    PublicKeyIsPublic(sr);
    var es, ss := Dh(e, PublicKey(sr)).value, Dh(si, PublicKey(sr)).value;
    var c1 := MixEphemeral(Begin(PublicKey(sr)), PublicKey(e));
    OpenSeal(FieldKey(c1, es), 0, PublicKey(si), c1.hash);
    var c2 := MixField(c1, es, Seal(FieldKey(c1, es), 0, PublicKey(si), c1.hash));
    OpenSeal(FieldKey(c2, ss), 0, stamp, c2.hash);
  }

  /** The responder reads what the initiator wrote, and both then stand at the same chaining key and
      transcript hash. */
  lemma InitiationIsRead(si: Bytes, sr: Bytes, e: Bytes, index: nat, now: Clock, g: Greatest)
    requires |si| == |sr| == |e| == KEY_SIZE && index < U32
    requires g.Some? ==> |g.value| == TIMESTAMP_SIZE
    requires Fresh(g, Stamp(now))
    ensures var w := WriteInitiation(Identity(si, PublicKey(sr)), e, index, now);
      && w.Some?
      && var r := ReadInitiation(Identity(sr, PublicKey(si)), w.value.0, g);
      && r.Some? && r.value.stamp == Stamp(now)
      && r.value.handshake == Blank().(chain := w.value.1.chain, peerEphemeral := PublicKey(e), peer := index)
  {
    hide Wire.Decode, Mac1Ok, WriteFields, ReadFields, PublicKey;
    FieldsAreRead(si, sr, e, Stamp(now));
    InitiationOnTheWire(Identity(si, PublicKey(sr)), e, index, now);
  }

  lemma FinishesAgree(si: Bytes, sr: Bytes, hi: Handshake, hr: Handshake, e: Bytes)
    requires hi.chain == hr.chain && hr.peerEphemeral == PublicKey(hi.ephemeral)
    ensures RespondTo(Identity(sr, PublicKey(si)), hr, e).Some?
    ensures FinishWith(Identity(si, PublicKey(sr)), hi, PublicKey(e))
      == RespondTo(Identity(sr, PublicKey(si)), hr, e)
  {
    DhAgrees(e, hi.ephemeral);
    DhAgrees(e, si);
  }

  /** The initiator reads what the responder wrote, when both stand at the same chain, and the two sides
      hold the same keys the other way round. */
  lemma ResponseIsRead(si: Bytes, sr: Bytes, hi: Handshake, hr: Handshake, e: Bytes, index: nat)
    requires |si| == |sr| == |e| == KEY_SIZE && index < U32 && hi.Valid() && hr.Valid()
    requires hi.chain == hr.chain && hr.peerEphemeral == PublicKey(hi.ephemeral) && hr.peer == hi.local
    ensures var w := WriteResponse(Identity(sr, PublicKey(si)), hr, e, index);
      && w.Some?
      && var r := ReadResponse(Identity(si, PublicKey(sr)), hi, w.value.0);
      && r.Some? && Sessions.Crossed(r.value, w.value.1)
      && r.value.local == hi.local && r.value.peer == index && r.value.send != r.value.receive
  {
    hide Wire.Decode, Mac1Ok, RespondTo, FinishWith, PublicKey, Open;
    FinishesAgree(si, sr, hi, hr, e);
    var f := RespondTo(Identity(sr, PublicKey(si)), hr, e).value;
    ResponseOnTheWire(Identity(sr, PublicKey(si)), hr, e, index);
    OpenSeal(f.confirm, 0, [], f.hash);
    DirectionsDiffer(f.key);
  }

  lemma DirectionsDiffer(key: Bytes)
    requires |key| == HASH_SIZE
    ensures Kdf(1, key, []) != Kdf(2, key, [])
  {
    if Kdf(1, key, []) == Kdf(2, key, []) {
      KdfInjective(1, key, [], 2, key, []);
    }
  }

  /** For all keys, ephemerals, indices and fresh stamps, the honest four-step exchange succeeds and the two
      sides end with crossed keys and crossed indices, different in the two directions. */
  lemma KeyAgreement(si: Bytes, sr: Bytes, ei: Bytes, er: Bytes, i: nat, j: nat, now: Clock, g: Greatest)
    requires |si| == |sr| == |ei| == |er| == KEY_SIZE && i < U32 && j < U32
    requires g.Some? ==> |g.value| == TIMESTAMP_SIZE
    requires Fresh(g, Stamp(now))
    ensures var a, b := Identity(si, PublicKey(sr)), Identity(sr, PublicKey(si));
      var first := WriteInitiation(a, ei, i, now);
      && first.Some?
      && var read := ReadInitiation(b, first.value.0, g);
      && read.Some? && read.value.handshake.chain == first.value.1.chain
      && var second := WriteResponse(b, read.value.handshake, er, j);
      && second.Some?
      && var done := ReadResponse(a, first.value.1, second.value.0);
      && done.Some? && Sessions.Crossed(done.value, second.value.1)
      && done.value.local == i && done.value.peer == j && done.value.send != done.value.receive
  {
    InitiationIsRead(si, sr, ei, i, now, g);
    var first := WriteInitiation(Identity(si, PublicKey(sr)), ei, i, now).value;
    var read := ReadInitiation(Identity(sr, PublicKey(si)), first.0, g).value;
    ResponseIsRead(si, sr, first.1, read.handshake, er, j);
  }

  /** Once an initiation is accepted, answering it cannot fail: the points the response multiplies were
      already found sound. */
  lemma AcceptedIsAnswerable(id: Identity, d: Bytes, g: Greatest, e: Bytes, index: nat)
    requires id.Valid() && (g.Some? ==> |g.value| == TIMESTAMP_SIZE)
    requires ReadInitiation(id, d, g).Some?
    ensures WriteResponse(id, ReadInitiation(id, d, g).value.handshake, e, index).Some?
  {
  }
}
