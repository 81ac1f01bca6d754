/** One handshake attempt as the program runs it: the chaining key and the transcript hash are buffers that
    each step overwrites, and the object's own fields change only after the last step that can fail. */
module HandshakeObject {
  import opened Octets
  import opened Crypto
  import opened Timestamp
  import Noise
  import Wire
  import Sessions

  method MixHash(hash: array<Octet>, data: Bytes)
    requires hash.Length == HASH_SIZE
    modifies hash
    ensures hash[..] == HashOf(old(hash[..]) + data)
  {
    var digest := HashOf(hash[..] + data);
    CopyInto(hash, 0, digest);
  }

  method Begin(chainingKey: array<Octet>, hash: array<Octet>, responder: Bytes)
    requires chainingKey.Length == hash.Length == HASH_SIZE && chainingKey != hash
    modifies chainingKey, hash
    ensures Noise.Chain(chainingKey[..], hash[..]) == Noise.Begin(responder)
  {
    CopyInto(chainingKey, 0, HashOf(Text(Noise.CONSTRUCTION)));
    CopyInto(hash, 0, HashOf(chainingKey[..] + Text(Noise.IDENTIFIER)));
    assert chainingKey[..] == HashOf(Text(Noise.CONSTRUCTION));
    assert hash[..] == HashOf(chainingKey[..] + Text(Noise.IDENTIFIER));
    MixHash(hash, responder);
  }

  method MixDh(chainingKey: array<Octet>, priv: Bytes, point: Bytes) returns (ok: bool)
    requires chainingKey.Length == HASH_SIZE
    modifies chainingKey
    ensures ok == Dh(priv, point).Some?
    ensures chainingKey[..] ==
      if ok then Kdf(1, old(chainingKey[..]), Dh(priv, point).value) else old(chainingKey[..])
  {
    var secret := Dh(priv, point);
    if secret.None? {
      return false;
    }
    KdfInto(chainingKey, null, null, chainingKey, secret.value);
    return true;
  }

  method MixDhKey(chainingKey: array<Octet>, priv: Bytes, point: Bytes, key: array<Octet>) returns (ok: bool)
    requires chainingKey.Length == key.Length == HASH_SIZE && chainingKey != key
    modifies chainingKey, key
    ensures ok == Dh(priv, point).Some?
    ensures chainingKey[..] ==
      if ok then Kdf(1, old(chainingKey[..]), Dh(priv, point).value) else old(chainingKey[..])
    ensures ok ==> key[..] == Kdf(2, old(chainingKey[..]), Dh(priv, point).value)
  {
    var secret := Dh(priv, point);
    if secret.None? {
      return false;
    }
    KdfInto(chainingKey, key, null, chainingKey, secret.value);
    return true;
  }

  /** Mixes a secret in, seals `plain` under the key it gives and mixes the ciphertext in. */
  method SealField(chainingKey: array<Octet>, hash: array<Octet>, priv: Bytes, point: Bytes, plain: Bytes)
    returns (field: Option<Bytes>)
    requires chainingKey.Length == hash.Length == HASH_SIZE && chainingKey != hash
    modifies chainingKey, hash
    ensures field.Some? <==> Dh(priv, point).Some?
    ensures field.Some? ==>
      var c := Noise.Chain(old(chainingKey[..]), old(hash[..]));
      var secret := Dh(priv, point).value;
      && field.value == Seal(Noise.FieldKey(c, secret), 0, plain, c.hash)
      && Noise.Chain(chainingKey[..], hash[..]) == Noise.MixField(c, secret, field.value)
  {
    var key := new Octet[KEY_SIZE](_ => Plain(0));
    var ok := MixDhKey(chainingKey, priv, point, key);
    if !ok {
      return None;
    }
    var sealed := Seal(key[..], 0, plain, hash[..]);
    MixHash(hash, sealed);
    return Some(sealed);
  }

  /** Mixes a secret in, opens `field` under the key it gives and mixes the ciphertext in. */
  method OpenField(chainingKey: array<Octet>, hash: array<Octet>, priv: Bytes, point: Bytes, field: Bytes)
    returns (plain: Option<Bytes>)
    requires chainingKey.Length == hash.Length == HASH_SIZE && chainingKey != hash
    modifies chainingKey, hash
    ensures var c := Noise.Chain(old(chainingKey[..]), old(hash[..]));
      && (plain.Some? ==> Dh(priv, point).Some?)
      && (Dh(priv, point).Some? ==>
        var secret := Dh(priv, point).value;
        && plain == Open(Noise.FieldKey(c, secret), 0, field, c.hash)
        && (plain.Some? ==> Noise.Chain(chainingKey[..], hash[..]) == Noise.MixField(c, secret, field)))
  {
    var key := new Octet[KEY_SIZE](_ => Plain(0));
    var ok := MixDhKey(chainingKey, priv, point, key);
    if !ok {
      return None;
    }
    plain := Open(key[..], 0, field, hash[..]);
    if plain.None? {
      return None;
    }
    MixHash(hash, field);
  }

  /** Both secrets and the preshared key of the second message. */
  method FinishInto(chainingKey: array<Octet>, hash: array<Octet>, confirm: array<Octet>,
                    ephemeral: Bytes, priv1: Bytes, point1: Bytes, priv2: Bytes, point2: Bytes) returns (ok: bool)
    requires chainingKey.Length == hash.Length == confirm.Length == HASH_SIZE
    requires chainingKey != hash && chainingKey != confirm && hash != confirm
    modifies chainingKey, hash, confirm
    ensures ok <==> Dh(priv1, point1).Some? && Dh(priv2, point2).Some?
    ensures ok ==>
      var c := Noise.Chain(old(chainingKey[..]), old(hash[..]));
      Noise.Finish(chainingKey[..], confirm[..], hash[..])
        == Noise.Finished(c, ephemeral, Dh(priv1, point1).value, Dh(priv2, point2).value)
  {
    KdfInto(chainingKey, null, null, chainingKey, ephemeral);
    MixHash(hash, ephemeral);
    ok := MixDh(chainingKey, priv1, point1);
    if !ok {
      return;
    }
    ok := MixDh(chainingKey, priv2, point2);
    if !ok {
      return;
    }
    var tau := new Octet[HASH_SIZE](_ => Plain(0));
    KdfInto(chainingKey, tau, confirm, chainingKey, Zeros(KEY_SIZE));
    MixHash(hash, tau[..]);
  }

  /** mac1 over everything before it, mac2 all zeros, in the message at the front of `out`. */
  method WriteMacs(out: array<Octet>, size: nat, key: Bytes, ghost body: Bytes)
    requires size <= out.Length && Wire.Offsets(out[..size]).Some? && out[..size - 2 * MAC_SIZE] == body
    modifies out
    ensures out[..size] == Noise.WithMacs(body, key)
    ensures forall i :: size <= i < out.Length ==> out[i] == old(out[i])
  {
    var o := Wire.Offsets(out[..size]).value;
    CopyInto(out, o.mac1, MacOf(key, out[..o.mac1]));
    CopyInto(out, o.mac2, Zeros(MAC_SIZE));
  }

  method StampOf(now: Clock) returns (stamp: Bytes)
    ensures stamp == Stamp(now)
  {
    var buffer := new Octet[TIMESTAMP_SIZE](_ => Plain(0));
    TimestampInto(buffer, now);
    return buffer[..];
  }

  /** The fields of an initiation, computed on buffers. */
  method WriteFields(id: Noise.Identity, e: Bytes, stamp: Bytes) returns (r: Option<Noise.Outgoing>)
    ensures r == Noise.WriteFields(id, e, stamp)
  {
    var ck, h := new Octet[HASH_SIZE](_ => Plain(0)), new Octet[HASH_SIZE](_ => Plain(0));
    Begin(ck, h, id.peerPublic);
    var ephemeral := PublicKey(e);
    KdfInto(ck, null, null, ck, ephemeral);
    MixHash(h, ephemeral);
    var encStatic := SealField(ck, h, e, id.peerPublic, id.Public());
    if encStatic.None? {
      return None;
    }
    var encStamp := SealField(ck, h, id.priv, id.peerPublic, stamp);
    if encStamp.None? {
      return None;
    }
    return Some(Noise.Outgoing(ephemeral, encStatic.value, encStamp.value, Noise.Chain(ck[..], h[..])));
  }

  /** The fields of an initiation, opened on buffers. */
  method ReadFields(id: Noise.Identity, ephemeral: Bytes, encStatic: Bytes, encStamp: Bytes)
    returns (r: Option<(Noise.Chain, Bytes)>)
    ensures r == Noise.ReadFields(id, ephemeral, encStatic, encStamp)
  {
    var ck, h := new Octet[HASH_SIZE](_ => Plain(0)), new Octet[HASH_SIZE](_ => Plain(0));
    Begin(ck, h, id.Public());
    KdfInto(ck, null, null, ck, ephemeral);
    MixHash(h, ephemeral);
    var claimed := OpenField(ck, h, id.priv, ephemeral, encStatic);
    if claimed != Some(id.peerPublic) {
      return None;
    }
    var stamp := OpenField(ck, h, id.priv, claimed.value, encStamp);
    if stamp.None? {
      return None;
    }
    return Some((Noise.Chain(ck[..], h[..]), stamp.value));
  }

  /** The end of the exchange, computed on copies of the chain. */
  method FinishFrom(c: Noise.Chain, ephemeral: Bytes, priv1: Bytes, point1: Bytes, priv2: Bytes, point2: Bytes)
    returns (r: Option<Noise.Finish>)
    requires c.Valid()
    ensures r == match (Dh(priv1, point1), Dh(priv2, point2))
                 case (Some(ee), Some(se)) => Some(Noise.Finished(c, ephemeral, ee, se))
                 case _ => None
  {
    var ck, h, confirm := new Octet[HASH_SIZE](_ => Plain(0)), new Octet[HASH_SIZE](_ => Plain(0)),
                          new Octet[HASH_SIZE](_ => Plain(0));
    CopyInto(ck, 0, c.key);
    CopyInto(h, 0, c.hash);
    assert ck[..] == c.key && h[..] == c.hash;
    var ok := FinishInto(ck, h, confirm, ephemeral, priv1, point1, priv2, point2);
    if !ok {
      return None;
    }
    return Some(Noise.Finish(ck[..], confirm[..], h[..]));
  }

  /** The two transport keys, in the order the chain gives them, into the buffers they are used from. */
  method DeriveKeys(first: array<Octet>, second: array<Octet>, key: Bytes)
    requires first.Length == second.Length == |key| == HASH_SIZE && first != second
    modifies first, second
    ensures first[..] == Kdf(1, key, []) && second[..] == Kdf(2, key, [])
  {
    var ck := new Octet[HASH_SIZE](_ => Plain(0));
    CopyInto(ck, 0, key);
    assert ck[..] == key;
    KdfInto(first, second, null, ck, []);
  }

  class Handshake {
    const identity: Noise.Identity
    var chainingKey: Bytes
    var hash: Bytes
    var ephemeralPrivate: Bytes
    var peerEphemeral: Bytes
    var localIndex: nat
    var peerIndex: nat

    ghost function Value(): Noise.Handshake
      reads this
    {
      Noise.Handshake(Noise.Chain(chainingKey, hash), ephemeralPrivate, peerEphemeral, localIndex, peerIndex)
    }

    ghost predicate Valid()
      reads this
    {
      identity.Valid() && Value().Valid()
    }

    constructor (identity: Noise.Identity)
      requires identity.Valid()
      ensures this.identity == identity && Valid() && Value() == Noise.Blank()
    {
      this.identity := identity;
      chainingKey, hash := Zeros(32), Zeros(32);
      ephemeralPrivate, peerEphemeral := Zeros(32), Zeros(32);
      localIndex, peerIndex := 0, 0;
    }

    /** The message goes to the front of `out`. The ephemeral key, the index and the clock reading are what the
        operating system supplied. */
    method WriteInitiation(out: array<Octet>, e: Bytes, index: nat, now: Clock) returns (ok: bool)
      requires Valid() && |e| == KEY_SIZE && index < U32
      modifies this, out
      ensures Valid()
      ensures var w := Noise.WriteInitiation(identity, e, index, now);
        && ok == (out.Length >= Wire.INITIATION_SIZE && w.Some?)
        && (ok ==> out[..Wire.INITIATION_SIZE] == w.value.0)
        && Value() == if ok
          then old(Value()).(chain := w.value.1.chain, ephemeral := w.value.1.ephemeral, local := w.value.1.local)
          else old(Value())
      ensures forall i :: Wire.INITIATION_SIZE <= i < out.Length ==> out[i] == old(out[i])
    {
      hide Noise.WriteFields, Noise.WithMacs, Noise.MacKey, Wire.InitiationBody, Stamp;
      if out.Length < Wire.INITIATION_SIZE {
        return false;
      }
      var stamp := StampOf(now);
      var fields := WriteFields(identity, e, stamp);
      if fields.None? {
        return false;
      }
      var o := fields.value;
      WriteInitiationMessage(out, index, o.ephemeral, o.encStatic, o.encStamp);
      chainingKey, hash, ephemeralPrivate, localIndex := o.chain.key, o.chain.hash, e, index;
      return true;
    }

    method WriteInitiationMessage(out: array<Octet>, index: nat, ephemeral: Bytes, encStatic: Bytes, encStamp: Bytes)
      requires out.Length >= Wire.INITIATION_SIZE
      requires index < U32 && |ephemeral| == KEY_SIZE
      requires |encStatic| == Wire.STATIC_SIZE && |encStamp| == Wire.STAMP_SIZE
      modifies out
      ensures out[..Wire.INITIATION_SIZE] ==
        Noise.WithMacs(Wire.InitiationBody(index, ephemeral, encStatic, encStamp), identity.SendingMacKey())
      ensures forall i :: Wire.INITIATION_SIZE <= i < out.Length ==> out[i] == old(out[i])
    {
      hide LittleEndian, Wire.Offsets;
      ghost var body := Wire.InitiationBody(index, ephemeral, encStatic, encStamp);
      CopyInto(out, 0, Wire.Prefix(1));
      Wire.WriteLittle(out, 4, index, 4);
      CopyInto(out, 8, ephemeral);
      CopyInto(out, 40, encStatic);
      CopyInto(out, 88, encStamp);
      assert out[..Wire.INITIATION_MAC1] == body;
      assert Wire.Offsets(out[..Wire.INITIATION_SIZE]).Some? by {
        assert body == Wire.Prefix(1) + body[4..];
        Wire.BodyDecidesOffsets(out[..Wire.INITIATION_SIZE], 1, body[4..]);
      }
      WriteMacs(out, Wire.INITIATION_SIZE, identity.SendingMacKey(), body);
    }

    /** A rejected message leaves the object and the guard exactly as they were. */
    method ReadInitiation(message: Bytes, guard: TimestampGuard) returns (ok: bool)
      requires Valid() && guard.Valid()
      modifies this, guard
      ensures Valid() && guard.Valid()
      ensures var r := Noise.ReadInitiation(identity, message, old(guard.Value()));
        && ok == r.Some?
        && (ok ==>
          && guard.Value() == Some(r.value.stamp)
          && Value() == old(Value()).(chain := r.value.handshake.chain,
               peerEphemeral := r.value.handshake.peerEphemeral, peer := r.value.handshake.peer))
      ensures !ok ==> unchanged(this) && unchanged(guard)
    {
      hide Wire.Decode, Noise.Mac1Ok, Noise.ReadFields;
      var decoded := Wire.Parse(message);
      if decoded.None? || !decoded.value.Initiation? {
        return false;
      }
      var m := decoded.value;
      if !Noise.Mac1Ok(message, identity.ReceivingMacKey(), m.mac1) {
        return false;
      }
      var fields := ReadFields(identity, m.ephemeral, m.encStatic, m.encStamp);
      if fields.None? {
        return false;
      }
      var (chain, stamp) := fields.value;
      ok := guard.Accept(stamp);
      if !ok {
        return false;
      }
      chainingKey, hash, peerEphemeral, peerIndex := chain.key, chain.hash, m.ephemeral, m.sender;
    }

    /** Writes the response, and overwrites `keys` only past the last step that can fail. */
    method WriteResponse(out: array<Octet>, keys: Sessions.TransportKeys, e: Bytes, index: nat) returns (ok: bool)
      requires Valid() && keys.Valid() && |e| == KEY_SIZE && index < U32
      requires out != keys.send && out != keys.receive
      modifies this, out, keys, keys.send, keys.receive
      ensures Valid() && keys.Valid()
      ensures var w := Noise.WriteResponse(identity, old(Value()), e, index);
        && ok == (out.Length >= Wire.RESPONSE_SIZE && w.Some?)
        && (ok ==> keys.Value() == w.value.1 && out[..Wire.RESPONSE_SIZE] == w.value.0)
        && Value() == if ok
          then old(Value()).(chain := Noise.Blank().chain, ephemeral := Zeros(KEY_SIZE), local := index)
          else old(Value())
      ensures !ok ==> unchanged(keys) && unchanged(keys.send) && unchanged(keys.receive)
      ensures forall i :: Wire.RESPONSE_SIZE <= i < out.Length ==> out[i] == old(out[i])
    {
      hide Dh, Kdf, PublicKey;
      if out.Length < Wire.RESPONSE_SIZE {
        return false;
      }
      var ephemeral := PublicKey(e);
      var finish := FinishFrom(Noise.Chain(chainingKey, hash), ephemeral, e, peerEphemeral, e, identity.peerPublic);
      assert finish == Noise.RespondTo(identity, Value(), e);
      if finish.None? {
        return false;
      }
      var f := finish.value;
      var encNothing := Seal(f.confirm, 0, [], f.hash);
      DeriveKeys(keys.receive, keys.send, f.key);
      keys.local, keys.peer := index, peerIndex;
      localIndex := index;
      chainingKey, hash, ephemeralPrivate := Zeros(HASH_SIZE), Zeros(HASH_SIZE), Zeros(KEY_SIZE);
      WriteResponseMessage(out, index, ephemeral, encNothing);
      return true;
    }

    method WriteResponseMessage(out: array<Octet>, index: nat, ephemeral: Bytes, encNothing: Bytes)
      requires out.Length >= Wire.RESPONSE_SIZE
      requires index < U32 && peerIndex < U32 && |ephemeral| == KEY_SIZE && |encNothing| == TAG_SIZE
      modifies out
      ensures out[..Wire.RESPONSE_SIZE] ==
        Noise.WithMacs(Wire.ResponseBody(index, peerIndex, ephemeral, encNothing), identity.SendingMacKey())
      ensures forall i :: Wire.RESPONSE_SIZE <= i < out.Length ==> out[i] == old(out[i])
    {
      hide LittleEndian, Wire.Offsets;
      ghost var body := Wire.ResponseBody(index, peerIndex, ephemeral, encNothing);
      CopyInto(out, 0, Wire.Prefix(2));
      Wire.WriteLittle(out, 4, index, 4);
      Wire.WriteLittle(out, 8, peerIndex, 4);
      CopyInto(out, 12, ephemeral);
      CopyInto(out, 44, encNothing);
      assert out[..Wire.RESPONSE_MAC1] == body;
      assert Wire.Offsets(out[..Wire.RESPONSE_SIZE]).Some? by {
        assert body == Wire.Prefix(2) + body[4..];
        Wire.BodyDecidesOffsets(out[..Wire.RESPONSE_SIZE], 2, body[4..]);
      }
      WriteMacs(out, Wire.RESPONSE_SIZE, identity.SendingMacKey(), body);
    }

    /** A rejected response leaves the object and `keys` exactly as they were. */
    method ReadResponse(message: Bytes, keys: Sessions.TransportKeys) returns (ok: bool)
      requires Valid() && keys.Valid()
      modifies this, keys, keys.send, keys.receive
      ensures Valid() && keys.Valid()
      ensures var r := Noise.ReadResponse(identity, old(Value()), message);
        && ok == r.Some?
        && (ok ==>
          && keys.Value() == r.value
          && Value() == old(Value()).(chain := Noise.Blank().chain, ephemeral := Zeros(KEY_SIZE),
               peerEphemeral := Wire.Decode(message).value.ephemeral, peer := r.value.peer))
      ensures !ok ==> unchanged(this) && unchanged(keys) && unchanged(keys.send) && unchanged(keys.receive)
    {
      hide Wire.Decode, Noise.Mac1Ok, Dh, Kdf, Open;
      var decoded := Wire.Parse(message);
      if decoded.None? || !decoded.value.Response? {
        return false;
      }
      var m := decoded.value;
      if m.receiver != localIndex || !Noise.Mac1Ok(message, identity.ReceivingMacKey(), m.mac1) {
        return false;
      }
      var finish := FinishFrom(Noise.Chain(chainingKey, hash), m.ephemeral,
                               ephemeralPrivate, m.ephemeral, identity.priv, m.ephemeral);
      assert finish == Noise.FinishWith(identity, Value(), m.ephemeral);
      if finish.None? {
        return false;
      }
      var f := finish.value;
      if Open(f.confirm, 0, m.encNothing, f.hash) != Some([]) {
        return false;
      }
      DeriveKeys(keys.send, keys.receive, f.key);
      keys.local, keys.peer := localIndex, m.sender;
      peerEphemeral, peerIndex := m.ephemeral, m.sender;
      chainingKey, hash, ephemeralPrivate := Zeros(HASH_SIZE), Zeros(HASH_SIZE), Zeros(KEY_SIZE);
      return true;
    }
  }
}
