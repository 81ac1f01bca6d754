/** What the two relays manage to do when nothing is in the way: packets that fit are never lost to
    arithmetic, genuine datagrams get through, and retries are not taken for replays. */
module Progress {
  import opened Octets
  import opened Relay
  import opened Timestamp
  import Crypto
  import Noise
  import Sessions
  import Window
  import Wire

  /** A packet that came through a TUN device of this MTU makes a datagram that a peer with the same MTU
      does not drop for its size, and sealing it can fail by counter exhaustion only. The bound is attained. */
  lemma SealedFits(r: State, packet: Bytes, env: Env)
    requires |packet| <= r.mtu && r.peer.Some? && r.session.active
    ensures OnPacket(r, packet, env).1.datagram.Some? <==> r.session.sendCounter < 0xffff_ffff_ffff_dfff
    ensures OnPacket(r, packet, env).1.datagram.Some? ==>
      var n := |OnPacket(r, packet, env).1.datagram.value.0|;
      n <= Wire.MaxDatagram(r.mtu) && (|packet| == r.mtu ==> n == Wire.MaxDatagram(r.mtu))
  {
    hide Count, CountSent;
    Wire.PaddingIsLeast(|packet|, r.mtu);
  }

  /** A datagram is counted as too long exactly when it is, although the buffer holds one byte more only. */
  lemma OversizeIsDetected(r: State, raw: Bytes, from: Endpoint, env: Env)
    requires r.Valid()
    ensures |raw| > Wire.MaxDatagram(r.mtu) ==> OnDatagram(r, raw, from, env) == (Count(r, Oversize), SILENT)
    ensures |raw| <= Wire.MaxDatagram(r.mtu) ==>
      Received(r.mtu, raw) == raw && OnDatagram(r, raw, from, env).0.stats.Of(Oversize) == r.stats.Of(Oversize)
  {
    hide Count, CountDelivered, Follow, Wire.Decode, Noise.ReadInitiation, Noise.WriteResponse, Noise.ReadResponse,
         Window.Acceptable, Sessions.Opened, Sessions.AfterOpen, Stats.Outcomes, Stats.Of;
  }

  /** A genuine datagram that was not accepted before and is less than the window behind is delivered,
      exactly as it was sent, whatever else arrived in between. */
  lemma GenuineIsDelivered(r: State, keys: Sessions.Keys, counter: nat, packet: Bytes, from: Endpoint, env: Env)
    requires r.Valid() && r.session.active && keys.Valid() && Sessions.Crossed(keys, r.session.keys)
    requires Window.Acceptable(r.session.accepted, counter)
    requires packet != [] && Sessions.WellFormed(packet) && |packet| <= r.mtu
    ensures var (r', out) := OnDatagram(r, Sessions.Datagram(keys, counter, packet), from, env);
      && out == Output(None, Some(packet))
      && r'.session == r.session.(accepted := r.session.accepted + {counter})
  {
    hide Wire.Decode, Count, CountDelivered, Follow, Sessions.Verified;
    Wire.PaddingIsLeast(|packet|, r.mtu);
    Sessions.RoundTrip(keys, r.session, counter, packet);
  }

  /** An initiation stamped at least 2^24 ns after the last one accepted is accepted and answered, whenever
      it fits the receive buffer: retries a second apart on a steady clock are never refused as stale. That the
      responder's guard stands at an earlier initiation in every run is `Recovery.RetryIsFresh`. */
  lemma RetryIsAnswered(r: State, si: Bytes, e: Bytes, index: nat, last: Clock, now: Clock, from: Endpoint, env: Env)
    requires r.Valid() && env.Valid() && r.role == Responder && |si| == |e| == Crypto.KEY_SIZE && index < U32
    requires r.id.peerPublic == Crypto.PublicKey(si)
    requires last.Valid() && now.Valid() && last.Nanoseconds() + GRANULE <= now.Nanoseconds()
    requires r.greatest.None? || r.greatest == Some(Stamp(last))
    requires Wire.INITIATION_SIZE <= Wire.MaxDatagram(r.mtu)
    ensures var w := Noise.WriteInitiation(Noise.Identity(si, r.id.Public()), e, index, now);
      && w.Some?
      && var (r', out) := OnDatagram(r, w.value.0, from, env);
      && out.datagram.Some? && r'.session.active && r'.peer == Some(from) && r'.greatest == Some(Stamp(now))
  {
    hide Noise.WriteInitiation, Noise.ReadInitiation, Noise.WriteResponse, Wire.Decode, Count, Follow,
         Crypto.PublicKey, Stamp, After, Crypto.LowOrder;
    StampsSeparate(last, now);
    Noise.InitiationIsRead(si, r.id.priv, e, index, now, r.greatest);
    Noise.InitiationOnTheWire(Noise.Identity(si, r.id.Public()), e, index, now);
    var d := Noise.WriteInitiation(Noise.Identity(si, r.id.Public()), e, index, now).value.0;
    assert r.id == Noise.Identity(r.id.priv, Crypto.PublicKey(si));
    Noise.AcceptedIsAnswerable(r.id, d, r.greatest, env.key, env.index);
  }
}
