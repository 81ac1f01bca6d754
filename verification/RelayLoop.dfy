/** The relay as the program runs it: one object whose session, pending handshake, guard, endpoint and
    counters every event updates in place, over three buffers that are reused for every packet. */
module RelayLoop {
  import opened Octets
  import opened Relay
  import opened Timestamp
  import Crypto
  import H = HandshakeObject
  import Noise
  import Sessions
  import Window
  import Wire

  class Loop {
    const role: Role
    const mtu: nat
    const identity: Noise.Identity
    var peer: Option<Endpoint>
    var session: Sessions.Session
    var pending: H.Handshake?
    var guard: TimestampGuard
    var lastInitiation: nat
    var stats: Stats
    const tunBuffer: array<Octet>
    const udpBuffer: array<Octet>
    const handshakeBuffer: array<Octet>

    ghost predicate Valid()
      reads this, session, session.window, session.window.bitmap, session.keys, guard, pending
    {
      && identity.Valid() && session.Valid() && guard.Valid() && lastInitiation < U64
      && (pending != null ==> pending.Valid() && pending.identity == identity)
      && tunBuffer.Length == Wire.MaxDatagram(mtu) && udpBuffer.Length == Wire.MaxDatagram(mtu) + 1
      && handshakeBuffer.Length == Wire.INITIATION_SIZE
      && tunBuffer != udpBuffer && tunBuffer != handshakeBuffer && udpBuffer != handshakeBuffer
      && session.Apart(tunBuffer) && session.Apart(udpBuffer) && session.Apart(handshakeBuffer)
    }

    ghost function Value(): State
      reads this, session, session.window, session.keys, session.keys.send, session.keys.receive, guard, pending
    {
      State(role, mtu, identity, peer, session.Value(), if pending == null then None else Some(pending.Value()),
            guard.Value(), lastInitiation, stats)
    }

    constructor (role: Role, mtu: nat, identity: Noise.Identity, peer: Option<Endpoint>)
      requires identity.Valid()
      ensures Valid() && Value() == Start(role, mtu, identity, peer)
      ensures fresh(session) && fresh(session.window) && fresh(session.window.bitmap) && fresh(guard)
      ensures fresh(session.keys) && fresh(session.keys.send) && fresh(session.keys.receive)
      ensures fresh(tunBuffer) && fresh(udpBuffer) && fresh(handshakeBuffer)
    {
      this.role, this.mtu, this.identity, this.peer := role, mtu, identity, peer;
      session := new Sessions.Session();
      pending := null;
      guard := new TimestampGuard();
      lastInitiation, stats := 0, ZERO_STATS;
      tunBuffer := new Octet[Wire.HEADER_SIZE + Wire.PaddedLength(mtu) + Crypto.TAG_SIZE](_ => Plain(0));
      udpBuffer := new Octet[Wire.MaxDatagram(mtu) + 1](_ => Plain(0));
      handshakeBuffer := new Octet[Wire.INITIATION_SIZE](_ => Plain(0));
    }

    method Tally(o: Outcome)
      requires Valid()
      modifies `stats
      ensures Valid() && Value() == Count(old(Value()), o)
    {
      hide Stats.Outcomes, Stats.Of, Stats.Add, Sessions.Session.Valid;
      stats := stats.Add(o);
    }

    method FollowPeer(from: Endpoint)
      requires Valid()
      modifies `peer, `stats
      ensures Valid() && Value() == Follow(old(Value()), from)
    {
      if peer != Some(from) {
        peer := Some(from);
        stats := stats.(endpointUpdates := stats.endpointUpdates + 1);
      }
    }

    /** Sends an initiation, at most once per retry interval. */
    method TryHandshake(env: Env) returns (out: Output)
      requires Valid() && env.Valid()
      modifies this, handshakeBuffer
      ensures Valid() && session == old(session) && guard == old(guard)
      ensures pending == old(pending) || pending == null || fresh(pending)
      ensures (Value(), out) == StartHandshake(old(Value()), env)
    {
      hide Noise.WriteInitiation, Sessions.Session.Valid, Stats.Outcomes, Stats.Of, Count, Follow;
      if role != Initiator || peer.None? {
        return SILENT;
      }
      if lastInitiation != 0 && (env.monotonic - lastInitiation) % U64 < RETRY_NS {
        return SILENT;
      }
      lastInitiation := env.monotonic;
      var ok := Initiate(env);
      if !ok {
        return SILENT;
      }
      Tally(if env.sent then Started else SendFailed);
      return Output(Some((handshakeBuffer[..], peer.value)), None);
    }

    /** A new pending handshake writes its initiation, or none is pending. */
    method Initiate(env: Env) returns (ok: bool)
      requires Valid() && env.Valid()
      modifies `pending, handshakeBuffer
      ensures Valid() && (pending == null || fresh(pending))
      ensures var w := Noise.WriteInitiation(identity, env.key, env.index, env.clock);
        && ok == w.Some?
        && (ok ==> handshakeBuffer[..] == w.value.0)
        && Value() == old(Value()).(pending := if ok then Some(w.value.1) else None)
    {
      hide Noise.WriteInitiation, Sessions.Session.Valid, Noise.Blank;
      var handshake := new H.Handshake(identity);
      pending := handshake;
      ok := handshake.WriteInitiation(handshakeBuffer, env.key, env.index, env.clock);
      if !ok {
        pending := null;
        return;
      }
      assert handshakeBuffer[..] == handshakeBuffer[..Wire.INITIATION_SIZE];
      Noise.WrittenHandshake(identity, env.key, env.index, env.clock);
    }

    /** A packet read from the TUN device into its slot in the send buffer. */
    method PacketFromTun(packet: Bytes, env: Env) returns (out: Output)
      requires Valid() && env.Valid() && |packet| <= mtu
      modifies this, session, tunBuffer, handshakeBuffer
      ensures Valid() && session == old(session) && guard == old(guard) && session.window == old(session.window)
      ensures pending == old(pending) || pending == null || fresh(pending)
      ensures (Value(), out) == OnPacket(old(Value()), packet, env)
    {
      hide Sessions.Datagram, Sessions.Session.Valid, Stats.Outcomes, Stats.Of, Count, CountSent, Follow,
           StartHandshake;
      Wire.PaddingIsLeast(|packet|, mtu);
      Crypto.CopyInto(tunBuffer, Wire.HEADER_SIZE, packet);
      if peer.None? {
        Tally(NoPeer);
        return SILENT;
      }
      if !session.active {
        Tally(NoSession);
        out := TryHandshake(env);
        return;
      }
      assert tunBuffer[16..16 + |packet|] == tunBuffer[..16 + |packet|][16..] == packet;
      out := Transmit(|packet|, env);
    }

    /** Seals the packet in its slot and hands the datagram to the socket. */
    method Transmit(length: nat, env: Env) returns (out: Output)
      requires Valid() && peer.Some? && session.active && length <= mtu
      requires Wire.HEADER_SIZE + length <= tunBuffer.Length
      modifies `stats, session`sendCounter, tunBuffer
      ensures Valid()
      ensures (Value(), out) == OnPacket(old(Value()), old(tunBuffer[16..16 + length]), env)
    {
      hide Sessions.Datagram, Window.ReplayWindow.Valid, Stats.Outcomes, Stats.Of, Count, Follow;
      Wire.PaddingIsLeast(length, mtu);
      var size := session.Seal(tunBuffer, length);
      if size.None? {
        Tally(Exhausted);
        return SILENT;
      }
      if env.sent {
        stats := stats.(tunToUdpBytes := stats.tunToUdpBytes + size.value);
        Tally(TunToUdp);
      } else {
        Tally(SendFailed);
      }
      return Output(Some((tunBuffer[..size.value], peer.value)), None);
    }

    /** Answers the initiation `handshake` has read: the response goes to the front of the handshake buffer, the
        new keys over the session's own. */
    method Respond(handshake: H.Handshake, env: Env) returns (ok: bool)
      requires Valid() && handshake.Valid() && handshake.identity == identity && handshake != pending && env.Valid()
      modifies session, session.keys, session.keys.send, session.keys.receive, handshake, handshakeBuffer
      ensures Valid()
      ensures session.window == old(session.window) || (fresh(session.window) && fresh(session.window.bitmap))
      ensures var w := Noise.WriteResponse(identity, old(handshake.Value()), env.key, env.index);
        && ok == w.Some?
        && (ok ==> handshakeBuffer[..Wire.RESPONSE_SIZE] == w.value.0)
        && Value() == if ok then old(Value()).(session := Sessions.Activated(w.value.1)) else old(Value())
    {
      hide Noise.WriteResponse, Window.ReplayWindow.Valid;
      ok := handshake.WriteResponse(handshakeBuffer, session.keys, env.key, env.index);
      if ok {
        session.Activate();
      }
    }

    /** A handshake object of its own reads the initiation, against the guard all of them share. */
    method Read(d: Bytes) returns (handshake: H.Handshake, ok: bool)
      requires Valid()
      modifies guard
      ensures Valid() && fresh(handshake) && handshake.Valid() && handshake.identity == identity
      ensures var r := Noise.ReadInitiation(identity, d, old(guard.Value()));
        && ok == r.Some?
        && (ok ==> handshake.Value() == r.value.handshake)
        && Value() == if ok then old(Value()).(greatest := Some(r.value.stamp)) else old(Value())
    {
      hide Noise.ReadInitiation, Sessions.Session.Valid, Stats.Outcomes, Stats.Of, Noise.Blank;
      handshake := new H.Handshake(identity);
      ok := handshake.ReadInitiation(d, guard);
      if ok {
        Noise.ReadHandshake(identity, d, old(guard.Value()));
      }
    }

    method InitiationFromNet(d: Bytes, from: Endpoint, env: Env) returns (out: Output)
      requires Valid() && env.Valid()
      modifies this, session, session.keys, session.keys.send, session.keys.receive, guard, handshakeBuffer
      ensures Valid() && session == old(session) && guard == old(guard) && pending == old(pending)
      ensures session.window == old(session.window) || (fresh(session.window) && fresh(session.window.bitmap))
      ensures (Value(), out) == OnInitiation(old(Value()), d, from, env)
    {
      hide Noise.ReadInitiation, Noise.WriteResponse, Stats.Outcomes, Stats.Of, Sessions.Session.Valid, Count,
           Follow;
      if role != Responder {
        Tally(Malformed);
        return SILENT;
      }
      var handshake, ok := Read(d);
      if !ok {
        Tally(Rejected);
        return SILENT;
      }
      out := Welcome(handshake, from, env);
    }

    /** What follows an accepted initiation: the answer, the new session and the sender's address. */
    method Welcome(handshake: H.Handshake, from: Endpoint, env: Env) returns (out: Output)
      requires Valid() && handshake.Valid() && handshake.identity == identity && handshake != pending && env.Valid()
      modifies `peer, `stats, session, session.keys, session.keys.send, session.keys.receive, handshake
      modifies handshakeBuffer
      ensures Valid()
      ensures session.window == old(session.window) || (fresh(session.window) && fresh(session.window.bitmap))
      ensures (Value(), out) ==
        match Noise.WriteResponse(identity, old(handshake.Value()), env.key, env.index)
        case None => (Count(old(Value()), Rejected), SILENT)
        case Some((message, keys)) =>
          (Count(Follow(old(Value()).(session := Sessions.Activated(keys)), from),
                 if env.sent then Completed else SendFailed),
           Output(Some((message, from)), None))
    {
      hide Noise.WriteResponse, Stats.Outcomes, Stats.Of, Sessions.Session.Valid, Count, Follow;
      var ok := Respond(handshake, env);
      if !ok {
        Tally(Rejected);
        return SILENT;
      }
      FollowPeer(from);
      Tally(if env.sent then Completed else SendFailed);
      return Output(Some((handshakeBuffer[..Wire.RESPONSE_SIZE], from)), None);
    }

    method ResponseFromNet(d: Bytes) returns (out: Output)
      requires Valid()
      modifies this, session, session.keys, session.keys.send, session.keys.receive, pending
      ensures Valid() && session == old(session) && guard == old(guard) && (pending == old(pending) || pending == null)
      ensures session.window == old(session.window) || (fresh(session.window) && fresh(session.window.bitmap))
      ensures (Value(), out) == OnResponse(old(Value()), d)
    {
      hide Noise.ReadResponse, Window.ReplayWindow.Valid, Stats.Outcomes, Stats.Of, Count, Follow;
      if role != Initiator || pending == null {
        Tally(Malformed);
        return SILENT;
      }
      var ok := pending.ReadResponse(d, session.keys);
      if !ok {
        Tally(Rejected);
        return SILENT;
      }
      session.Activate();
      pending := null;
      Tally(Completed);
      return SILENT;
    }

    /** The transport datagram `m` sits in the receive buffer and is opened there. */
    method TransportFromNet(m: Wire.Message, size: nat, from: Endpoint) returns (out: Output)
      requires Valid() && m.Transport? && m.Valid() && Wire.HEADER_SIZE <= size <= udpBuffer.Length
      requires m.sealed == udpBuffer[Wire.HEADER_SIZE..size]
      modifies `peer, `stats, session.window, session.window.bitmap, udpBuffer
      ensures Valid() && session == old(session) && session.window == old(session.window)
      ensures (Value(), out) == OnTransport(old(Value()), m, from)
    {
      hide Window.Acceptable, Sessions.Session.Valid, Sessions.Verified, Sessions.Trimmed, Stats.Outcomes,
           Stats.Of, Count, CountDelivered, Follow;
      if !session.active {
        Tally(NoSession);
        return SILENT;
      }
      if m.receiver != session.keys.local {
        Tally(Malformed);
        return SILENT;
      }
      var acceptable := session.ReplayAcceptable(m.counter);
      if !acceptable {
        Tally(Replay);
        return SILENT;
      }
      var length := session.Open(m.counter, udpBuffer, Wire.HEADER_SIZE, size);
      if length.None? {
        Tally(AuthFailed);
        return SILENT;
      }
      if role == Responder {
        FollowPeer(from);
      }
      out := HandOver(udpBuffer[16..16 + length.value]);
    }

    /** An authenticated packet goes to the TUN device, unless it is an empty keepalive. */
    method HandOver(packet: Bytes) returns (out: Output)
      requires Valid()
      modifies `stats
      ensures Valid()
      ensures (Value(), out) ==
        if packet == [] then (Count(old(Value()), Keepalive), SILENT)
        else (Count(CountDelivered(old(Value()), |packet|), UdpToTun), Output(None, Some(packet)))
    {
      hide Stats.Outcomes, Stats.Of, Count;
      if packet == [] {
        Tally(Keepalive);
        return SILENT;
      }
      stats := stats.(udpToTunBytes := stats.udpToTunBytes + |packet|);
      Tally(UdpToTun);
      return Output(None, Some(packet));
    }

    /** A datagram the socket holds: as much of it as fits is received, then it goes where its type says. */
    method DatagramFromNet(raw: Bytes, from: Endpoint, env: Env) returns (out: Output)
      requires Valid() && env.Valid()
      modifies this, session, session.window, session.window.bitmap, guard, pending, handshakeBuffer, udpBuffer
      modifies session.keys, session.keys.send, session.keys.receive
      ensures Valid() && session == old(session) && guard == old(guard) && (pending == old(pending) || pending == null)
      ensures session.window == old(session.window) || (fresh(session.window) && fresh(session.window.bitmap))
      ensures (Value(), out) == OnDatagram(old(Value()), raw, from, env)
    {
      hide Wire.Decode, OnInitiation, OnResponse, OnTransport, Stats.Outcomes, Stats.Of, Count, Follow;
      var size := if |raw| < udpBuffer.Length then |raw| else udpBuffer.Length;
      Crypto.CopyInto(udpBuffer, 0, raw[..size]);
      var d := udpBuffer[..size];
      assert d == Received(mtu, raw);
      if |d| > Wire.MaxDatagram(mtu) {
        Tally(Oversize);
        return SILENT;
      }
      var message := Wire.Parse(d);
      if message.None? || message.value.CookieReply? {
        Tally(Malformed);
        return SILENT;
      }
      var m := message.value;
      if m.Initiation? {
        out := InitiationFromNet(d, from, env);
      } else if m.Response? {
        out := ResponseFromNet(d);
      } else {
        Wire.TransportSealed(d);
        assert d[Wire.HEADER_SIZE..] == udpBuffer[Wire.HEADER_SIZE..size];
        out := TransportFromNet(m, size, from);
      }
    }
  }
}
