/** The relay loop as a step function: one packet from the TUN device or one datagram from the socket at a
    time. The operating system's part of a step - clocks, random values, whether the socket took the
    datagram - is a parameter. */
module Relay {
  import opened Octets
  import opened Timestamp
  import Crypto
  import Noise
  import Sessions
  import Window
  import Wire

  const RETRY_NS: nat := 1_000_000_000

  datatype Role = Initiator | Responder

  datatype Endpoint = Endpoint(address: nat, port: nat)

  /** What the operating system supplies to a step. */
  datatype Env = Env(monotonic: nat, clock: Clock, key: Bytes, index: nat, sent: bool) {
    predicate Valid() { monotonic < U64 && clock.Valid() && |key| == Crypto.KEY_SIZE && index < U32 }
  }

  /** How an event ended. */
  datatype Outcome =
    | TunToUdp | UdpToTun | NoPeer | NoSession | SendFailed | Oversize | Malformed | Replay | AuthFailed
    | Exhausted | Keepalive | Started | Completed | Rejected

  datatype Stats = Stats(
    tunToUdp: nat, tunToUdpBytes: nat, udpToTun: nat, udpToTunBytes: nat, noPeer: nat, noSession: nat,
    sendFailed: nat, oversize: nat, malformed: nat, replay: nat, authFailed: nat, exhausted: nat,
    keepalives: nat, endpointUpdates: nat, started: nat, completed: nat, rejected: nat)
  {
    /** Every counter that stands for the outcome of an event. */
    function Outcomes(): nat {
      tunToUdp + udpToTun + noPeer + noSession + sendFailed + oversize + malformed + replay + authFailed
      + exhausted + keepalives + started + completed + rejected
    }

    /** The counter of one outcome. */
    function Of(o: Outcome): nat {
      match o
      case TunToUdp => tunToUdp
      case UdpToTun => udpToTun
      case NoPeer => noPeer
      case NoSession => noSession
      case SendFailed => sendFailed
      case Oversize => oversize
      case Malformed => malformed
      case Replay => replay
      case AuthFailed => authFailed
      case Exhausted => exhausted
      case Keepalive => keepalives
      case Started => started
      case Completed => completed
      case Rejected => rejected
    }

    /** One more of `o`. */
    function Add(o: Outcome): (s: Stats)
      ensures s.Outcomes() == Outcomes() + 1
      ensures s.tunToUdpBytes == tunToUdpBytes && s.udpToTunBytes == udpToTunBytes
      ensures s.endpointUpdates == endpointUpdates
    {
      match o
      case TunToUdp => this.(tunToUdp := tunToUdp + 1)
      case UdpToTun => this.(udpToTun := udpToTun + 1)
      case NoPeer => this.(noPeer := noPeer + 1)
      case NoSession => this.(noSession := noSession + 1)
      case SendFailed => this.(sendFailed := sendFailed + 1)
      case Oversize => this.(oversize := oversize + 1)
      case Malformed => this.(malformed := malformed + 1)
      case Replay => this.(replay := replay + 1)
      case AuthFailed => this.(authFailed := authFailed + 1)
      case Exhausted => this.(exhausted := exhausted + 1)
      case Keepalive => this.(keepalives := keepalives + 1)
      case Started => this.(started := started + 1)
      case Completed => this.(completed := completed + 1)
      case Rejected => this.(rejected := rejected + 1)
    }

    lemma AddOne(o: Outcome, p: Outcome)
      ensures Add(o).Of(p) == Of(p) + if p == o then 1 else 0
    {
    }
  }

  const ZERO_STATS := Stats(0, 0, 0, 0, 0, 0, 0, 0, 0, 0, 0, 0, 0, 0, 0, 0, 0)

  datatype State = State(
    role: Role, mtu: nat, id: Noise.Identity, peer: Option<Endpoint>, session: Sessions.State,
    pending: Option<Noise.Handshake>, greatest: Greatest, lastInitiation: nat, stats: Stats)
  {
    ghost predicate Valid() {
      && id.Valid() && session.Valid() && lastInitiation < U64
      && (pending.Some? ==> pending.value.Valid())
      && (greatest.Some? ==> |greatest.value| == TIMESTAMP_SIZE)
    }
  }

  function Start(role: Role, mtu: nat, id: Noise.Identity, peer: Option<Endpoint>): State {
    State(role, mtu, id, peer, Sessions.Idle(), None, None, 0, ZERO_STATS)
  }

  /** What a step hands to the socket and to the TUN device. */
  datatype Output = Output(datagram: Option<(Bytes, Endpoint)>, packet: Option<Bytes>)

  const SILENT := Output(None, None)

  function Count(r: State, o: Outcome): (r': State)
    ensures r' == r.(stats := r'.stats) && r'.stats.Outcomes() == r.stats.Outcomes() + 1
    ensures forall p :: r'.stats.Of(p) == r.stats.Of(p) + if p == o then 1 else 0
  {
    assert forall p :: r.stats.Add(o).Of(p) == r.stats.Of(p) + if p == o then 1 else 0 by {
      forall p { r.stats.AddOne(o, p); }
    }
    r.(stats := r.stats.Add(o))
  }

  // ---------------------------------------------------------------- TUN side

  /** At most one initiation per retry interval. The difference of the two readings is a 64-bit one. */
  function StartHandshake(r: State, env: Env): (State, Output) {
    if r.role != Initiator || r.peer.None? then (r, SILENT)
    else if r.lastInitiation != 0 && (env.monotonic - r.lastInitiation) % U64 < RETRY_NS then (r, SILENT)
    else
      var r' := r.(lastInitiation := env.monotonic);
      match Noise.WriteInitiation(r.id, env.key, env.index, env.clock)
      case None => (r'.(pending := None), SILENT)
      case Some((message, handshake)) =>
        (Count(r'.(pending := Some(handshake)), if env.sent then Started else SendFailed),
         Output(Some((message, r.peer.value)), None))
  }

  function OnPacket(r: State, packet: Bytes, env: Env): (State, Output) {
    if r.peer.None? then (Count(r, NoPeer), SILENT)
    else if !r.session.active then StartHandshake(Count(r, NoSession), env)
    else if !Sessions.CanSeal(r.session) then (Count(r, Exhausted), SILENT)
    else
      var d := Sessions.Datagram(r.session.keys, r.session.sendCounter, packet);
      var r1 := r.(session := r.session.(sendCounter := r.session.sendCounter + 1));
      (if env.sent then Count(CountSent(r1, |d|), TunToUdp) else Count(r1, SendFailed),
       Output(Some((d, r.peer.value)), None))
  }

  function CountSent(r: State, n: nat): (r': State)
    ensures r' == r.(stats := r'.stats) && r'.stats.Outcomes() == r.stats.Outcomes()
    ensures forall p :: r'.stats.Of(p) == r.stats.Of(p)
  {
    r.(stats := r.stats.(tunToUdpBytes := r.stats.tunToUdpBytes + n))
  }

  // ------------------------------------------------------------- network side

  /** The receive buffer is one byte longer than the longest legal datagram; the socket cuts off the rest. */
  function Received(mtu: nat, raw: Bytes): (d: Bytes) {
    if |raw| > Wire.MaxDatagram(mtu) + 1 then raw[..Wire.MaxDatagram(mtu) + 1] else raw
  }

  /** The peer's address follows authenticated messages. */
  function Follow(r: State, from: Endpoint): (r': State)
    ensures r' == r.(peer := Some(from), stats := r'.stats) && r'.stats.Outcomes() == r.stats.Outcomes()
    ensures forall p :: r'.stats.Of(p) == r.stats.Of(p)
  {
    if r.peer == Some(from) then r
    else r.(peer := Some(from), stats := r.stats.(endpointUpdates := r.stats.endpointUpdates + 1))
  }

  function OnInitiation(r: State, d: Bytes, from: Endpoint, env: Env): (State, Output)
    requires r.Valid()
  {
    if r.role != Responder then (Count(r, Malformed), SILENT)
    else match Noise.ReadInitiation(r.id, d, r.greatest)
      case None => (Count(r, Rejected), SILENT)
      case Some(incoming) =>
        var r1 := r.(greatest := Some(incoming.stamp));
        match Noise.WriteResponse(r.id, incoming.handshake, env.key, env.index)
        case None => (Count(r1, Rejected), SILENT)
        case Some((message, keys)) =>
          (Count(Follow(r1.(session := Sessions.Activated(keys)), from), if env.sent then Completed else SendFailed),
           Output(Some((message, from)), None))
  }

  function OnResponse(r: State, d: Bytes): (State, Output)
    requires r.Valid()
  {
    if r.role != Initiator || r.pending.None? then (Count(r, Malformed), SILENT)
    else match Noise.ReadResponse(r.id, r.pending.value, d)
      case None => (Count(r, Rejected), SILENT)
      case Some(keys) => (Count(r.(session := Sessions.Activated(keys), pending := None), Completed), SILENT)
  }

  function OnTransport(r: State, m: Wire.Message, from: Endpoint): (State, Output)
    requires m.Transport?
  {
    if !r.session.active then (Count(r, NoSession), SILENT)
    else if m.receiver != r.session.keys.local then (Count(r, Malformed), SILENT)
    else if !Window.Acceptable(r.session.accepted, m.counter) then (Count(r, Replay), SILENT)
    else
      var r1 := r.(session := Sessions.AfterOpen(r.session, m.counter, m.sealed));
      match Sessions.Opened(r.session, m.counter, m.sealed)
      case None => (Count(r1, AuthFailed), SILENT)
      case Some(packet) =>
        var r2 := if r.role == Responder then Follow(r1, from) else r1;
        if packet == [] then (Count(r2, Keepalive), SILENT)
        else (Count(CountDelivered(r2, |packet|), UdpToTun), Output(None, Some(packet)))
  }

  function CountDelivered(r: State, n: nat): (r': State)
    ensures r' == r.(stats := r'.stats) && r'.stats.Outcomes() == r.stats.Outcomes()
    ensures forall p :: r'.stats.Of(p) == r.stats.Of(p)
  {
    r.(stats := r.stats.(udpToTunBytes := r.stats.udpToTunBytes + n))
  }

  function OnDatagram(r: State, raw: Bytes, from: Endpoint, env: Env): (State, Output)
    requires r.Valid()
  {
    var d := Received(r.mtu, raw);
    if |d| > Wire.MaxDatagram(r.mtu) then (Count(r, Oversize), SILENT)
    else match Wire.Decode(d)
      case None => (Count(r, Malformed), SILENT)
      case Some(m) =>
        if m.Initiation? then OnInitiation(r, d, from, env)
        else if m.Response? then OnResponse(r, d)
        else if m.CookieReply? then (Count(r, Malformed), SILENT)
        else OnTransport(r, m, from)
  }

  // -------------------------------------------------------------------- runs

  datatype Event = FromTun(packet: Bytes, env: Env) | FromNet(raw: Bytes, from: Endpoint, env: Env) {
    predicate Valid(mtu: nat) { env.Valid() && (FromTun? ==> |packet| <= mtu) }
  }

  function Step(r: State, ev: Event): (State, Output)
    requires r.Valid()
  {
    match ev
    case FromTun(packet, env) => OnPacket(r, packet, env)
    case FromNet(raw, from, env) => OnDatagram(r, raw, from, env)
  }

  /** A relay after a step: well formed, with the configuration it started with. */
  ghost predicate SameParty(r: State, r': State) {
    r'.Valid() && r'.role == r.role && r'.mtu == r.mtu && r'.id == r.id
  }

  lemma StepKeepsValid(r: State, ev: Event)
    requires r.Valid() && ev.Valid(r.mtu)
    ensures SameParty(r, Step(r, ev).0)
  {
    hide OnPacket, OnInitiation, OnResponse, OnTransport, Wire.Decode, Count, SameParty;
    match ev
    case FromTun(packet, env) => PacketKeepsValid(r, packet, env);
    case FromNet(raw, from, env) =>
      var d := Received(r.mtu, raw);
      InitiationKeepsValid(r, d, from, env);
      ResponseKeepsValid(r, d);
      if Wire.Decode(d).Some? && Wire.Decode(d).value.Transport? {
        TransportKeepsValid(r, Wire.Decode(d).value, from);
      }
      CountKeepsValid(r, Oversize);
      CountKeepsValid(r, Malformed);
  }

  lemma CountKeepsValid(r: State, o: Outcome)
    requires r.Valid()
    ensures SameParty(r, Count(r, o))
  {
  }

  lemma PacketKeepsValid(r: State, packet: Bytes, env: Env)
    requires r.Valid() && env.Valid()
    ensures SameParty(r, OnPacket(r, packet, env).0)
  {
    hide Noise.WriteInitiation, Sessions.Datagram, Stats.Outcomes, Count, CountSent, CountDelivered, Follow;
  }

  lemma InitiationKeepsValid(r: State, d: Bytes, from: Endpoint, env: Env)
    requires r.Valid() && env.Valid()
    ensures SameParty(r, OnInitiation(r, d, from, env).0)
  {
    hide Noise.ReadInitiation, Noise.WriteResponse, Stats.Outcomes, Count, CountSent, CountDelivered, Follow;
  }

  lemma ResponseKeepsValid(r: State, d: Bytes)
    requires r.Valid()
    ensures SameParty(r, OnResponse(r, d).0)
  {
    hide Noise.ReadResponse, Stats.Outcomes, Count, CountSent, CountDelivered, Follow;
  }

  lemma TransportKeepsValid(r: State, m: Wire.Message, from: Endpoint)
    requires r.Valid() && m.Transport?
    ensures SameParty(r, OnTransport(r, m, from).0)
  {
    hide Window.Acceptable, Sessions.Opened, Sessions.Verified, Stats.Outcomes, Count, CountSent, CountDelivered,
         Follow;
  }

  // ------------------------------------------------------- the kinds of step

  /** Nothing but counters, the peer's address and the retry clock may have changed. */
  predicate Quiet(r: State, r': State, out: Output) {
    out == SILENT && r'.session == r.session && r'.greatest == r.greatest
    && (r'.pending == r.pending || r'.pending.None?)
  }

  /** An initiation was written. */
  predicate Offers(r: State, r': State, out: Output, env: Env) {
    && r.role == Initiator && !r.session.active && out.datagram.Some? && out.packet.None?
    && r'.session == r.session && r'.greatest == r.greatest && r'.pending.Some?
    && Noise.WriteInitiation(r.id, env.key, env.index, env.clock)
       == Some((out.datagram.value.0, r'.pending.value))
  }

  /** A packet was sealed. */
  predicate Seals(r: State, r': State, out: Output, packet: Bytes) {
    && Sessions.CanSeal(r.session) && out.datagram.Some? && out.packet.None?
    && out.datagram.value.0 == Sessions.Datagram(r.session.keys, r.session.sendCounter, packet)
    && r'.session == r.session.(sendCounter := r.session.sendCounter + 1)
    && r'.greatest == r.greatest && r'.pending == r.pending
  }

  /** An initiation was accepted and answered. */
  predicate Answers(r: State, r': State, out: Output, d: Bytes, env: Env)
    requires r.id.Valid() && (r.greatest.Some? ==> |r.greatest.value| == TIMESTAMP_SIZE)
  {
    && r.role == Responder && Noise.ReadInitiation(r.id, d, r.greatest).Some?
    && out.datagram.Some? && out.packet.None? && r'.pending == r.pending
    && var incoming := Noise.ReadInitiation(r.id, d, r.greatest).value;
    && r'.greatest == Some(incoming.stamp) && r'.session == Sessions.Activated(r'.session.keys)
    && Noise.WriteResponse(r.id, incoming.handshake, env.key, env.index)
       == Some((out.datagram.value.0, r'.session.keys))
  }

  /** A response was accepted. */
  predicate Completes(r: State, r': State, out: Output, d: Bytes)
    requires r.pending.Some? ==> r.pending.value.Valid()
  {
    && r.role == Initiator && r.pending.Some? && r'.pending.None? && out == SILENT
    && r'.greatest == r.greatest && r'.session == Sessions.Activated(r'.session.keys)
    && Noise.ReadResponse(r.id, r.pending.value, d) == Some(r'.session.keys)
  }

  /** A transport datagram was fresh and its tag verified. */
  predicate Opens(r: State, r': State, out: Output, d: Bytes) {
    && out.datagram.None? && r'.greatest == r.greatest && r'.pending == r.pending
    && var m := Wire.Decode(d);
    && m.Some? && m.value.Transport? && Sessions.Verified(r.session, m.value.counter, m.value.sealed).Some?
    && r'.session == r.session.(accepted := r.session.accepted + {m.value.counter})
    && (out.packet.Some? ==>
         out.packet == Sessions.Opened(r.session, m.value.counter, m.value.sealed) && out.packet.value != [])
  }

  /** Only an initiation is ever answered. */
  lemma SilentKinds(r: State, r': State, out: Output, d: Bytes)
    requires r.Valid() && (Quiet(r, r', out) || Completes(r, r', out, d) || Opens(r, r', out, d))
    ensures out.datagram.None?
  {
  }

  lemma PacketKinds(r: State, packet: Bytes, env: Env)
    ensures var (r', out) := OnPacket(r, packet, env);
      Quiet(r, r', out) || Offers(r, r', out, env) || Seals(r, r', out, packet)
  {
    hide Noise.WriteInitiation, Sessions.Datagram, Stats.Add, Stats.Outcomes, Count, CountSent, CountDelivered,
         Follow;
  }

  lemma DatagramKinds(r: State, raw: Bytes, from: Endpoint, env: Env)
    requires r.Valid()
    ensures var (r', out) := OnDatagram(r, raw, from, env);
      || Quiet(r, r', out) || Answers(r, r', out, raw, env) || Completes(r, r', out, raw)
      || Opens(r, r', out, raw)
  {
    hide OnInitiation, OnResponse, OnTransport, Wire.Decode, Count, Answers, Completes, Opens;
    InitiationKinds(r, raw, from, env);
    ResponseKinds(r, raw);
    if Wire.Decode(raw).Some? && Wire.Decode(raw).value.Transport? {
      TransportKinds(r, raw, from);
    }
  }

  lemma InitiationKinds(r: State, d: Bytes, from: Endpoint, env: Env)
    requires r.Valid()
    ensures var (r', out) := OnInitiation(r, d, from, env); Quiet(r, r', out) || Answers(r, r', out, d, env)
  {
    hide Noise.ReadInitiation, Noise.WriteResponse, Crypto.LowOrder, Stats.Outcomes, Count, CountSent,
         CountDelivered, Follow;
    if Noise.ReadInitiation(r.id, d, r.greatest).Some? {
      Noise.AcceptedIsAnswerable(r.id, d, r.greatest, env.key, env.index);
    }
  }

  lemma ResponseKinds(r: State, d: Bytes)
    requires r.Valid()
    ensures var (r', out) := OnResponse(r, d); Quiet(r, r', out) || Completes(r, r', out, d)
  {
    hide Noise.ReadResponse, Stats.Outcomes, Count, CountSent, CountDelivered, Follow;
  }

  lemma TransportKinds(r: State, d: Bytes, from: Endpoint)
    requires Wire.Decode(d).Some? && Wire.Decode(d).value.Transport?
    ensures var (r', out) := OnTransport(r, Wire.Decode(d).value, from); Quiet(r, r', out) || Opens(r, r', out, d)
  {
    hide Wire.Decode, Window.Acceptable, Sessions.Verified, Stats.Outcomes, Count, CountSent, CountDelivered,
         Follow;
  }
}
