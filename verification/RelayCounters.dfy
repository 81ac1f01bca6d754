/** The relay's statistics: which counter each event moves, told counter by counter, and what each amounts to over
    a run. */
module RelayCounters {
  import opened Octets
  import opened Relay
  import opened RelayRuns
  import Crypto
  import Noise
  import Sessions
  import Window
  import Wire

  // ---------------------------------------------------------- which counter moves

  /** A datagram of legal size that decodes to `m`. */
  predicate Carries(r: State, ev: Event, m: Wire.Message) {
    ev.FromNet? && |ev.raw| <= Wire.MaxDatagram(r.mtu) && Wire.Decode(ev.raw) == Some(m)
  }

  function Carried(r: State, ev: Event): (m: Option<Wire.Message>)
    ensures m.Some? ==> Carries(r, ev, m.value)
  {
    if ev.FromNet? && |ev.raw| <= Wire.MaxDatagram(r.mtu) then Wire.Decode(ev.raw) else None
  }

  /** An initiation this relay accepts. */
  predicate Accepts(r: State, ev: Event)
    requires r.Valid()
  {
    && Carried(r, ev).Some? && Carried(r, ev).value.Initiation? && r.role == Responder
    && Noise.ReadInitiation(r.id, ev.raw, r.greatest).Some?
  }

  /** A response it accepts. */
  predicate Finishes(r: State, ev: Event)
    requires r.Valid()
  {
    && Carried(r, ev).Some? && Carried(r, ev).value.Response? && r.role == Initiator && r.pending.Some?
    && Noise.ReadResponse(r.id, r.pending.value, ev.raw).Some?
  }

  /** A transport datagram addressed to the session that is up. */
  predicate Addressed(r: State, ev: Event) {
    && Carried(r, ev).Some? && Carried(r, ev).value.Transport? && r.session.active
    && Carried(r, ev).value.receiver == r.session.keys.local
  }

  predicate Tunnels(r: State, ev: Event) { ev.FromTun? && r.peer.Some? && r.session.active }

  /** When each counter moves, counter by counter. */
  predicate Counts(r: State, ev: Event, o: Outcome)
    requires r.Valid()
  {
    var m := Carried(r, ev);
    match o
    case NoPeer => ev.FromTun? && r.peer.None?
    case NoSession =>
      !r.session.active && ((ev.FromTun? && r.peer.Some?) || (m.Some? && m.value.Transport?))
    case Exhausted => Tunnels(r, ev) && r.session.sendCounter >= 0xffff_ffff_ffff_dfff
    case TunToUdp => Tunnels(r, ev) && r.session.sendCounter < 0xffff_ffff_ffff_dfff && ev.env.sent
    case Started => Initiates(r, ev) && ev.env.sent
    case SendFailed =>
      && !ev.env.sent
      && ((Tunnels(r, ev) && r.session.sendCounter < 0xffff_ffff_ffff_dfff)
          || Initiates(r, ev) || Accepts(r, ev))
    case Completed => (Accepts(r, ev) && ev.env.sent) || Finishes(r, ev)
    case Rejected =>
      && m.Some?
      && ((m.value.Initiation? && r.role == Responder && !Accepts(r, ev))
          || (m.value.Response? && r.role == Initiator && r.pending.Some? && !Finishes(r, ev)))
    case Oversize => ev.FromNet? && |ev.raw| > Wire.MaxDatagram(r.mtu)
    case Malformed =>
      && ev.FromNet? && |ev.raw| <= Wire.MaxDatagram(r.mtu)
      && (m.None? || m.value.CookieReply?
          || (m.value.Initiation? && r.role == Initiator)
          || (m.value.Response? && (r.role == Responder || r.pending.None?))
          || (m.value.Transport? && r.session.active && m.value.receiver != r.session.keys.local))
    case Replay => Addressed(r, ev) && !Window.Acceptable(r.session.accepted, m.value.counter)
    case AuthFailed =>
      && Addressed(r, ev) && Window.Acceptable(r.session.accepted, m.value.counter)
      && Sessions.Opened(r.session, m.value.counter, m.value.sealed).None?
    case Keepalive => Addressed(r, ev) && Sessions.Opened(r.session, m.value.counter, m.value.sealed) == Some([])
    case UdpToTun =>
      && Addressed(r, ev) && Sessions.Opened(r.session, m.value.counter, m.value.sealed).Some?
      && Sessions.Opened(r.session, m.value.counter, m.value.sealed) != Some([])
  }

  /** Every step moves exactly those counters, each by one. */
  lemma StepCounts(r: State, ev: Event, o: Outcome)
    requires r.Valid()
    ensures Step(r, ev).0.stats.Of(o) == r.stats.Of(o) + if Counts(r, ev, o) then 1 else 0
  {
    hide OnPacket, OnInitiation, OnResponse, OnTransport, Wire.Decode, Stats.Of, Stats.Outcomes, Count, Counts;
    match ev
    case FromTun(packet, env) => PacketCounts(r, ev, o);
    case FromNet(raw, from, env) =>
      if |raw| <= Wire.MaxDatagram(r.mtu) && Wire.Decode(raw).Some? && !Wire.Decode(raw).value.CookieReply? {
        var m := Wire.Decode(raw).value;
        if m.Initiation? {
          InitiationCounts(r, ev, o);
        } else if m.Response? {
          ResponseCounts(r, ev, o);
        } else {
          TransportCounts(r, ev, o);
        }
      } else {
        DroppedCounts(r, ev, o);
      }
  }

  lemma PacketCounts(r: State, ev: Event, o: Outcome)
    requires r.Valid() && ev.FromTun?
    ensures OnPacket(r, ev.packet, ev.env).0.stats.Of(o) == r.stats.Of(o) + if Counts(r, ev, o) then 1 else 0
  {
    hide OnPacket, Stats.Of, Stats.Outcomes, Count, Crypto.LowOrder, Sessions.Opened, Window.Acceptable, Wire.Decode,
         StartHandshake, Moves;
    if r.peer.Some? && !r.session.active {
      assert OnPacket(r, ev.packet, ev.env) == StartHandshake(Count(r, NoSession), ev.env) by {
        PacketStarts(r, ev.packet, ev.env);
      }
      StartCounts(Count(r, NoSession), ev, o);
    } else {
      PacketMoves(r, ev.packet, ev.env);
      assert Counts(r, ev, o) <==> o == PacketOutcome(r, ev.env.sent);
      MovesAt(r, OnPacket(r, ev.packet, ev.env).0, PacketOutcome(r, ev.env.sent), o);
    }
  }

  lemma PacketStarts(r: State, packet: Bytes, env: Env)
    requires r.peer.Some? && !r.session.active
    ensures OnPacket(r, packet, env) == StartHandshake(Count(r, NoSession), env)
  {
  }

  function PacketOutcome(r: State, sent: bool): Outcome {
    if r.peer.None? then NoPeer
    else if r.session.sendCounter >= Window.REJECT_AFTER then Exhausted
    else if sent then TunToUdp else SendFailed
  }

  lemma PacketMoves(r: State, packet: Bytes, env: Env)
    requires r.peer.None? || r.session.active
    ensures Moves(r, OnPacket(r, packet, env).0, PacketOutcome(r, env.sent))
  {
    hide Sessions.Datagram, Stats.Of, Stats.Outcomes, Count, CountSent, StartHandshake;
  }

  lemma MovesAt(r: State, r': State, o: Outcome, p: Outcome)
    requires Moves(r, r', o)
    ensures r'.stats.Of(p) == r.stats.Of(p) + if p == o then 1 else 0
  {
  }

  lemma StartCounts(r: State, ev: Event, o: Outcome)
    requires ev.FromTun? && !r.session.active
    ensures StartHandshake(r, ev.env).0.stats.Of(o) == r.stats.Of(o) +
      if Initiates(r, ev) && o == (if ev.env.sent then Started else SendFailed) then 1 else 0
  {
    hide Noise.WriteInitiation, Stats.Of, Stats.Outcomes, Count, Crypto.LowOrder;
  }

  lemma DroppedCounts(r: State, ev: Event, o: Outcome)
    requires r.Valid() && ev.FromNet? && (Carried(r, ev).None? || Carried(r, ev).value.CookieReply?)
    ensures Step(r, ev).0.stats.Of(o) == r.stats.Of(o) + if Counts(r, ev, o) then 1 else 0
  {
    hide Wire.Decode, Stats.Of, Stats.Outcomes, Count, OnInitiation, OnResponse, OnTransport;
  }

  /** One counter moved, by one. */
  ghost predicate Moves(r: State, r': State, o: Outcome) {
    forall p :: r'.stats.Of(p) == r.stats.Of(p) + if p == o then 1 else 0
  }

  function InitiationOutcome(r: State, d: Bytes, sent: bool): Outcome
    requires r.Valid()
  {
    if r.role != Responder then Malformed
    else if Noise.ReadInitiation(r.id, d, r.greatest).None? then Rejected
    else if sent then Completed else SendFailed
  }

  lemma InitiationMoves(r: State, d: Bytes, from: Endpoint, env: Env)
    requires r.Valid()
    ensures Moves(r, OnInitiation(r, d, from, env).0, InitiationOutcome(r, d, env.sent))
  {
    hide Noise.ReadInitiation, Noise.WriteResponse, Crypto.LowOrder, Stats.Of, Stats.Outcomes, Count, Follow;
    if Noise.ReadInitiation(r.id, d, r.greatest).Some? {
      Noise.AcceptedIsAnswerable(r.id, d, r.greatest, env.key, env.index);
    }
  }

  lemma InitiationCounts(r: State, ev: Event, o: Outcome)
    requires r.Valid() && ev.FromNet? && Carried(r, ev).Some? && Carried(r, ev).value.Initiation?
    ensures OnInitiation(r, ev.raw, ev.from, ev.env).0.stats.Of(o)
      == r.stats.Of(o) + if Counts(r, ev, o) then 1 else 0
  {
    hide Wire.Decode, Noise.ReadInitiation, OnInitiation, Stats.Of, Sessions.Opened, Window.Acceptable,
         Crypto.LowOrder;
    InitiationMoves(r, ev.raw, ev.from, ev.env);
    assert Counts(r, ev, o) <==> o == InitiationOutcome(r, ev.raw, ev.env.sent);
  }

  lemma ResponseCounts(r: State, ev: Event, o: Outcome)
    requires r.Valid() && ev.FromNet? && Carried(r, ev).Some? && Carried(r, ev).value.Response?
    ensures OnResponse(r, ev.raw).0.stats.Of(o) == r.stats.Of(o) + if Counts(r, ev, o) then 1 else 0
  {
    hide Wire.Decode, Noise.ReadResponse, OnResponse, Stats.Of, Sessions.Opened, Window.Acceptable,
         Crypto.LowOrder;
    ResponseMoves(r, ev.raw);
    assert Counts(r, ev, o) <==> o == ResponseOutcome(r, ev.raw);
  }

  function ResponseOutcome(r: State, d: Bytes): Outcome
    requires r.Valid()
  {
    if r.role != Initiator || r.pending.None? then Malformed
    else if Noise.ReadResponse(r.id, r.pending.value, d).None? then Rejected else Completed
  }

  lemma ResponseMoves(r: State, d: Bytes)
    requires r.Valid()
    ensures Moves(r, OnResponse(r, d).0, ResponseOutcome(r, d))
  {
    hide Noise.ReadResponse, Stats.Of, Stats.Outcomes, Count;
  }

  function TransportOutcome(r: State, m: Wire.Message): Outcome
    requires m.Transport?
  {
    if !r.session.active then NoSession
    else if m.receiver != r.session.keys.local then Malformed
    else if !Window.Acceptable(r.session.accepted, m.counter) then Replay
    else match Sessions.Opened(r.session, m.counter, m.sealed)
      case None => AuthFailed
      case Some(packet) => if packet == [] then Keepalive else UdpToTun
  }

  lemma TransportMoves(r: State, m: Wire.Message, from: Endpoint)
    requires m.Transport?
    ensures Moves(r, OnTransport(r, m, from).0, TransportOutcome(r, m))
  {
    hide Window.Acceptable, Sessions.Opened, Sessions.AfterOpen, Stats.Of, Stats.Outcomes, Count, CountDelivered,
         Follow;
  }

  lemma TransportCounts(r: State, ev: Event, o: Outcome)
    requires r.Valid() && ev.FromNet? && Carried(r, ev).Some? && Carried(r, ev).value.Transport?
    ensures OnTransport(r, Carried(r, ev).value, ev.from).0.stats.Of(o)
      == r.stats.Of(o) + if Counts(r, ev, o) then 1 else 0
  {
    hide Wire.Decode, Window.Acceptable, Sessions.Opened, OnTransport, Stats.Of, Noise.ReadInitiation,
         Noise.ReadResponse, Crypto.LowOrder;
    var m := Carried(r, ev).value;
    OpenedIsFresh(r.session, m.counter, m.sealed);
    TransportMoves(r, m, ev.from);
    assert Counts(r, ev, o) <==> o == TransportOutcome(r, m);
  }

  lemma OpenedIsFresh(s: Sessions.State, counter: nat, sealed: Bytes)
    ensures Sessions.Opened(s, counter, sealed).Some? ==> Window.Acceptable(s.accepted, counter)
  {
    hide Window.Acceptable;
  }

  /** The events of a run that move a counter. */
  ghost function Counted(r: State, evs: seq<Event>, o: Outcome): nat
    requires r.Valid() && forall ev | ev in evs :: ev.Valid(r.mtu)
    decreases |evs|
  {
    if evs == [] then 0
    else
      StepKeepsValid(r, evs[0]);
      (if Counts(r, evs[0], o) then 1 else 0) + Counted(Step(r, evs[0]).0, evs[1..], o)
  }

  /** After any run each counter has grown by the number of events it stands for. */
  lemma {:induction false} CountersAreExact(r: State, evs: seq<Event>, o: Outcome)
    requires r.Valid() && forall ev | ev in evs :: ev.Valid(r.mtu)
    ensures Run(r, evs).stats.Of(o) == r.stats.Of(o) + Counted(r, evs, o)
    decreases |evs|
  {
    hide Step, Stats.Of, Counts;
    if evs != [] {
      StepKeepsValid(r, evs[0]);
      StepCounts(r, evs[0], o);
      CountersAreExact(Step(r, evs[0]).0, evs[1..], o);
    }
  }

  /** The byte totals and the endpoint counter: bytes of the datagrams the socket took for packets, bytes of the
      packets delivered, and moves of the peer's address. */
  lemma StepBytes(r: State, ev: Event)
    requires r.Valid()
    ensures var (r', out) := Step(r, ev);
      && r'.stats.tunToUdpBytes == r.stats.tunToUdpBytes
         + (if Tunnels(r, ev) && ev.env.sent && out.datagram.Some? then |out.datagram.value.0| else 0)
      && r'.stats.udpToTunBytes == r.stats.udpToTunBytes + (if out.packet.Some? then |out.packet.value| else 0)
      && r'.stats.endpointUpdates == r.stats.endpointUpdates + (if r'.peer != r.peer then 1 else 0)
  {
    hide OnPacket, OnInitiation, OnResponse, OnTransport, Wire.Decode, Stats.Of, Stats.Outcomes;
    match ev
    case FromTun(packet, env) => PacketBytes(r, packet, env);
    case FromNet(raw, from, env) =>
      var d := Received(r.mtu, raw);
      InitiationBytes(r, d, from, env);
      ResponseBytes(r, d);
      if Wire.Decode(d).Some? && Wire.Decode(d).value.Transport? {
        TransportBytes(r, Wire.Decode(d).value, from);
      }
  }

  /** Neither byte total moved, and the endpoint counter moved with the peer's address. */
  predicate SameBytes(r: State, r': State) {
    && r'.stats.tunToUdpBytes == r.stats.tunToUdpBytes && r'.stats.udpToTunBytes == r.stats.udpToTunBytes
    && r'.stats.endpointUpdates == r.stats.endpointUpdates + (if r'.peer != r.peer then 1 else 0)
  }

  lemma PacketBytes(r: State, packet: Bytes, env: Env)
    ensures var (r', out) := OnPacket(r, packet, env);
      && r'.stats.tunToUdpBytes == r.stats.tunToUdpBytes
         + (if r.peer.Some? && r.session.active && env.sent && out.datagram.Some? then |out.datagram.value.0| else 0)
      && r'.stats.udpToTunBytes == r.stats.udpToTunBytes && out.packet.None? && r'.peer == r.peer
      && r'.stats.endpointUpdates == r.stats.endpointUpdates
  {
    hide Noise.WriteInitiation, Sessions.Datagram, Stats.Of, Stats.Outcomes, Stats.Add;
  }

  lemma InitiationBytes(r: State, d: Bytes, from: Endpoint, env: Env)
    requires r.Valid()
    ensures SameBytes(r, OnInitiation(r, d, from, env).0) && OnInitiation(r, d, from, env).1.packet.None?
  {
    hide Noise.ReadInitiation, Noise.WriteResponse, Stats.Of, Stats.Outcomes, Stats.Add;
  }

  lemma ResponseBytes(r: State, d: Bytes)
    requires r.Valid()
    ensures SameBytes(r, OnResponse(r, d).0) && OnResponse(r, d).1.packet.None?
  {
    hide Noise.ReadResponse, Stats.Of, Stats.Outcomes, Stats.Add;
  }

  lemma TransportBytes(r: State, m: Wire.Message, from: Endpoint)
    requires m.Transport?
    ensures var (r', out) := OnTransport(r, m, from);
      && r'.stats.tunToUdpBytes == r.stats.tunToUdpBytes
      && r'.stats.udpToTunBytes == r.stats.udpToTunBytes + (if out.packet.Some? then |out.packet.value| else 0)
      && r'.stats.endpointUpdates == r.stats.endpointUpdates + (if r'.peer != r.peer then 1 else 0)
  {
    hide Window.Acceptable, Sessions.Opened, Sessions.AfterOpen, Stats.Of, Stats.Outcomes, Stats.Add;
  }

  /** The bytes of the packets in what a run put out. */
  function PacketBytesOf(outs: seq<Output>): (n: nat) {
    if outs == [] then 0
    else (if outs[0].packet.Some? then |outs[0].packet.value| else 0) + PacketBytesOf(outs[1..])
  }

  /** How often the peer's address changed during a run. */
  ghost function Roamings(r: State, evs: seq<Event>): (n: nat)
    requires r.Valid() && forall ev | ev in evs :: ev.Valid(r.mtu)
    decreases |evs|
  {
    if evs == [] then 0
    else
      StepKeepsValid(r, evs[0]);
      var r' := Step(r, evs[0]).0;
      (if r'.peer != r.peer then 1 else 0) + Roamings(r', evs[1..])
  }

  /** The bytes of the datagrams the socket took for packets during a run. */
  ghost function TunnelledBytes(r: State, evs: seq<Event>): (n: nat)
    requires r.Valid() && forall ev | ev in evs :: ev.Valid(r.mtu)
    decreases |evs|
  {
    if evs == [] then 0
    else
      StepKeepsValid(r, evs[0]);
      var (r', out) := Step(r, evs[0]);
      (if Tunnels(r, evs[0]) && evs[0].env.sent && out.datagram.Some? then |out.datagram.value.0| else 0)
      + TunnelledBytes(r', evs[1..])
  }

  lemma {:induction false} TotalsAreExact(r: State, evs: seq<Event>)
    requires r.Valid() && forall ev | ev in evs :: ev.Valid(r.mtu)
    ensures var s := Run(r, evs).stats;
      && s.tunToUdpBytes == r.stats.tunToUdpBytes + TunnelledBytes(r, evs)
      && s.udpToTunBytes == r.stats.udpToTunBytes + PacketBytesOf(Traffic(r, evs))
      && s.endpointUpdates == r.stats.endpointUpdates + Roamings(r, evs)
    decreases |evs|
  {
    hide Step, Tunnels;
    if evs != [] {
      StepKeepsValid(r, evs[0]);
      StepBytes(r, evs[0]);
      var (r', out) := Step(r, evs[0]);
      TotalsAreExact(r', evs[1..]);
      var rest := Traffic(r', evs[1..]);
      assert [] + rest == rest && ([out] + rest)[1..] == rest;
    }
  }
}
