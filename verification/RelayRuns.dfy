/** What one relay keeps over any run of events: the books balance, it talks only to whom it authenticated
    last, and datagrams it rejected leave no trace. */
module RelayRuns {
  import opened Octets
  import opened Relay
  import Crypto
  import Noise
  import Sessions
  import Window
  import Wire

  ghost function Run(r: State, evs: seq<Event>): (r': State)
    requires r.Valid() && forall ev | ev in evs :: ev.Valid(r.mtu)
    ensures r'.Valid() && r'.role == r.role && r'.mtu == r.mtu && r'.id == r.id
    decreases |evs|
  {
    if evs == [] then r
    else
      StepKeepsValid(r, evs[0]);
      Run(Step(r, evs[0]).0, evs[1..])
  }

  // ----------------------------------------------------------------- retries

  /** An initiation is due: an initiator with a peer and no session, and no initiation in the last second. The
      clock reading 0 stands for "none yet", and a difference of two readings is a 64-bit one. */
  predicate Due(r: State, ev: Event) {
    && ev.FromTun? && r.role == Initiator && r.peer.Some? && !r.session.active
    && (r.lastInitiation == 0
        || (ev.env.monotonic - r.lastInitiation) % 0x1_0000_0000_0000_0000 >= 1_000_000_000)
  }

  /** One is due, and the peer's key is usable. */
  predicate Initiates(r: State, ev: Event) { Due(r, ev) && !Crypto.LowOrder(r.id.peerPublic) }

  /** A step writes an initiation exactly when one is due and the peer's key is usable, and the relay's record of
      when it last tried changes exactly when one is due. */
  lemma InitiatesExactly(r: State, ev: Event)
    requires r.Valid()
    ensures WritesInitiation(r, ev) <==> Initiates(r, ev)
    ensures Step(r, ev).0.lastInitiation == if Due(r, ev) then ev.env.monotonic else r.lastInitiation
  {
    hide Wire.Decode, Noise.ReadInitiation, Noise.ReadResponse, Noise.WriteInitiation, Noise.WriteResponse,
         Window.Acceptable, Sessions.Opened, Sessions.AfterOpen, Sessions.Datagram, Crypto.LowOrder, Stats.Outcomes,
         Stats.Of, Count, CountSent, CountDelivered, Follow;
  }

  /** The very first packet of an initiator that has a peer starts a handshake, whatever the clock says. */
  lemma FirstPacketInitiates(mtu: nat, id: Noise.Identity, peer: Endpoint, ev: Event)
    requires id.Valid() && ev.FromTun? && !Crypto.LowOrder(id.peerPublic)
    ensures WritesInitiation(Start(Initiator, mtu, id, Some(peer)), ev)
  {
    hide WritesInitiation, Crypto.LowOrder;
    InitiatesExactly(Start(Initiator, mtu, id, Some(peer)), ev);
  }

  /** The monotonic clock does not run backwards over the run, and has left zero. */
  predicate ClockRuns(evs: seq<Event>) {
    && (forall k :: 0 <= k < |evs| ==> 0 < evs[k].env.monotonic)
    && (forall j, k :: 0 <= j < k < |evs| ==> evs[j].env.monotonic <= evs[k].env.monotonic)
  }

  /** Every event of the run reads the clock between two readings. */
  predicate ReadsWithin(evs: seq<Event>, from: nat, until: nat) {
    forall k :: 0 <= k < |evs| ==> from <= evs[k].env.monotonic <= until
  }

  /** Once an attempt was made at reading `since`, the record never falls behind it, nor runs ahead. */
  lemma {:induction false} AttemptIsRemembered(r: State, evs: seq<Event>, since: nat, until: nat)
    requires r.Valid() && (forall ev | ev in evs :: ev.Valid(r.mtu)) && ReadsWithin(evs, since, until)
    requires since <= r.lastInitiation <= until
    ensures since <= Run(r, evs).lastInitiation <= until
    decreases |evs|
  {
    hide Step, Due;
    if evs != [] {
      StepKeepsValid(r, evs[0]);
      InitiatesExactly(r, evs[0]);
      AttemptIsRemembered(Step(r, evs[0]).0, evs[1..], since, until);
    }
  }

  lemma {:induction false} RunSplit(r: State, evs: seq<Event>, n: nat)
    requires r.Valid() && (forall ev | ev in evs :: ev.Valid(r.mtu)) && n <= |evs|
    ensures Run(r, evs) == Run(Run(r, evs[..n]), evs[n..])
    decreases n
  {
    hide Step;
    if n == 0 {
      assert evs[..0] == [] && evs[0..] == evs;
    } else {
      StepKeepsValid(r, evs[0]);
      RunSplit(Step(r, evs[0]).0, evs[1..], n - 1);
      assert evs[..n][1..] == evs[1..][..n - 1] && evs[1..][n - 1..] == evs[n..];
    }
  }

  lemma ReadsBetween(evs: seq<Event>, j: nat, k: nat)
    requires ClockRuns(evs) && j < k < |evs|
    ensures 0 < evs[j].env.monotonic <= evs[k].env.monotonic
    ensures ReadsWithin(evs[j + 1..k], evs[j].env.monotonic, evs[k].env.monotonic)
    ensures evs[j] in evs && evs[k] in evs && forall e | e in evs[j + 1..k] :: e in evs
  {
  }

  /** At most one initiation a second: two events of one run that both write one are at least 10^9 ns apart. */
  lemma RetriesAreApart(r: State, evs: seq<Event>, j: nat, k: nat)
    requires r.Valid() && (forall ev | ev in evs :: ev.Valid(r.mtu)) && ClockRuns(evs) && j < k < |evs|
    requires WritesInitiation(Run(r, evs[..j]), evs[j]) && WritesInitiation(Run(r, evs[..k]), evs[k])
    ensures evs[k].env.monotonic - evs[j].env.monotonic >= 1_000_000_000
  {
    hide Step, WritesInitiation, ClockRuns, ReadsWithin, Run, Event.Valid, State.Valid;
    ReadsBetween(evs, j, k);
    RunBetween(r, evs, j, k);
    NextIsApart(Run(r, evs[..j]), evs[j], evs[j + 1..k], evs[k]);
  }

  lemma NextIsApart(r: State, ev: Event, between: seq<Event>, ev': Event)
    requires r.Valid() && ev.Valid(r.mtu) && ev'.Valid(r.mtu) && (forall e | e in between :: e.Valid(r.mtu))
    requires 0 < ev.env.monotonic <= ev'.env.monotonic
    requires ReadsWithin(between, ev.env.monotonic, ev'.env.monotonic)
    requires Step(r, ev).0.Valid() && Step(r, ev).0.mtu == r.mtu
    requires WritesInitiation(r, ev) && WritesInitiation(Run(Step(r, ev).0, between), ev')
    ensures ev'.env.monotonic - ev.env.monotonic >= 1_000_000_000
  {
    hide Step, WritesInitiation, ReadsWithin, Run, State.Valid, Due;
    InitiatesExactly(r, ev);
    AttemptIsRemembered(Step(r, ev).0, between, ev.env.monotonic, ev'.env.monotonic);
    var last := Run(Step(r, ev).0, between);
    InitiatesExactly(last, ev');
    DueMeans(last, ev');
  }

  lemma DueMeans(r: State, ev: Event)
    requires Due(r, ev) && 0 < r.lastInitiation <= ev.env.monotonic < 0x1_0000_0000_0000_0000
    ensures ev.env.monotonic - r.lastInitiation >= 1_000_000_000
  {
  }

  /** Up to event `k`, a run is a run up to event `j`, that event, and the rest. */
  lemma RunBetween(r: State, evs: seq<Event>, j: nat, k: nat)
    requires r.Valid() && (forall ev | ev in evs :: ev.Valid(r.mtu)) && j < k < |evs|
    ensures Step(Run(r, evs[..j]), evs[j]).0.Valid() && Step(Run(r, evs[..j]), evs[j]).0.mtu == r.mtu
    ensures Run(r, evs[..k]) == Run(Step(Run(r, evs[..j]), evs[j]).0, evs[j + 1..k])
  {
    hide Step;
    StepKeepsValid(Run(r, evs[..j]), evs[j]);
    RunSplit(r, evs[..k], j + 1);
    RunSnoc(r, evs[..j], evs[j]);
    assert evs[..j + 1] == evs[..j] + [evs[j]];
    assert evs[..k][..j + 1] == evs[..j + 1] && evs[..k][j + 1..] == evs[j + 1..k];
  }

  // --------------------------------------------------------------- accounting

  /** The step wrote a handshake initiation. */
  predicate WritesInitiation(r: State, ev: Event)
    requires r.Valid()
  {
    ev.FromTun? && !r.session.active && Step(r, ev).1.datagram.Some?
  }

  ghost function Initiations(r: State, evs: seq<Event>): nat
    requires r.Valid() && forall ev | ev in evs :: ev.Valid(r.mtu)
    decreases |evs|
  {
    if evs == [] then 0
    else
      StepKeepsValid(r, evs[0]);
      (if WritesInitiation(r, evs[0]) then 1 else 0) + Initiations(Step(r, evs[0]).0, evs[1..])
  }

  lemma StepIsCounted(r: State, ev: Event)
    requires r.Valid()
    ensures Step(r, ev).0.stats.Outcomes()
      == r.stats.Outcomes() + 1 + if WritesInitiation(r, ev) then 1 else 0
  {
    hide OnPacket, OnDatagram, Stats.Outcomes;
    match ev
    case FromTun(packet, env) => PacketIsCounted(r, packet, env);
    case FromNet(raw, from, env) => DatagramIsCounted(r, raw, from, env);
  }

  lemma PacketIsCounted(r: State, packet: Bytes, env: Env)
    ensures var (r', out) := OnPacket(r, packet, env);
      r'.stats.Outcomes() == r.stats.Outcomes() + 1 + if !r.session.active && out.datagram.Some? then 1 else 0
  {
    hide Noise.WriteInitiation, Sessions.Datagram, Stats.Outcomes, Count, CountSent, CountDelivered, Follow;
  }

  lemma DatagramIsCounted(r: State, raw: Bytes, from: Endpoint, env: Env)
    requires r.Valid()
    ensures OnDatagram(r, raw, from, env).0.stats.Outcomes() == r.stats.Outcomes() + 1
  {
    hide Wire.Decode, Noise.ReadInitiation, Noise.ReadResponse, Noise.WriteResponse, Window.Acceptable,
         Sessions.Opened, Sessions.AfterOpen, Stats.Outcomes, Count, CountSent, CountDelivered, Follow;
  }

  /** After any run the outcome counters add up to the packets read, the datagrams received and the
      initiations written, each counted once. */
  lemma {:induction false} BooksBalance(r: State, evs: seq<Event>)
    requires r.Valid() && forall ev | ev in evs :: ev.Valid(r.mtu)
    ensures Run(r, evs).stats.Outcomes() == r.stats.Outcomes() + |evs| + Initiations(r, evs)
    decreases |evs|
  {
    hide Step, Stats.Outcomes, WritesInitiation;
    if evs != [] {
      StepKeepsValid(r, evs[0]);
      StepIsCounted(r, evs[0]);
      BooksBalance(Step(r, evs[0]).0, evs[1..]);
    }
  }

  /** The bytes are what the peer's key makes of `plain` under that counter, and `plain` is a keepalive or a
      packet. */
  predicate PeerSealed(keys: Sessions.Keys, counter: nat, sealed: Bytes, plain: Bytes) {
    && |plain| % 16 == 0 && Sessions.Trimmed(plain).Some?
    && sealed == Crypto.Seal(keys.receive, counter, plain, [])
  }

  /** A transport datagram for this session: replays, forgeries, keepalives and packets are told apart by whether
      the counter is fresh and what the peer sealed under it; only a packet reaches the TUN device, and it is an
      IPv4 packet from the front of what was sealed. */
  lemma TransportIsToldApart(r: State, m: Wire.Message, from: Endpoint)
    requires m.Transport? && r.session.active && m.receiver == r.session.keys.local
    ensures var (r', out) := OnTransport(r, m, from);
      var isNew := Window.Acceptable(r.session.accepted, m.counter);
      var passes := exists plain :: PeerSealed(r.session.keys, m.counter, m.sealed, plain);
      var isEmpty := m.sealed == Crypto.Seal(r.session.keys.receive, m.counter, [], []);
      && r'.stats.Of(Replay) == r.stats.Of(Replay) + (if !isNew then 1 else 0)
      && r'.stats.Of(AuthFailed) == r.stats.Of(AuthFailed) + (if isNew && !passes then 1 else 0)
      && r'.stats.Of(Keepalive) == r.stats.Of(Keepalive) + (if isNew && isEmpty then 1 else 0)
      && r'.stats.Of(UdpToTun) == r.stats.Of(UdpToTun) + (if isNew && passes && !isEmpty then 1 else 0)
      && (out.packet.Some? <==> isNew && passes && !isEmpty) && out.datagram.None?
      && (out.packet.Some? ==> Wire.InnerLength(out.packet.value) == Some(|out.packet.value|))
  {
    hide Window.Acceptable, Sessions.Opened, Sessions.Verified, PeerSealed, Stats.Of, Stats.Outcomes, Count,
         CountDelivered, Follow, Wire.InnerLength;
    if Window.Acceptable(r.session.accepted, m.counter) {
      OpenedMeans(r.session, m.counter, m.sealed);
      if Sessions.Opened(r.session, m.counter, m.sealed).Some? {
        Sessions.OpenedIsPacket(r.session, m.counter, m.sealed);
      }
    }
  }

  lemma OpenedMeans(s: Sessions.State, counter: nat, sealed: Bytes)
    requires s.active && Window.Acceptable(s.accepted, counter)
    ensures Sessions.Opened(s, counter, sealed).Some? <==>
      exists plain :: PeerSealed(s.keys, counter, sealed, plain)
    ensures Sessions.Opened(s, counter, sealed) == Some([]) <==>
      sealed == Crypto.Seal(s.keys.receive, counter, [], [])
  {
    hide Window.Acceptable, Sessions.Trimmed, Crypto.Open;
    if sealed == Crypto.Seal(s.keys.receive, counter, [], []) {
      Crypto.OpenSeal(s.keys.receive, counter, [], []);
      Sessions.TrimmedExactly([], []);
    } else if Sessions.Opened(s, counter, sealed) == Some([]) {
      Sessions.OpenedIsPacket(s, counter, sealed);
      assert false;
    }
    if plain :| PeerSealed(s.keys, counter, sealed, plain) {
      Crypto.OpenSeal(s.keys.receive, counter, plain, []);
    }
    if Sessions.Opened(s, counter, sealed).Some? {
      assert PeerSealed(s.keys, counter, sealed, Sessions.Verified(s, counter, sealed).value);
    }
  }

  /** A fresh datagram the peer sealed around something that is not an IPv4 packet: it is dropped as not
      authentic, nothing is delivered and the peer's address stays, but its counter is used up. */
  lemma MalformedInnerIsDropped(r: State, m: Wire.Message, plain: Bytes, from: Endpoint)
    requires m.Transport? && m.counter < U64 && r.session.active && m.receiver == r.session.keys.local
    requires Window.Acceptable(r.session.accepted, m.counter) && |plain| % 16 == 0
    requires m.sealed == Crypto.Seal(r.session.keys.receive, m.counter, plain, [])
    requires plain != [] && Wire.InnerLength(plain).None?
    ensures var (r', out) := OnTransport(r, m, from);
      && out == SILENT && r'.peer == r.peer
      && r'.session == r.session.(accepted := r.session.accepted + {m.counter})
      && forall o :: r'.stats.Of(o) == r.stats.Of(o) + if o == AuthFailed then 1 else 0
  {
    hide Window.Acceptable, Sessions.Verified, Stats.Of, Stats.Outcomes, Count, Follow, Wire.InnerLength;
    Sessions.VerifiedExactly(r.session, m.counter, m.sealed, plain);
  }

  /** For example an IPv6 packet. */
  lemma SixIsMalformed(plain: Bytes)
    requires |plain| > 0 && plain[0].Plain? && plain[0].value / 16 == 6
    ensures Wire.InnerLength(plain).None?
  {
  }

  // ----------------------------------------------------------------- endpoint

  /** A datagram that authenticates its sender to a responder: an initiation it accepts, or a transport
      datagram for its session that opens to a well-formed packet or a keepalive. */
  predicate Authenticates(r: State, ev: Event)
    requires r.Valid()
  {
    && r.role == Responder && ev.FromNet? && |ev.raw| <= Wire.MaxDatagram(r.mtu)
    && match Wire.Decode(ev.raw)
       case Some(Initiation(_, _, _, _, _, _)) => Noise.ReadInitiation(r.id, ev.raw, r.greatest).Some?
       case Some(Transport(receiver, counter, sealed)) =>
         r.session.active && receiver == r.session.keys.local && Sessions.Opened(r.session, counter, sealed).Some?
       case _ => false
  }

  /** The source of the last datagram of a run that authenticated its sender, or the configured endpoint. */
  ghost function LastAuthenticated(r: State, evs: seq<Event>): Option<Endpoint>
    requires r.Valid() && forall ev | ev in evs :: ev.Valid(r.mtu)
    decreases |evs|
  {
    if evs == [] then r.peer
    else
      var before, ev := evs[..|evs| - 1], evs[|evs| - 1];
      if Authenticates(Run(r, before), ev) then Some(ev.from) else LastAuthenticated(r, before)
  }

  lemma {:induction false} RunSnoc(r: State, evs: seq<Event>, ev: Event)
    requires r.Valid() && ev.Valid(r.mtu) && forall e | e in evs :: e.Valid(r.mtu)
    ensures Run(r, evs + [ev]) == Step(Run(r, evs), ev).0
    decreases |evs|
  {
    hide Step;
    StepKeepsValid(r, (evs + [ev])[0]);
    if evs == [] {
      assert (evs + [ev])[1..] == [];
    } else {
      assert (evs + [ev])[1..] == evs[1..] + [ev];
      RunSnoc(Step(r, evs[0]).0, evs[1..], ev);
    }
  }

  lemma StepFollows(r: State, ev: Event)
    requires r.Valid()
    ensures Step(r, ev).0.peer == if Authenticates(r, ev) then Some(ev.from) else r.peer
    ensures Step(r, ev).1.datagram.Some? ==> Step(r, ev).0.peer == Some(Step(r, ev).1.datagram.value.1)
  {
    hide OnPacket, OnInitiation, OnTransport, Wire.Decode, Noise.ReadInitiation, Noise.ReadResponse,
         Sessions.Opened, Stats.Outcomes, Stats.Of, Count;
    match ev
    case FromTun(packet, env) => PacketFollows(r, packet, env);
    case FromNet(raw, from, env) =>
      InitiationFollows(r, raw, from, env);
      if Wire.Decode(raw).Some? && Wire.Decode(raw).value.Transport? {
        TransportFollows(r, Wire.Decode(raw).value, from);
      }
  }

  lemma PacketFollows(r: State, packet: Bytes, env: Env)
    ensures var (r', out) := OnPacket(r, packet, env);
      r'.peer == r.peer && (out.datagram.Some? ==> r.peer == Some(out.datagram.value.1))
  {
    hide Noise.WriteInitiation, Sessions.Datagram, Stats.Outcomes, Stats.Of, Count, CountSent;
  }

  lemma InitiationFollows(r: State, d: Bytes, from: Endpoint, env: Env)
    requires r.Valid()
    ensures var (r', out) := OnInitiation(r, d, from, env);
      var accepted := r.role == Responder && Noise.ReadInitiation(r.id, d, r.greatest).Some?;
      && r'.peer == (if accepted then Some(from) else r.peer)
      && (out.datagram.Some? ==> out.datagram.value.1 == from && accepted)
  {
    hide Noise.ReadInitiation, Noise.WriteResponse, Crypto.LowOrder, Stats.Outcomes, Stats.Of, Count, Follow;
    if Noise.ReadInitiation(r.id, d, r.greatest).Some? {
      Noise.AcceptedIsAnswerable(r.id, d, r.greatest, env.key, env.index);
    }
  }

  lemma TransportFollows(r: State, m: Wire.Message, from: Endpoint)
    requires m.Transport?
    ensures var (r', out) := OnTransport(r, m, from);
      var passes := r.session.active && m.receiver == r.session.keys.local
        && Sessions.Opened(r.session, m.counter, m.sealed).Some?;
      r'.peer == (if r.role == Responder && passes then Some(from) else r.peer) && out.datagram.None?
  {
    hide Window.Acceptable, Crypto.Open, Sessions.Trimmed, Stats.Outcomes, Stats.Of, Count, CountDelivered,
         Follow;
  }

  /** Over any run the peer is the source of the last datagram that authenticated its sender; for an
      initiator it is always the configured server. */
  lemma {:induction false} PeerIsLastAuthenticated(r: State, evs: seq<Event>)
    requires r.Valid() && forall ev | ev in evs :: ev.Valid(r.mtu)
    ensures Run(r, evs).peer == LastAuthenticated(r, evs)
    ensures r.role == Initiator ==> Run(r, evs).peer == r.peer
    decreases |evs|
  {
    hide Step;
    if evs != [] {
      var before, ev := evs[..|evs| - 1], evs[|evs| - 1];
      assert evs == before + [ev];
      RunSnoc(r, before, ev);
      StepFollows(Run(r, before), ev);
      PeerIsLastAuthenticated(r, before);
    }
  }

  /** A responder that was given no endpoint sends nothing until a datagram authenticated its sender, and
      then only to where the last such datagram came from. */
  lemma SendsOnlyToAuthenticated(r: State, evs: seq<Event>, ev: Event)
    requires r.Valid() && ev.Valid(r.mtu) && forall e | e in evs :: e.Valid(r.mtu)
    requires Step(Run(r, evs), ev).1.datagram.Some?
    ensures LastAuthenticated(r, evs + [ev]) == Some(Step(Run(r, evs), ev).1.datagram.value.1)
  {
    hide Step;
    RunSnoc(r, evs, ev);
    StepFollows(Run(r, evs), ev);
    PeerIsLastAuthenticated(r, evs + [ev]);
  }

  // ------------------------------------------------------------------ erasure

  /** Everything but the counters. */
  function Core(r: State): State { r.(stats := ZERO_STATS) }

  /** A datagram that means something to this relay: an initiation or a response it accepts, or a transport
      datagram for its session that is fresh and whose tag verifies. */
  predicate Genuine(r: State, ev: Event)
    requires r.Valid()
  {
    && ev.FromNet? && |ev.raw| <= Wire.MaxDatagram(r.mtu)
    && match Wire.Decode(ev.raw)
       case Some(Initiation(_, _, _, _, _, _)) =>
         r.role == Responder && Noise.ReadInitiation(r.id, ev.raw, r.greatest).Some?
       case Some(Response(_, _, _, _, _, _)) =>
         r.role == Initiator && r.pending.Some? && Noise.ReadResponse(r.id, r.pending.value, ev.raw).Some?
       case Some(Transport(receiver, counter, sealed)) =>
         r.session.active && receiver == r.session.keys.local && Sessions.Verified(r.session, counter, sealed).Some?
       case _ => false
  }

  /** A run without the datagrams that meant nothing: packets from the TUN device and genuine datagrams. */
  ghost function Kept(r: State, evs: seq<Event>): (es: seq<Event>)
    requires r.Valid() && forall ev | ev in evs :: ev.Valid(r.mtu)
    ensures forall ev | ev in es :: ev in evs
    decreases |evs|
  {
    if evs == [] then []
    else
      StepKeepsValid(r, evs[0]);
      (if evs[0].FromTun? || Genuine(r, evs[0]) then [evs[0]] else []) + Kept(Step(r, evs[0]).0, evs[1..])
  }

  /** Everything a run puts on the wire or on the TUN device, in order. */
  ghost function Traffic(r: State, evs: seq<Event>): (outs: seq<Output>)
    requires r.Valid() && forall ev | ev in evs :: ev.Valid(r.mtu)
    decreases |evs|
  {
    if evs == [] then []
    else
      StepKeepsValid(r, evs[0]);
      var (r', out) := Step(r, evs[0]);
      (if out == SILENT then [] else [out]) + Traffic(r', evs[1..])
  }

  /** Nothing but counters changed, and nothing was sent or delivered. */
  predicate NoTrace(r: State, x: (State, Output)) { Core(x.0) == Core(r) && x.1 == SILENT }

  /** A rejected datagram changes counters only, and nothing at all is sent or delivered in return. */
  lemma RejectionLeavesNoTrace(r: State, ev: Event)
    requires r.Valid() && ev.FromNet? && !Genuine(r, ev)
    ensures Core(Step(r, ev).0) == Core(r) && Step(r, ev).1 == SILENT
  {
    hide Wire.Decode, Noise.ReadInitiation, Noise.ReadResponse, Sessions.Verified, Stats.Outcomes, Count,
         OnInitiation, OnResponse, OnTransport;
    var d := Received(r.mtu, ev.raw);
    if |d| <= Wire.MaxDatagram(r.mtu) && Wire.Decode(d).Some? {
      var m := Wire.Decode(d).value;
      if m.Initiation? {
        InitiationRejected(r, d, ev.from, ev.env);
      } else if m.Response? {
        ResponseRejected(r, d);
      } else if m.Transport? {
        TransportRejected(r, m, ev.from);
      }
    }
  }

  lemma InitiationRejected(r: State, d: Bytes, from: Endpoint, env: Env)
    requires r.Valid() && !(r.role == Responder && Noise.ReadInitiation(r.id, d, r.greatest).Some?)
    ensures NoTrace(r, OnInitiation(r, d, from, env))
  {
    hide Noise.ReadInitiation, Noise.WriteResponse, Stats.Outcomes, Count, Follow;
  }

  lemma ResponseRejected(r: State, d: Bytes)
    requires r.Valid()
    requires !(r.role == Initiator && r.pending.Some? && Noise.ReadResponse(r.id, r.pending.value, d).Some?)
    ensures NoTrace(r, OnResponse(r, d))
  {
    hide Noise.ReadResponse, Stats.Outcomes, Count;
  }

  lemma TransportRejected(r: State, m: Wire.Message, from: Endpoint)
    requires m.Transport? && !(r.session.active && m.receiver == r.session.keys.local
                               && Sessions.Verified(r.session, m.counter, m.sealed).Some?)
    ensures NoTrace(r, OnTransport(r, m, from))
  {
    hide Window.Acceptable, Sessions.Verified, Stats.Outcomes, Count, CountDelivered, Follow;
  }

  /** The same but for the counters, and the same output. */
  predicate SameButCounters(x: (State, Output), y: (State, Output)) { Core(x.0) == Core(y.0) && x.1 == y.1 }

  lemma CountersDecideNothing(r: State, q: State, ev: Event)
    requires r.Valid() && q.Valid() && Core(r) == Core(q)
    ensures SameButCounters(Step(r, ev), Step(q, ev)) && Genuine(r, ev) == Genuine(q, ev)
  {
    hide OnPacket, OnDatagram, Wire.Decode, Noise.ReadInitiation, Noise.ReadResponse, Sessions.Verified;
    match ev
    case FromTun(packet, env) => PacketIgnoresCounters(r, q, packet, env);
    case FromNet(raw, from, env) => DatagramIgnoresCounters(r, q, raw, from, env);
  }

  lemma PacketIgnoresCounters(r: State, q: State, packet: Bytes, env: Env)
    requires Core(r) == Core(q)
    ensures SameButCounters(OnPacket(r, packet, env), OnPacket(q, packet, env))
  {
    hide Noise.WriteInitiation, Sessions.Datagram, Stats.Outcomes, Count, CountSent, CountDelivered, Follow;
  }

  lemma DatagramIgnoresCounters(r: State, q: State, raw: Bytes, from: Endpoint, env: Env)
    requires r.Valid() && q.Valid() && Core(r) == Core(q)
    ensures SameButCounters(OnDatagram(r, raw, from, env), OnDatagram(q, raw, from, env))
  {
    hide OnInitiation, OnResponse, OnTransport, Wire.Decode, Received, Count, Stats.Outcomes;
    var d := Received(r.mtu, raw);
    InitiationIgnoresCounters(r, q, d, from, env);
    ResponseIgnoresCounters(r, q, d);
    if Wire.Decode(d).Some? && Wire.Decode(d).value.Transport? {
      TransportIgnoresCounters(r, q, Wire.Decode(d).value, from);
    }
  }

  lemma InitiationIgnoresCounters(r: State, q: State, d: Bytes, from: Endpoint, env: Env)
    requires r.Valid() && q.Valid() && Core(r) == Core(q)
    ensures SameButCounters(OnInitiation(r, d, from, env), OnInitiation(q, d, from, env))
  {
    hide Noise.ReadInitiation, Noise.WriteResponse, Stats.Outcomes, Count, CountSent, CountDelivered, Follow;
  }

  lemma ResponseIgnoresCounters(r: State, q: State, d: Bytes)
    requires r.Valid() && q.Valid() && Core(r) == Core(q)
    ensures SameButCounters(OnResponse(r, d), OnResponse(q, d))
  {
    hide Noise.ReadResponse, Stats.Outcomes, Count, CountSent, CountDelivered, Follow;
  }

  lemma TransportIgnoresCounters(r: State, q: State, m: Wire.Message, from: Endpoint)
    requires Core(r) == Core(q) && m.Transport?
    ensures SameButCounters(OnTransport(r, m, from), OnTransport(q, m, from))
  {
    hide Window.Acceptable, Sessions.Opened, Sessions.AfterOpen, Stats.Outcomes, Count, CountSent,
         CountDelivered, Follow;
  }

  /** Any run, with packets and datagrams in any order, ends as it would without the datagrams that were not
      genuine, and sends and delivers the same on the way. */
  lemma {:induction false} Erasure(r: State, q: State, evs: seq<Event>)
    requires r.Valid() && q.Valid() && Core(r) == Core(q)
    requires forall ev | ev in evs :: ev.Valid(r.mtu)
    ensures Core(Run(r, evs)) == Core(Run(q, Kept(r, evs)))
    ensures Traffic(r, evs) == Traffic(q, Kept(r, evs))
    decreases |evs|
  {
    hide Step, Genuine;
    if evs != [] {
      var ev, rest := evs[0], evs[1..];
      var r' := Step(r, ev).0;
      StepKeepsValid(r, ev);
      if ev.FromTun? || Genuine(r, ev) {
        StepKeepsValid(q, ev);
        CountersDecideNothing(r, q, ev);
        var later := Kept(r', rest);
        assert ([ev] + later)[1..] == later;
        Erasure(r', Step(q, ev).0, rest);
      } else {
        RejectionLeavesNoTrace(r, ev);
        Erasure(r', q, rest);
        assert [] + Kept(r', rest) == Kept(r', rest);
      }
    }
  }

  /** However many messages were rejected in between, the genuine one has the same effect: the same keys, the
      same session and the same reply. */
  lemma RejectionsCancelNothing(r: State, evs: seq<Event>, ev: Event)
    requires r.Valid() && ev.Valid(r.mtu)
    requires forall e | e in evs :: e.Valid(r.mtu)
    requires Kept(r, evs) == []
    ensures SameButCounters(Step(Run(r, evs), ev), Step(r, ev))
  {
    hide Step;
    Erasure(r, r, evs);
    CountersDecideNothing(Run(r, evs), r, ev);
  }
}
