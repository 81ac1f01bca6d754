/** One established session: two keys, a send counter, and the replay window of the other direction. */
module Sessions {
  import opened Octets
  import opened Window
  import Crypto
  import Wire

  /** What a completed handshake produces. */
  datatype Keys = Keys(send: Bytes, receive: Bytes, local: nat, peer: nat) {
    predicate Valid() {
      |send| == |receive| == Crypto.KEY_SIZE && local < U32 && peer < U32
    }
  }

  /** The session as a value; `accepted` is every counter accepted under these keys. */
  datatype State = State(active: bool, keys: Keys, sendCounter: nat, accepted: set<nat>) {
    ghost predicate Valid() {
      keys.Valid() && sendCounter <= REJECT_AFTER
    }
  }

  function Idle(): State { State(false, Keys(Zeros(32), Zeros(32), 0, 0), 0, {}) }

  /** Fresh counters under new keys. */
  function Activated(keys: Keys): State { State(true, keys, 0, {}) }

  // ------------------------------------------------------------------ sending

  function Padded(packet: Bytes): (p: Bytes)
    ensures |p| == Wire.PaddedLength(|packet|)
  {
    packet + Zeros(Wire.PaddedLength(|packet|) - |packet|)
  }

  function Datagram(keys: Keys, counter: nat, packet: Bytes): (d: Bytes)
    ensures |d| == Wire.HEADER_SIZE + Wire.PaddedLength(|packet|) + Crypto.TAG_SIZE
  {
    Wire.Header(keys.peer, counter) + Crypto.Seal(keys.send, counter, Padded(packet), [])
  }

  predicate CanSeal(s: State) { s.active && s.sendCounter < REJECT_AFTER }

  // ---------------------------------------------------------------- receiving

  /** The padded plaintext, if the datagram is fresh and its tag verifies. */
  function Verified(s: State, counter: nat, sealed: Bytes): (r: Option<Bytes>) {
    if !s.active || |sealed| < Crypto.TAG_SIZE || !Acceptable(s.accepted, counter) then None
    else if (|sealed| - Crypto.TAG_SIZE) % 16 != 0 then None
    else Crypto.Open(s.keys.receive, counter, sealed, [])
  }

  /** The inner packet: nothing of a keepalive, what the IPv4 header claims of anything else. */
  function Trimmed(plain: Bytes): (r: Option<Bytes>) {
    if plain == [] then Some([])
    else match Wire.InnerLength(plain)
      case None => None
      case Some(n) => Some(plain[..n])
  }

  function Opened(s: State, counter: nat, sealed: Bytes): (r: Option<Bytes>) {
    match Verified(s, counter, sealed)
    case None => None
    case Some(plain) => Trimmed(plain)
  }

  /** The window moves for every datagram that proved it came from the peer, and for nothing else. */
  function AfterOpen(s: State, counter: nat, sealed: Bytes): (r: State) {
    if Verified(s, counter, sealed).Some? then s.(accepted := s.accepted + {counter}) else s
  }

  // ------------------------------------------------------------- what it means

  predicate Crossed(a: Keys, b: Keys) {
    a.send == b.receive && a.receive == b.send && a.local == b.peer && a.peer == b.local
  }

  /** A packet that ends where its own header says it does. */
  predicate WellFormed(packet: Bytes) {
    packet == [] || Wire.InnerLength(packet) == Some(|packet|)
  }

  /** What cutting a plaintext gives: nothing of nothing, else exactly the IPv4 packet at its front, if there is
      one. */
  lemma TrimmedExactly(plain: Bytes, packet: Bytes)
    ensures Trimmed(plain) == Some(packet) <==>
      || (plain == [] && packet == [])
      || (Wire.InnerLength(plain) == Some(|packet|) && packet <= plain)
  {
    hide Wire.InnerLength;
    if Wire.InnerLength(plain) == Some(|packet|) && packet <= plain {
      assert plain[..|packet|] == packet;
    }
  }

  /** What verifies is exactly what the peer sealed under a counter that is fresh. */
  lemma VerifiedExactly(s: State, counter: nat, sealed: Bytes, plain: Bytes)
    requires counter < U64
    ensures Verified(s, counter, sealed) == Some(plain) <==>
      && s.active && Acceptable(s.accepted, counter) && |plain| % 16 == 0
      && sealed == Crypto.Seal(s.keys.receive, counter, plain, [])
  {
    hide Acceptable, Crypto.Open;
    if sealed == Crypto.Seal(s.keys.receive, counter, plain, []) {
      Crypto.OpenSeal(s.keys.receive, counter, plain, []);
    }
  }

  /** Whatever is opened is a keepalive or an IPv4 packet of exactly its own length, from the front of what the
      peer sealed. */
  lemma OpenedIsPacket(s: State, counter: nat, sealed: Bytes)
    requires Opened(s, counter, sealed).Some?
    ensures Verified(s, counter, sealed).Some?
    ensures var plain, packet := Verified(s, counter, sealed).value, Opened(s, counter, sealed).value;
      && packet <= plain && (packet == [] <==> plain == [])
      && (packet != [] ==> Wire.InnerLength(packet) == Some(|packet|))
  {
    hide Wire.InnerLength, Verified;
    var plain := Verified(s, counter, sealed).value;
    TrimmedExactly(plain, Opened(s, counter, sealed).value);
    if plain != [] {
      Wire.InnerLengthOfPrefix(plain);
    }
  }

  /** A session that has just begun seals under counter 0 next, and refuses no counter below the limit. */
  lemma NewSession(keys: Keys, counter: nat)
    ensures Activated(keys).active && Activated(keys).keys == keys && Activated(keys).sendCounter == 0
    ensures Acceptable(Activated(keys).accepted, counter) <==> counter < 0xffff_ffff_ffff_dfff
  {
    AcceptableAtFirst(counter);
  }

  /** What goes on the wire for a packet: a header with the peer's index and the counter, and the packet followed
      by zeros up to a multiple of 16, sealed. */
  lemma DatagramLayout(keys: Keys, counter: nat, packet: Bytes, zeros: Bytes)
    requires keys.Valid() && counter < U64
    requires (|packet| + |zeros|) % 16 == 0 && |zeros| < 16 && forall i :: 0 <= i < |zeros| ==> zeros[i] == Plain(0)
    ensures var d := Datagram(keys, counter, packet);
      && |d| == 16 + |packet + zeros| + 16 && d[..4] == [Plain(4), Plain(0), Plain(0), Plain(0)]
      && IsPlain(d[4..16]) && LittleValue(d[4..8]) == keys.peer && LittleValue(d[8..16]) == counter
      && d[16..] == Crypto.Seal(keys.send, counter, packet + zeros, [])
  {
    hide LittleValue, LittleEndian;
    var d := Datagram(keys, counter, packet);
    Wire.PaddingIsLeast(|packet|, |packet + zeros|);
    assert Padded(packet) == packet + zeros by {
      assert |zeros| == Wire.PaddedLength(|packet|) - |packet|;
      assert zeros == Zeros(|zeros|);
    }
    Wire.FieldRoundTrip(keys.peer, 4);
    Wire.FieldRoundTrip(counter, 8);
    assert d[4..8] == LittleEndian(keys.peer, 4) && d[8..16] == LittleEndian(counter, 8);
    assert d[4..16] == d[4..8] + d[8..16];
  }

  lemma TrimPadded(packet: Bytes)
    requires WellFormed(packet)
    ensures Trimmed(Padded(packet)) == Some(packet)
  {
    if packet != [] {
      Wire.InnerLengthPadded(packet, Zeros(Wire.PaddedLength(|packet|) - |packet|));
      assert Padded(packet)[..|packet|] == packet;
    } else {
      assert Padded(packet) == [];
    }
  }

  /** Seal, decode and open at the peer returns exactly the packet, for any counter still fresh there; the
      peer finds its own index in the header. */
  lemma RoundTrip(a: Keys, b: State, counter: nat, packet: Bytes)
    requires a.Valid() && counter < REJECT_AFTER && b.active && Crossed(a, b.keys) && WellFormed(packet)
    ensures var d := Datagram(a, counter, packet);
      && Wire.Decode(d) == Some(Wire.Transport(b.keys.local, counter, d[Wire.HEADER_SIZE..]))
      && Opened(b, counter, d[Wire.HEADER_SIZE..])
         == if Acceptable(b.accepted, counter) then Some(packet) else None
  {
    var sealed := Crypto.Seal(a.send, counter, Padded(packet), []);
    var d := Datagram(a, counter, packet);
    assert d[Wire.HEADER_SIZE..] == sealed;
    Wire.DecodeEncode(Wire.Transport(a.peer, counter, sealed));
    Wire.PaddingIsLeast(|packet|, 0);
    Crypto.OpenSeal(a.send, counter, Padded(packet), []);
    TrimPadded(packet);
  }

  // --------------------------------------------------------------- the object

  /** The two key buffers and indices of a session, which the handshake fills in place. */
  class TransportKeys {
    const send: array<Octet>
    const receive: array<Octet>
    var local: nat
    var peer: nat

    ghost predicate Valid()
      reads this
    {
      send.Length == receive.Length == Crypto.KEY_SIZE && send != receive && local < U32 && peer < U32
    }

    ghost function Value(): Keys
      reads this, send, receive
    {
      Keys(send[..], receive[..], local, peer)
    }

    constructor ()
      ensures Valid() && fresh(send) && fresh(receive) && Value() == Keys(Zeros(32), Zeros(32), 0, 0)
    {
      send := new Octet[Crypto.KEY_SIZE](_ => Plain(0));
      receive := new Octet[Crypto.KEY_SIZE](_ => Plain(0));
      local, peer := 0, 0;
      new;
      assert send[..] == Zeros(32) && receive[..] == Zeros(32);
    }
  }

  class Session {
    const keys: TransportKeys
    var window: ReplayWindow
    var sendCounter: Uint64
    var active: bool

    ghost predicate Valid()
      reads this, window, window.bitmap, keys
    {
      window.Valid() && keys.Valid() && sendCounter <= REJECT_AFTER
    }

    ghost function Value(): State
      reads this, window, keys, keys.send, keys.receive
    {
      State(active, keys.Value(), sendCounter, window.accepted)
    }

    /** The buffer is none of the session's own. */
    ghost predicate Apart(buffer: array<Octet>) { buffer != keys.send && buffer != keys.receive }

    constructor ()
      ensures Valid() && fresh(window) && fresh(window.bitmap) && Value() == Idle()
      ensures fresh(keys) && fresh(keys.send) && fresh(keys.receive)
    {
      keys := new TransportKeys();
      window := new ReplayWindow();
      sendCounter, active := 0, false;
    }

    /** The handshake has filled `keys`: start counting from zero in both directions. */
    method Activate()
      requires Valid()
      modifies this
      ensures Valid() && fresh(window) && fresh(window.bitmap)
      ensures Value() == Activated(keys.Value())
    {
      window := new ReplayWindow();
      sendCounter := 0;
      active := true;
    }

    /** The window's answer, for a caller that wants to tell a replay from a forgery. */
    method ReplayAcceptable(counter: Uint64) returns (ok: bool)
      requires Valid()
      ensures ok == Acceptable(window.accepted, counter)
    {
      ok := window.IsAcceptable(counter);
    }

    /** Seals the `length` bytes at buffer[HEADER_SIZE..] where they are. */
    method Seal(buffer: array<Octet>, length: nat) returns (size: Option<nat>)
      requires Valid() && Apart(buffer)
      modifies `sendCounter, buffer
      ensures Valid()
      ensures size.Some? <==>
        CanSeal(old(Value())) && Wire.HEADER_SIZE + Wire.PaddedLength(length) + Crypto.TAG_SIZE <= buffer.Length
      ensures size.None? ==> sendCounter == old(sendCounter) && buffer[..] == old(buffer[..])
      ensures size.Some? ==>
        && sendCounter == old(sendCounter) + 1 && Wire.HEADER_SIZE + length <= buffer.Length
        && var d := Datagram(keys.Value(), old(sendCounter), old(buffer[16..16 + length]));
        && size.value == |d| <= buffer.Length && buffer[..|d|] == d
        && forall i :: |d| <= i < buffer.Length ==> buffer[i] == old(buffer[i])
    {
      if !active || sendCounter >= REJECT_AFTER {
        return None;
      }
      var padded := Wire.PaddedLength(length);
      var total := Wire.HEADER_SIZE + padded + Crypto.TAG_SIZE;
      if buffer.Length < total {
        return None;
      }
      PadInPlace(buffer, length);
      var counter := sendCounter;
      sendCounter := sendCounter + 1;
      SealInPlace(buffer, padded, counter);
      return Some(total);
    }

    /** Zeroes the bytes between the packet and the end of its padding. */
    method PadInPlace(buffer: array<Octet>, length: nat)
      requires Wire.HEADER_SIZE + Wire.PaddedLength(length) <= buffer.Length
      modifies buffer
      ensures buffer[16..16 + Wire.PaddedLength(length)] == Padded(old(buffer[16..16 + length]))
      ensures forall i :: 16 + Wire.PaddedLength(length) <= i < buffer.Length ==> buffer[i] == old(buffer[i])
    {
      var padded := Wire.PaddedLength(length);
      Crypto.CopyInto(buffer, Wire.HEADER_SIZE + length, Zeros(padded - length));
      assert buffer[16..16 + padded] == buffer[..16 + padded][16..];
    }

    /** Writes the ciphertext over the plaintext and the header in front of it. */
    method SealInPlace(buffer: array<Octet>, padded: nat, counter: Uint64)
      requires Wire.HEADER_SIZE + padded + Crypto.TAG_SIZE <= buffer.Length && Apart(buffer)
      modifies buffer
      ensures buffer[..16 + padded + Crypto.TAG_SIZE] == Wire.Header(keys.peer, counter)
        + Crypto.Seal(keys.send[..], counter, old(buffer[16..16 + padded]), [])
      ensures forall i :: 16 + padded + Crypto.TAG_SIZE <= i < buffer.Length ==> buffer[i] == old(buffer[i])
    {
      var total := Wire.HEADER_SIZE + padded + Crypto.TAG_SIZE;
      var sealed := Crypto.Seal(keys.send[..], counter, buffer[16..16 + padded], []);
      Crypto.CopyInto(buffer, Wire.HEADER_SIZE, sealed);
      assert buffer[16..total] == buffer[..total][16..] == sealed;
      var written := Wire.WriteHeader(buffer, keys.peer, counter);
    }

    /** Opens the sealed bytes buffer[from..to] where they are; the packet ends up at buffer[from..]. */
    method Open(counter: Uint64, buffer: array<Octet>, from: nat, to: nat) returns (length: Option<nat>)
      requires Valid() && from <= to <= buffer.Length && Apart(buffer)
      modifies window, window.bitmap, buffer
      ensures Valid()
      ensures Value() == AfterOpen(old(Value()), counter, old(buffer[from..to]))
      ensures var packet := Opened(old(Value()), counter, old(buffer[from..to]));
        && (length.Some? <==> packet.Some?)
        && (length.Some? ==> from + length.value <= to && buffer[from..from + length.value] == packet.value)
      ensures forall i :: 0 <= i < buffer.Length && !(from <= i < to) ==> buffer[i] == old(buffer[i])
    {
      hide Wire.InnerLength, Crypto.Open, ReplayWindow.Valid;
      var sealed := buffer[from..to];
      if !active || to - from < Crypto.TAG_SIZE {
        return None;
      }
      var fresh' := window.IsAcceptable(counter);
      if !fresh' {
        return None;
      }
      var plainLength := to - from - Crypto.TAG_SIZE;
      if plainLength % 16 != 0 {
        return None;
      }
      var result := Crypto.Open(keys.receive[..], counter, sealed, []);
      if result.None? {
        return None;
      }
      Crypto.CopyInto(buffer, from, result.value);
      assert buffer[from..from + plainLength] == buffer[..from + plainLength][from..] == result.value;
      Commit(counter);
      length := Trim(buffer[from..from + plainLength]);
    }

    /** The counter of a datagram whose tag verified joins the window. */
    method Commit(counter: Uint64)
      requires Valid() && Acceptable(window.accepted, counter)
      modifies window, window.bitmap
      ensures Valid() && window.accepted == old(window.accepted) + {counter}
    {
      window.Accept(counter);
    }

    /** How much of the plaintext is the packet. */
    method Trim(plain: Bytes) returns (length: Option<nat>)
      ensures length.Some? <==> Trimmed(plain).Some?
      ensures length.Some? ==> length.value <= |plain| && plain[..length.value] == Trimmed(plain).value
    {
      if |plain| == 0 {
        return Some(0);
      }
      return Wire.InnerLength(plain);
    }
  }
}
